/**
 * Exporting a rebuilt graph: what `_exportData` yields for the graph that
 * `_initByStateMachineData` built from a serialized state machine. The
 * state records come back in order, each state lists again the
 * transitions its record listed (those that had a record), and every
 * transition record comes back in the list it was read from, with the
 * state it leaves as its source.
 */
module RoundTrip {
  import opened Records
  import opened StateRecord
  import opened TransitionRecord
  import opened Entities
  import opened Export
  import opened Adjacency
  import opened LayerMachine
  import opened Restore
  import opened ControllerStore

  /** The record a created link exports: its own, with the id of the state
      it was created from as source. */
  function Reexported(l: Link): TransitionData {
    l.data.(sourceStateId := l.source)
  }

  function ReexportedAll(ls: seq<Link>): seq<TransitionData> {
    seq(|ls|, j requires 0 <= j < |ls| => Reexported(ls[j]))
  }

  function RestoredAll(ls: seq<Link>): seq<Transition> {
    seq(|ls|, j requires 0 <= j < |ls| => Restored(ls[j]))
  }

  /** The transitions of the links all export to the list of `kind`. */
  ghost predicate AllOfKind(ls: seq<Link>, sm: map<string, State>, kind: SourceKind) {
    forall j | 0 <= j < |ls| :: ls[j].source in sm && KindOf(Restored(ls[j]), sm) == kind
  }

  lemma {:induction false} OfKindAppend(a: seq<Transition>, b: seq<Transition>, sm: map<string, State>, k: SourceKind)
    ensures OfKind(a + b, sm, k) == OfKind(a, sm, k) + OfKind(b, sm, k)
  {
    if a == [] {
      assert a + b == b;
    } else {
      var u := a + b;
      assert u[0] == a[0] && u[1..] == a[1..] + b;
      OfKindCons(u, sm, k);
      OfKindCons(a, sm, k);
      OfKindAppend(a[1..], b, sm, k);
    }
  }

  /** Transitions that all export to one list export to it in order. */
  lemma {:induction false} OfKindSame(ls: seq<Link>, sm: map<string, State>, kind: SourceKind)
    requires AllOfKind(ls, sm, kind)
    ensures OfKind(RestoredAll(ls), sm, kind) == ReexportedAll(ls)
  {
    if ls != [] {
      var ts := RestoredAll(ls);
      assert ts[1..] == RestoredAll(ls[1..]);
      assert AllOfKind(ls[1..], sm, kind) by {
        forall j | 0 <= j < |ls[1..]| ensures ls[1..][j] == ls[j + 1] {
        }
      }
      OfKindSame(ls[1..], sm, kind);
      OfKindCons(ts, sm, kind);
      assert ReexportedAll(ls) == [Reexported(ls[0])] + ReexportedAll(ls[1..]);
    }
  }

  /** ... and to no other list. */
  lemma {:induction false} OfKindOther(ls: seq<Link>, sm: map<string, State>, kind: SourceKind, k: SourceKind)
    requires AllOfKind(ls, sm, kind) && k != kind
    ensures OfKind(RestoredAll(ls), sm, k) == []
  {
    if ls != [] {
      var ts := RestoredAll(ls);
      assert ts[1..] == RestoredAll(ls[1..]);
      assert AllOfKind(ls[1..], sm, kind) by {
        forall j | 0 <= j < |ls[1..]| ensures ls[1..][j] == ls[j + 1] {
        }
      }
      OfKindOther(ls[1..], sm, kind, k);
      OfKindCons(ts, sm, k);
    }
  }

  lemma RestoredAllAppend(a: seq<Link>, b: seq<Link>)
    ensures RestoredAll(a + b) == RestoredAll(a) + RestoredAll(b)
  {
  }

  /** The transitions a plan's links become, run by run. */
  lemma RestoredRuns(o: seq<Link>, e: seq<Link>, a: seq<Link>)
    ensures RestoredAll(o + e + a) == RestoredAll(o) + RestoredAll(e) + RestoredAll(a)
  {
    RestoredAllAppend(o + e, a);
    RestoredAllAppend(o, e);
  }

  /** Three runs of transitions export run by run, to each list. */
  lemma OfKindRuns(o: seq<Transition>, e: seq<Transition>, a: seq<Transition>, sm: map<string, State>, k: SourceKind)
    ensures OfKind(o + e + a, sm, k) == OfKind(o, sm, k) + OfKind(e, sm, k) + OfKind(a, sm, k)
  {
    OfKindAppend(o, e, sm, k);
    OfKindAppend(o + e, a, sm, k);
  }

  /** Runs of the three kinds export each to its own list. */
  lemma OfKindThree(o: seq<Link>, e: seq<Link>, a: seq<Link>, sm: map<string, State>)
    requires AllOfKind(o, sm, FromState) && AllOfKind(e, sm, FromEntry) && AllOfKind(a, sm, FromAny)
    ensures OfKind(RestoredAll(o + e + a), sm, FromState) == ReexportedAll(o)
    ensures OfKind(RestoredAll(o + e + a), sm, FromEntry) == ReexportedAll(e)
    ensures OfKind(RestoredAll(o + e + a), sm, FromAny) == ReexportedAll(a)
  {
    RestoredRuns(o, e, a);
    OfKindSame(o, sm, FromState);
    OfKindSame(e, sm, FromEntry);
    OfKindSame(a, sm, FromAny);
    OfKindOther(o, sm, FromState, FromEntry);
    OfKindOther(o, sm, FromState, FromAny);
    OfKindOther(e, sm, FromEntry, FromState);
    OfKindOther(e, sm, FromEntry, FromAny);
    OfKindOther(a, sm, FromAny, FromState);
    OfKindOther(a, sm, FromAny, FromEntry);
    var ro, re, ra := RestoredAll(o), RestoredAll(e), RestoredAll(a);
    OfKindRuns(ro, re, ra, sm, FromState);
    assert ReexportedAll(o) + [] + [] == ReexportedAll(o);
    OfKindRuns(ro, re, ra, sm, FromEntry);
    assert [] + ReexportedAll(e) + [] == ReexportedAll(e);
    OfKindRuns(ro, re, ra, sm, FromAny);
    assert [] + [] + ReexportedAll(a) == ReexportedAll(a);
  }

  /** The restored states are normal ones with ids of their own, none a
      pseudo-state's. */
  lemma RestoredIds(ds: seq<StateData>, i: nat)
    requires i < |ds| && Distinct(PseudoIds + StateIds(ds))
    ensures ds[i].id !in PseudoIds
    ensures forall k | 0 <= k < |ds| && k != i :: ds[k].id != ds[i].id
  {
    DistinctAppend(PseudoIds, StateIds(ds));
    forall k | 0 <= k < |ds| && k != i ensures ds[k].id != ds[i].id {
      if k < i {
        DistinctAt(StateIds(ds), k, i);
      } else {
        DistinctAt(StateIds(ds), i, k);
      }
    }
  }

  /** The links of the state records leave the states those records
      restore, normal states; the entry and any-state links leave the
      entry and the any state. */
  lemma PlanKinds(sm: map<string, State>, data: StateMachineData)
    requires "entry" in sm && sm["entry"].stateType == Entry
    requires "any" in sm && sm["any"].stateType == AnyState
    requires forall i | 0 <= i < |data.states| :: data.states[i].id in sm && sm[data.states[i].id].stateType == Normal
    ensures AllOfKind(OutLinks(data.states, TransitionIndex(data.transitions)), sm, FromState)
    ensures AllOfKind(PseudoLinks("entry", data.entryTransitions), sm, FromEntry)
    ensures AllOfKind(PseudoLinks("any", data.anyTransitions), sm, FromAny)
  {
    var o := OutLinks(data.states, TransitionIndex(data.transitions));
    forall j | 0 <= j < |o| ensures o[j].source in sm && KindOf(Restored(o[j]), sm) == FromState {
      var i :| 0 <= i < |data.states| && StateIds(data.states)[i] == o[j].source;
    }
  }

  /** In the rebuilt states the restored ones are normal states, and the
      pseudo-states keep their kinds. */
  lemma RebuiltKinds(r: Machine, data: StateMachineData)
    requires StatesRebuilt(r, data)
    ensures "entry" in r.statesMap && r.statesMap["entry"].stateType == Entry
    ensures "any" in r.statesMap && r.statesMap["any"].stateType == AnyState
    ensures "exit" in r.statesMap && r.statesMap["exit"].stateType == Exit
    ensures forall i | 0 <= i < |data.states| ::
      data.states[i].id in r.statesMap && r.statesMap[data.states[i].id].stateType == Normal
  {
    assert EntryNode.stateType == Entry && AnyNode.stateType == AnyState && ExitNode.stateType == Exit;
  }

  /** The transitions of a graph that lists a plan's links, each restored. */
  lemma ListedTransitions(ts: seq<string>, tm: map<string, Transition>, plan: seq<Link>)
    requires ts == LinkIds(plan) && AllRestored(tm, plan)
    ensures forall i | 0 <= i < |ts| :: ts[i] in tm
    ensures Resolve(ts, tm) == RestoredAll(plan)
  {
  }

  /** The three transition lists of the rebuilt graph's export are the
      three runs of the plan, re-exported. */
  lemma ExportRebuiltRuns(r: Machine, data: StateMachineData)
    requires r.Valid() && Rebuilt(r, data)
    ensures Exported(r).transitions == ReexportedAll(OutLinks(data.states, TransitionIndex(data.transitions)))
    ensures Exported(r).entryTransitions == ReexportedAll(PseudoLinks("entry", data.entryTransitions))
    ensures Exported(r).anyTransitions == ReexportedAll(PseudoLinks("any", data.anyTransitions))
  {
    ListedTransitions(r.transitions, r.transitionsMap, Planned(data));
    RebuiltKinds(r, data);
    PlanKinds(r.statesMap, data);
    OfKindThree(OutLinks(data.states, TransitionIndex(data.transitions)),
      PseudoLinks("entry", data.entryTransitions), PseudoLinks("any", data.anyTransitions), r.statesMap);
  }

  /** A pseudo-state's records re-export with the pseudo-state as source. */
  lemma ReexportedPseudo(source: string, ts: seq<TransitionData>)
    ensures |ReexportedAll(PseudoLinks(source, ts))| == |ts|
    ensures forall j | 0 <= j < |ts| :: ReexportedAll(PseudoLinks(source, ts))[j] == ts[j].(sourceStateId := source)
  {
  }

  /** Exporting the rebuilt graph gives every transition record back in
      the list it was read from: first those the state records list, in
      the order of the states, then the entry records and the any-state
      records in their own order, each with the state it leaves as
      source. */
  lemma ExportRebuiltTransitions(r: Machine, data: StateMachineData)
    requires r.Valid() && Rebuilt(r, data)
    ensures Exported(r).transitions == ReexportedAll(OutLinks(data.states, TransitionIndex(data.transitions)))
    ensures |Exported(r).entryTransitions| == |data.entryTransitions|
    ensures forall j | 0 <= j < |data.entryTransitions| ::
      Exported(r).entryTransitions[j] == data.entryTransitions[j].(sourceStateId := "entry")
    ensures |Exported(r).anyTransitions| == |data.anyTransitions|
    ensures forall j | 0 <= j < |data.anyTransitions| ::
      Exported(r).anyTransitions[j] == data.anyTransitions[j].(sourceStateId := "any")
  {
    ExportRebuiltRuns(r, data);
    ReexportedPseudo("entry", data.entryTransitions);
    ReexportedPseudo("any", data.anyTransitions);
  }

  /** The states a rebuilt graph lists, pseudo-states first, export as
      the restored records. */
  lemma ExportedRestored(sm: map<string, State>, ds: seq<StateData>)
    requires forall k | k in sm :: sm[k].id == k
    requires "any" in sm && "entry" in sm && "exit" in sm
    requires sm["any"].IsPseudo() && sm["entry"].IsPseudo() && sm["exit"].IsPseudo()
    requires forall i | 0 <= i < |ds| :: ds[i].id in sm && sm[ds[i].id].stateType == Normal && sm[ds[i].id].content == ds[i]
    ensures forall i | 0 <= i < |PseudoIds + StateIds(ds)| :: (PseudoIds + StateIds(ds))[i] in sm
    ensures |ExportedStates(Resolve(PseudoIds + StateIds(ds), sm))| == |ds|
    ensures forall i | 0 <= i < |ds| ::
      ExportedStates(Resolve(PseudoIds + StateIds(ds), sm))[i]
        == ds[i].(name := sm[ds[i].id].name, transitions := sm[ds[i].id].outTransitions)
  {
    var ids := PseudoIds + StateIds(ds);
    assert forall i | 0 <= i < |ids| :: ids[i] in sm by {
      forall i | 0 <= i < |ids| ensures ids[i] in sm {
        if i >= 3 {
          assert ids[i] == ds[i - 3].id;
        }
      }
    }
    var ss := Resolve(ids, sm);
    var s1 := ss[1..];
    var s2 := s1[1..];
    var tail := s2[1..];
    assert ss[0] == sm["any"] && s1[0] == sm["entry"] && s2[0] == sm["exit"];
    assert ExportedStates(ss) == ExportedStates(s1) == ExportedStates(s2) == ExportedStates(tail);
    forall i | 0 <= i < |tail| ensures tail[i] == sm[ds[i].id] && !tail[i].IsPseudo() {
      assert tail[i] == ss[3 + i] && ids[3 + i] == ds[i].id;
    }
    ExportedStatesAll(tail);
  }

  /** Exporting the rebuilt graph gives the state records back, in order,
      each with the name of its state (its own name when it had one) and
      the transitions its state now lists. */
  lemma ExportRebuiltStates(r: Machine, data: StateMachineData)
    requires r.Valid() && StatesRebuilt(r, data)
    ensures |Exported(r).states| == |data.states|
    ensures forall i | 0 <= i < |data.states| ::
      Exported(r).states[i] == data.states[i].(name := r.statesMap[data.states[i].id].name,
                                               transitions := r.statesMap[data.states[i].id].outTransitions)
    ensures forall i | 0 <= i < |data.states| && data.states[i].name != "" ::
      Exported(r).states[i] == data.states[i].(transitions := r.statesMap[data.states[i].id].outTransitions)
  {
    assert StatesIndexed(r.states, r.statesMap);
    RebuiltKinds(r, data);
    ExportedRestored(r.statesMap, data.states);
  }

  /** The links of one state: exactly its listed transition ids that have
      a record, each with that record. */
  lemma {:induction false} StateLinksMember(source: string, tids: seq<string>, index: map<string, TransitionData>)
    requires forall k | k in index :: index[k].id == k
    ensures forall l | l in StateLinks(source, tids, index) ::
      l.source == source && l.data.id in tids && l.data.id in index && l.data == index[l.data.id]
    ensures forall tid | tid in tids && tid in index :: Link(source, index[tid]) in StateLinks(source, tids, index)
  {
    if tids != [] {
      var n := |tids| - 1;
      StateLinksMember(source, tids[..n], index);
      assert forall tid | tid in tids[..n] :: tid in tids;
      assert forall tid | tid in tids :: tid in tids[..n] || tid == tids[n];
    }
  }

  /** A link of the state records that leaves a state with an id of its
      own is one of that state's links. */
  lemma {:induction false} OutLinksFrom(ds: seq<StateData>, index: map<string, TransitionData>, l: Link, i: nat)
    requires i < |ds| && forall k | 0 <= k < |ds| && k != i :: ds[k].id != ds[i].id
    requires l in OutLinks(ds, index) && l.source == ds[i].id
    ensures l in StateLinks(ds[i].id, ds[i].transitions, index)
  {
    var n := |ds| - 1;
    var p := ds[..n];
    var own := StateLinks(ds[n].id, ds[n].transitions, index);
    assert OutLinks(ds, index) == OutLinks(p, index) + own;
    if l !in own {
      assert l in OutLinks(p, index);
      var k :| 0 <= k < |p| && StateIds(p)[k] == l.source;
      if i < n {
        OutLinksFrom(p, index, l, i);
      }
    }
  }

  /** A planned link that leaves a restored state is one of that state's
      links. */
  lemma PlanLeaving(data: StateMachineData, i: nat, l: Link)
    requires i < |data.states| && data.states[i].id !in PseudoIds
    requires forall k | 0 <= k < |data.states| && k != i :: data.states[k].id != data.states[i].id
    requires l in Planned(data) && l.source == data.states[i].id
    ensures l in StateLinks(data.states[i].id, data.states[i].transitions, TransitionIndex(data.transitions))
  {
    var index := TransitionIndex(data.transitions);
    var o := OutLinks(data.states, index);
    var e := PseudoLinks("entry", data.entryTransitions);
    var a := PseudoLinks("any", data.anyTransitions);
    assert l in o by {
      assert l in o + e + a;
    }
    OutLinksFrom(data.states, index, l, i);
  }

  /** Each link of a restored state is one of the plan's. */
  lemma StateLinkPlanned(data: StateMachineData, i: nat)
    requires i < |data.states|
    ensures forall l | l in StateLinks(data.states[i].id, data.states[i].transitions, TransitionIndex(data.transitions)) ::
      l in Planned(data)
  {
    var index := TransitionIndex(data.transitions);
    var links := StateLinks(data.states[i].id, data.states[i].transitions, index);
    OutLinksPrefix(data.states, index, i);
    OutLinksGrow(data.states, index, i + 1);
    var before := OutLinks(data.states[..i], index);
    forall l | l in links ensures l in Planned(data) {
      var j :| 0 <= j < |links| && links[j] == l;
      assert Planned(data)[|before| + j] == l;
    }
  }

  /** The transitions leaving a state in a graph that lists a plan's links
      restored are those of the plan's links from it. */
  lemma LeavingPlanned(sm: map<string, State>, tm: map<string, Transition>, ts: seq<string>, plan: seq<Link>, id: string)
    requires id in sm && OutExact(sm, tm) && Registered(sm, tm)
    requires forall k | k in tm :: k in ts
    requires ts == LinkIds(plan) && AllRestored(tm, plan)
    ensures forall x | x in sm[id].outTransitions :: exists l | l in plan :: l.source == id && l.data.id == x
    ensures forall l | l in plan && l.source == id :: l.data.id in sm[id].outTransitions
  {
    forall x | x in sm[id].outTransitions ensures exists l | l in plan :: l.source == id && l.data.id == x {
      assert x in tm;
      var j :| 0 <= j < |plan| && LinkIds(plan)[j] == x;
      assert plan[j] in plan;
    }
  }

  /** In the rebuilt graph each restored state lists as leaving it exactly
      the transitions its record listed that have a record of their own. */
  lemma RebuiltOutTransitions(r: Machine, data: StateMachineData, i: nat)
    requires r.Valid() && Rebuilt(r, data) && i < |data.states|
    ensures forall x :: x in r.statesMap[data.states[i].id].outTransitions <==>
      x in data.states[i].transitions && x in TransitionIndex(data.transitions)
  {
    var id := data.states[i].id;
    var index := TransitionIndex(data.transitions);
    var links := StateLinks(id, data.states[i].transitions, index);
    assert StatesIndexed(r.states, r.statesMap) && TransitionsIndexed(r.transitions, r.transitionsMap);
    assert Linked(r.statesMap, r.transitionsMap);
    LeavingPlanned(r.statesMap, r.transitionsMap, r.transitions, Planned(data), id);
    RestoredIds(data.states, i);
    StateLinksMember(id, data.states[i].transitions, index);
    StateLinkPlanned(data, i);
    forall l | l in Planned(data) && l.source == id ensures l in links {
      PlanLeaving(data, i, l);
    }
  }
}
