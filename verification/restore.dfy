/**
 * What `_initByStateMachineData` rebuilds from a serialized state machine:
 * the states in list order, then the transitions in the order it creates
 * them — for each state, the records its `transitions` list names that the
 * record list holds; then the entry transitions; then the any-state
 * transitions.
 */
module Restore {
  import opened Records
  import opened StateRecord
  import opened TransitionRecord
  import opened Entities
  import opened Export
  import opened Adjacency
  import opened LayerMachine

  /** The ids of the three pseudo-states `_initStates` adds, in order. */
  const PseudoIds: seq<string> := ["any", "entry", "exit"]

  /** One transition to create: the id of its source state and the record
      it is given. */
  datatype Link = Link(source: string, data: TransitionData)

  /** The transition a link becomes once created and given its record. */
  function Restored(l: Link): (t: Transition)
    ensures t.id == l.data.id && t.source == l.source && t.target == l.data.destinationStateId
    ensures t.content == l.data
  {
    Transition(l.data.id, l.source, l.data.destinationStateId, l.data)
  }

  function StateIds(ds: seq<StateData>): (r: seq<string>)
    ensures |r| == |ds|
    ensures forall i | 0 <= i < |ds| :: r[i] == ds[i].id
  {
    seq(|ds|, i requires 0 <= i < |ds| => ds[i].id)
  }

  function LinkIds(ls: seq<Link>): (r: seq<string>)
    ensures |r| == |ls|
    ensures forall i | 0 <= i < |ls| :: r[i] == ls[i].data.id
  {
    seq(|ls|, i requires 0 <= i < |ls| => ls[i].data.id)
  }

  lemma StateIdsPrefix(ds: seq<StateData>, i: nat)
    requires i < |ds|
    ensures StateIds(ds[..i + 1]) == StateIds(ds[..i]) + [ds[i].id]
  {
  }

  lemma LinkIdsAppend(a: seq<Link>, b: seq<Link>)
    ensures LinkIds(a + b) == LinkIds(a) + LinkIds(b)
  {
  }

  lemma LinkIdsPrefix(a: seq<Link>, b: seq<Link>)
    requires a <= b
    ensures LinkIds(a) <= LinkIds(b)
  {
    assert b == a + b[|a|..];
    LinkIdsAppend(a, b[|a|..]);
  }

  /** `transitionMap`: every record under its id; of two records with the
      same id the later one is kept. */
  function TransitionIndex(ts: seq<TransitionData>): (m: map<string, TransitionData>)
    ensures forall k | k in m :: m[k].id == k
  {
    if ts == [] then map[]
    else TransitionIndex(ts[..|ts| - 1])[ts[|ts| - 1].id := ts[|ts| - 1]]
  }

  /** A record is indexed under its id, unless a later record with the
      same id replaces it. */
  lemma {:induction false} TransitionIndexHolds(ts: seq<TransitionData>, i: nat)
    requires i < |ts|
    requires forall j | i < j < |ts| :: ts[j].id != ts[i].id
    ensures ts[i].id in TransitionIndex(ts) && TransitionIndex(ts)[ts[i].id] == ts[i]
  {
    if i < |ts| - 1 {
      TransitionIndexHolds(ts[..|ts| - 1], i);
    }
  }

  /** Every indexed record is one of the list's. */
  lemma {:induction false} TransitionIndexFrom(ts: seq<TransitionData>, k: string)
    requires k in TransitionIndex(ts)
    ensures TransitionIndex(ts)[k] in ts
  {
    if TransitionIndex(ts)[k] != ts[|ts| - 1] {
      TransitionIndexFrom(ts[..|ts| - 1], k);
    }
  }

  /** The links of one state: the ids of its `transitions` list that the
      index holds, in list order. */
  function StateLinks(source: string, tids: seq<string>, index: map<string, TransitionData>): (r: seq<Link>)
    ensures |r| <= |tids|
    ensures forall j | 0 <= j < |r| :: r[j].source == source
  {
    if tids == [] then []
    else
      var last := tids[|tids| - 1];
      StateLinks(source, tids[..|tids| - 1], index) + (if last in index then [Link(source, index[last])] else [])
  }

  /** The links of every state of the list, state by state. */
  function OutLinks(ds: seq<StateData>, index: map<string, TransitionData>): (r: seq<Link>)
    ensures forall j | 0 <= j < |r| :: r[j].source in StateIds(ds)
  {
    if ds == [] then []
    else
      var n := |ds| - 1;
      var r := OutLinks(ds[..n], index) + StateLinks(ds[n].id, ds[n].transitions, index);
      assert forall j | 0 <= j < |r| :: r[j].source in StateIds(ds) by {
        assert forall x | x in StateIds(ds[..n]) :: x in StateIds(ds);
      }
      r
  }

  lemma OutLinksPrefix(ds: seq<StateData>, index: map<string, TransitionData>, i: nat)
    requires i < |ds|
    ensures OutLinks(ds[..i + 1], index) == OutLinks(ds[..i], index) + StateLinks(ds[i].id, ds[i].transitions, index)
  {
    assert ds[..i + 1][..i] == ds[..i];
  }

  /** A longer prefix of the states yields a longer prefix of the links. */
  lemma {:induction false} OutLinksGrow(ds: seq<StateData>, index: map<string, TransitionData>, i: nat)
    requires i <= |ds|
    ensures OutLinks(ds[..i], index) <= OutLinks(ds, index)
    decreases |ds| - i
  {
    if i < |ds| {
      OutLinksGrow(ds, index, i + 1);
      OutLinksPrefix(ds, index, i);
    } else {
      assert ds[..i] == ds;
    }
  }

  /** The links of the entry or any-state transition records. */
  function PseudoLinks(source: string, ts: seq<TransitionData>): (r: seq<Link>)
    ensures |r| == |ts|
    ensures forall j | 0 <= j < |ts| :: r[j] == Link(source, ts[j])
  {
    seq(|ts|, j requires 0 <= j < |ts| => Link(source, ts[j]))
  }

  /** Every transition `_initByStateMachineData` creates, in order. */
  function Planned(data: StateMachineData): seq<Link> {
    OutLinks(data.states, TransitionIndex(data.transitions))
      + PseudoLinks("entry", data.entryTransitions)
      + PseudoLinks("any", data.anyTransitions)
  }

  /** What the rebuild relies on: the states have ids of their own, none of
      them a pseudo-state's, and the transitions to create have distinct
      ids of their own. */
  ghost predicate WellFormed(data: StateMachineData) {
    && (forall i | 0 <= i < |data.states| :: data.states[i].id != "")
    && Distinct(PseudoIds + StateIds(data.states))
    && (forall l | l in Planned(data) :: l.data.id != "")
    && Distinct(LinkIds(Planned(data)))
  }

  /** Every transition to create ends at a state the rebuild creates. */
  predicate Restorable(data: StateMachineData) {
    forall l | l in Planned(data) :: l.data.destinationStateId in PseudoIds + StateIds(data.states)
  }

  /** Each entry transition record is created from the entry state, and
      each any-state record from the any state. */
  lemma PlannedPseudo(data: StateMachineData)
    ensures forall j | 0 <= j < |data.entryTransitions| :: Link("entry", data.entryTransitions[j]) in Planned(data)
    ensures forall j | 0 <= j < |data.anyTransitions| :: Link("any", data.anyTransitions[j]) in Planned(data)
  {
    var out := OutLinks(data.states, TransitionIndex(data.transitions));
    var e := PseudoLinks("entry", data.entryTransitions);
    var a := PseudoLinks("any", data.anyTransitions);
    forall j | 0 <= j < |data.entryTransitions| ensures Link("entry", data.entryTransitions[j]) in Planned(data) {
      assert Planned(data)[|out| + j] == e[j];
    }
    forall j | 0 <= j < |data.anyTransitions| ensures Link("any", data.anyTransitions[j]) in Planned(data) {
      assert Planned(data)[|out| + |e| + j] == a[j];
    }
  }

  /** The states of `ds` are filed under their ids, each with its record,
      as a normal state, shifted 24 units right and down per position in
      the list from where a new state sits. */
  ghost predicate Placed(sm: map<string, State>, ds: seq<StateData>) {
    forall i | 0 <= i < |ds| ::
      && ds[i].id in sm
      && sm[ds[i].id].content == ds[i]
      && sm[ds[i].id].stateType == Normal
      && (ds[i].name != "" ==> sm[ds[i].id].name == ds[i].name)
      && sm[ds[i].id].x == 400.0 + 24.0 * (i as real)
      && sm[ds[i].id].y == 50.0 + 24.0 * (i as real)
  }

  /** `a` and `b` file the same states, up to their adjacency indices. */
  ghost predicate SameStates(a: map<string, State>, b: map<string, State>) {
    && (forall k :: k in a <==> k in b)
    && (forall k | k in a :: a[k] == b[k].(inTransitions := a[k].inTransitions, outTransitions := a[k].outTransitions))
  }

  lemma SameStatesTrans(a: map<string, State>, b: map<string, State>, c: map<string, State>)
    requires SameStates(a, b) && SameStates(b, c)
    ensures SameStates(a, c)
  {
  }

  lemma PlacedSame(a: map<string, State>, b: map<string, State>, ds: seq<StateData>)
    requires SameStates(a, b) && Placed(b, ds)
    ensures Placed(a, ds)
  {
  }

  /** The created transitions `done` are the listed ones, in order, each as
      its link describes. */
  ghost predicate Restoring(ts: seq<string>, tm: map<string, Transition>, done: seq<Link>) {
    && ts == LinkIds(done)
    && forall j | 0 <= j < |done| :: done[j].data.id in tm && tm[done[j].data.id] == Restored(done[j])
  }

  /** A batch of links that follows the created ones in a plan with
      distinct ids has distinct ids, none of them taken. */
  lemma BatchFresh(plan: seq<Link>, done: seq<Link>, links: seq<Link>)
    requires done + links <= plan && Distinct(LinkIds(plan))
    ensures Distinct(LinkIds(links))
    ensures forall j | 0 <= j < |links| :: links[j].data.id !in LinkIds(done)
  {
    LinkIdsPrefix(done + links, plan);
    DistinctPrefix(LinkIds(plan), LinkIds(done + links));
    LinkIdsAppend(done, links);
    DistinctAppend(LinkIds(done), LinkIds(links));
  }

  /** `r` is `m0` with the states of `ds` restored after its own. */
  ghost predicate StatesRestored(m0: Machine, r: Machine, ds: seq<StateData>) {
    && r.states == m0.states + StateIds(ds)
    && r.transitions == m0.transitions && r.transitionsMap == m0.transitionsMap
    && (forall k | k in m0.statesMap :: k in r.statesMap && r.statesMap[k] == m0.statesMap[k])
    && Placed(r.statesMap, ds)
  }

  lemma StatesRestoredNone(m0: Machine, ds: seq<StateData>)
    ensures StatesRestored(m0, m0, ds[..0])
  {
    assert StateIds(ds[..0]) == [];
    assert m0.states + [] == m0.states;
  }

  /** The next record's id is free. */
  lemma RestoredFresh(m0: Machine, r: Machine, ds: seq<StateData>, i: nat)
    requires i < |ds| && StatesRestored(m0, r, ds[..i])
    requires StatesIndexed(m0.states, m0.statesMap) && StatesIndexed(r.states, r.statesMap)
    requires Distinct(StateIds(ds)) && ds[i].id !in m0.statesMap
    ensures forall j | 0 <= j < i :: ds[j].id != ds[i].id
    ensures ds[i].id !in r.statesMap
  {
    forall j | 0 <= j < i ensures ds[j].id != ds[i].id {
      DistinctAt(StateIds(ds), j, i);
    }
    assert ds[i].id !in StateIds(ds[..i]);
  }

  /** Adding the next record's state, placed, extends the restoration. */
  lemma RestoredStep(m0: Machine, r: Machine, next: Machine, ds: seq<StateData>, i: nat, s: State)
    requires i < |ds| && StatesRestored(m0, r, ds[..i])
    requires forall j | 0 <= j < i :: ds[j].id != ds[i].id
    requires s.id == ds[i].id && s.id !in r.statesMap
    requires s.content == ds[i] && s.stateType == Normal && (ds[i].name != "" ==> s.name == ds[i].name)
    requires s.x == 400.0 + 24.0 * (i as real) && s.y == 50.0 + 24.0 * (i as real)
    requires next.states == r.states + [s.id] && next.statesMap == r.statesMap[s.id := s]
    requires next.transitions == r.transitions && next.transitionsMap == r.transitionsMap
    ensures StatesRestored(m0, next, ds[..i + 1])
  {
    StateIdsPrefix(ds, i);
    AppendAssoc(m0.states, StateIds(ds[..i]), [s.id]);
    forall j | 0 <= j < i ensures ds[..i + 1][j] == ds[..i][j] {
    }
  }

  /** `r` is `m0` with the transitions the links describe created, in
      order, every destination having been found. */
  ghost predicate LinksAdded(m0: Machine, r: Machine, links: seq<Link>) {
    && r.states == m0.states
    && SameStates(r.statesMap, m0.statesMap)
    && r.transitions == m0.transitions + LinkIds(links)
    && (forall j | 0 <= j < |links| :: links[j].data.destinationStateId in m0.statesMap)
    && AllRestored(r.transitionsMap, links)
    && (forall k | k in m0.transitionsMap :: k in r.transitionsMap && r.transitionsMap[k] == m0.transitionsMap[k])
  }

  lemma LinksAddedNone(m0: Machine, links: seq<Link>)
    ensures LinksAdded(m0, m0, links[..0])
  {
    assert LinkIds(links[..0]) == [];
    assert m0.transitions + [] == m0.transitions;
  }

  /** The next link's id is free. */
  lemma LinksFresh(m0: Machine, r: Machine, links: seq<Link>, k: nat)
    requires k < |links| && LinksAdded(m0, r, links[..k])
    requires TransitionsIndexed(m0.transitions, m0.transitionsMap) && TransitionsIndexed(r.transitions, r.transitionsMap)
    requires Distinct(LinkIds(links)) && links[k].data.id !in m0.transitionsMap
    ensures links[k].data.id !in r.transitionsMap
  {
    forall j | 0 <= j < k ensures links[j].data.id != links[k].data.id {
      DistinctAt(LinkIds(links), j, k);
    }
    assert links[k].data.id !in LinkIds(links[..k]);
  }

  /** Every link of `a` has its transition filed in `tm`. */
  ghost predicate AllRestored(tm: map<string, Transition>, a: seq<Link>) {
    forall j | 0 <= j < |a| :: a[j].data.id in tm && tm[a[j].data.id] == Restored(a[j])
  }

  lemma AllRestoredSnoc(tm: map<string, Transition>, a: seq<Link>, l: Link)
    requires AllRestored(tm, a) && l.data.id !in tm
    ensures AllRestored(tm[l.data.id := Restored(l)], a + [l])
  {
    var next := tm[l.data.id := Restored(l)];
    forall j | 0 <= j < |a + [l]|
      ensures (a + [l])[j].data.id in next && next[(a + [l])[j].data.id] == Restored((a + [l])[j])
    {
      if j < |a| {
        assert (a + [l])[j] == a[j];
      } else {
        assert (a + [l])[j] == l;
      }
    }
  }

  lemma DestinationsSnoc(sm: map<string, State>, a: seq<Link>, l: Link)
    requires forall j | 0 <= j < |a| :: a[j].data.destinationStateId in sm
    requires l.data.destinationStateId in sm
    ensures forall j | 0 <= j < |a + [l]| :: (a + [l])[j].data.destinationStateId in sm
  {
    forall j | 0 <= j < |a + [l]| ensures (a + [l])[j].data.destinationStateId in sm {
      if j < |a| {
        assert (a + [l])[j] == a[j];
      }
    }
  }

  /** Registering a transition changes states only in their indices. */
  lemma AttachSame(sm: map<string, State>, id: string, source: string, target: string)
    ensures SameStates(Attach(sm, id, source, target), sm)
  {
  }

  /** Creating the next link's transition extends the creation. */
  lemma LinksAddedSnoc(m0: Machine, r: Machine, next: Machine, a: seq<Link>, l: Link)
    requires LinksAdded(m0, r, a)
    requires l.data.id !in r.transitionsMap && l.data.destinationStateId in r.statesMap
    requires var t := Restored(l);
      && next.states == r.states
      && next.statesMap == Attach(r.statesMap, t.id, t.source, t.target)
      && next.transitions == r.transitions + [t.id]
      && next.transitionsMap == r.transitionsMap[t.id := t]
    ensures LinksAdded(m0, next, a + [l])
  {
    var t := Restored(l);
    AttachSame(r.statesMap, t.id, t.source, t.target);
    SameStatesTrans(next.statesMap, r.statesMap, m0.statesMap);
    assert next.transitions == m0.transitions + LinkIds(a + [l]) by {
      LinkIdsAppend(a, [l]);
      AppendAssoc(m0.transitions, LinkIds(a), [t.id]);
    }
    assert AllRestored(r.transitionsMap, a);
    AllRestoredSnoc(r.transitionsMap, a, l);
    DestinationsSnoc(m0.statesMap, a, l);
  }

  /** Two runs of creation in a row are one. */
  lemma LinksAddedTwice(m0: Machine, m1: Machine, m2: Machine, a: seq<Link>, b: seq<Link>)
    requires LinksAdded(m0, m1, a) && LinksAdded(m1, m2, b)
    ensures LinksAdded(m0, m2, a + b)
  {
    SameStatesTrans(m2.statesMap, m1.statesMap, m0.statesMap);
    LinkIdsAppend(a, b);
    AppendAssoc(m0.transitions, LinkIds(a), LinkIds(b));
    forall j | 0 <= j < |a + b|
      ensures (a + b)[j].data.destinationStateId in m0.statesMap
      ensures (a + b)[j].data.id in m2.transitionsMap && m2.transitionsMap[(a + b)[j].data.id] == Restored((a + b)[j])
    {
      if j < |a| {
        assert (a + b)[j] == a[j];
      }
      if j >= |a| {
        assert (a + b)[j] == b[j - |a|];
      }
    }
  }
}
