/**
 * `AnimatorControllerStore`: the live graph of the edited layer (the state
 * and transition lists with their id-keyed dictionaries, bundled as a
 * `LayerMachine.Machine`), the state-name dictionary, the selection, the
 * lifecycle state and the persistence scheduling. Every operation keeps
 * `Valid`: the graph's lists, dictionaries and adjacency indices agree.
 */
module ControllerStore {
  import opened Wrappers
  import opened Records
  import opened StateRecord
  import opened TransitionRecord
  import opened Entities
  import opened Export
  import opened Lifecycle
  import opened Adjacency
  import opened LayerMachine
  import opened StateNames
  import opened Restore
  import Decimal

  /** `AnimatorControllerItem`: what the selection designates. */
  datatype SelectType = NullItem | StateItem | TransitionItem

  /** The errors `addTransition` throws. */
  datatype StoreError =
    | SourceStateNotFound(stateId: string)
    | DestinationStateNotFound(stateId: string)
      /** `layers[index]` is undefined, so reading a property of it throws. */
    | LayerMissing(index: int)

  /** One write-back to the controller asset: the controller, the layer
      index and the serialized state machine. */
  datatype Write = Write(controllerId: string, layerIndex: int, data: StateMachineData)

  /** Whether `id` names one of the three pseudo-states. */
  predicate IsPseudoId(id: string) {
    id == "entry" || id == "exit" || id == "any"
  }

  /** The serialized form of a valid graph, as `_exportData` builds it. */
  ghost function Exported(m: Machine): StateMachineData
    requires m.Valid()
  {
    ExportOf(Resolve(m.states, m.statesMap), Resolve(m.transitions, m.transitionsMap), m.statesMap)
  }

  /** The three pseudo-states where `_initStates` places them. */
  const AnyNode: State := NewState("any", "any", AnyState).SetPosition(120.0, 40.0)
  const EntryNode: State := NewState("entry", "entry", Entry).SetPosition(120.0, 180.0)
  const ExitNode: State := NewState("exit", "exit", Exit).SetPosition(600.0, 180.0)

  /** The `transitionMap` loop of `_initByStateMachineData`. */
  method IndexTransitions(ts: seq<TransitionData>) returns (index: map<string, TransitionData>)
    ensures index == TransitionIndex(ts)
  {
    index := map[];
    var i := 0;
    while i < |ts|
      invariant 0 <= i <= |ts|
      invariant index == TransitionIndex(ts[..i])
    {
      assert ts[..i + 1][..i] == ts[..i];
      index := index[ts[i].id := ts[i]];
      i := i + 1;
    }
    assert ts[..i] == ts;
  }

  /** `_makeUniqueStateName`: the first of name, name1, name2, ... that no
      entry of the name dictionary takes. */
method MakeUniqueName(names: map<string, string>, name: string) returns (r: string)
    ensures r !in names
    ensures IsFirstFree(names.Keys, name, r)
    ensures name !in names ==> r == name
  {
    var index := 0;
    r := name;
    ghost var tried: set<string> := {};
    while r in names
      invariant r == Candidate(name, index)
      invariant forall j: nat | j < index :: Candidate(name, j) in names
      invariant tried <= names.Keys
      invariant forall x | x in tried :: exists j: nat :: j < index && x == Candidate(name, j)
      decreases |names.Keys - tried|
    {
      assert r !in tried by {
        if r in tried {
          var j: nat :| j < index && r == Candidate(name, j);
          CandidateInjective(name, j, index);
        }
      }
      assert names.Keys - (tried + {r}) < names.Keys - tried;
      tried := tried + {r};
      ghost var previous, previousName := index, r;
      index := index + 1;
      r := name + Decimal.NatToString(index);
      forall j: nat | j < index
        ensures Candidate(name, j) in names
      {
        if j == previous {
          assert Candidate(name, j) == previousName;
        }
      }
    }
    assert r == Candidate(name, index) && r !in names.Keys;
  }

  /** `addState(name, id, type)` on the graph and the name dictionary,
      once the id is settled: an empty name becomes the first free
      "New State" name; the state is appended to the list and filed under
      its id and its name (an explicit name is filed as given, even when
      taken). */
  method PutState(m: Machine, names: map<string, string>, name: string, id: string, stateType: StateType)
    returns (r: Machine, rnames: map<string, string>, s: State)
    requires m.Valid() && id !in m.statesMap
    ensures r.Valid()
    ensures s == NewState(s.name, id, stateType)
    ensures name != "" ==> s.name == name
    ensures name == "" ==> s.name !in names && IsFirstFree(names.Keys, "New State", s.name)
    ensures r == m.AddState(s) && rnames == names[s.name := id]
  {
    var effectiveName := name;
    if name == "" {
      effectiveName := MakeUniqueName(names, "New State");
    }
    s := NewState(effectiveName, id, stateType);
    rnames := names[s.name := id];
    r := m.AddState(s);
  }

  /** `addTransition(id, source, destination)` on the graph, once the id is
      settled: an unknown source or destination throws before anything
      changes; otherwise the transition gets the timing of its endpoints'
      names and is filed as `LayerMachine.Machine.AddTransition` states. */
  method PutTransition(m: Machine, id: string, source: string, destination: string)
    returns (r: Machine, res: Result<Transition, StoreError>)
    requires m.Valid() && id !in m.transitionsMap
    ensures r.Valid()
    ensures source !in m.statesMap ==> res == Err(SourceStateNotFound(source))
    ensures source in m.statesMap && destination !in m.statesMap ==> res == Err(DestinationStateNotFound(destination))
    ensures res.Ok? <==> source in m.statesMap && destination in m.statesMap
    ensures res.Err? ==> r == m
    ensures res.Ok? ==>
      && res.value == NewTransition(id, m.statesMap[source], m.statesMap[destination])
      && r == m.AddTransition(res.value)
  {
    r := m;
    if source !in m.statesMap {
      return r, Err(SourceStateNotFound(source));
    }
    if destination !in m.statesMap {
      return r, Err(DestinationStateNotFound(destination));
    }
    var t := NewTransition(id, m.statesMap[source], m.statesMap[destination]);
    KeysAreIds(m, source);
    KeysAreIds(m, destination);
    r := m.AddTransition(t);
    res := Ok(t);
  }

  /** `_initStates`: the any, entry and exit states, added in that order
      under their own names and ids, then placed. */
  method InitPseudoStates(m: Machine, names: map<string, string>) returns (r: Machine, rnames: map<string, string>)
    requires m.Valid()
    requires "any" !in m.statesMap && "entry" !in m.statesMap && "exit" !in m.statesMap
    ensures r.Valid()
    ensures r.states == m.states + PseudoIds
    ensures r.statesMap == m.statesMap["any" := AnyNode]["entry" := EntryNode]["exit" := ExitNode]
    ensures r.transitions == m.transitions && r.transitionsMap == m.transitionsMap
    ensures rnames == names["any" := "any"]["entry" := "entry"]["exit" := "exit"]
  {
    var anyNode, entryNode, exitNode, r1, r2, r3;
    r1, rnames, anyNode := PutState(m, names, "any", "any", AnyState);
    r2, rnames, entryNode := PutState(r1, rnames, "entry", "entry", Entry);
    r3, rnames, exitNode := PutState(r2, rnames, "exit", "exit", Exit);
    PseudoPlaced(m, r3);
    r := r3.ReplaceState(AnyNode).ReplaceState(EntryNode).ReplaceState(ExitNode);
  }

  lemma PseudoIdsAppended(s: seq<string>)
    ensures s + ["any"] + ["entry"] + ["exit"] == s + PseudoIds
  {
  }

  /** Moving the three freshly added pseudo-states to their places. */
  lemma PseudoPlaced(m: Machine, r3: Machine)
    requires m.Valid()
    requires "any" !in m.statesMap && "entry" !in m.statesMap && "exit" !in m.statesMap
    requires r3.Valid()
    requires r3.states == m.states + ["any"] + ["entry"] + ["exit"]
    requires r3.statesMap == m.statesMap["any" := NewState("any", "any", AnyState)]["entry" := NewState("entry", "entry", Entry)]["exit" := NewState("exit", "exit", Exit)]
    requires r3.transitions == m.transitions && r3.transitionsMap == m.transitionsMap
    ensures "any" in r3.statesMap && r3.statesMap["any"].inTransitions == [] && r3.statesMap["any"].outTransitions == []
    ensures r3.ReplaceState(AnyNode).statesMap["entry"] == NewState("entry", "entry", Entry)
    ensures r3.ReplaceState(AnyNode).ReplaceState(EntryNode).statesMap["exit"] == NewState("exit", "exit", Exit)
    ensures var r := r3.ReplaceState(AnyNode).ReplaceState(EntryNode).ReplaceState(ExitNode);
      r.states == m.states + PseudoIds &&
      r.statesMap == m.statesMap["any" := AnyNode]["entry" := EntryNode]["exit" := ExitNode] &&
      r.transitions == m.transitions && r.transitionsMap == m.transitionsMap
  {
    var a := r3.ReplaceState(AnyNode);
    var e := a.ReplaceState(EntryNode);
    var x := e.ReplaceState(ExitNode);
    assert x.states == r3.states && x.transitions == r3.transitions && x.transitionsMap == r3.transitionsMap;
    PseudoIdsAppended(m.states);
    MapOverwriteThree(m.statesMap, "any", "entry", "exit",
      NewState("any", "any", AnyState), NewState("entry", "entry", Entry), NewState("exit", "exit", Exit),
      AnyNode, EntryNode, ExitNode);
  }

  /** The first loop of `_initByStateMachineData`: each record becomes a
      normal state under the record's id and name (`addState`), takes the
      record as its content (the `data` setter), and is shifted by its
      position in the list. */
  method RestoreStates(m: Machine, names: map<string, string>, ds: seq<StateData>)
    returns (r: Machine, rnames: map<string, string>)
    requires m.Valid()
    requires forall i | 0 <= i < |ds| :: ds[i].id !in m.statesMap
    requires Distinct(StateIds(ds))
    ensures r.Valid()
    ensures StatesRestored(m, r, ds)
  {
    r, rnames := m, names;
    StatesRestoredNone(m, ds);
    var i := 0;
    while i < |ds|
      invariant 0 <= i <= |ds|
      invariant r.Valid()
      invariant StatesRestored(m, r, ds[..i])
    {
      var d := ds[i];
      RestoredFresh(m, r, ds, i);
      var before := r;
      var s;
      r, rnames, s := PutState(r, rnames, d.name, d.id, Normal);
      var s1 := s.SetData(StateRecord.FieldsOf(d));
      StateRecord.WithAllFields(s.content, d);
      var s2 := s1.SetPosition(s1.x + 24.0 * (i as real), s1.y + 24.0 * (i as real));
      AddThenReplaceState(before, s, s2);
      r := r.ReplaceState(s2);
      RestoredStep(m, before, r, ds, i, s2);
      i := i + 1;
    }
    assert ds[..i] == ds;
  }

  /** One transition of `_initByStateMachineData`: `addTransition` from the
      link's source to its record's destination under the record's id,
      then the record assigned through the `data` setter. Together they
      add the restored transition; a missing destination throws and
      changes nothing. */
  method PutLink(r: Machine, l: Link) returns (next: Machine, out: Outcome<StoreError>)
    requires r.Valid() && l.source in r.statesMap && l.data.id !in r.transitionsMap
    ensures next.Valid()
    ensures out.Pass? <==> l.data.destinationStateId in r.statesMap
    ensures out.Fail? ==> next == r && out.error == DestinationStateNotFound(l.data.destinationStateId)
    ensures out.Pass? ==>
      && Restored(l).source in r.statesMap && Restored(l).target in r.statesMap
      && next == r.AddTransition(Restored(l))
  {
    var res;
    next, res := PutTransition(r, l.data.id, l.source, l.data.destinationStateId);
    if res.Err? {
      return next, Fail(res.error);
    }
    var t := res.value.SetData(TransitionRecord.FieldsOf(l.data));
    TransitionRecord.WithAllFields(res.value.content, l.data);
    KeysAreIds(r, l.source);
    assert t == Restored(l);
    AddThenReplaceTransition(r, res.value, t);
    next, out := next.ReplaceTransition(t), Pass;
  }

  /** One `forEach` of `_initByStateMachineData` that creates transitions,
      one link at a time as `PutLink` does. A missing destination throws,
      leaving the transitions created so far. */
  method AddLinks(m: Machine, links: seq<Link>) returns (r: Machine, out: Outcome<StoreError>)
    requires m.Valid()
    requires forall j | 0 <= j < |links| :: links[j].source in m.statesMap
    requires forall j | 0 <= j < |links| :: links[j].data.id !in m.transitionsMap
    requires Distinct(LinkIds(links))
    ensures r.Valid()
    ensures r.states == m.states && SameStates(r.statesMap, m.statesMap)
    ensures out.Pass? <==> forall j | 0 <= j < |links| :: links[j].data.destinationStateId in m.statesMap
    ensures out.Fail? ==> out.error.DestinationStateNotFound? && out.error.stateId !in m.statesMap
    ensures out.Pass? ==> LinksAdded(m, r, links)
  {
    r := m;
    LinksAddedNone(m, links);
    var k := 0;
    while k < |links|
      invariant 0 <= k <= |links|
      invariant r.Valid()
      invariant LinksAdded(m, r, links[..k])
    {
      var l := links[k];
      LinksFresh(m, r, links, k);
      var before := r;
      r, out := PutLink(r, l);
      if out.Fail? {
        return;
      }
      LinksAddedSnoc(m, before, r, links[..k], l);
      TakeSnoc(links, k);
      k := k + 1;
    }
    assert links[..k] == links;
    out := Pass;
  }

  /** `r` files exactly the states whose ids `ids` lists. */
  ghost predicate Files(r: Machine, ids: seq<string>) {
    forall k :: k in r.statesMap <==> k in ids
  }

  /** The states `_initByStateMachineData` builds from `data`: the
      pseudo-states in their places, then the restored states. */
  ghost predicate StatesRebuilt(r: Machine, data: StateMachineData) {
    && r.states == PseudoIds + StateIds(data.states)
    && "any" in r.statesMap && "entry" in r.statesMap && "exit" in r.statesMap
    && r.statesMap["any"].(inTransitions := [], outTransitions := []) == AnyNode
    && r.statesMap["entry"].(inTransitions := [], outTransitions := []) == EntryNode
    && r.statesMap["exit"].(inTransitions := [], outTransitions := []) == ExitNode
    && Placed(r.statesMap, data.states)
  }

  /** The graph `_initByStateMachineData` builds from `data` when every
      transition it creates finds its destination: the states, and the
      planned transitions in order, each with its record. */
  ghost predicate Rebuilt(r: Machine, data: StateMachineData) {
    && StatesRebuilt(r, data)
    && r.transitions == LinkIds(Planned(data))
    && AllRestored(r.transitionsMap, Planned(data))
  }

  /** The state records' ids are free once the pseudo-states exist. */
  lemma WellFormedStates(data: StateMachineData)
    requires WellFormed(data)
    ensures Distinct(StateIds(data.states))
    ensures forall i | 0 <= i < |data.states| :: data.states[i].id !in PseudoIds
    ensures forall i | 0 <= i < |data.states| ::
      data.states[i].id !in map["any" := AnyNode]["entry" := EntryNode]["exit" := ExitNode]
  {
    DistinctAppend(PseudoIds, StateIds(data.states));
  }

  /** A valid graph files the states its list names, and only those; the
      same for transitions. */
  lemma FilesListed(m: Machine)
    requires m.Valid()
    ensures Files(m, m.states)
    ensures forall k :: k in m.transitionsMap <==> k in m.transitions
  {
  }

  /** A planned link whose destination is missing makes the plan
      unrestorable. */
  lemma BatchUnrestorable(m2: Machine, r: Machine, data: StateMachineData, done: seq<Link>, batch: seq<Link>, j: nat)
    requires done + batch <= Planned(data) && j < |batch|
    requires Files(m2, PseudoIds + StateIds(data.states)) && SameStates(r.statesMap, m2.statesMap)
    requires batch[j].data.destinationStateId !in r.statesMap
    ensures batch[j].data.destinationStateId !in PseudoIds + StateIds(data.states)
    ensures !Restorable(data)
  {
    assert batch[j] == (done + batch)[|done| + j];
    assert batch[j] in Planned(data);
  }

  /** One batch of links of the plan, created after the links `done`: a
      missing destination means the plan is not restorable. */
  method AddBatch(m2: Machine, r: Machine, data: StateMachineData, done: seq<Link>, batch: seq<Link>)
    returns (next: Machine, out: Outcome<StoreError>)
    requires WellFormed(data) && done + batch <= Planned(data)
    requires m2.Valid() && m2.transitions == [] && Files(m2, PseudoIds + StateIds(data.states))
    requires r.Valid() && LinksAdded(m2, r, done)
    requires forall j | 0 <= j < |batch| :: batch[j].source in m2.statesMap
    ensures next.Valid()
    ensures out.Pass? ==> LinksAdded(m2, next, done + batch)
    ensures out.Fail? ==> !Restorable(data)
    ensures out.Fail? ==> out.error.DestinationStateNotFound? && out.error.stateId !in PseudoIds + StateIds(data.states)
  {
    BatchFresh(Planned(data), done, batch);
    FilesListed(r);
    assert r.transitions == LinkIds(done);
    next, out := AddLinks(r, batch);
    if out.Fail? {
      var j :| 0 <= j < |batch| && batch[j].data.destinationStateId !in r.statesMap;
      BatchUnrestorable(m2, r, data, done, batch, j);
      return;
    }
    LinksAddedTwice(m2, r, next, done, batch);
  }

  /** The links of the states up to the `i`-th, then its own, come first
      in the plan; its own links leave from a state of the graph. */
  lemma StateBatchInPlan(m2: Machine, data: StateMachineData, i: nat)
    requires i < |data.states| && Files(m2, PseudoIds + StateIds(data.states))
    ensures var index := TransitionIndex(data.transitions);
      var batch := StateLinks(data.states[i].id, data.states[i].transitions, index);
      && OutLinks(data.states[..i], index) + batch <= Planned(data)
      && OutLinks(data.states[..i + 1], index) == OutLinks(data.states[..i], index) + batch
      && forall j | 0 <= j < |batch| :: batch[j].source in m2.statesMap
  {
    var index := TransitionIndex(data.transitions);
    OutLinksPrefix(data.states, index, i);
    OutLinksGrow(data.states, index, i + 1);
    assert data.states[i].id == StateIds(data.states)[i];
  }

  /** After the state links come the entry links, then the any-state links. */
  lemma PseudoBatchesInPlan(data: StateMachineData)
    ensures var out := OutLinks(data.states, TransitionIndex(data.transitions));
      && out + PseudoLinks("entry", data.entryTransitions) <= Planned(data)
      && out + PseudoLinks("entry", data.entryTransitions) + PseudoLinks("any", data.anyTransitions) == Planned(data)
  {
  }

  lemma StatesRebuiltFrom(m1: Machine, m2: Machine, data: StateMachineData)
    requires m1.states == PseudoIds && m1.statesMap == map["any" := AnyNode]["entry" := EntryNode]["exit" := ExitNode]
    requires StatesRestored(m1, m2, data.states)
    ensures StatesRebuilt(m2, data)
  {
  }

  /** Creating every planned transition on top of the rebuilt states keeps
      them, yields the rebuilt graph, and found every destination. */
  lemma RebuiltFrom(m2: Machine, r: Machine, data: StateMachineData)
    requires StatesRebuilt(m2, data) && Files(m2, PseudoIds + StateIds(data.states))
    requires m2.transitions == []
    requires LinksAdded(m2, r, Planned(data))
    ensures Rebuilt(r, data)
    ensures Restorable(data)
  {
    PlacedSame(r.statesMap, m2.statesMap, data.states);
    var plan := Planned(data);
    forall l | l in plan ensures l.data.destinationStateId in PseudoIds + StateIds(data.states) {
      var j :| 0 <= j < |plan| && plan[j] == l;
    }
  }

  /** The first part of `_initByStateMachineData` on a fresh graph: the
      pseudo-states, then the state records. */
  method RestoreAllStates(data: StateMachineData) returns (m2: Machine, names: map<string, string>)
    requires WellFormed(data)
    ensures m2.Valid() && m2.transitions == []
    ensures Files(m2, PseudoIds + StateIds(data.states))
    ensures StatesRebuilt(m2, data)
  {
    var m1;
    m1, names := InitPseudoStates(Empty, map[]);
    WellFormedStates(data);
    m2, names := RestoreStates(m1, names, data.states);
    FilesListed(m2);
    StatesRebuiltFrom(m1, m2, data);
  }

  /** The loop of `_initByStateMachineData` over the state records that
      creates each one's transitions. */
  method AddStateBatches(m2: Machine, data: StateMachineData, index: map<string, TransitionData>)
    returns (r: Machine, out: Outcome<StoreError>)
    requires WellFormed(data) && index == TransitionIndex(data.transitions)
    requires m2.Valid() && m2.transitions == [] && Files(m2, PseudoIds + StateIds(data.states))
    ensures r.Valid()
    ensures out.Pass? ==> LinksAdded(m2, r, OutLinks(data.states, index))
    ensures out.Fail? ==> !Restorable(data)
    ensures out.Fail? ==> out.error.DestinationStateNotFound? && out.error.stateId !in PseudoIds + StateIds(data.states)
  {
    var ds := data.states;
    r, out := m2, Pass;
    assert ds[..0] == [];
    LinksAddedNone(m2, []);
    var done: seq<Link> := [];
    var i := 0;
    while i < |ds|
      invariant 0 <= i <= |ds|
      invariant r.Valid()
      invariant out == Pass
      invariant done == OutLinks(ds[..i], index)
      invariant LinksAdded(m2, r, done)
    {
      var batch := StateLinks(ds[i].id, ds[i].transitions, index);
      StateBatchInPlan(m2, data, i);
      r, out := AddBatch(m2, r, data, done, batch);
      if out.Fail? {
        return;
      }
      done := done + batch;
      i := i + 1;
    }
    assert ds[..i] == ds;
  }

  /** The two loops of `_initByStateMachineData` that create the entry
      transitions, then the any-state transitions. */
  method AddPseudoBatches(m2: Machine, r: Machine, data: StateMachineData, index: map<string, TransitionData>)
    returns (next: Machine, out: Outcome<StoreError>)
    requires WellFormed(data) && index == TransitionIndex(data.transitions)
    requires m2.Valid() && m2.transitions == [] && Files(m2, PseudoIds + StateIds(data.states))
    requires r.Valid() && LinksAdded(m2, r, OutLinks(data.states, index))
    ensures next.Valid()
    ensures out.Pass? ==> LinksAdded(m2, next, Planned(data))
    ensures out.Fail? ==> !Restorable(data)
    ensures out.Fail? ==> out.error.DestinationStateNotFound? && out.error.stateId !in PseudoIds + StateIds(data.states)
  {
    PseudoBatchesInPlan(data);
    var out0 := OutLinks(data.states, index);
    var entry := PseudoLinks("entry", data.entryTransitions);
    next, out := AddBatch(m2, r, data, out0, entry);
    if out.Fail? {
      return;
    }
    next, out := AddBatch(m2, next, data, out0 + entry, PseudoLinks("any", data.anyTransitions));
  }

  /** `_initByStateMachineData` on a fresh graph: the pseudo-states, then
      the state records, then the transitions as planned. It completes
      exactly when every planned transition finds its destination, and
      then yields the rebuilt graph; otherwise `addTransition` throws on
      the first missing destination. */
  method RestoreMachine(data: StateMachineData) returns (r: Machine, names: map<string, string>, out: Outcome<StoreError>)
    requires WellFormed(data)
    ensures r.Valid()
    ensures out.Pass? <==> Restorable(data)
    ensures out.Fail? ==> out.error.DestinationStateNotFound? && out.error.stateId !in PseudoIds + StateIds(data.states)
    ensures out.Pass? ==> Rebuilt(r, data)
  {
    var m2;
    m2, names := RestoreAllStates(data);
    var index := IndexTransitions(data.transitions);
    r, out := AddStateBatches(m2, data, index);
    if out.Fail? {
      return;
    }
    r, out := AddPseudoBatches(m2, r, data, index);
    if out.Fail? {
      return;
    }
    RebuiltFrom(m2, r, data);
  }

  /** One layer of a controller asset, as the rebuild reads it: its
      serialized state machine and whether it holds saved graph data. */
  datatype Layer = Layer(stateMachine: StateMachineData, hasGraphData: bool)

  /** The controller asset a bound id names: its `internalDataUpdated`
      flag and its layers. */
  datatype Controller = Controller(internalDataUpdated: bool, layers: seq<Layer>)

  /** The `editingAnimatorController` getter: no controller when no id is
      bound, otherwise whatever the asset store holds under the id. */
  function Bound(id: string, found: Option<Controller>): (c: Option<Controller>)
    ensures id == "" ==> c.None?
    ensures id != "" ==> c == found
  {
    if id == "" then None else found
  }

  /** What the rebuild needs of a controller whose serialized data it is
      to load. */
  ghost predicate Loadable(c: Option<Controller>) {
    c.Some? && c.value.internalDataUpdated && |c.value.layers| > 0 ==> WellFormed(c.value.layers[0].stateMachine)
  }

  /** The graph `_initStates` builds on an empty one. */
  ghost predicate Initialized(r: Machine, names: map<string, string>) {
    && r.states == PseudoIds
    && r.statesMap == map["any" := AnyNode]["entry" := EntryNode]["exit" := ExitNode]
    && r.transitions == [] && r.transitionsMap == map[]
    && names == map["any" := "any"]["entry" := "entry"]["exit" := "exit"]
  }

  /** The outcome of `_updateStateMachineGraph` for controller `c` and
      layer `layerIndex`: the graph `r` with name dictionary `names`,
      whether it completed, and whether the controller's
      `internalDataUpdated` flag was cleared. */
  ghost predicate RebuildsTo(c: Option<Controller>, layerIndex: int, r: Machine, names: map<string, string>,
                             out: Outcome<StoreError>, consumed: bool) {
    && r.Valid()
    && (c.None? ==> r == Empty && names == map[] && out == Pass && !consumed)
    && (c.Some? && c.value.internalDataUpdated ==>
          var ls := c.value.layers;
          && (ls == [] ==> r == Empty && names == map[] && out == Fail(LayerMissing(0)) && !consumed)
          && (ls != [] ==>
                && (out.Pass? <==> Restorable(ls[0].stateMachine))
                && (out.Pass? ==> Rebuilt(r, ls[0].stateMachine))
                && (out.Fail? ==> out.error.DestinationStateNotFound?)
                && (consumed <==> out.Pass?)))
    && (c.Some? && !c.value.internalDataUpdated ==>
          var ls := c.value.layers;
          && !consumed
          && (!(0 <= layerIndex < |ls|) ==> r == Empty && names == map[] && out == Fail(LayerMissing(layerIndex)))
          && (0 <= layerIndex < |ls| && ls[layerIndex].hasGraphData ==> r == Empty && names == map[] && out == Pass)
          && (0 <= layerIndex < |ls| && !ls[layerIndex].hasGraphData ==> Initialized(r, names) && out == Pass))
  }

  /** Whether `_updateStateMachineGraph` for controller `c` and layer
      `layerIndex` reaches `addState`, which arms the debounced write-back:
      a fresh first layer is rebuilt by `_initByStateMachineData`, and a
      current layer without saved graph data by `_initStates`. A missing
      controller does nothing, a missing layer throws first, and the
      import of saved graph data adds nothing in this model. */
  ghost predicate ArmsWrite(c: Option<Controller>, layerIndex: int) {
    && c.Some?
    && (c.value.internalDataUpdated ==> c.value.layers != [])
    && (!c.value.internalDataUpdated ==>
          0 <= layerIndex < |c.value.layers| && !c.value.layers[layerIndex].hasGraphData)
  }

  /** The debounced write-back is armed exactly when the rebuild created
      states: it completed with a non-empty graph, or it stopped at a
      transition whose destination is missing. */
  lemma ArmsWriteExactly(c: Option<Controller>, layerIndex: int, r: Machine, names: map<string, string>,
                         out: Outcome<StoreError>, consumed: bool)
    requires RebuildsTo(c, layerIndex, r, names, out, consumed)
    ensures ArmsWrite(c, layerIndex) <==> (out.Pass? && r.states != []) || (out.Fail? && out.error.DestinationStateNotFound?)
  {
    if c.Some? && c.value.internalDataUpdated && c.value.layers != [] && out.Pass? {
      assert StatesRebuilt(r, c.value.layers[0].stateMachine);
      assert r.states[0] == PseudoIds[0];
    }
  }

  /** `_updateStateMachineGraph` on values: the graph is emptied
      (`_reset`); without a controller that is all. A controller with
      fresh serialized data is rebuilt from its first layer's state
      machine (`_initByStateMachineData`), which clears the flag once it
      completes; otherwise the current layer's saved graph is imported, or
      the pseudo-states alone are created (`_initStates`). */
  method RebuildGraph(c: Option<Controller>, layerIndex: int)
    returns (r: Machine, names: map<string, string>, out: Outcome<StoreError>, consumed: bool, armed: bool)
    requires Loadable(c)
    ensures RebuildsTo(c, layerIndex, r, names, out, consumed)
    ensures armed == ArmsWrite(c, layerIndex)
  {
    r, names, out, consumed, armed := Empty, map[], Pass, false, false;
    if c.None? {
      return;
    }
    var ls := c.value.layers;
    if c.value.internalDataUpdated {
      if ls == [] {
        out := Fail(LayerMissing(0));
        return;
      }
      r, names, out := RestoreMachine(ls[0].stateMachine);
      consumed, armed := out.Pass?, true;
    } else if !(0 <= layerIndex < |ls|) {
      out := Fail(LayerMissing(layerIndex));
    } else if !ls[layerIndex].hasGraphData {
      r, names := InitPseudoStates(Empty, map[]);
      armed := true;
      assert [] + PseudoIds == PseudoIds;
    }
  }

  /** The write-back log after `_updateStateMachineDataImmediately`: when a
      controller is bound and found, it receives the layer index and the
      export of the graph. */
  ghost function Logged(writes: seq<Write>, id: string, found: bool, layerIndex: int, m: Machine): (w: seq<Write>)
    requires m.Valid()
    ensures id != "" && found ==> |w| == |writes| + 1 && w[..|writes|] == writes
    ensures id != "" && found ==> w[|writes|] == Write(id, layerIndex, Exported(m))
    ensures !(id != "" && found) ==> w == writes
  {
    if id != "" && found then writes + [Write(id, layerIndex, Exported(m))] else writes
  }

  method LogWrite(writes: seq<Write>, id: string, found: bool, layerIndex: int, m: Machine) returns (w: seq<Write>)
    requires m.Valid()
    ensures w == Logged(writes, id, found, layerIndex, m)
  {
    w := writes;
    if id != "" && found {
      var d := m.Export();
      w := writes + [Write(id, layerIndex, d)];
    }
  }

  /** A rebuild followed by the immediate write-back, as
      `_updateStateMachineGraph` ends. A rebuild that throws skips the
      immediate write-back, but the debounced one its `addState` calls
      armed (`armed`) still follows, with the partial graph. */
  method RebuildAndWrite(id: string, found: Option<Controller>, layerIndex: int, writes: seq<Write>)
    returns (r: Machine, names: map<string, string>, out: Outcome<StoreError>, consumed: bool, armed: bool, w: seq<Write>)
    requires Loadable(Bound(id, found))
    ensures RebuildsTo(Bound(id, found), layerIndex, r, names, out, consumed)
    ensures armed == ArmsWrite(Bound(id, found), layerIndex)
    ensures w == Logged(writes, id, found.Some? && out.Pass?, layerIndex, r)
  {
    r, names, out, consumed, armed := RebuildGraph(Bound(id, found), layerIndex);
    w := LogWrite(writes, id, found.Some? && out.Pass?, layerIndex, r);
  }

  class AnimatorControllerStore {
    /** `states`, `statesMap`, `transitions` and `transitionsMap`. */
    var machine: Machine
    /** `_statesNameMap`: the id of the state each name was last given to. */
    var statesNameMap: map<string, string>
    var currentSelectType: SelectType
    var selectedStateId: string
    var selectedTransitionId: string
    /** `_editorState`. */
    var editorState: EditorState
    var selectedEntityId: Option<string>
    /** `_editingAnimatorControllerId`, "" when no controller is bound. */
    var editingControllerId: string
    /** `_currentLayerIndex`. */
    var currentLayerIndex: int
    /** The debounced write-back is armed. */
    var writeRequested: bool
    /** The immediate write-backs performed so far, oldest first. */
    var writes: seq<Write>

    ghost predicate Valid()
      reads this
    {
      machine.Valid()
    }

    /** An empty graph, nothing selected, no controller bound. */
    constructor ()
      ensures Valid()
      ensures machine == Empty && statesNameMap == map[]
      ensures currentSelectType == NullItem && selectedStateId == "" && selectedTransitionId == ""
      ensures editorState == NeedSelect && selectedEntityId == None && editingControllerId == ""
      ensures currentLayerIndex == 0 && !writeRequested && writes == []
    {
      machine, statesNameMap := Empty, map[];
      currentSelectType, selectedStateId, selectedTransitionId := NullItem, "", "";
      editorState, selectedEntityId, editingControllerId := NeedSelect, None, "";
      currentLayerIndex, writeRequested, writes := 0, false, [];
    }

    /** `addState(name, id, type)`: an empty id becomes the generated one;
        the rest is `PutState`. */
    method AddState(name: string, id: string, stateType: StateType, generatedId: string) returns (s: State)
      requires Valid()
      requires (if id == "" then generatedId else id) !in machine.statesMap
      modifies this`machine, this`statesNameMap, this`writeRequested
      ensures Valid()
      ensures s == NewState(s.name, if id == "" then generatedId else id, stateType)
      ensures name != "" ==> s.name == name
      ensures name == "" ==> s.name !in old(statesNameMap) && IsFirstFree(old(statesNameMap).Keys, "New State", s.name)
      ensures machine == old(machine).AddState(s)
      ensures statesNameMap == old(statesNameMap)[s.name := s.id]
      ensures writeRequested
    {
      var m, names;
      m, names, s := PutState(machine, statesNameMap, name, if id == "" then generatedId else id, stateType);
      statesNameMap := names;
      writeRequested := true;
      machine := m;
    }

    /** `addTransition(id, source, destination)`: an empty id becomes the
        generated one; the rest is `PutTransition`, and a created
        transition arms the write-back. */
    method AddTransition(id: string, source: string, destination: string, generatedId: string)
      returns (r: Result<Transition, StoreError>)
      requires Valid()
      requires (if id == "" then generatedId else id) !in machine.transitionsMap
      modifies this`machine, this`writeRequested
      ensures Valid()
      ensures source !in old(machine.statesMap) ==> r == Err(SourceStateNotFound(source))
      ensures source in old(machine.statesMap) && destination !in old(machine.statesMap) ==>
        r == Err(DestinationStateNotFound(destination))
      ensures r.Err? ==> machine == old(machine) && writeRequested == old(writeRequested)
      ensures r.Ok? <==> source in old(machine.statesMap) && destination in old(machine.statesMap)
      ensures r.Ok? ==>
        && r.value == NewTransition(if id == "" then generatedId else id,
                                    old(machine.statesMap)[source], old(machine.statesMap)[destination])
        && machine == old(machine).AddTransition(r.value)
        && writeRequested
    {
      var m;
      m, r := PutTransition(machine, if id == "" then generatedId else id, source, destination);
      if r.Ok? {
        writeRequested := true;
      }
      machine := m;
    }

    /** `_handleAddTransition`: the graph reports an edge it drew between
        two states; the store files it as `addTransition` does, under the
        graph's id. */
    method HandleAddTransition(id: string, source: string, destination: string) returns (t: Transition)
      requires Valid()
      requires id !in machine.transitionsMap && source in machine.statesMap && destination in machine.statesMap
      modifies this`machine, this`writeRequested
      ensures Valid()
      ensures t == NewTransition(id, old(machine.statesMap)[source], old(machine.statesMap)[destination])
      ensures machine == old(machine).AddTransition(t)
      ensures writeRequested
    {
      t := NewTransition(id, machine.statesMap[source], machine.statesMap[destination]);
      KeysAreIds(machine, source);
      KeysAreIds(machine, destination);
      writeRequested := true;
      machine := machine.AddTransition(t);
    }

    /** `selectState(id)`: the pseudo-states cannot be selected; otherwise
        the id becomes the selected state (an empty one clears the kind).
        The selected transition id is left as it was. */
    method SelectState(id: string)
      modifies this`selectedStateId, this`currentSelectType
      ensures IsPseudoId(id) ==> selectedStateId == old(selectedStateId) && currentSelectType == old(currentSelectType)
      ensures !IsPseudoId(id) ==> selectedStateId == id && currentSelectType == (if id != "" then StateItem else NullItem)
    {
      if IsPseudoId(id) {
        return;
      }
      selectedStateId := id;
      currentSelectType := if id != "" then StateItem else NullItem;
    }

    /** `selectTransition(id)`; the selected state id is left as it was. */
    method SelectTransition(id: string)
      modifies this`selectedTransitionId, this`currentSelectType
      ensures selectedTransitionId == id && currentSelectType == (if id != "" then TransitionItem else NullItem)
    {
      selectedTransitionId := id;
      currentSelectType := if id != "" then TransitionItem else NullItem;
    }

    /** `clearSelect`. */
    method ClearSelect()
      modifies this`selectedStateId, this`selectedTransitionId, this`currentSelectType
      ensures selectedStateId == "" && selectedTransitionId == "" && currentSelectType == NullItem
    {
      selectedStateId, selectedTransitionId, currentSelectType := "", "", NullItem;
    }

    /** `_handleStateMove(id, position)`: a live state takes the position;
        an unknown id changes nothing. */
    method HandleStateMove(id: string, x: real, y: real)
      requires Valid()
      modifies this`machine, this`writeRequested
      ensures Valid()
      ensures id !in old(machine.statesMap) ==> machine == old(machine) && writeRequested == old(writeRequested)
      ensures id in old(machine.statesMap) ==>
        machine == old(machine).ReplaceState(old(machine.statesMap)[id].SetPosition(x, y)) && writeRequested
    {
      if id in machine.statesMap {
        var s := machine.statesMap[id];
        KeysAreIds(machine, id);
        writeRequested := true;
        machine := machine.ReplaceState(s.SetPosition(x, y));
      }
    }

    /** `_handleUpdateTransitionTarget(id, destination)`: the graph moved
        the head of an edge; the transition leaves its old target's
        in-index and joins the new one's. An unknown transition changes
        nothing. */
    method HandleUpdateTransitionTarget(id: string, destination: string)
      requires Valid()
      requires id in machine.transitionsMap ==> destination in machine.statesMap
      modifies this`machine, this`writeRequested
      ensures Valid()
      ensures id !in old(machine.transitionsMap) ==> machine == old(machine) && writeRequested == old(writeRequested)
      ensures id in old(machine.transitionsMap) ==> machine == old(machine).UpdateTarget(id, destination) && writeRequested
    {
      if id in machine.transitionsMap {
        writeRequested := true;
        machine := machine.UpdateTarget(id, destination);
      }
    }

    /** `_handleTransitionsDelete(ids)`: each listed transition that is
        still live leaves both lists and both endpoints' indices; then the
        selection is cleared and a write-back armed. */
    method HandleTransitionsDelete(ids: seq<string>)
      requires Valid()
      modifies this`machine, this`writeRequested, this`selectedStateId, this`selectedTransitionId, this`currentSelectType
      ensures Valid()
      ensures old(machine).TransitionsDeleted(machine, Elements(ids))
      ensures selectedStateId == "" && selectedTransitionId == "" && currentSelectType == NullItem
      ensures writeRequested
    {
      ClearSelect();
      writeRequested := true;
      machine := machine.DeleteTransitions(ids);
    }

    /** `_handleStatesDelete(ids)`: each listed state that is still live
        leaves the lists with every transition into or out of it; then the
        selection is cleared and a write-back armed. The name dictionary
        keeps the deleted states' names. */
    method HandleStatesDelete(ids: seq<string>)
      requires Valid()
      modifies this`machine, this`writeRequested, this`selectedStateId, this`selectedTransitionId, this`currentSelectType
      ensures Valid()
      ensures old(machine).StatesDeleted(machine, Elements(ids))
      ensures selectedStateId == "" && selectedTransitionId == "" && currentSelectType == NullItem
      ensures writeRequested
    {
      ClearSelect();
      writeRequested := true;
      machine := machine.DeleteStates(ids);
    }

    /** `updateStateData(property, value)` on the selected state. Renaming
        first drops the state's old name from the name dictionary; a name
        another state holds is replaced by the first free variant of it;
        the name is then filed under the state. Without a selected state
        nothing changes. */
    method UpdateStateData(f: StateField) returns (applied: StateField)
      requires Valid()
      modifies this`machine, this`statesNameMap, this`writeRequested
      ensures Valid()
      ensures selectedStateId !in old(machine.statesMap) ==>
        machine == old(machine) && statesNameMap == old(statesNameMap) && writeRequested == old(writeRequested)
      ensures selectedStateId in old(machine.statesMap) ==>
        var s := old(machine.statesMap)[selectedStateId];
        && machine == old(machine).ReplaceState(s.UpdateData(applied))
        && writeRequested
        && (!f.Name? ==> applied == f && statesNameMap == old(statesNameMap))
        && (f.Name? ==>
              var rest := old(statesNameMap) - {s.name};
              && applied.Name?
              && (f.name !in rest || rest[f.name] == s.id ==> applied == f)
              && (f.name in rest && rest[f.name] != s.id ==>
                    applied.name !in rest && IsFirstFree(rest.Keys, f.name, applied.name))
              && statesNameMap == rest[applied.name := s.id])
    {
      applied := f;
      if selectedStateId !in machine.statesMap {
        return;
      }
      var s := machine.statesMap[selectedStateId];
      KeysAreIds(machine, selectedStateId);
      if f.Name? {
        var name := FileName(s, f.name);
        applied := Name(name);
      }
      writeRequested := true;
      machine := machine.ReplaceState(s.UpdateData(applied));
    }

    /** The name-dictionary part of renaming `s` to `value`. */
    method FileName(s: State, value: string) returns (name: string)
      modifies this`statesNameMap
      ensures var rest := old(statesNameMap) - {s.name};
        && (value !in rest || rest[value] == s.id ==> name == value)
        && (value in rest && rest[value] != s.id ==> name !in rest && IsFirstFree(rest.Keys, value, name))
        && statesNameMap == rest[name := s.id]
    {
      statesNameMap := statesNameMap - {s.name};
      name := value;
      if value in statesNameMap && statesNameMap[value] != s.id {
        name := MakeUniqueName(statesNameMap, value);
      }
      statesNameMap := statesNameMap[name := s.id];
    }

    /** `addStateMachineScript(scriptId)` on the selected state. */
    method AddStateMachineScript(scriptId: string)
      requires Valid()
      modifies this`machine, this`writeRequested
      ensures Valid()
      ensures selectedStateId !in old(machine.statesMap) ==> machine == old(machine) && writeRequested == old(writeRequested)
      ensures selectedStateId in old(machine.statesMap) ==>
        machine == old(machine).ReplaceState(old(machine.statesMap)[selectedStateId].AddStateMachineScript(scriptId))
        && writeRequested
    {
      if selectedStateId in machine.statesMap {
        var s := machine.statesMap[selectedStateId];
        KeysAreIds(machine, selectedStateId);
        writeRequested := true;
        machine := machine.ReplaceState(s.AddStateMachineScript(scriptId));
      }
    }

    /** `removeStateMachineScript(index)` on the selected state. */
    method RemoveStateMachineScript(index: int)
      requires Valid()
      modifies this`machine, this`writeRequested
      ensures Valid()
      ensures selectedStateId !in old(machine.statesMap) ==> machine == old(machine) && writeRequested == old(writeRequested)
      ensures selectedStateId in old(machine.statesMap) ==>
        machine == old(machine).ReplaceState(old(machine.statesMap)[selectedStateId].RemoveStateMachineScript(index))
        && writeRequested
    {
      if selectedStateId in machine.statesMap {
        var s := machine.statesMap[selectedStateId];
        KeysAreIds(machine, selectedStateId);
        writeRequested := true;
        machine := machine.ReplaceState(s.RemoveStateMachineScript(index));
      }
    }

    /** `updateStateMachineScript(index, scriptId)` on the selected state. */
    method UpdateStateMachineScript(index: int, scriptId: string)
      requires Valid()
      requires selectedStateId in machine.statesMap ==> index <= |machine.statesMap[selectedStateId].content.scripts|
      modifies this`machine, this`writeRequested
      ensures Valid()
      ensures selectedStateId !in old(machine.statesMap) ==> machine == old(machine) && writeRequested == old(writeRequested)
      ensures selectedStateId in old(machine.statesMap) ==>
        machine == old(machine).ReplaceState(old(machine.statesMap)[selectedStateId].UpdateStateMachineScript(index, scriptId))
        && writeRequested
    {
      if selectedStateId in machine.statesMap {
        var s := machine.statesMap[selectedStateId];
        KeysAreIds(machine, selectedStateId);
        writeRequested := true;
        machine := machine.ReplaceState(s.UpdateStateMachineScript(index, scriptId));
      }
    }

    /** `updateTransitionData(property, value)` on the selected transition. */
    method UpdateTransitionData(f: TransitionField)
      requires Valid()
      modifies this`machine, this`writeRequested
      ensures Valid()
      ensures selectedTransitionId !in old(machine.transitionsMap) ==>
        machine == old(machine) && writeRequested == old(writeRequested)
      ensures selectedTransitionId in old(machine.transitionsMap) ==>
        machine == old(machine).ReplaceTransition(old(machine.transitionsMap)[selectedTransitionId].UpdateData(f))
        && writeRequested
    {
      if selectedTransitionId in machine.transitionsMap {
        var t := machine.transitionsMap[selectedTransitionId];
        TransitionKeysAreIds(machine, selectedTransitionId);
        writeRequested := true;
        machine := machine.ReplaceTransition(t.UpdateData(f));
      }
    }

    /** `addCondition()` on the selected transition: the condition is on
        the bound controller's first parameter, or on "" when there is no
        controller, no parameter, or the first one has an empty name.
        `parameterNames` stands for the controller's parameters (None when
        no controller is found), `conditionId` for the clock-based id. */
    method AddCondition(parameterNames: Option<seq<string>>, conditionId: string)
      requires Valid()
      modifies this`machine, this`writeRequested
      ensures Valid()
      ensures selectedTransitionId !in old(machine.transitionsMap) ==>
        machine == old(machine) && writeRequested == old(writeRequested)
      ensures selectedTransitionId in old(machine.transitionsMap) ==>
        var name := if parameterNames.Some? && |parameterNames.value| > 0 then parameterNames.value[0] else "";
        && machine == old(machine).ReplaceTransition(old(machine.transitionsMap)[selectedTransitionId].AddCondition(name, conditionId))
        && writeRequested
    {
      if selectedTransitionId in machine.transitionsMap {
        var t := machine.transitionsMap[selectedTransitionId];
        TransitionKeysAreIds(machine, selectedTransitionId);
        var name := if parameterNames.Some? && |parameterNames.value| > 0 then parameterNames.value[0] else "";
        writeRequested := true;
        machine := machine.ReplaceTransition(t.AddCondition(name, conditionId));
      }
    }

    /** `removeCondition(index)` on the selected transition. */
    method RemoveCondition(index: int)
      requires Valid()
      modifies this`machine, this`writeRequested
      ensures Valid()
      ensures selectedTransitionId !in old(machine.transitionsMap) ==>
        machine == old(machine) && writeRequested == old(writeRequested)
      ensures selectedTransitionId in old(machine.transitionsMap) ==>
        machine == old(machine).ReplaceTransition(old(machine.transitionsMap)[selectedTransitionId].RemoveCondition(index))
        && writeRequested
    {
      if selectedTransitionId in machine.transitionsMap {
        var t := machine.transitionsMap[selectedTransitionId];
        TransitionKeysAreIds(machine, selectedTransitionId);
        writeRequested := true;
        machine := machine.ReplaceTransition(t.RemoveCondition(index));
      }
    }

    /** `updateConditionData(index, patch)` on the selected transition. The
        write-back is armed even when the index names no condition. */
    method UpdateConditionData(index: int, fs: seq<ConditionField>)
      requires Valid()
      modifies this`machine, this`writeRequested
      ensures Valid()
      ensures selectedTransitionId !in old(machine.transitionsMap) ==>
        machine == old(machine) && writeRequested == old(writeRequested)
      ensures selectedTransitionId in old(machine.transitionsMap) ==>
        var t := old(machine.transitionsMap)[selectedTransitionId];
        && writeRequested
        && (0 <= index < |t.content.conditions| ==>
              machine == old(machine).ReplaceTransition(
                t.(content := t.content.(conditions := t.content.conditions[index := Patch(t.content.conditions[index], fs)]))))
        && (!(0 <= index < |t.content.conditions|) ==> machine == old(machine))
    {
      if selectedTransitionId in machine.transitionsMap {
        var t := machine.transitionsMap[selectedTransitionId];
        TransitionKeysAreIds(machine, selectedTransitionId);
        writeRequested := true;
        if 0 <= index < |t.content.conditions| {
          var u := t.UpdateConditionData(index, fs);
          machine := machine.ReplaceTransition(u);
        }
      }
    }

    /** `_reset`: the graph and the name dictionary are emptied. */
    method Reset()
      modifies this`machine, this`statesNameMap
      ensures Valid()
      ensures machine == Empty && statesNameMap == map[]
    {
      statesNameMap := map[];
      machine := Empty;
    }


    /** `_updateStateMachineGraph`; `found` is what the asset store holds
        under the bound id. */
    method Rebuild(found: Option<Controller>) returns (out: Outcome<StoreError>, consumed: bool)
      requires Loadable(Bound(editingControllerId, found))
      modifies this`machine, this`statesNameMap, this`writes, this`writeRequested
      ensures Valid()
      ensures RebuildsTo(Bound(editingControllerId, found), currentLayerIndex, machine, statesNameMap, out, consumed)
      ensures writes == Logged(old(writes), editingControllerId, found.Some? && out.Pass?, currentLayerIndex, machine)
      ensures writeRequested == (old(writeRequested) || ArmsWrite(Bound(editingControllerId, found), currentLayerIndex))
    {
      var m, names, armed, w;
      m, names, out, consumed, armed, w := RebuildAndWrite(editingControllerId, found, currentLayerIndex, writes);
      machine, statesNameMap, writes := m, names, w;
      writeRequested := writeRequested || armed;
    }

    /** `_updateStateMachineDataImmediately`: the graph is written back to
        the bound controller, when there is one and the asset store holds
        it (`found`). */
    method WriteImmediately(found: bool)
      requires Valid()
      modifies this`writes
      ensures writes == Logged(old(writes), editingControllerId, found, currentLayerIndex, machine)
    {
      writes := LogWrite(writes, editingControllerId, found, currentLayerIndex, machine);
    }

    /** The debounced `updateStateMachineData` firing: an armed write-back
        is disarmed and performed. */
    method FlushWrite(found: bool)
      requires Valid()
      modifies this`writes, this`writeRequested
      ensures !writeRequested
      ensures old(writeRequested) ==> writes == Logged(old(writes), editingControllerId, found, currentLayerIndex, machine)
      ensures !old(writeRequested) ==> writes == old(writes)
    {
      if writeRequested {
        writes := LogWrite(writes, editingControllerId, found, currentLayerIndex, machine);
      }
      writeRequested := false;
    }

    /** `selectLayer(index)`: another layer first writes the current graph
        back to its own layer, then becomes current, and the graph is
        rebuilt for it (the `currentLayerIndex` setter). */
    method SelectLayer(index: int, found: Option<Controller>) returns (out: Outcome<StoreError>, consumed: bool)
      requires Valid()
      requires Loadable(Bound(editingControllerId, found))
      modifies this`machine, this`statesNameMap, this`writes, this`currentLayerIndex, this`writeRequested
      ensures Valid()
      ensures index == old(currentLayerIndex) ==>
        && machine == old(machine) && statesNameMap == old(statesNameMap) && writes == old(writes)
        && writeRequested == old(writeRequested) && out == Pass && !consumed
      ensures index != old(currentLayerIndex) ==>
        && currentLayerIndex == index
        && RebuildsTo(Bound(editingControllerId, found), index, machine, statesNameMap, out, consumed)
        && writes == Logged(Logged(old(writes), editingControllerId, found.Some?, old(currentLayerIndex), old(machine)),
                            editingControllerId, found.Some? && out.Pass?, index, machine)
        && writeRequested == (old(writeRequested) || ArmsWrite(Bound(editingControllerId, found), index))
    {
      out, consumed := Pass, false;
      if index == currentLayerIndex {
        return;
      }
      var w0 := LogWrite(writes, editingControllerId, found.Some?, currentLayerIndex, machine);
      var m, names, armed, w;
      m, names, out, consumed, armed, w := RebuildAndWrite(editingControllerId, found, index, w0);
      currentLayerIndex, machine, statesNameMap, writes := index, m, names, w;
      writeRequested := writeRequested || armed;
    }

    /** The `editingAnimatorControllerId` setter. The same id changes
        nothing. Otherwise a bound controller first receives the graph
        (`oldFound`: the asset store still holds it); then the id is bound,
        and a non-empty one makes layer 0 current, which rebuilds the graph
        from `found`, what the asset store holds under the new id. The
        asset selection and the deferred callback are host effects;
        `ControllerLoaded` is that callback. */
    method SetEditingControllerId(id: string, oldFound: bool, found: Option<Controller>)
      returns (out: Outcome<StoreError>, consumed: bool)
      requires Valid()
      requires Loadable(Bound(id, found))
      modifies this`machine, this`statesNameMap, this`writes, this`currentLayerIndex, this`editingControllerId
      modifies this`writeRequested
      ensures Valid()
      ensures id == old(editingControllerId) ==>
        && machine == old(machine) && statesNameMap == old(statesNameMap) && writes == old(writes)
        && editingControllerId == old(editingControllerId) && currentLayerIndex == old(currentLayerIndex)
        && writeRequested == old(writeRequested) && out == Pass && !consumed
      ensures id != old(editingControllerId) ==>
        var w0 := Logged(old(writes), old(editingControllerId), oldFound, old(currentLayerIndex), old(machine));
        && editingControllerId == id
        && (id == "" ==>
              && machine == old(machine) && statesNameMap == old(statesNameMap) && writes == w0
              && currentLayerIndex == old(currentLayerIndex) && writeRequested == old(writeRequested)
              && out == Pass && !consumed)
        && (id != "" ==>
              && currentLayerIndex == 0
              && RebuildsTo(found, 0, machine, statesNameMap, out, consumed)
              && writes == Logged(w0, id, found.Some? && out.Pass?, 0, machine)
              && writeRequested == (old(writeRequested) || ArmsWrite(found, 0)))
    {
      out, consumed := Pass, false;
      if id == editingControllerId {
        return;
      }
      var w0 := LogWrite(writes, editingControllerId, oldFound, currentLayerIndex, machine);
      writes, editingControllerId := w0, id;
      if id != "" {
        var m, names, armed, w;
        m, names, out, consumed, armed, w := RebuildAndWrite(id, found, 0, w0);
        currentLayerIndex, machine, statesNameMap, writes := 0, m, names, w;
        writeRequested := writeRequested || armed;
      }
    }

    /** The setter's deferred callback: the editor becomes editable, and a
        controller the asset store now holds under the bound id rebuilds
        the graph. */
    method ControllerLoaded(found: Option<Controller>) returns (out: Outcome<StoreError>, consumed: bool)
      requires Valid()
      requires Loadable(Bound(editingControllerId, found))
      modifies this`machine, this`statesNameMap, this`writes, this`editorState, this`writeRequested
      ensures Valid()
      ensures editorState == Editable
      ensures Bound(editingControllerId, found).None? ==>
        && machine == old(machine) && statesNameMap == old(statesNameMap) && writes == old(writes)
        && writeRequested == old(writeRequested) && out == Pass && !consumed
      ensures Bound(editingControllerId, found).Some? ==>
        && RebuildsTo(found, currentLayerIndex, machine, statesNameMap, out, consumed)
        && writes == Logged(old(writes), editingControllerId, out.Pass?, currentLayerIndex, machine)
        && writeRequested == (old(writeRequested) || ArmsWrite(found, currentLayerIndex))
    {
      out, consumed := Pass, false;
      editorState := Editable;
      if Bound(editingControllerId, found).Some? {
        var m, names, armed, w;
        m, names, out, consumed, armed, w := RebuildAndWrite(editingControllerId, found, currentLayerIndex, writes);
        machine, statesNameMap, writes := m, names, w;
        writeRequested := writeRequested || armed;
      }
    }

    /** `selectController(assetId)`. Its "already selected" guard reads the
        `editingAnimatorControllerId` accessor, which has no getter, so it
        never holds: the selection is always cleared and the id goes
        through the setter. The editor becomes editable unless the
        setter's rebuild threw, which leaves `selectController` before
        that step. */
    method SelectController(assetId: string, oldFound: bool, found: Option<Controller>)
      returns (out: Outcome<StoreError>, consumed: bool)
      requires Valid()
      requires Loadable(Bound(assetId, found))
      modifies this`machine, this`statesNameMap, this`writes, this`currentLayerIndex, this`editingControllerId
      modifies this`selectedStateId, this`selectedTransitionId, this`currentSelectType, this`editorState
      modifies this`writeRequested
      ensures Valid()
      ensures selectedStateId == "" && selectedTransitionId == "" && currentSelectType == NullItem
      ensures editingControllerId == assetId
      ensures editorState == if out.Pass? then Editable else old(editorState)
      ensures assetId == old(editingControllerId) ==>
        && machine == old(machine) && statesNameMap == old(statesNameMap) && writes == old(writes)
        && currentLayerIndex == old(currentLayerIndex) && writeRequested == old(writeRequested)
        && out == Pass && !consumed
      ensures assetId != old(editingControllerId) ==>
        var w0 := Logged(old(writes), old(editingControllerId), oldFound, old(currentLayerIndex), old(machine));
        && (assetId == "" ==>
              && machine == old(machine) && statesNameMap == old(statesNameMap) && writes == w0
              && currentLayerIndex == old(currentLayerIndex) && writeRequested == old(writeRequested)
              && out == Pass && !consumed)
        && (assetId != "" ==>
              && currentLayerIndex == 0
              && RebuildsTo(found, 0, machine, statesNameMap, out, consumed)
              && writes == Logged(w0, assetId, found.Some? && out.Pass?, 0, machine)
              && writeRequested == (old(writeRequested) || ArmsWrite(found, 0)))
    {
      selectedStateId, selectedTransitionId, currentSelectType := "", "", NullItem;
      out, consumed := SetEditingControllerId(assetId, oldFound, found);
      if out.Pass? {
        editorState := Editable;
      }
    }

    /** `checkAnimatorControllerAsset`, with the intended "already bound"
        guard (`Lifecycle.Decide`): asking for a selection or a controller
        sets the editor state; an entity with a controller reference is
        remembered and its asset id bound through the setter, which
        rebuilds the graph from `found`, what the asset store holds under
        that id. `host` is the host's current entity selection. */
    method CheckAnimatorControllerAsset(host: Option<EntitySnapshot>, found: Option<Controller>)
      returns (d: Decision, out: Outcome<StoreError>, consumed: bool)
      requires Valid()
      requires Loadable(found)
      modifies this`machine, this`statesNameMap, this`writes, this`currentLayerIndex, this`editingControllerId
      modifies this`selectedEntityId, this`editorState, this`writeRequested
      ensures Valid()
      ensures d == Decide(old(editingControllerId), host)
      ensures editorState == StateAfter(d, old(editorState))
      ensures d.RequireCreate? || d.Bind? ==> selectedEntityId == Some(d.entityId)
      ensures d.Skip? || d.RequireSelect? ==> selectedEntityId == old(selectedEntityId)
      ensures !(d.Bind? && d.assetId != "") ==>
        && machine == old(machine) && statesNameMap == old(statesNameMap) && writes == old(writes)
        && editingControllerId == old(editingControllerId) && currentLayerIndex == old(currentLayerIndex)
        && writeRequested == old(writeRequested) && out == Pass && !consumed
      ensures d.Bind? && d.assetId != "" ==>
        && editingControllerId == d.assetId && currentLayerIndex == 0
        && RebuildsTo(found, 0, machine, statesNameMap, out, consumed)
        && writes == Logged(old(writes), d.assetId, found.Some? && out.Pass?, 0, machine)
        && writeRequested == (old(writeRequested) || ArmsWrite(found, 0))
    {
      d := Decide(editingControllerId, host);
      out, consumed := Pass, false;
      match d {
        case Skip =>
        case RequireSelect =>
          editorState := NeedSelect;
        case RequireCreate(entityId, _) =>
          selectedEntityId := Some(entityId);
          editorState := NeedCreate;
        case Bind(entityId, assetId) =>
          selectedEntityId := Some(entityId);
          out, consumed := SetEditingControllerId(assetId, false, found);
      }
    }

    /** `_initStates` on the store. */
    method InitStates()
      requires Valid()
      requires "any" !in machine.statesMap && "entry" !in machine.statesMap && "exit" !in machine.statesMap
      modifies this`machine, this`statesNameMap, this`writeRequested
      ensures Valid()
      ensures machine.states == old(machine.states) + PseudoIds
      ensures machine.statesMap == old(machine.statesMap)["any" := AnyNode]["entry" := EntryNode]["exit" := ExitNode]
      ensures machine.transitions == old(machine.transitions) && machine.transitionsMap == old(machine.transitionsMap)
      ensures statesNameMap == old(statesNameMap)["any" := "any"]["entry" := "entry"]["exit" := "exit"]
      ensures writeRequested
    {
      var m, names := InitPseudoStates(machine, statesNameMap);
      statesNameMap := names;
      writeRequested := true;
      machine := m;
    }
  }

  /** The dictionary files every state under its own id. */
  lemma KeysAreIds(m: Machine, id: string)
    requires m.Valid() && id in m.statesMap
    ensures m.statesMap[id].id == id
  {
    assert StatesIndexed(m.states, m.statesMap);
  }

  /** The dictionary files every transition under its own id. */
  lemma TransitionKeysAreIds(m: Machine, id: string)
    requires m.Valid() && id in m.transitionsMap
    ensures m.transitionsMap[id].id == id
  {
    assert TransitionsIndexed(m.transitions, m.transitionsMap);
  }
}
