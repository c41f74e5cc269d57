/**
 * The serialized form of a layer's state machine, and the projection of the
 * live graph onto it (`_exportData`): the non-pseudo states in list order,
 * and the transitions split by the kind of their source state.
 */
module Export {
  import opened StateRecord
  import opened TransitionRecord
  import opened Entities

  /** `IStateMachineData`. */
  datatype StateMachineData = StateMachineData(
    states: seq<StateData>,
    transitions: seq<TransitionData>,
    entryTransitions: seq<TransitionData>,
    anyTransitions: seq<TransitionData>)

  /** The entities a list of ids names, in list order. */
  function Resolve<V>(ids: seq<string>, m: map<string, V>): (r: seq<V>)
    requires forall i | 0 <= i < |ids| :: ids[i] in m
    ensures |r| == |ids|
    ensures forall i | 0 <= i < |ids| :: r[i] == m[ids[i]]
  {
    seq(|ids|, i requires 0 <= i < |ids| => m[ids[i]])
  }

  /** The list a transition is exported to. */
  datatype SourceKind = FromEntry | FromAny | FromState

  /** Every transition's source is one of `states`. */
  ghost predicate SourcesKnown(ts: seq<Transition>, states: map<string, State>) {
    forall i | 0 <= i < |ts| :: ts[i].source in states
  }

  /** The list `_exportData` puts a transition in, by the kind of its
      source state. In a valid graph every source is in `states`
      (`Registered`); a source that is not counts as a normal state. */
  function KindOf(t: Transition, states: map<string, State>): (k: SourceKind)
    ensures k == FromEntry <==> t.source in states && states[t.source].stateType == Entry
    ensures k == FromAny <==> t.source in states && states[t.source].stateType == AnyState
  {
    if t.source !in states then FromState
    else if states[t.source].IsEntryState() then FromEntry
    else if states[t.source].IsAnyState() then FromAny
    else FromState
  }

  /** The data of the transitions of kind `k`, in list order. */
  function OfKind(ts: seq<Transition>, states: map<string, State>, k: SourceKind): (r: seq<TransitionData>)
    ensures |r| <= |ts|
  {
    if ts == [] then []
    else (if KindOf(ts[0], states) == k then [ts[0].Data()] else []) + OfKind(ts[1..], states, k)
  }

  /** The data of the states that are not pseudo-states, in list order. */
  function ExportedStates(ss: seq<State>): (r: seq<StateData>)
    ensures |r| <= |ss|
  {
    if ss == [] then []
    else (if ss[0].IsPseudo() then [] else [ss[0].Data()]) + ExportedStates(ss[1..])
  }

  function ExportOf(ss: seq<State>, ts: seq<Transition>, states: map<string, State>): StateMachineData
  {
    StateMachineData(ExportedStates(ss), OfKind(ts, states, FromState), OfKind(ts, states, FromEntry), OfKind(ts, states, FromAny))
  }

  /** `OfKind` on a list with a known head. */
  lemma OfKindCons(ts: seq<Transition>, states: map<string, State>, k: SourceKind)
    requires ts != []
    ensures OfKind(ts, states, k) == (if KindOf(ts[0], states) == k then [ts[0].Data()] else []) + OfKind(ts[1..], states, k)
  {
  }

  lemma {:induction false} OfKindSnoc(ts: seq<Transition>, t: Transition, states: map<string, State>, k: SourceKind)
    ensures OfKind(ts + [t], states, k) == OfKind(ts, states, k) + (if KindOf(t, states) == k then [t.Data()] else [])
  {
    var u := ts + [t];
    if ts == [] {
      assert u == [t];
      OfKindCons(u, states, k);
      assert u[1..] == [];
    } else {
      assert u[0] == ts[0] && u[1..] == ts[1..] + [t];
      OfKindCons(u, states, k);
      OfKindCons(ts, states, k);
      OfKindSnoc(ts[1..], t, states, k);
    }
  }

  lemma TakeSnoc<T>(s: seq<T>, i: nat)
    requires i < |s|
    ensures s[..i + 1] == s[..i] + [s[i]]
  {
  }

  /** The loop of `_exportData`: each transition's data goes to the list of
      its source's kind. */
  method SplitTransitions(ts: seq<Transition>, states: map<string, State>)
    returns (stateTransitions: seq<TransitionData>, entryTransitions: seq<TransitionData>, anyTransitions: seq<TransitionData>)
    requires SourcesKnown(ts, states)
    ensures stateTransitions == OfKind(ts, states, FromState)
    ensures entryTransitions == OfKind(ts, states, FromEntry)
    ensures anyTransitions == OfKind(ts, states, FromAny)
  {
    stateTransitions, entryTransitions, anyTransitions := [], [], [];
    var i := 0;
    while i < |ts|
      invariant 0 <= i <= |ts|
      invariant stateTransitions == OfKind(ts[..i], states, FromState)
      invariant entryTransitions == OfKind(ts[..i], states, FromEntry)
      invariant anyTransitions == OfKind(ts[..i], states, FromAny)
    {
      var t := ts[i];
      TakeSnoc(ts, i);
      OfKindSnoc(ts[..i], t, states, FromState);
      OfKindSnoc(ts[..i], t, states, FromEntry);
      OfKindSnoc(ts[..i], t, states, FromAny);
      if states[t.source].IsEntryState() {
        entryTransitions := entryTransitions + [t.Data()];
      } else if states[t.source].IsAnyState() {
        anyTransitions := anyTransitions + [t.Data()];
      } else {
        stateTransitions := stateTransitions + [t.Data()];
      }
      i := i + 1;
    }
    assert ts[..i] == ts;
  }

  /** Every transition lands in exactly one of the three lists: their
      lengths add up to the number of transitions. */
  lemma {:induction false} ExportPartitions(ts: seq<Transition>, states: map<string, State>)
    ensures |OfKind(ts, states, FromEntry)| + |OfKind(ts, states, FromAny)| + |OfKind(ts, states, FromState)| == |ts|
  {
    if ts != [] {
      ExportPartitions(ts[1..], states);
    }
  }

  /** A transition's data is in the list of its source's kind. */
  lemma {:induction false} ExportKeepsTransition(ts: seq<Transition>, states: map<string, State>, i: nat)
    requires i < |ts|
    ensures ts[i].Data() in OfKind(ts, states, KindOf(ts[i], states))
  {
    if i > 0 {
      ExportKeepsTransition(ts[1..], states, i - 1);
    }
  }

  /** Each exported state's data comes from a non-pseudo state of the list,
      and each non-pseudo state's data is exported. */
  lemma {:induction false} ExportedStatesExactly(ss: seq<State>)
    ensures forall d | d in ExportedStates(ss) :: exists s | s in ss :: !s.IsPseudo() && d == s.Data()
    ensures forall i | 0 <= i < |ss| && !ss[i].IsPseudo() :: ss[i].Data() in ExportedStates(ss)
  {
    if ss != [] {
      ExportedStatesExactly(ss[1..]);
      forall i | 0 <= i < |ss| && !ss[i].IsPseudo()
        ensures ss[i].Data() in ExportedStates(ss)
      {
        if i > 0 {
          assert ss[i] == ss[1..][i - 1];
        }
      }
    }
  }

  /** With no pseudo-state in the list, every state is exported, in order. */
  lemma {:induction false} ExportedStatesAll(ss: seq<State>)
    requires forall i | 0 <= i < |ss| :: !ss[i].IsPseudo()
    ensures |ExportedStates(ss)| == |ss|
    ensures forall i | 0 <= i < |ss| :: ExportedStates(ss)[i] == ss[i].Data()
  {
    if ss != [] {
      ExportedStatesAll(ss[1..]);
    }
  }
}
