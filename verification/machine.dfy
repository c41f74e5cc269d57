/**
 * The live graph of the edited layer: the store's `states` list and
 * `statesMap` dictionary, its `transitions` list and `transitionsMap`
 * dictionary, held together as one value. Every operation the store
 * performs on them is a member here, and each keeps `Valid` (the
 * invariant `Adjacency.Graph`).
 */
module LayerMachine {
  import opened Records
  import opened Entities
  import opened Adjacency
  import opened Export
  import JsArrays

  datatype Machine = Machine(
    /** The ids of `states`, in list order. */
    states: seq<string>,
    statesMap: map<string, State>,
    /** The ids of `transitions`, in list order. */
    transitions: seq<string>,
    transitionsMap: map<string, Transition>)
  {
    ghost predicate Valid() {
      Graph(states, statesMap, transitions, transitionsMap)
    }

    /** `states.push(state)` and `statesMap[state.id] = state` for a new
        state with no transitions. */
    function AddState(s: State): (r: Machine)
      requires Valid() && s.id !in statesMap
      requires s.inTransitions == [] && s.outTransitions == []
      ensures r.Valid()
      ensures r.states == states + [s.id] && r.statesMap == statesMap[s.id := s]
      ensures r.transitions == transitions && r.transitionsMap == transitionsMap
    {
      GraphAddState(states, statesMap, transitions, transitionsMap, s);
      Machine(states + [s.id], statesMap[s.id := s], transitions, transitionsMap)
    }

    /** The `Transition` constructor's registration in its endpoints, then
        `transitions.push(t)` and `transitionsMap[t.id] = t`. */
    function AddTransition(t: Transition): (r: Machine)
      requires Valid() && t.id !in transitionsMap && t.source in statesMap && t.target in statesMap
      ensures r.Valid()
      ensures r.statesMap == Attach(statesMap, t.id, t.source, t.target)
      ensures r.statesMap[t.source].outTransitions == statesMap[t.source].outTransitions + [t.id]
      ensures r.statesMap[t.target].inTransitions == statesMap[t.target].inTransitions + [t.id]
      ensures r.states == states
      ensures r.transitions == transitions + [t.id] && r.transitionsMap == transitionsMap[t.id := t]
    {
      GraphAttach(states, statesMap, transitions, transitionsMap, t);
      Machine(states, Attach(statesMap, t.id, t.source, t.target), transitions + [t.id], transitionsMap[t.id := t])
    }

    /** One step of `_handleTransitionsDelete`: `transitions.splice(indexOf)`,
        `delete transitionsMap[id]`, and the id leaves its source's
        out-dictionary and its target's in-dictionary. */
    function DeleteTransition(id: string): (r: Machine)
      requires Valid() && id in transitionsMap
      ensures r.Valid()
      ensures Stripped(r.statesMap, statesMap, {id})
      ensures r.transitions == Without(transitions, {id}) && r.transitionsMap == transitionsMap - {id}
      ensures r.states == states
    {
      assert Distinct(transitions) && id in transitions by {
        assert TransitionsIndexed(transitions, transitionsMap);
      }
      JsArrays.SpliceIndexOf(transitions, id);
      GraphDetach(states, statesMap, transitions, transitionsMap, id);
      Machine(states, Detach(statesMap, transitionsMap[id]),
              JsArrays.SpliceOne(transitions, JsArrays.IndexOf(transitions, id)), transitionsMap - {id})
    }

    /** `states.splice(indexOf)` and `delete statesMap[id]` for a state no
        transition touches any more. */
    function DeleteState(id: string): (r: Machine)
      requires Valid() && id in statesMap
      requires statesMap[id].inTransitions == [] && statesMap[id].outTransitions == []
      ensures r.Valid()
      ensures r.states == Without(states, {id}) && r.statesMap == statesMap - {id}
      ensures r.transitions == transitions && r.transitionsMap == transitionsMap
    {
      assert Distinct(states) && id in states by {
        assert StatesIndexed(states, statesMap);
      }
      JsArrays.SpliceIndexOf(states, id);
      IndexIsTouching(statesMap, transitionsMap, id);
      LinkedRemoveState(statesMap, transitionsMap, id);
      StatesIndexedRemove(states, statesMap, {id});
      Machine(JsArrays.SpliceOne(states, JsArrays.IndexOf(states, id)), statesMap - {id}, transitions, transitionsMap)
    }

    /** `transition.updateTarget(state)`: the transition leaves its old
        target's in-dictionary and is filed at the end of the new one's. */
    function UpdateTarget(id: string, to: string): (r: Machine)
      requires Valid() && id in transitionsMap && to in statesMap
      ensures r.Valid()
      ensures transitionsMap[id].target in statesMap
      ensures r.transitionsMap == transitionsMap[id := transitionsMap[id].(target := to)]
      ensures r.statesMap == Retarget(statesMap, id, transitionsMap[id].target, to)
      ensures r.states == states && r.transitions == transitions
    {
      GraphRetarget(states, statesMap, transitions, transitionsMap, id, to);
      Machine(states, Retarget(statesMap, id, transitionsMap[id].target, to), transitions,
              transitionsMap[id := transitionsMap[id].(target := to)])
    }

    /** A state changed in place in anything but its dictionaries. */
    function ReplaceState(s: State): (r: Machine)
      requires Valid() && s.id in statesMap
      requires s.inTransitions == statesMap[s.id].inTransitions && s.outTransitions == statesMap[s.id].outTransitions
      ensures r.Valid()
      ensures r == this.(statesMap := statesMap[s.id := s])
    {
      GraphReplaceState(states, statesMap, transitions, transitionsMap, s);
      this.(statesMap := statesMap[s.id := s])
    }

    /** A transition changed in place in anything but its endpoints. */
    function ReplaceTransition(t: Transition): (r: Machine)
      requires Valid() && t.id in transitionsMap
      requires t.source == transitionsMap[t.id].source && t.target == transitionsMap[t.id].target
      ensures r.Valid()
      ensures r == this.(transitionsMap := transitionsMap[t.id := t])
    {
      GraphReplaceTransition(states, statesMap, transitions, transitionsMap, t);
      this.(transitionsMap := transitionsMap[t.id := t])
    }

    /** `_exportData`: one pass over the transitions sorts each one's data
        into the list of its source's kind; the states that are not
        pseudo-states give the state list. */
    method Export() returns (d: StateMachineData)
      requires Valid()
      ensures SourcesKnown(Resolve(transitions, transitionsMap), statesMap)
      ensures d == ExportOf(Resolve(states, statesMap), Resolve(transitions, transitionsMap), statesMap)
    {
      assert forall i | 0 <= i < |transitions| :: transitions[i] in transitionsMap by {
        assert TransitionsIndexed(transitions, transitionsMap);
      }
      var ts := Resolve(transitions, transitionsMap);
      assert SourcesKnown(ts, statesMap) by {
        assert Registered(statesMap, transitionsMap);
      }
      var stateTransitions, entryTransitions, anyTransitions := SplitTransitions(ts, statesMap);
      assert forall i | 0 <= i < |states| :: states[i] in statesMap by {
        assert StatesIndexed(states, statesMap);
      }
      d := StateMachineData(ExportedStates(Resolve(states, statesMap)), stateTransitions, entryTransitions, anyTransitions);
    }

    /** `r` is this graph with the transitions `ks` deleted: gone from both
        lists of transitions and from every state's dictionaries, and
        nothing else changed. */
    ghost predicate TransitionsDeleted(r: Machine, ks: set<string>) {
      && r.states == states
      && Stripped(r.statesMap, statesMap, ks)
      && r.transitionsMap == transitionsMap - ks
      && r.transitions == Without(transitions, ks)
    }

    /** `_handleTransitionsDelete(ids)`: each id that names a transition is
        deleted as `DeleteTransition` deletes it; the other ids are skipped. */
    method DeleteTransitions(ids: seq<string>) returns (r: Machine)
      requires Valid()
      ensures r.Valid()
      ensures TransitionsDeleted(r, Elements(ids))
    {
      r := this;
      ghost var done: set<string> := {};
      assert TransitionsDeleted(r, done) by {
        StrippedAbsent(statesMap, transitionsMap, {});
        WithoutNone(transitions, {});
        MapMinusAbsent(transitionsMap, {});
      }
      var i := 0;
      while i < |ids|
        invariant 0 <= i <= |ids|
        invariant done == Elements(ids[..i])
        invariant r.Valid()
        invariant TransitionsDeleted(r, done)
      {
        var id := ids[i];
        ElementsPrefix(ids, i);
        var next := r;
        if id in r.transitionsMap {
          next := r.DeleteTransition(id);
        } else {
          assert r.TransitionsDeleted(r, {id}) by {
            assert id !in r.transitions by {
              assert TransitionsIndexed(r.transitions, r.transitionsMap);
            }
            assert Linked(r.statesMap, r.transitionsMap);
            StrippedAbsent(r.statesMap, r.transitionsMap, {id});
            WithoutNone(r.transitions, {id});
            MapMinusAbsent(r.transitionsMap, {id});
          }
        }
        TransitionsDeletedTwice(this, r, next, done, {id});
        r, done := next, done + {id};
        i := i + 1;
      }
      assert ids[..i] == ids;
    }

    /** `r` is this graph with the states `ks` deleted, together with every
        transition that touches one of them. */
    ghost predicate StatesDeleted(r: Machine, ks: set<string>) {
      var gone := Touching(transitionsMap, ks);
      && r.states == Without(states, ks)
      && Stripped(r.statesMap, statesMap - ks, gone)
      && r.transitionsMap == transitionsMap - gone
      && r.transitions == Without(transitions, gone)
    }

    /** One state of `_handleStatesDelete`: the transitions of its
        in-dictionary are deleted, then those left in its out-dictionary
        (giving `c`), and then the state itself (giving `r`). */
    method DeleteStateAndTransitions(id: string) returns (c: Machine, r: Machine)
      requires Valid() && id in statesMap
      ensures c.Valid() && r.Valid()
      ensures TransitionsDeleted(c, Touching(transitionsMap, {id}))
      ensures r.states == Without(c.states, {id}) && r.statesMap == c.statesMap - {id}
      ensures r.transitions == c.transitions && r.transitionsMap == c.transitionsMap
    {
      var ins := statesMap[id].inTransitions;
      var r1 := DeleteTransitions(ins);
      var outs := r1.statesMap[id].outTransitions;
      c := r1.DeleteTransitions(outs);
      TransitionsDeletedTwice(this, r1, c, Elements(ins), Elements(outs));
      assert c.statesMap[id].inTransitions == [] && c.statesMap[id].outTransitions == [] by {
        StrippedAt(r1.statesMap, statesMap, Elements(ins), id);
        StrippedAt(c.statesMap, r1.statesMap, Elements(outs), id);
        WithoutAll(ins);
        WithoutAll(outs);
      }
      assert Elements(ins) + Elements(outs) == Touching(transitionsMap, {id}) by {
        StrippedAt(r1.statesMap, statesMap, Elements(ins), id);
        ElementsUnionWithout(ins, statesMap[id].outTransitions);
        IndexIsTouching(statesMap, transitionsMap, id);
      }
      r := c.DeleteState(id);
    }

    /** `_handleStatesDelete(ids)`: each id that names a state is deleted
        with its transitions as `DeleteStateAndTransitions` does; the other
        ids are skipped. */
    method DeleteStates(ids: seq<string>) returns (r: Machine)
      requires Valid()
      ensures r.Valid()
      ensures StatesDeleted(r, Elements(ids))
    {
      r := this;
      ghost var done: set<string> := {};
      StatesDeletedNone(this);
      var i := 0;
      while i < |ids|
        invariant 0 <= i <= |ids|
        invariant done == Elements(ids[..i])
        invariant r.Valid()
        invariant StatesDeleted(r, done)
      {
        var id := ids[i];
        ElementsPrefix(ids, i);
        if id in r.statesMap {
          var c, next := r.DeleteStateAndTransitions(id);
          StatesDeletedStep(this, r, c, next, done, id);
          r := next;
        } else {
          StatesDeletedSkip(this, r, done, id);
        }
        done := done + {id};
        i := i + 1;
      }
      assert ids[..i] == ids;
    }
  }

  /** The empty graph `_reset` leaves. */
  const Empty := Machine([], map[], [], map[])

  /** Retargeting files the transition in its new target's in-dictionary
      and takes it out of its old target's; the source's out-dictionary
      and every other state are unchanged. */
  lemma UpdateTargetMoves(m: Machine, id: string, to: string)
    requires m.Valid() && id in m.transitionsMap && to in m.statesMap
    ensures var r := m.UpdateTarget(id, to); var from := m.transitionsMap[id].target;
      && r.transitionsMap[id].target == to
      && id in r.statesMap[to].inTransitions
      && (to != from ==> id !in r.statesMap[from].inTransitions)
      && (forall k | k in m.statesMap :: r.statesMap[k].outTransitions == m.statesMap[k].outTransitions)
      && (forall k | k in m.statesMap && k != from && k != to :: r.statesMap[k] == m.statesMap[k])
  {
  }

  /** Adding a state and then replacing it by one with the same indices
      is adding the replacement. */
  /** In a valid graph every target is registered, so a transition's
      `isExit` is the kind of its target alone; after retargeting it follows
      the new target. */
  lemma IsExitInGraph(m: Machine, id: string, to: string)
    requires m.Valid() && id in m.transitionsMap && to in m.statesMap
    ensures m.transitionsMap[id].IsExit(m.statesMap) <==> m.statesMap[m.transitionsMap[id].target].IsExitState()
    ensures m.UpdateTarget(id, to).transitionsMap[id].IsExit(m.UpdateTarget(id, to).statesMap)
      <==> m.statesMap[to].IsExitState()
  {
    assert Registered(m.statesMap, m.transitionsMap);
    var n := m.UpdateTarget(id, to);
    assert n.Valid();
    assert Registered(n.statesMap, n.transitionsMap);
  }

  lemma AddThenReplaceState(m: Machine, s0: State, s1: State)
    requires m.Valid() && s0.id !in m.statesMap && s0.inTransitions == [] && s0.outTransitions == []
    requires s1.id == s0.id && s1.inTransitions == [] && s1.outTransitions == []
    ensures m.AddState(s0).ReplaceState(s1) == m.AddState(s1)
  {
    MapOverwrite(m.statesMap, s0.id, s0, s1);
  }

  /** Adding a transition and then replacing it by one with the same
      endpoints is adding the replacement. */
  lemma AddThenReplaceTransition(m: Machine, t0: Transition, t1: Transition)
    requires m.Valid() && t0.id !in m.transitionsMap && t0.source in m.statesMap && t0.target in m.statesMap
    requires t1.id == t0.id && t1.source == t0.source && t1.target == t0.target
    ensures m.AddTransition(t0).ReplaceTransition(t1) == m.AddTransition(t1)
  {
    MapOverwrite(m.transitionsMap, t0.id, t0, t1);
  }

  /** Deleting one set of transitions and then another is deleting both. */
  lemma TransitionsDeletedTwice(a: Machine, b: Machine, c: Machine, ks1: set<string>, ks2: set<string>)
    requires a.TransitionsDeleted(b, ks1) && b.TransitionsDeleted(c, ks2)
    ensures a.TransitionsDeleted(c, ks1 + ks2)
  {
    StrippedTwice(a.statesMap, b.statesMap, c.statesMap, ks1, ks2);
    WithoutWithout(a.transitions, ks1, ks2);
    MapMinusTwice(a.transitionsMap, ks1, ks2);
  }

  lemma StatesDeletedNone(a: Machine)
    requires a.Valid()
    ensures a.StatesDeleted(a, {})
  {
    assert Touching(a.transitionsMap, {}) == {};
    WithoutNone(a.states, {});
    WithoutNone(a.transitions, {});
    MapMinusAbsent(a.statesMap, {});
    MapMinusAbsent(a.transitionsMap, {});
    assert Linked(a.statesMap, a.transitionsMap);
    StrippedAbsent(a.statesMap, a.transitionsMap, {});
  }

  /** Deleting one more filed state: its touching transitions go first
      (`c`), then the state itself (`d`). */
  lemma StatesDeletedStep(a: Machine, b: Machine, c: Machine, d: Machine, ks: set<string>, id: string)
    requires a.StatesDeleted(b, ks) && id in b.statesMap
    requires b.TransitionsDeleted(c, Touching(b.transitionsMap, {id}))
    requires d.states == Without(c.states, {id}) && d.statesMap == c.statesMap - {id}
    requires d.transitions == c.transitions && d.transitionsMap == c.transitionsMap
    ensures a.StatesDeleted(d, ks + {id})
  {
    var gone := Touching(a.transitionsMap, ks);
    var more := Touching(b.transitionsMap, {id});
    assert Touching(a.transitionsMap, ks + {id}) == gone + more by {
      TouchingStep(a.transitionsMap, b.transitionsMap, ks, id);
    }
    assert d.states == Without(a.states, ks + {id}) by {
      WithoutWithout(a.states, ks, {id});
    }
    assert Stripped(d.statesMap, a.statesMap - (ks + {id}), gone + more) by {
      StrippedTwice(a.statesMap - ks, b.statesMap, c.statesMap, gone, more);
      StrippedMinus(c.statesMap, a.statesMap - ks, gone + more, id);
      MapMinusTwice(a.statesMap, ks, {id});
    }
    assert d.transitionsMap == a.transitionsMap - (gone + more) by {
      MapMinusTwice(a.transitionsMap, gone, more);
    }
    assert d.transitions == Without(a.transitions, gone + more) by {
      WithoutWithout(a.transitions, gone, more);
    }
  }

  /** An id that names no filed state any more changes nothing. */
  lemma StatesDeletedSkip(a: Machine, b: Machine, ks: set<string>, id: string)
    requires a.Valid() && a.StatesDeleted(b, ks) && id !in b.statesMap
    ensures a.StatesDeleted(b, ks + {id})
  {
    assert Touching(a.transitionsMap, ks + {id}) == Touching(a.transitionsMap, ks) by {
      assert Registered(a.statesMap, a.transitionsMap);
    }
    assert id !in Without(a.states, ks) by {
      assert StatesIndexed(a.states, a.statesMap);
    }
    WithoutWithout(a.states, ks, {id});
    WithoutNone(Without(a.states, ks), {id});
    MapMinusTwice(a.statesMap, ks, {id});
    MapMinusAbsent(a.statesMap - ks, {id});
  }
}
