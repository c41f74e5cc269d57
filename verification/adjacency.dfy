/**
 * The invariant the store keeps between its lists, its id-keyed
 * dictionaries and the states' adjacency dictionaries, and the changes the
 * store makes to the adjacency dictionaries, as functions on the dictionary
 * of states with the lemmas that they keep the invariant.
 *
 * The invariant (`Linked`): every transition joins two states of the store
 * and is filed under its id in its source's out-dictionary and in its
 * target's in-dictionary; those dictionaries hold nothing else.
 */
module Adjacency {
  import opened Records
  import opened Entities

  /** The `states` list and `statesMap` agree: the list holds each id once,
      and exactly the ids the dictionary files, each state under its own id. */
  ghost predicate StatesIndexed(ss: seq<string>, sm: map<string, State>) {
    && Distinct(ss)
    && (forall i | 0 <= i < |ss| :: ss[i] in sm)
    && (forall k | k in sm :: k in ss && sm[k].id == k)
  }

  /** The `transitions` list and `transitionsMap` agree, in the same way. */
  ghost predicate TransitionsIndexed(ts: seq<string>, tm: map<string, Transition>) {
    && Distinct(ts)
    && (forall i | 0 <= i < |ts| :: ts[i] in tm)
    && (forall k | k in tm :: k in ts && tm[k].id == k)
  }

  ghost predicate IndicesDistinct(sm: map<string, State>) {
    forall k | k in sm :: Distinct(sm[k].inTransitions) && Distinct(sm[k].outTransitions)
  }

  /** Every transition sits in its endpoints' dictionaries. */
  ghost predicate Registered(sm: map<string, State>, tm: map<string, Transition>) {
    forall t | t in tm ::
      && tm[t].source in sm && t in sm[tm[t].source].outTransitions
      && tm[t].target in sm && t in sm[tm[t].target].inTransitions
  }

  /** An out-dictionary holds only transitions out of its state. */
  ghost predicate OutExact(sm: map<string, State>, tm: map<string, Transition>) {
    forall k, t {:trigger t in sm[k].outTransitions} | k in sm && t in sm[k].outTransitions ::
      t in tm && tm[t].source == k
  }

  /** An in-dictionary holds only transitions into its state. */
  ghost predicate InExact(sm: map<string, State>, tm: map<string, Transition>) {
    forall k, t {:trigger t in sm[k].inTransitions} | k in sm && t in sm[k].inTransitions ::
      t in tm && tm[t].target == k
  }

  ghost predicate Linked(sm: map<string, State>, tm: map<string, Transition>) {
    IndicesDistinct(sm) && Registered(sm, tm) && OutExact(sm, tm) && InExact(sm, tm)
  }

  /** The transitions with an endpoint among `ks`. */
  function Touching(tm: map<string, Transition>, ks: set<string>): (r: set<string>)
    ensures forall t :: t in r <==> t in tm && (tm[t].source in ks || tm[t].target in ks)
  {
    set t | t in tm && (tm[t].source in ks || tm[t].target in ks)
  }

  /** Under the invariant, a state's two dictionaries together list exactly
      the transitions that touch it. */
  lemma IndexIsTouching(sm: map<string, State>, tm: map<string, Transition>, k: string)
    requires Linked(sm, tm) && k in sm
    ensures Elements(sm[k].inTransitions) + Elements(sm[k].outTransitions) == Touching(tm, {k})
  {
    assert OutExact(sm, tm) && InExact(sm, tm) && Registered(sm, tm);
  }

  /** A state that no transition touches has empty dictionaries. */
  lemma UntouchedIsIsolated(sm: map<string, State>, tm: map<string, Transition>, k: string)
    requires Linked(sm, tm) && k in sm && Touching(tm, {k}) == {}
    ensures sm[k].inTransitions == [] && sm[k].outTransitions == []
  {
    IndexIsTouching(sm, tm, k);
    ElementsHead(sm[k].inTransitions);
    ElementsHead(sm[k].outTransitions);
  }

  // Adding a state.

  /** A new state with empty dictionaries keeps the invariant. */
  lemma LinkedAddState(sm: map<string, State>, tm: map<string, Transition>, s: State)
    requires Linked(sm, tm) && s.id !in sm
    requires s.inTransitions == [] && s.outTransitions == []
    ensures Linked(sm[s.id := s], tm)
  {
    var sm' := sm[s.id := s];
    assert IndicesDistinct(sm');
    assert Registered(sm', tm) by {
      forall t | t in tm
        ensures tm[t].source in sm' && t in sm'[tm[t].source].outTransitions
        ensures tm[t].target in sm' && t in sm'[tm[t].target].inTransitions
      {
        assert tm[t].source != s.id && tm[t].target != s.id;
      }
    }
    assert OutExact(sm', tm) by {
      forall k, t {:trigger t in sm'[k].outTransitions} | k in sm' && t in sm'[k].outTransitions
        ensures t in tm && tm[t].source == k
      {
        assert k != s.id && sm'[k] == sm[k];
      }
    }
    assert InExact(sm', tm) by {
      forall k, t {:trigger t in sm'[k].inTransitions} | k in sm' && t in sm'[k].inTransitions
        ensures t in tm && tm[t].target == k
      {
        assert k != s.id && sm'[k] == sm[k];
      }
    }
  }

  lemma StatesIndexedAdd(ss: seq<string>, sm: map<string, State>, s: State)
    requires StatesIndexed(ss, sm) && s.id !in sm
    ensures StatesIndexed(ss + [s.id], sm[s.id := s])
  {
    assert s.id !in ss;
    DistinctSnoc(ss, s.id);
  }

  // Adding a transition.

  /** The constructor's registration: `source._outTransitions[id] = t`, then
      `target._inTransitions[id] = t` (the same state when the transition
      is a loop). Nothing else of any state changes. */
  function Attach(sm: map<string, State>, id: string, source: string, target: string): (r: map<string, State>)
    ensures forall k :: k in r <==> k in sm
    ensures forall k | k in r :: r[k].outTransitions == if k == source then Insert(sm[k].outTransitions, id) else sm[k].outTransitions
    ensures forall k | k in r :: r[k].inTransitions == if k == target then Insert(sm[k].inTransitions, id) else sm[k].inTransitions
    ensures forall k | k in r :: r[k] == sm[k].(inTransitions := r[k].inTransitions, outTransitions := r[k].outTransitions)
  {
    map k | k in sm ::
      sm[k].(outTransitions := if k == source then Insert(sm[k].outTransitions, id) else sm[k].outTransitions,
             inTransitions := if k == target then Insert(sm[k].inTransitions, id) else sm[k].inTransitions)
  }

  /** Registering a new transition between two states of the store keeps
      the invariant. */
  lemma LinkedAttach(sm: map<string, State>, tm: map<string, Transition>, t: Transition)
    requires Linked(sm, tm) && t.id !in tm && t.source in sm && t.target in sm
    ensures Linked(Attach(sm, t.id, t.source, t.target), tm[t.id := t])
  {
    AttachRegistered(sm, tm, t);
    AttachOutExact(sm, tm, t);
    AttachInExact(sm, tm, t);
  }

  lemma AttachRegistered(sm: map<string, State>, tm: map<string, Transition>, t: Transition)
    requires Registered(sm, tm) && t.source in sm && t.target in sm
    ensures Registered(Attach(sm, t.id, t.source, t.target), tm[t.id := t])
  {
    var sm' := Attach(sm, t.id, t.source, t.target);
    var tm' := tm[t.id := t];
    forall u | u in tm'
      ensures tm'[u].source in sm' && u in sm'[tm'[u].source].outTransitions
      ensures tm'[u].target in sm' && u in sm'[tm'[u].target].inTransitions
    {
      if u != t.id {
        assert u in sm[tm[u].source].outTransitions && u in sm[tm[u].target].inTransitions;
      }
    }
  }

  lemma AttachOutExact(sm: map<string, State>, tm: map<string, Transition>, t: Transition)
    requires OutExact(sm, tm) && t.id !in tm && t.source in sm && t.target in sm
    ensures OutExact(Attach(sm, t.id, t.source, t.target), tm[t.id := t])
  {
    var sm' := Attach(sm, t.id, t.source, t.target);
    var tm' := tm[t.id := t];
    forall k, u {:trigger u in sm'[k].outTransitions} | k in sm' && u in sm'[k].outTransitions
      ensures u in tm' && tm'[u].source == k
    {
      if u != t.id {
        assert u in sm[k].outTransitions;
      }
    }
  }

  lemma AttachInExact(sm: map<string, State>, tm: map<string, Transition>, t: Transition)
    requires InExact(sm, tm) && t.id !in tm && t.source in sm && t.target in sm
    ensures InExact(Attach(sm, t.id, t.source, t.target), tm[t.id := t])
  {
    var sm' := Attach(sm, t.id, t.source, t.target);
    var tm' := tm[t.id := t];
    forall k, u {:trigger u in sm'[k].inTransitions} | k in sm' && u in sm'[k].inTransitions
      ensures u in tm' && tm'[u].target == k
    {
      if u != t.id {
        assert u in sm[k].inTransitions;
      }
    }
  }

  lemma TransitionsIndexedAdd(ts: seq<string>, tm: map<string, Transition>, t: Transition)
    requires TransitionsIndexed(ts, tm) && t.id !in tm
    ensures TransitionsIndexed(ts + [t.id], tm[t.id := t])
  {
    assert t.id !in ts;
    DistinctSnoc(ts, t.id);
  }

  // Deleting transitions.

  /** `r` is `sm` with the ids in `ks` deleted from every state's
      dictionaries, and nothing else changed. */
  ghost predicate Stripped(r: map<string, State>, sm: map<string, State>, ks: set<string>) {
    && (forall k :: k in r <==> k in sm)
    && (forall k | k in sm :: r[k] == sm[k].(inTransitions := Without(sm[k].inTransitions, ks),
                                              outTransitions := Without(sm[k].outTransitions, ks)))
  }

  /** What deleting one transition does to the states: `delete
      sourceState._outTransitions[id]` and `delete targetState._inTransitions[id]`. */
  function Detach(sm: map<string, State>, t: Transition): (r: map<string, State>)
    ensures forall k :: k in r <==> k in sm
  {
    map k | k in sm ::
      sm[k].(outTransitions := if k == t.source then Remove(sm[k].outTransitions, t.id) else sm[k].outTransitions,
             inTransitions := if k == t.target then Remove(sm[k].inTransitions, t.id) else sm[k].inTransitions)
  }

  /** Under the invariant, deleting a transition from its endpoints deletes
      its id from every dictionary. */
  lemma DetachStrips(sm: map<string, State>, tm: map<string, Transition>, id: string)
    requires OutExact(sm, tm) && InExact(sm, tm) && id in tm && tm[id].id == id
    ensures Stripped(Detach(sm, tm[id]), sm, {id})
  {
    forall k | k in sm
      ensures Detach(sm, tm[id])[k] == sm[k].(inTransitions := Without(sm[k].inTransitions, {id}),
                                              outTransitions := Without(sm[k].outTransitions, {id}))
    {
      DetachAt(sm, tm, id, k);
    }
  }

  lemma DetachAt(sm: map<string, State>, tm: map<string, Transition>, id: string, k: string)
    requires OutExact(sm, tm) && InExact(sm, tm) && id in tm && tm[id].id == id && k in sm
    ensures Detach(sm, tm[id])[k] == sm[k].(inTransitions := Without(sm[k].inTransitions, {id}),
                                            outTransitions := Without(sm[k].outTransitions, {id}))
  {
    var t := tm[id];
    if k != t.source {
      WithoutNone(sm[k].outTransitions, {id});
    }
    if k != t.target {
      WithoutNone(sm[k].inTransitions, {id});
    }
  }

  /** Ids of no transition are in no dictionary. */
  lemma StrippedAbsent(sm: map<string, State>, tm: map<string, Transition>, ks: set<string>)
    requires OutExact(sm, tm) && InExact(sm, tm)
    requires forall k | k in ks :: k !in tm
    ensures Stripped(sm, sm, ks)
  {
    forall k | k in sm
      ensures sm[k] == sm[k].(inTransitions := Without(sm[k].inTransitions, ks),
                              outTransitions := Without(sm[k].outTransitions, ks))
    {
      WithoutNone(sm[k].inTransitions, ks);
      WithoutNone(sm[k].outTransitions, ks);
    }
  }

  /** Deleting one set of ids and then another is deleting their union. */
  lemma StrippedTwice(a: map<string, State>, b: map<string, State>, c: map<string, State>, ks1: set<string>, ks2: set<string>)
    requires Stripped(b, a, ks1) && Stripped(c, b, ks2)
    ensures Stripped(c, a, ks1 + ks2)
  {
    forall k | k in a
      ensures c[k] == a[k].(inTransitions := Without(a[k].inTransitions, ks1 + ks2),
                            outTransitions := Without(a[k].outTransitions, ks1 + ks2))
    {
      WithoutWithout(a[k].inTransitions, ks1, ks2);
      WithoutWithout(a[k].outTransitions, ks1, ks2);
    }
  }

  /** A state's dictionaries in a stripped map. */
  lemma StrippedAt(r: map<string, State>, sm: map<string, State>, ks: set<string>, k: string)
    requires Stripped(r, sm, ks) && k in sm
    ensures k in r
    ensures r[k].inTransitions == Without(sm[k].inTransitions, ks)
    ensures r[k].outTransitions == Without(sm[k].outTransitions, ks)
  {
  }

  /** What touches one more state, once what touches the first ones is
      gone, adds up to what touches them all. */
  lemma TouchingStep(tm: map<string, Transition>, rest: map<string, Transition>, ks: set<string>, k: string)
    requires rest == tm - Touching(tm, ks)
    ensures Touching(tm, ks + {k}) == Touching(tm, ks) + Touching(rest, {k})
  {
  }

  /** Deleting the same state on both sides keeps the relation. */
  lemma StrippedMinus(r: map<string, State>, sm: map<string, State>, ks: set<string>, k: string)
    requires Stripped(r, sm, ks)
    ensures Stripped(r - {k}, sm - {k}, ks)
  {
  }

  /** Deleting transitions from the dictionary and from every state's
      dictionaries keeps the invariant. */
  lemma LinkedStripped(sm: map<string, State>, tm: map<string, Transition>, ks: set<string>, r: map<string, State>)
    requires Linked(sm, tm) && Stripped(r, sm, ks)
    ensures Linked(r, tm - ks)
  {
    assert IndicesDistinct(r) by {
      forall k | k in r
        ensures Distinct(r[k].inTransitions) && Distinct(r[k].outTransitions)
      {
        WithoutDistinct(sm[k].inTransitions, ks);
        WithoutDistinct(sm[k].outTransitions, ks);
      }
    }
    StrippedRegistered(sm, tm, ks, r);
    StrippedOutExact(sm, tm, ks, r);
    StrippedInExact(sm, tm, ks, r);
  }

  lemma StrippedRegistered(sm: map<string, State>, tm: map<string, Transition>, ks: set<string>, r: map<string, State>)
    requires Registered(sm, tm) && Stripped(r, sm, ks)
    ensures Registered(r, tm - ks)
  {
    var tm' := tm - ks;
    forall u | u in tm'
      ensures tm'[u].source in r && u in r[tm'[u].source].outTransitions
      ensures tm'[u].target in r && u in r[tm'[u].target].inTransitions
    {
      assert u in sm[tm[u].source].outTransitions && u in sm[tm[u].target].inTransitions;
    }
  }

  lemma StrippedOutExact(sm: map<string, State>, tm: map<string, Transition>, ks: set<string>, r: map<string, State>)
    requires OutExact(sm, tm) && Stripped(r, sm, ks)
    ensures OutExact(r, tm - ks)
  {
    forall k, u {:trigger u in r[k].outTransitions} | k in r && u in r[k].outTransitions
      ensures u in tm - ks && (tm - ks)[u].source == k
    {
      assert u in sm[k].outTransitions;
    }
  }

  lemma StrippedInExact(sm: map<string, State>, tm: map<string, Transition>, ks: set<string>, r: map<string, State>)
    requires InExact(sm, tm) && Stripped(r, sm, ks)
    ensures InExact(r, tm - ks)
  {
    forall k, u {:trigger u in r[k].inTransitions} | k in r && u in r[k].inTransitions
      ensures u in tm - ks && (tm - ks)[u].target == k
    {
      assert u in sm[k].inTransitions;
    }
  }

  lemma TransitionsIndexedRemove(ts: seq<string>, tm: map<string, Transition>, ks: set<string>)
    requires TransitionsIndexed(ts, tm)
    ensures TransitionsIndexed(Without(ts, ks), tm - ks)
  {
    WithoutDistinct(ts, ks);
    var r := Without(ts, ks);
    forall i | 0 <= i < |r|
      ensures r[i] in tm - ks
    {
      assert r[i] in ts;
    }
  }

  // Deleting a state.

  /** A state no transition touches can go without breaking the invariant. */
  lemma LinkedRemoveState(sm: map<string, State>, tm: map<string, Transition>, k: string)
    requires Linked(sm, tm) && k in sm && Touching(tm, {k}) == {}
    ensures Linked(sm - {k}, tm)
  {
    var sm' := sm - {k};
    assert Registered(sm', tm) by {
      forall u | u in tm
        ensures tm[u].source in sm' && u in sm'[tm[u].source].outTransitions
        ensures tm[u].target in sm' && u in sm'[tm[u].target].inTransitions
      {
        assert u !in Touching(tm, {k});
      }
    }
    assert OutExact(sm', tm) by {
      forall j, u {:trigger u in sm'[j].outTransitions} | j in sm' && u in sm'[j].outTransitions
        ensures u in tm && tm[u].source == j
      {
        assert u in sm[j].outTransitions;
      }
    }
    assert InExact(sm', tm) by {
      forall j, u {:trigger u in sm'[j].inTransitions} | j in sm' && u in sm'[j].inTransitions
        ensures u in tm && tm[u].target == j
      {
        assert u in sm[j].inTransitions;
      }
    }
  }

  lemma StatesIndexedRemove(ss: seq<string>, sm: map<string, State>, ks: set<string>)
    requires StatesIndexed(ss, sm)
    ensures StatesIndexed(Without(ss, ks), sm - ks)
  {
    WithoutDistinct(ss, ks);
    var r := Without(ss, ks);
    forall i | 0 <= i < |r|
      ensures r[i] in sm - ks
    {
      assert r[i] in ss;
    }
  }

  // Moving a transition's target.

  /** `updateTarget(state)`: `delete` the id from the old target's
      in-dictionary, then file it in the new target's. */
  function Retarget(sm: map<string, State>, id: string, from: string, to: string): (r: map<string, State>)
    ensures forall k :: k in r <==> k in sm
    ensures forall k | k in r :: r[k] == sm[k].(inTransitions := r[k].inTransitions)
    ensures forall k | k in r ::
              r[k].inTransitions ==
                if k == to then Insert(if k == from then Remove(sm[k].inTransitions, id) else sm[k].inTransitions, id)
                else if k == from then Remove(sm[k].inTransitions, id)
                else sm[k].inTransitions
  {
    map k | k in sm ::
      sm[k].(inTransitions :=
        if k == to then Insert(if k == from then Remove(sm[k].inTransitions, id) else sm[k].inTransitions, id)
        else if k == from then Remove(sm[k].inTransitions, id)
        else sm[k].inTransitions)
  }

  /** Moving a transition's target to a state of the store keeps the invariant. */
  lemma LinkedRetarget(sm: map<string, State>, tm: map<string, Transition>, id: string, to: string)
    requires Linked(sm, tm) && id in tm && to in sm
    ensures tm[id].target in sm
    ensures Linked(Retarget(sm, id, tm[id].target, to), tm[id := tm[id].(target := to)])
  {
    assert Registered(sm, tm);
    RetargetDistinct(sm, id, tm[id].target, to);
    RetargetRegistered(sm, tm, id, to);
    RetargetOutExact(sm, tm, id, to);
    RetargetInExact(sm, tm, id, to);
  }

  lemma RetargetDistinct(sm: map<string, State>, id: string, from: string, to: string)
    requires IndicesDistinct(sm)
    ensures IndicesDistinct(Retarget(sm, id, from, to))
  {
    var sm' := Retarget(sm, id, from, to);
    forall k | k in sm'
      ensures Distinct(sm'[k].inTransitions) && Distinct(sm'[k].outTransitions)
    {
      var a := sm[k].inTransitions;
      WithoutDistinct(a, {id});
      var b := if k == from then Remove(a, id) else a;
      assert Distinct(b);
      assert sm'[k].inTransitions == if k == to then Insert(b, id) else b;
      assert sm'[k].outTransitions == sm[k].outTransitions;
    }
  }

  lemma RetargetRegistered(sm: map<string, State>, tm: map<string, Transition>, id: string, to: string)
    requires Registered(sm, tm) && id in tm && to in sm
    ensures tm[id].target in sm
    ensures Registered(Retarget(sm, id, tm[id].target, to), tm[id := tm[id].(target := to)])
  {
    var sm' := Retarget(sm, id, tm[id].target, to);
    var tm' := tm[id := tm[id].(target := to)];
    forall u | u in tm'
      ensures tm'[u].source in sm' && u in sm'[tm'[u].source].outTransitions
      ensures tm'[u].target in sm' && u in sm'[tm'[u].target].inTransitions
    {
      if u != id {
        assert u in sm[tm[u].target].inTransitions;
      }
    }
  }

  lemma RetargetOutExact(sm: map<string, State>, tm: map<string, Transition>, id: string, to: string)
    requires OutExact(sm, tm) && id in tm && tm[id].target in sm && to in sm
    ensures OutExact(Retarget(sm, id, tm[id].target, to), tm[id := tm[id].(target := to)])
  {
    var sm' := Retarget(sm, id, tm[id].target, to);
    var tm' := tm[id := tm[id].(target := to)];
    forall k, u {:trigger u in sm'[k].outTransitions} | k in sm' && u in sm'[k].outTransitions
      ensures u in tm' && tm'[u].source == k
    {
      assert u in sm[k].outTransitions;
    }
  }

  lemma RetargetInExact(sm: map<string, State>, tm: map<string, Transition>, id: string, to: string)
    requires InExact(sm, tm) && id in tm && tm[id].target in sm && to in sm
    ensures InExact(Retarget(sm, id, tm[id].target, to), tm[id := tm[id].(target := to)])
  {
    var sm' := Retarget(sm, id, tm[id].target, to);
    var tm' := tm[id := tm[id].(target := to)];
    forall k, u {:trigger u in sm'[k].inTransitions} | k in sm' && u in sm'[k].inTransitions
      ensures u in tm' && tm'[u].target == k
    {
      if u != id {
        assert u in sm[k].inTransitions;
      }
    }
  }

  // Changing an entity's other fields.

  /** Replacing a state by one with the same dictionaries keeps the invariant. */
  lemma LinkedReplaceState(sm: map<string, State>, tm: map<string, Transition>, s: State)
    requires Linked(sm, tm) && s.id in sm
    requires s.inTransitions == sm[s.id].inTransitions && s.outTransitions == sm[s.id].outTransitions
    ensures Linked(sm[s.id := s], tm)
  {
    var sm' := sm[s.id := s];
    assert OutExact(sm', tm) by {
      forall k, u {:trigger u in sm'[k].outTransitions} | k in sm' && u in sm'[k].outTransitions
        ensures u in tm && tm[u].source == k
      {
        assert u in sm[k].outTransitions;
      }
    }
    assert InExact(sm', tm) by {
      forall k, u {:trigger u in sm'[k].inTransitions} | k in sm' && u in sm'[k].inTransitions
        ensures u in tm && tm[u].target == k
      {
        assert u in sm[k].inTransitions;
      }
    }
  }

  /** Replacing a transition by one with the same endpoints keeps the invariant. */
  lemma LinkedReplaceTransition(sm: map<string, State>, tm: map<string, Transition>, t: Transition)
    requires Linked(sm, tm) && t.id in tm
    requires t.source == tm[t.id].source && t.target == tm[t.id].target
    ensures Linked(sm, tm[t.id := t])
  {
    assert Registered(sm, tm) && OutExact(sm, tm) && InExact(sm, tm);
  }

  // The whole invariant, and what each store operation does to it.

  /** The state list and dictionary agree, the transition list and
      dictionary agree, and the adjacency indices are exact. */
  ghost predicate Graph(ss: seq<string>, sm: map<string, State>, ts: seq<string>, tm: map<string, Transition>) {
    StatesIndexed(ss, sm) && TransitionsIndexed(ts, tm) && Linked(sm, tm)
  }

  /** Changing states without changing which ids are filed keeps the
      state list in agreement. */
  lemma StatesIndexedSameIds(ss: seq<string>, sm: map<string, State>, r: map<string, State>)
    requires StatesIndexed(ss, sm)
    requires forall k :: k in r <==> k in sm
    requires forall k | k in r :: r[k].id == sm[k].id
    ensures StatesIndexed(ss, r)
  {
  }

  lemma GraphAddState(ss: seq<string>, sm: map<string, State>, ts: seq<string>, tm: map<string, Transition>, s: State)
    requires Graph(ss, sm, ts, tm) && s.id !in sm
    requires s.inTransitions == [] && s.outTransitions == []
    ensures Graph(ss + [s.id], sm[s.id := s], ts, tm)
  {
    StatesIndexedAdd(ss, sm, s);
    LinkedAddState(sm, tm, s);
  }

  /** A new transition between two filed states: it goes at the end of
      the list and at the end of both endpoints' dictionaries. */
  lemma GraphAttach(ss: seq<string>, sm: map<string, State>, ts: seq<string>, tm: map<string, Transition>, t: Transition)
    requires Graph(ss, sm, ts, tm) && t.id !in tm && t.source in sm && t.target in sm
    ensures Graph(ss, Attach(sm, t.id, t.source, t.target), ts + [t.id], tm[t.id := t])
    ensures Attach(sm, t.id, t.source, t.target)[t.source].outTransitions == sm[t.source].outTransitions + [t.id]
    ensures Attach(sm, t.id, t.source, t.target)[t.target].inTransitions == sm[t.target].inTransitions + [t.id]
  {
    assert t.id !in sm[t.source].outTransitions && t.id !in sm[t.target].inTransitions by {
      assert OutExact(sm, tm) && InExact(sm, tm);
    }
    StatesIndexedSameIds(ss, sm, Attach(sm, t.id, t.source, t.target));
    LinkedAttach(sm, tm, t);
    TransitionsIndexedAdd(ts, tm, t);
  }

  /** Deleting a filed transition from the list, the dictionary and its
      endpoints deletes its id from every state's dictionaries. */
  lemma GraphDetach(ss: seq<string>, sm: map<string, State>, ts: seq<string>, tm: map<string, Transition>, id: string)
    requires Graph(ss, sm, ts, tm) && id in tm
    ensures Stripped(Detach(sm, tm[id]), sm, {id})
    ensures Graph(ss, Detach(sm, tm[id]), Without(ts, {id}), tm - {id})
  {
    assert OutExact(sm, tm) && InExact(sm, tm) && tm[id].id == id;
    DetachStrips(sm, tm, id);
    StatesIndexedSameIds(ss, sm, Detach(sm, tm[id]));
    LinkedStripped(sm, tm, {id}, Detach(sm, tm[id]));
    TransitionsIndexedRemove(ts, tm, {id});
  }

  /** Moving a transition's target to a filed state. */
  lemma GraphRetarget(ss: seq<string>, sm: map<string, State>, ts: seq<string>, tm: map<string, Transition>, id: string, to: string)
    requires Graph(ss, sm, ts, tm) && id in tm && to in sm
    ensures tm[id].target in sm
    ensures Graph(ss, Retarget(sm, id, tm[id].target, to), ts, tm[id := tm[id].(target := to)])
  {
    assert tm[id].target in sm by {
      assert Registered(sm, tm);
    }
    var sm' := Retarget(sm, id, tm[id].target, to);
    assert Linked(sm', tm[id := tm[id].(target := to)]) by {
      LinkedRetarget(sm, tm, id, to);
    }
    assert StatesIndexed(ss, sm') by {
      StatesIndexedSameIds(ss, sm, sm');
    }
    assert tm[id].(target := to).id == id by {
      assert TransitionsIndexed(ts, tm);
    }
    TransitionsIndexedReplace(ts, tm, tm[id].(target := to));
  }

  lemma TransitionsIndexedReplace(ts: seq<string>, tm: map<string, Transition>, t: Transition)
    requires TransitionsIndexed(ts, tm) && t.id in tm
    ensures TransitionsIndexed(ts, tm[t.id := t])
  {
  }

  /** Replacing a state by one with the same id and dictionaries. */
  lemma GraphReplaceState(ss: seq<string>, sm: map<string, State>, ts: seq<string>, tm: map<string, Transition>, s: State)
    requires Graph(ss, sm, ts, tm) && s.id in sm
    requires s.inTransitions == sm[s.id].inTransitions && s.outTransitions == sm[s.id].outTransitions
    ensures Graph(ss, sm[s.id := s], ts, tm)
  {
    LinkedReplaceState(sm, tm, s);
  }

  /** Replacing a transition by one with the same id and endpoints. */
  lemma GraphReplaceTransition(ss: seq<string>, sm: map<string, State>, ts: seq<string>, tm: map<string, Transition>, t: Transition)
    requires Graph(ss, sm, ts, tm) && t.id in tm
    requires t.source == tm[t.id].source && t.target == tm[t.id].target
    ensures Graph(ss, sm, ts, tm[t.id := t])
  {
    LinkedReplaceTransition(sm, tm, t);
    TransitionsIndexedReplace(ts, tm, t);
  }
}
