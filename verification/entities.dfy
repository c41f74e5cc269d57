/**
 * The two graph entities of a state machine layer, `State` and `Transition`.
 * The store files every entity under its id, and entities refer to each other
 * by id: a transition names its source and target states, and a state lists
 * the ids its adjacency dictionaries `_inTransitions` and `_outTransitions`
 * are keyed by, in key order. An operation that changes an entity yields the
 * entity as it is afterwards; the store puts it back under its id.
 */
module Entities {
  import opened Records
  import opened StateRecord
  import opened TransitionRecord
  import JsArrays

  datatype State = State(
    id: string,
    name: string,
    stateType: StateType,
    x: real,
    y: real,
    /** `_data`, the content record. */
    content: StateData,
    /** The keys of `_inTransitions`: the transitions into this state. */
    inTransitions: seq<string>,
    /** The keys of `_outTransitions`: the transitions out of this state. */
    outTransitions: seq<string>)
  {
    /** The `data` getter: the content with `name` and `id` stamped from the
        live fields and `transitions` rebuilt from the out-dictionary. */
    function Data(): (d: StateData)
      ensures d.id == id && d.name == name && d.transitions == outTransitions
      ensures forall k | k != IdKey && k != NameKey && k != TransitionsKey ::
        StateRecord.Lookup(d, k) == StateRecord.Lookup(content, k)
    {
      content.(name := name, transitions := outTransitions, id := id)
    }

    predicate IsEntryState() {
      stateType == Entry
    }

    predicate IsExitState() {
      stateType == Exit
    }

    predicate IsAnyState() {
      stateType == AnyState
    }

    /** Entry, Exit and AnyState are the pseudo-states. */
    predicate IsPseudo() {
      IsEntryState() || IsExitState() || IsAnyState()
    }

    /** `setPosition(x, y)`: only the position changes. */
    function SetPosition(x: real, y: real): (s: State)
      ensures s.x == x && s.y == y
      ensures s.(x := this.x, y := this.y) == this
    {
      this.(x := x, y := y)
    }

    /** `addStateMachineScript`: appends to the script list, nothing else changes. */
    function AddStateMachineScript(scriptId: string): (s: State)
      ensures |s.content.scripts| == |content.scripts| + 1
      ensures s.content.scripts[..|content.scripts|] == content.scripts
      ensures s.content.scripts[|content.scripts|] == scriptId
      ensures s == this.(content := content.(scripts := s.content.scripts))
    {
      this.(content := content.(scripts := content.scripts + [scriptId]))
    }

    /** `removeStateMachineScript(index)`: `scripts.splice(index, 1)`. */
    function RemoveStateMachineScript(index: int): (s: State)
      ensures 0 <= index < |content.scripts| ==>
        s.content.scripts == content.scripts[..index] + content.scripts[index + 1..]
      ensures index >= |content.scripts| || content.scripts == [] ==> s == this
      ensures index < 0 && content.scripts != [] ==>
        var k := if |content.scripts| + index < 0 then 0 else |content.scripts| + index;
        s.content.scripts == content.scripts[..k] + content.scripts[k + 1..]
      ensures s == this.(content := content.(scripts := s.content.scripts))
    {
      this.(content := content.(scripts := JsArrays.SpliceOne(content.scripts, index)))
    }

    /** `updateStateMachineScript(index, scriptId)`: `scripts[index] = scriptId`.
        An index inside the list replaces that entry, the index just past
        the end appends, and a negative index names a property that is not
        an element, so the list is unchanged. */
    function UpdateStateMachineScript(index: int, scriptId: string): (s: State)
      requires index <= |content.scripts|
      ensures index < 0 ==> s == this
      ensures 0 <= index < |content.scripts| ==>
        |s.content.scripts| == |content.scripts| && s.content.scripts[index] == scriptId &&
        forall j | 0 <= j < |content.scripts| && j != index :: s.content.scripts[j] == content.scripts[j]
      ensures index == |content.scripts| ==> s.content.scripts == content.scripts + [scriptId]
      ensures s == this.(content := content.(scripts := s.content.scripts))
    {
      if index < 0 then this
      else if index < |content.scripts| then this.(content := content.(scripts := content.scripts[index := scriptId]))
      else this.(content := content.(scripts := content.scripts + [scriptId]))
    }

    /** `updateData(property, value)`: the `name` property also renames the
        state; every other key of the content keeps its value. */
    function UpdateData(f: StateField): (s: State)
      ensures s.name == if f.Name? then f.name else name
      ensures StateRecord.Lookup(s.content, f.Key()) == f
      ensures forall k | k != f.Key() :: StateRecord.Lookup(s.content, k) == StateRecord.Lookup(content, k)
      ensures s == this.(name := s.name, content := s.content)
    {
      this.(name := if f.Name? then f.name else name, content := StateRecord.WithField(content, f))
    }

    /** The `data` setter: copies each own property of the argument, in order. */
    method SetData(fs: seq<StateField>) returns (s: State)
      ensures s == this.(content := StateRecord.WithFields(content, fs))
    {
      s := this;
      var i := 0;
      while i < |fs|
        invariant 0 <= i <= |fs|
        invariant s == this.(content := s.content)
        invariant StateRecord.WithFields(s.content, fs[i..]) == StateRecord.WithFields(content, fs)
      {
        assert fs[i..][1..] == fs[i + 1..];
        s := s.(content := StateRecord.WithField(s.content, fs[i]));
        i := i + 1;
      }
    }
  }

  /** A new state sits at (400, 50) with the default content and no transitions. */
  function NewState(name: string, id: string, stateType: StateType): (s: State)
    ensures s.name == name && s.id == id && s.stateType == stateType
    ensures s.x == 400.0 && s.y == 50.0
    ensures s.content.speed == 1.0 && s.content.clipStartNormalizedTime == 0.0
    ensures s.content.clipEndNormalizedTime == 1.0 && s.content.scripts == [] && !s.content.isDefault
    ensures s.content == DefaultStateData
    ensures s.inTransitions == [] && s.outTransitions == []
  {
    State(id, name, stateType, 400.0, 50.0, DefaultStateData, [], [])
  }

  /** Exactly one kind predicate holds for a pseudo-state, none for a normal one. */
  lemma KindsExclusive(s: State)
    ensures s.IsEntryState() <==> s.stateType == Entry
    ensures s.IsExitState() <==> s.stateType == Exit
    ensures s.IsAnyState() <==> s.stateType == AnyState
    ensures !(s.IsEntryState() && s.IsExitState()) && !(s.IsEntryState() && s.IsAnyState())
    ensures !(s.IsExitState() && s.IsAnyState())
    ensures s.IsPseudo() <==> s.stateType != Normal
  {
  }

  /** `isExit` holds exactly when the target is a known Exit-kind state; such
      a target is a pseudo-state of no other kind. */
  lemma IsExitKind(t: Transition, states: map<string, State>)
    ensures t.IsExit(states) <==> t.target in states && states[t.target].stateType == Exit
    ensures t.IsExit(states) ==>
      states[t.target].IsPseudo() && !states[t.target].IsEntryState() && !states[t.target].IsAnyState()
  {
    if t.target in states {
      KindsExclusive(states[t.target]);
    }
  }

  datatype Transition = Transition(
    id: string,
    /** The id of `sourceState`. */
    source: string,
    /** The id of `targetState`. */
    target: string,
    /** `_data`, the content record. */
    content: TransitionData)
  {
    /** The `data` getter: the content with `id` and both endpoint ids
        stamped from the live references. */
    function Data(): (d: TransitionData)
      ensures d.id == id && d.sourceStateId == source && d.destinationStateId == target
      ensures forall k | k != TransitionIdKey && k != SourceStateIdKey && k != DestinationStateIdKey ::
        TransitionRecord.Lookup(d, k) == TransitionRecord.Lookup(content, k)
    {
      content.(id := id, sourceStateId := source, destinationStateId := target)
    }

    /** `isExit`: `targetState?.isExitState`, false when the target is not
        among `states`. */
    predicate IsExit(states: map<string, State>) {
      target in states && states[target].IsExitState()
    }

    /** `addCondition(parameterName)`: appends a condition on the parameter,
        mode Greater, threshold 0; `conditionId` stands for the clock-based
        id the source makes. */
    function AddCondition(parameterName: string, conditionId: string): (t: Transition)
      ensures |t.content.conditions| == |content.conditions| + 1
      ensures t.content.conditions[..|content.conditions|] == content.conditions
      ensures t.content.conditions[|content.conditions|] == Condition(conditionId, parameterName, Greater, Num(0.0))
      ensures t == this.(content := content.(conditions := t.content.conditions))
    {
      this.(content := content.(conditions := content.conditions + [Condition(conditionId, parameterName, Greater, Num(0.0))]))
    }

    /** `removeCondition(index)`: `conditions.splice(index, 1)`. */
    function RemoveCondition(index: int): (t: Transition)
      ensures 0 <= index < |content.conditions| ==>
        t.content.conditions == content.conditions[..index] + content.conditions[index + 1..]
      ensures index >= |content.conditions| || content.conditions == [] ==> t == this
      ensures index < 0 && content.conditions != [] ==>
        var k := if |content.conditions| + index < 0 then 0 else |content.conditions| + index;
        t.content.conditions == content.conditions[..k] + content.conditions[k + 1..]
      ensures t == this.(content := content.(conditions := t.content.conditions))
    {
      this.(content := content.(conditions := JsArrays.SpliceOne(content.conditions, index)))
    }

    /** `updateConditionData(index, patch)`: patches the condition at `index`
        key by key, coercing a threshold; an index with no condition changes
        nothing. */
    method UpdateConditionData(index: int, fs: seq<ConditionField>) returns (t: Transition)
      ensures !(0 <= index < |content.conditions|) ==> t == this
      ensures 0 <= index < |content.conditions| ==>
        t == this.(content := content.(conditions := content.conditions[index := Patch(content.conditions[index], fs)]))
    {
      t := this;
      if !(0 <= index < |content.conditions|) {
        return;
      }
      var i := 0;
      while i < |fs|
        invariant 0 <= i <= |fs|
        invariant |t.content.conditions| == |content.conditions|
        invariant t == this.(content := content.(conditions := t.content.conditions))
        invariant t.content.conditions == content.conditions[index := t.content.conditions[index]]
        invariant Patch(t.content.conditions[index], fs[i..]) == Patch(content.conditions[index], fs)
      {
        assert fs[i..][1..] == fs[i + 1..];
        var c := PatchField(t.content.conditions[index], fs[i]);
        t := t.(content := t.content.(conditions := t.content.conditions[index := c]));
        i := i + 1;
      }
    }

    /** `updateData(property, value)`: sets one key of the content. */
    function UpdateData(f: TransitionField): (t: Transition)
      ensures TransitionRecord.Lookup(t.content, f.Key()) == f
      ensures forall k | k != f.Key() :: TransitionRecord.Lookup(t.content, k) == TransitionRecord.Lookup(content, k)
      ensures t == this.(content := t.content)
    {
      this.(content := TransitionRecord.WithField(content, f))
    }

    /** The `data` setter: copies each own property of the argument, in order. */
    method SetData(fs: seq<TransitionField>) returns (t: Transition)
      ensures t == this.(content := TransitionRecord.WithFields(content, fs))
    {
      t := this;
      var i := 0;
      while i < |fs|
        invariant 0 <= i <= |fs|
        invariant t == this.(content := t.content)
        invariant TransitionRecord.WithFields(t.content, fs[i..]) == TransitionRecord.WithFields(content, fs)
      {
        assert fs[i..][1..] == fs[i + 1..];
        t := t.(content := TransitionRecord.WithField(t.content, fs[i]));
        i := i + 1;
      }
    }
  }

  /** The constructor's content: the timing rules applied by the endpoints'
      names. Registering the new transition in the endpoints' dictionaries is
      the store's part (`Adjacency.Attach`). */
  function NewTransition(id: string, source: State, target: State): (t: Transition)
    ensures t.id == id && t.source == source.id && t.target == target.id
    ensures t.content == InitialTransitionData(source.name, target.name)
    ensures t.content.duration == if source.name == "entry" then 0.0 else 0.25
    ensures !t.content.hasExitTime <==> source.name == "entry" || source.name == "any" || target.name == "exit"
  {
    Transition(id, source.id, target.id, InitialTransitionData(source.name, target.name))
  }
}
