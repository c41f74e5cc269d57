# Animator controller editor: the state-machine store

This project models the editing core of an animator-controller editor
and proves properties of that model. An animator controller holds layers.
Each layer has a state machine made of:

- states: normal states plus three pseudo-states, `entry`, `exit` and `any`;
- transitions between states, each with a list of conditions.

The store (`AnimatorControllerStore`) does the following:

- keeps the edited layer as live state and transition objects;
- rebuilds that graph from the layer's serialized data;
- serializes it back with a debounced write;
- decides from the selected host entity whether there is a controller to edit.

The state and transition entities update their own records. A small
translation service looks up dotted keys in per-language dictionaries,
falls back to English and fills `{{n}}` placeholders.

The model is split into these modules:

- `Records`, `JsArrays`, `Decimal`: string-keyed records as insertion-ordered key lists, JavaScript's `splice`/`indexOf`, and decimal formatting and parsing of numbers.
- `StateRecord`, `TransitionRecord`: the `IStateData` and `ITransitionData` records, field by field. A JavaScript `data[key] = value` becomes `WithField`, and a `for … in` copy loop becomes `WithFields`.
- `Entities`: `State` and `Transition` as values. Each refers to the other by id: a state keeps the ids in its `_inTransitions` and `_outTransitions` dictionaries, and a transition keeps its source and target state ids.
- `Adjacency`: the invariant tying these references together (`Graph`), and the updates that keep it.
- `LayerMachine`: the `states`, `statesMap`, `transitions` and `transitionsMap` fields of the store as one value, `Machine`. Its graph operations keep `Valid`. Its deletions are methods with loops, proved against the predicates `TransitionsDeleted` and `StatesDeleted`.
- `Export`: `_exportData`, which splits the transitions by the kind of their source state.
- `Restore` and `ControllerStore`:
  - the store itself as a class whose methods update its fields;
  - `_initByStateMachineData` as loops proved against `Rebuilt`;
  - `_updateStateMachineGraph`;
  - the lifecycle setters.
- `Lifecycle`: the decision `checkAnimatorControllerAsset` takes from the host entity.
- `StateNames`: the name `_makeUniqueStateName` picks.
- `RoundTrip`: exporting a graph just rebuilt from serialized data gives that data back: the same states with the same records, and each transition record with its source filled in.
- `I18n`: `SimpleI18n`.

## Model

| member | source | states |
|---|---|---|
| Records.Without | src/stores/AnimatorControllerStore.ts:854-862 | removing a set of ids from an id list keeps exactly the ids not in the set, never lengthening it |
| Records.Insert | src/stores/transition/index.ts:55-60 | assigning a dictionary key keeps an existing key in place and appends a new one last; the key set gains exactly that key and stays free of repeats |
| Records.Remove | src/stores/transition/index.ts:81-83 | `delete` on a dictionary key leaves exactly the other keys |
| Records.WithoutWithout | src/stores/AnimatorControllerStore.ts:838-852 | removing id set a, then id set b, equals removing a ∪ b at once |
| JsArrays.SpliceStart | src/stores/state/index.ts:84-86 | the start position `splice` uses: an index inside the list as given, a negative one counted from the end and clamped at 0, and a too-large one clamped to the length |
| JsArrays.SpliceOne | src/stores/state/index.ts:84-86 | `splice(index, 1)` removes exactly the element at an index inside the list and keeps the others in order; a negative index on a non-empty list removes the element at length+index (at 0 when that is negative); an index past the end, or an empty list, leaves it unchanged |
| JsArrays.IndexOf | src/stores/AnimatorControllerStore.ts:842 | `indexOf` of a present element is the position of its first occurrence |
| JsArrays.SpliceIndexOf | src/stores/AnimatorControllerStore.ts:858 | on a repeat-free list, splicing at `indexOf(x)` removes exactly `x` |
| Decimal.NatToStringValue | src/stores/AnimatorControllerStore.ts:700 | the decimal digits written for `index` read back as `index` |
| Decimal.NatToStringInjective | src/stores/AnimatorControllerStore.ts:698-701 | distinct counters give distinct decimal texts |
| Decimal.NatToStringNumeric | src/stores/transition/index.ts:111 | a written natural number is a numeric string, and `parseFloat` of it gives the number back |
| StateNames.Candidate | src/stores/AnimatorControllerStore.ts:694-703 | the candidate for index 0 is the requested name itself, and only for index 0 |
| StateNames.CandidateInjective | src/stores/AnimatorControllerStore.ts:698-701 | the candidates `name`, `name1`, `name2`, … are pairwise distinct |
| StateNames.FirstFreeUnique | src/stores/AnimatorControllerStore.ts:694-703 | at most one name is the first free candidate, so the search result is determined |
| ControllerStore.MakeUniqueName | src/stores/AnimatorControllerStore.ts:694-703 | the loop returns a name not in the name map, the first free candidate; a free requested name is returned unchanged |
| StateRecord.Lookup | src/stores/state/index.ts:10-21 | the field read for a key carries that key |
| StateRecord.WithField | src/stores/state/index.ts:98 | after `_data[property] = value`, that key reads the new value and every other key reads as before |
| StateRecord.WithFieldsLookup | src/stores/state/index.ts:36-43 | after the `data` setter's copy loop, each key holds the last value assigned to it, or its old value when none was |
| StateRecord.WithFieldsSnoc | src/stores/state/index.ts:37-41 | copying one more field is one more single-field write |
| StateRecord.LookupExtensional | src/stores/state/index.ts:10-21 | two state records that agree on every key are equal |
| StateRecord.WithAllFields | src/stores/state/index.ts:36-43 | assigning a complete record through the setter replaces the stored record with it |
| TransitionRecord.InitialTransitionData | src/stores/transition/index.ts:62-68 | a new transition's record has duration 0 from `entry` and 0.25 otherwise; it has no exit time exactly when the source is `entry` or `any` or the target is `exit`; the other fields are the defaults of lines 7-19 |
| TransitionRecord.WithField | src/stores/transition/index.ts:122 | `updateData` sets the named key and no other |
| TransitionRecord.WithFieldsLookup | src/stores/transition/index.ts:28-35 | after the setter's copy loop, each key holds the last value assigned to it, or its old value |
| TransitionRecord.WithFieldsSnoc | src/stores/transition/index.ts:29-33 | copying one more field is one more single-field write |
| TransitionRecord.LookupExtensional | src/stores/transition/index.ts:7-19 | two transition records that agree on every key are equal |
| TransitionRecord.WithAllFields | src/stores/transition/index.ts:28-35 | assigning a complete record through the setter replaces the stored record with it |
| TransitionRecord.CoerceThresholdCases | src/stores/transition/index.ts:109-112 | a threshold becomes a number exactly when it is a number or a numeric string; anything else is kept as given |
| TransitionRecord.CoerceThresholdIdempotent | src/stores/transition/index.ts:109-112 | coercing a coerced threshold changes nothing |
| TransitionRecord.CoerceThresholdDigits | src/stores/transition/index.ts:111 | a threshold typed as decimal digits is stored as that number |
| TransitionRecord.PatchThreshold | src/stores/transition/index.ts:103-119 | `updateConditionData` stores the coerced value of the last threshold the patch gives, at whatever position; without one the threshold is kept |
| TransitionRecord.PatchMode | src/stores/transition/index.ts:103-119 | the condition's mode becomes the last mode the patch gives, or stays as it was |
| TransitionRecord.PatchParameterId | src/stores/transition/index.ts:103-119 | the condition's parameter becomes the last one the patch gives, or stays as it was |
| TransitionRecord.PatchConditionId | src/stores/transition/index.ts:103-119 | the condition's id becomes the last one the patch gives, or stays as it was |
| TransitionRecord.PatchSnoc | src/stores/transition/index.ts:107-117 | patching with one more field is one more single-field patch |
| Entities.State.Data | src/stores/state/index.ts:26-34 | the `data` getter reports the state's id and name and its out-transition ids in dictionary order; every other key is the stored record's |
| Entities.State.SetPosition | src/stores/state/index.ts:73-77 | moves the state to (x, y) and changes nothing else |
| Entities.State.AddStateMachineScript | src/stores/state/index.ts:79-82 | appends the script id to the scripts and changes nothing else |
| Entities.State.RemoveStateMachineScript | src/stores/state/index.ts:84-87 | removes the script at an index inside the list, or at length+index (clamped at 0) for a negative index; an index past the end or an empty list changes nothing; only the scripts change |
| Entities.State.UpdateStateMachineScript | src/stores/state/index.ts:89-92 | overwrites the script at an index inside the list and appends at the end index; a negative index changes nothing; only the scripts change |
| Entities.State.UpdateData | src/stores/state/index.ts:94-100 | sets the named record key and no other; the `name` key also renames the state |
| Entities.State.SetData | src/stores/state/index.ts:36-43 | the `data` setter rewrites the stored record and leaves the state's name untouched |
| Entities.NewState | src/stores/state/index.ts:6-24 | a new state has the given name, id and kind, position (400, 50), the default record and no transitions |
| Entities.IsExitKind | src/stores/transition/index.ts:45-47 | `isExit` holds exactly when the target is a known state of the Exit kind, which is then a pseudo-state of no other kind |
| Entities.KindsExclusive | src/stores/state/index.ts:45-55 | each kind predicate holds exactly for its state type, at most one holds, and a state is a pseudo-state exactly when it is not normal |
| Entities.Transition.Data | src/stores/transition/index.ts:21-26 | the `data` getter reports the transition's id, source and destination; every other key is the stored record's |
| Entities.Transition.AddCondition | src/stores/transition/index.ts:88-96 | appends a `Greater`, threshold-0 condition on the given parameter and changes nothing else |
| Entities.Transition.RemoveCondition | src/stores/transition/index.ts:98-101 | removes the condition at an index inside the list, or at length+index (clamped at 0) for a negative index; an index past the end or an empty list changes nothing; only the conditions change |
| Entities.Transition.UpdateConditionData | src/stores/transition/index.ts:103-119 | patches the condition at an index inside the list; any other index changes nothing |
| Entities.Transition.UpdateData | src/stores/transition/index.ts:121-124 | sets the named record key and no other |
| Entities.Transition.SetData | src/stores/transition/index.ts:28-35 | the `data` setter rewrites the stored record only |
| Entities.NewTransition | src/stores/transition/index.ts:49-78 | a new transition joins the given source and target, and its record follows the entry/any/exit timing rules |
| Adjacency.Touching | src/stores/AnimatorControllerStore.ts:845-846 | the transitions touching a set of states are exactly those whose source or target is in the set |
| Adjacency.IndexIsTouching | src/stores/AnimatorControllerStore.ts:845-846 | in a linked graph, a state's in- and out-dictionaries together name exactly the transitions touching it |
| Adjacency.UntouchedIsIsolated | src/stores/AnimatorControllerStore.ts:838-848 | a state no transition touches has empty dictionaries |
| Adjacency.Attach | src/stores/transition/index.ts:55-60 | a new transition is inserted into its source's out-dictionary and its target's in-dictionary, and nothing else changes |
| Adjacency.DetachAt | src/stores/AnimatorControllerStore.ts:860-861 | deleting a transition removes its id from every state's dictionaries and changes nothing else |
| Adjacency.Retarget | src/stores/transition/index.ts:80-86 | retargeting leaves every out-dictionary alone and moves the id from the old target's in-dictionary to the new one's |
| Adjacency.GraphAddState | src/stores/AnimatorControllerStore.ts:424-426 | adding a fresh state with no transitions keeps the graph invariant |
| Adjacency.GraphAttach | src/stores/AnimatorControllerStore.ts:488-491 | adding a transition between existing states keeps the invariant and appends its id to both endpoints' dictionaries |
| Adjacency.GraphDetach | src/stores/AnimatorControllerStore.ts:856-861 | deleting a transition keeps the invariant |
| Adjacency.GraphRetarget | src/stores/transition/index.ts:80-86 | retargeting a transition to an existing state keeps the invariant |
| Adjacency.GraphReplaceState | src/stores/state/index.ts:94-100 | replacing a state's fields other than its dictionaries keeps the invariant |
| Adjacency.GraphReplaceTransition | src/stores/transition/index.ts:121-124 | replacing a transition's record keeps the invariant |
| LayerMachine.Machine.AddState | src/stores/AnimatorControllerStore.ts:424-426 | adding a state appends its id to `states` and keys it in `statesMap`; the transitions are unchanged and the graph stays valid |
| LayerMachine.Machine.AddTransition | src/stores/AnimatorControllerStore.ts:488-491 | adding a transition appends it to `transitions`, keys it in `transitionsMap` and to its endpoints' dictionaries; the state list is unchanged and the graph stays valid |
| LayerMachine.Machine.DeleteTransition | src/stores/AnimatorControllerStore.ts:856-861 | deleting a transition removes it from the list, the dictionary and both endpoints, and keeps the graph valid |
| LayerMachine.Machine.DeleteState | src/stores/AnimatorControllerStore.ts:840-843 | deleting an isolated state removes it from the list and dictionary and keeps the graph valid |
| LayerMachine.Machine.UpdateTarget | src/stores/transition/index.ts:80-86 | a new target for a transition is recorded in the transition and the in-dictionaries; everything else is kept and the graph stays valid |
| LayerMachine.IsExitInGraph | src/stores/transition/index.ts:45-47 | in a valid graph `isExit` is the kind of the target alone, and after `updateTarget` it is the kind of the new target |
| LayerMachine.UpdateTargetMoves | src/stores/transition/index.ts:80-86 | after retargeting, the transition's id is in the new target's in-dictionary and not in the old one's; no out-dictionary and no other state changes |
| LayerMachine.Machine.ReplaceState | src/stores/AnimatorControllerStore.ts:445 | replacing a state in place keeps the graph valid and changes only that state |
| LayerMachine.Machine.ReplaceTransition | src/stores/AnimatorControllerStore.ts:498 | replacing a transition in place keeps the graph valid and changes only that transition |
| LayerMachine.Machine.Export | src/stores/AnimatorControllerStore.ts:714-737 | `_exportData` lists the normal states' records in order and splits the transitions, in order, into state, entry and any lists by source kind |
| LayerMachine.Machine.DeleteTransitions | src/stores/AnimatorControllerStore.ts:854-866 | deleting a list of ids removes exactly the listed transitions that exist, from both lists and all dictionaries, keeping the graph valid |
| LayerMachine.Machine.DeleteStateAndTransitions | src/stores/AnimatorControllerStore.ts:839-846 | deleting one state first deletes exactly the transitions touching it, then the now isolated state, keeping the graph valid |
| LayerMachine.Machine.DeleteStates | src/stores/AnimatorControllerStore.ts:838-852 | deleting a list of ids removes exactly the listed states that exist and every transition touching them, keeping the graph valid |
| LayerMachine.AddThenReplaceState | src/stores/AnimatorControllerStore.ts:776-779 | creating a state and then assigning its record is the same as creating it with that record |
| LayerMachine.AddThenReplaceTransition | src/stores/AnimatorControllerStore.ts:788-789 | creating a transition and then assigning its record is the same as creating it with that record |
| LayerMachine.TransitionsDeletedTwice | src/stores/AnimatorControllerStore.ts:845-846 | two deletions in a row delete the union of the id sets |
| LayerMachine.StatesDeletedNone | src/stores/AnimatorControllerStore.ts:838-852 | deleting no states leaves the graph as it is |
| LayerMachine.StatesDeletedStep | src/stores/AnimatorControllerStore.ts:839-848 | deleting one more state together with its touching transitions extends a deletion by that id |
| LayerMachine.StatesDeletedSkip | src/stores/AnimatorControllerStore.ts:841 | an id with no state adds nothing to a deletion |
| Export.KindOf | src/stores/AnimatorControllerStore.ts:720-726 | a transition is an entry transition exactly when its source is the entry state, and an any transition exactly when it is the any state |
| Export.SplitTransitions | src/stores/AnimatorControllerStore.ts:719-727 | the export loop's three lists are the transitions of each source kind, in graph order |
| Export.ExportPartitions | src/stores/AnimatorControllerStore.ts:719-727 | the three lists together have as many records as the graph has transitions |
| Export.ExportKeepsTransition | src/stores/AnimatorControllerStore.ts:719-727 | every transition's record appears in the list of its kind |
| Export.OfKindSnoc | src/stores/AnimatorControllerStore.ts:719-727 | one more transition adds its record to exactly the list of its kind |
| Export.ExportedStatesExactly | src/stores/AnimatorControllerStore.ts:733-735 | the exported states are exactly the records of the non-pseudo states |
| Export.ExportedStatesAll | src/stores/AnimatorControllerStore.ts:733-735 | with no pseudo-states, the export keeps every state's record, in order |
| Restore.Restored | src/stores/AnimatorControllerStore.ts:788-789 | a transition rebuilt from a record has the record's id and destination, the given source and the record as its data |
| Restore.TransitionIndex | src/stores/AnimatorControllerStore.ts:771-773 | every record in the id index is filed under its own id |
| Restore.TransitionIndexHolds | src/stores/AnimatorControllerStore.ts:771-773 | the index holds, for each id, the last record carrying it |
| Restore.TransitionIndexFrom | src/stores/AnimatorControllerStore.ts:771-773 | every indexed record comes from the list |
| ControllerStore.IndexTransitions | src/stores/AnimatorControllerStore.ts:771-773 | the indexing loop builds that index |
| Restore.OutLinksGrow | src/stores/AnimatorControllerStore.ts:784-795 | the transitions created for a prefix of the states come first among those for all the states |
| Restore.PlannedPseudo | src/stores/AnimatorControllerStore.ts:797-805 | every entry record is created from `entry`, and every any record from `any` |
| Restore.RestoredStep | src/stores/AnimatorControllerStore.ts:776-781 | creating the i-th state at (400 + 24i, 50 + 24i) with its record extends the states restored so far |
| Restore.LinksAddedSnoc | src/stores/AnimatorControllerStore.ts:788-789 | creating one more planned transition extends the transitions added so far |
| Restore.LinksAddedTwice | src/stores/AnimatorControllerStore.ts:784-805 | the per-state, entry and any creation runs compose |
| ControllerStore.PutState | src/stores/AnimatorControllerStore.ts:413-430 | `addState` creates a state of the given kind and id, named as asked or with the first free "New State" name, adds it to the graph and files its name |
| ControllerStore.PutTransition | src/stores/AnimatorControllerStore.ts:467-494 | `addTransition` throws for a missing source, otherwise for a missing destination, changing nothing; otherwise it adds the new transition |
| ControllerStore.InitPseudoStates | src/stores/AnimatorControllerStore.ts:807-815 | `_initStates` appends `any`, `entry` and `exit` at their fixed positions and files their names |
| ControllerStore.RestoreStates | src/stores/AnimatorControllerStore.ts:776-781 | the state loop creates every record's state, in order, with its record and staggered position |
| ControllerStore.PutLink | src/stores/AnimatorControllerStore.ts:788-789 | `addTransition` followed by assigning the record adds exactly the transition restored from the record; a missing destination throws and changes nothing |
| ControllerStore.AddLinks | src/stores/AnimatorControllerStore.ts:786-805 | creating a run of transitions succeeds exactly when every destination exists, and then adds each with its record; a failure names a missing destination |
| ControllerStore.AddBatch | src/stores/AnimatorControllerStore.ts:786-795 | one state's transitions are added as planned, or the data is shown not restorable |
| ControllerStore.AddStateBatches | src/stores/AnimatorControllerStore.ts:784-795 | the second state loop adds every listed out-transition found in the index, or fails only on data that is not restorable |
| ControllerStore.AddPseudoBatches | src/stores/AnimatorControllerStore.ts:797-805 | the entry and any loops complete the plan, or fail only on data that is not restorable |
| ControllerStore.RestoreAllStates | src/stores/AnimatorControllerStore.ts:765-781 | the pseudo-states and then every state record are created, with no transitions |
| ControllerStore.RestoreMachine | src/stores/AnimatorControllerStore.ts:765-805 | `_initByStateMachineData` succeeds exactly when every created transition finds its destination, and then builds exactly the planned graph; otherwise it names a missing destination |
| ControllerStore.RebuiltFrom | src/stores/AnimatorControllerStore.ts:765-805 | having added the whole plan means the graph is rebuilt and the data was restorable |
| ControllerStore.Bound | src/stores/AnimatorControllerStore.ts:139-149 | without a bound id there is no controller; with one, the controller is the asset found under it |
| ControllerStore.RebuildGraph | src/stores/AnimatorControllerStore.ts:635-692 | `_updateStateMachineGraph`: no controller leaves an empty graph; fresh data is rebuilt from the first layer and consumed exactly when the rebuild completes; otherwise a saved graph is imported (empty here) or the pseudo-states are created; a missing layer is an error; it arms the debounced write exactly when it reaches `addState` |
| ControllerStore.ArmsWriteExactly | src/stores/AnimatorControllerStore.ts:635-692 | the rebuild arms the debounced write exactly when it created states: it completed with a non-empty graph, or it stopped at a missing destination after creating the states |
| ControllerStore.Logged | src/stores/AnimatorControllerStore.ts:611-620 | a write is appended, holding the exported graph, exactly when a controller is bound and found |
| ControllerStore.LogWrite | src/stores/AnimatorControllerStore.ts:611-620 | `_updateStateMachineDataImmediately` performs that write |
| ControllerStore.RebuildAndWrite | src/stores/AnimatorControllerStore.ts:635-692 | a rebuild followed by the immediate write at its end, which a failed rebuild skips; the debounced write the rebuild armed is reported either way |
| ControllerStore.AnimatorControllerStore.constructor | src/stores/AnimatorControllerStore.ts:28-60 | the store starts with an empty graph, no selection, `NeedSelect`, no controller, layer 0 and no pending write |
| ControllerStore.AnimatorControllerStore.AddState | src/stores/AnimatorControllerStore.ts:413-430 | adds the new state (generated id when none is given) under the name given, or, without one, under the first free "New State" name, files the name, and requests a write |
| ControllerStore.AnimatorControllerStore.AddTransition | src/stores/AnimatorControllerStore.ts:467-494 | adds the new transition when both endpoints exist and requests a write; otherwise reports which endpoint is missing and changes nothing |
| ControllerStore.AnimatorControllerStore.HandleAddTransition | src/stores/AnimatorControllerStore.ts:817-828 | adds a transition drawn in the graph view and requests a write |
| ControllerStore.AnimatorControllerStore.SelectState | src/stores/AnimatorControllerStore.ts:327-336 | selects a state, but never a pseudo-state; the empty id clears the selection kind |
| ControllerStore.AnimatorControllerStore.SelectTransition | src/stores/AnimatorControllerStore.ts:338-345 | selects a transition; the empty id clears the selection kind |
| ControllerStore.AnimatorControllerStore.ClearSelect | src/stores/AnimatorControllerStore.ts:407-411 | clears both selections |
| ControllerStore.AnimatorControllerStore.HandleStateMove | src/stores/AnimatorControllerStore.ts:626-633 | moves an existing state and requests a write; an unknown id changes nothing |
| ControllerStore.AnimatorControllerStore.HandleUpdateTransitionTarget | src/stores/AnimatorControllerStore.ts:830-836 | retargets an existing transition and requests a write; an unknown id changes nothing |
| ControllerStore.AnimatorControllerStore.HandleTransitionsDelete | src/stores/AnimatorControllerStore.ts:854-866 | deletes exactly the listed transitions that exist, clears the selection and requests a write |
| ControllerStore.AnimatorControllerStore.HandleStatesDelete | src/stores/AnimatorControllerStore.ts:838-852 | deletes exactly the listed states that exist and their transitions, clears the selection and requests a write |
| ControllerStore.AnimatorControllerStore.UpdateStateData | src/stores/AnimatorControllerStore.ts:432-447 | updates a key of the selected state; a new name that another state holds is made unique, the old name is unfiled and the new one filed; no selected state changes nothing |
| ControllerStore.AnimatorControllerStore.FileName | src/stores/AnimatorControllerStore.ts:435-444 | the renaming step: the state's old name is dropped and the requested name kept unless another state holds it, in which case it is the first free candidate |
| ControllerStore.AnimatorControllerStore.AddStateMachineScript | src/stores/AnimatorControllerStore.ts:449-453 | appends a script to the selected state and requests a write |
| ControllerStore.AnimatorControllerStore.RemoveStateMachineScript | src/stores/AnimatorControllerStore.ts:455-459 | removes a script from the selected state and requests a write |
| ControllerStore.AnimatorControllerStore.UpdateStateMachineScript | src/stores/AnimatorControllerStore.ts:461-465 | overwrites a script of the selected state and requests a write |
| ControllerStore.AnimatorControllerStore.UpdateTransitionData | src/stores/AnimatorControllerStore.ts:496-500 | updates a key of the selected transition and requests a write |
| ControllerStore.AnimatorControllerStore.AddCondition | src/stores/AnimatorControllerStore.ts:502-508 | adds a condition on the first parameter (or none) to the selected transition and requests a write |
| ControllerStore.AnimatorControllerStore.RemoveCondition | src/stores/AnimatorControllerStore.ts:510-514 | removes a condition of the selected transition and requests a write |
| ControllerStore.AnimatorControllerStore.UpdateConditionData | src/stores/AnimatorControllerStore.ts:516-520 | patches a condition of the selected transition and requests a write; a missing condition changes no graph |
| ControllerStore.AnimatorControllerStore.Reset | src/stores/AnimatorControllerStore.ts:705-712 | empties the graph and the name map |
| ControllerStore.AnimatorControllerStore.Rebuild | src/stores/AnimatorControllerStore.ts:635-692 | rebuilds the graph of the bound controller, performs the final write when it completes, and arms the debounced write when it reached `addState`, even if it then failed |
| ControllerStore.AnimatorControllerStore.WriteImmediately | src/stores/AnimatorControllerStore.ts:611-620 | writes the exported graph to the bound controller when it is found |
| ControllerStore.AnimatorControllerStore.FlushWrite | src/stores/AnimatorControllerStore.ts:106-108 | the debounced write fires once for any number of requests since the last one, and not at all without one |
| ControllerStore.AnimatorControllerStore.SelectLayer | src/stores/AnimatorControllerStore.ts:564-568 | the same layer changes nothing; another layer writes the old one back, then rebuilds, writes and arms the debounced write as the rebuild does |
| ControllerStore.AnimatorControllerStore.SetEditingControllerId | src/stores/AnimatorControllerStore.ts:151-208 | the same id changes nothing; another id writes the old graph back; a non-empty one resets to layer 0 and rebuilds, arming the debounced write as the rebuild does |
| ControllerStore.AnimatorControllerStore.ControllerLoaded | src/stores/AnimatorControllerStore.ts:173-206 | the delayed load, scheduled only by a setter call whose rebuild did not throw, marks the editor editable and, if a controller is bound, rebuilds, writes and arms the debounced write as the rebuild does |
| ControllerStore.AnimatorControllerStore.SelectController | src/stores/AnimatorControllerStore.ts:314-325 | selecting an asset clears the selection and binds it through the id setter; the editor becomes editable unless the setter's rebuild failed, which leaves the editor state as it was |
| ControllerStore.AnimatorControllerStore.CheckAnimatorControllerAsset | src/stores/AnimatorControllerStore.ts:522-562 | takes the corrected decision: with a controller bound, nothing; with none, the entity's controller is bound (rebuilding and arming the debounced write as the setter does), or the editor asks to select or create one |
| ControllerStore.AnimatorControllerStore.InitStates | src/stores/AnimatorControllerStore.ts:807-815 | adds the three pseudo-states at their positions and requests a write |
| Lifecycle.AssetId | src/stores/AnimatorControllerStore.ts:556-559 | the asset id is the reference id, followed by `-` and the key when there is a key |
| Lifecycle.AssetIdPrefix | src/stores/AnimatorControllerStore.ts:556-559 | for a reference id without `-`, the first `-` of the asset id ends the reference id |
| Lifecycle.AssetIdInjective | src/stores/AnimatorControllerStore.ts:556-559 | for reference ids without `-`, distinct references have distinct asset ids |
| Lifecycle.AssetIdAmbiguous | src/stores/AnimatorControllerStore.ts:556-559 | a reference id containing `-` can collide with another reference |
| Lifecycle.DecideAsWritten | src/stores/AnimatorControllerStore.ts:522-562 | the decision as the code runs: it never skips |
| Lifecycle.DecideAsWrittenIgnoresBinding | src/stores/AnimatorControllerStore.ts:525-528 | with a controller bound and an entity without an animator, the code asks to create one where the guard meant to skip |
| Lifecycle.Decide | src/stores/AnimatorControllerStore.ts:525-528 | the corrected decision: skip when a controller is bound, otherwise decide as the rest of the code does |
| Lifecycle.DecideBinds | src/stores/AnimatorControllerStore.ts:530-561 | the check binds exactly when nothing is bound and the entity has an animator with a controller, and then binds that entity and asset id |
| Lifecycle.StateAfter | src/stores/AnimatorControllerStore.ts:534-554 | asking to select or create sets that editor state; binding or skipping leaves it |
| RoundTrip.ExportRebuiltStates | src/stores/AnimatorControllerStore.ts:776-781 | exporting a rebuilt graph gives one record per state record, in order, equal to it except for the state's name and out-transition list, and equal except for the out-transition list when the record has a name |
| RoundTrip.ExportRebuiltTransitions | src/stores/AnimatorControllerStore.ts:784-805 | exporting a rebuilt graph lists the per-state transitions in creation order, and gives back the entry and any records in order with their source filled in |
| RoundTrip.RebuiltOutTransitions | src/stores/AnimatorControllerStore.ts:784-795 | a rebuilt state's out-transitions are exactly the listed ids that the transition index resolves |
| I18n.ParseLanguage | src/i18n/index.ts:218 | a code is accepted exactly when it is one of the supported languages' codes |
| I18n.Split | src/i18n/index.ts:271 | splitting a key on `.` gives at least one part, none containing `.` |
| I18n.JoinSplit | src/i18n/index.ts:271 | joining the parts with `.` gives the key back |
| I18n.WalkSnoc | src/i18n/index.ts:274-292 | walking one more key part is one more dictionary step |
| I18n.WalkBroken | src/i18n/index.ts:274-292 | once the walk misses a part, the whole lookup misses |
| I18n.DigitRun | src/i18n/index.ts:247 | the digit run read for `\d+` is all digits and maximal |
| I18n.DigitRunStops | src/i18n/index.ts:247 | `\d+` matches a digit string up to, and not past, the first non-digit after it |
| I18n.PlaceholderOf | src/i18n/index.ts:247 | `{{n}}` written with n's decimal digits matches as the placeholder of index n, covering the whole text |
| I18n.InterpolateWithoutParams | src/i18n/index.ts:246-251 | with no defined parameters, interpolation leaves the text unchanged |
| I18n.InterpolatePlaceholder | src/i18n/index.ts:247-250 | `{{n}}` is replaced by the n-th parameter when that parameter is defined |
| I18n.LocalizeMissing | src/i18n/index.ts:238-243 | a key that resolves to no text in either table is returned as the translation |
| I18n.LocalizeEnglishFallback | src/i18n/index.ts:278-288 | a key missing from the current non-English table is translated from English |
| I18n.LocalizeDictionary | src/i18n/index.ts:270-295 | a key naming a dictionary in the current table translates to the key itself |
| I18n.SimpleI18n.constructor | src/i18n/index.ts:229-236 | a supported language code is used; anything else leaves English |
| I18n.SimpleI18n.GetTranslation | src/i18n/index.ts:270-295 | looks up the key in the current table with the English fallback |
| I18n.SimpleI18n.T | src/i18n/index.ts:238-254 | translates with the key as the fallback and then fills the placeholders |
| I18n.SimpleI18n.GetCurrentLanguage | src/i18n/index.ts:256-258 | the reported code parses back to the current language |
| I18n.SimpleI18n.SetLanguage | src/i18n/index.ts:260-264 | a supported code switches the language; anything else keeps it |
| I18n.SimpleI18n.GetAvailableLanguages | src/i18n/index.ts:266-268 | lists exactly the supported codes, `en`, `zh` and `ja` |

## Left out

- Objects and aliasing. The graph is one value (`Machine`) that each store method reassigns. States and transitions are values that refer to each other by id, so the object identity the source relies on is not modelled. Neither are MobX observability and `_syncData`.
- The graph view (`src/stores/graph.ts`) is not part of this model. The calls the store makes on it (`addState`, `addTransition`, `exportGraphData`) are left out, and so is the `exportGraphData` argument of the write.
- `_importGraphData` (lines 739-763) is left out, because it replays the graph view's saved layout. `ControllerStore.RebuildGraph` leaves the graph empty in that branch.
- The fallback branch of `_updateStateMachineGraph` (lines 648-672) is left out. It runs when the computed `editingAnimatorController` (lines 139-149) finds no controller, and looks the controller up directly in the asset store. When that finds one, it rebuilds from `layers[0]` (or creates the pseudo-states with `_initStates`), writes back immediately and makes the editor editable. The model takes the computed lookup and the direct one to agree, so `found` stands for both.
- The host editor is not modelled, and neither are the asset store and the entity selection. Their snapshots are parameters: the asset found for an id (`found`), whether the previous controller is still found (`oldFound`), and the selected entity with its animator (`host`). So are the effects of `selectAsset` and `applyControllerData`.
- The constructor's subscriptions are left out. So are `selectEntity`/`unselectEntity`, `setVisibility`, play/pause, `addLayer`/`removeLayer` and the context menu.
- `uuidv4()` and `Date.now()` are inputs: `generatedId` of `AddState`/`AddTransition`, and the `conditionId` of `AddCondition`.
- The 1000 ms debounce of `updateStateMachineData` is modelled as a `writeRequested` flag. `FlushWrite` is the moment the timer fires. Every `addState`/`addTransition` call arms it, including those inside a rebuild, so a rebuild that throws part-way still leaves its partial graph to be written when the timer fires.
- The 100 ms timeout of the controller-id setter is modelled as a separate step, `ControllerLoaded`.
- JavaScript numbers are reals, so no floating-point rounding is modelled. Thresholds are modelled as numbers or strings. `Decimal.IsNumeric` accepts plain decimals only, not exponents, `Infinity` or surrounding spaces.
- `I18n`: `String(param)` is taken as given, and the parameters are `Option<string>`. A non-array `params` is not modelled. The translation tables are a parameter.
- ControllerStore.AnimatorControllerStore.AddState and ControllerStore.PutState require the new state's id to be fresh. The source would silently overwrite the dictionary entry and duplicate the list entry.
- ControllerStore.AnimatorControllerStore.AddTransition, ControllerStore.PutTransition and ControllerStore.AnimatorControllerStore.HandleAddTransition require the transition id to be fresh. `HandleAddTransition` also requires both endpoints to exist, because its only caller, the graph view's edge check (`src/stores/graph.ts:432-440`), reports only edges whose two ends are cells of the view, which are existing states. With a missing endpoint the source behaves unevenly (a missing target from `entry`/`any` gives a dangling transition, a missing source writes the target's in-dictionary and then throws), and none of that is modelled.
- ControllerStore.AnimatorControllerStore.HandleUpdateTransitionTarget requires the new target to exist, as `updateTarget` dereferences it.
- ControllerStore.AnimatorControllerStore.UpdateStateMachineScript and Entities.State.UpdateStateMachineScript require the index to be at most the list's length. JavaScript would leave holes in the array when writing past the end.
- ControllerStore.RestoreMachine, ControllerStore.RebuildGraph and the setters that rebuild require the serialized data to be well formed. Its ids must be non-empty, the state ids distinct from each other and from the pseudo-state ids, and the transition ids to create distinct. On other data the source throws part-way or overwrites entries.
- ControllerStore.RestoreMachine starts from the empty graph that `_reset` leaves. A rebuild that throws part-way leaves whatever it built so far; the model returns that graph together with the error.
- ControllerStore.AnimatorControllerStore.HandleStatesDelete deletes the touching transitions by the set of ids. The source deletes a state's in-transitions before its out-transitions; the resulting graph is the same.
- RoundTrip.ExportRebuiltTransitions and RoundTrip.RebuiltOutTransitions state the per-state out-transition lists as sets of ids, not their order.
- Export.KindOf sorts a transition whose source is not in the state dictionary with the state transitions. The source reads the kind from the transition's own source object; in a valid graph every source is in the dictionary (`Machine.Export` states this), so the extra case never arises.
- Entities.State.Data orders the out-transitions by insertion. That matches JavaScript only for keys that are not integer-like, which generated ids are not.
- JavaScript objects used as dictionaries also find inherited keys such as `constructor` (`k in current` in `src/i18n/index.ts:275`, and the `statesMap`/`_statesNameMap` lookups). Maps in the model hold only the keys put into them.
- The name map `_statesNameMap` keeps the names of deleted states, as the source does, and the model does not clean it.

## Findings

| source | as written | input that shows it | evidently intended | confidence | as-written member | corrected member |
|---|---|---|---|---|---|---|
| src/stores/AnimatorControllerStore.ts:525-528 | the guard reads `this.editingAnimatorControllerId`, but that accessor has only a setter (line 151), so the read is `undefined` and the early return never runs | a controller `c1` is bound and the selected entity has no animator: the code switches the editor to "create" and selects the entity | skip the check while a controller is bound | not executed | Lifecycle.DecideAsWritten, Lifecycle.DecideAsWrittenIgnoresBinding | Lifecycle.Decide, ControllerStore.AnimatorControllerStore.CheckAnimatorControllerAsset |

`selectController` (line 316) has the same guard, reading the same accessor, so it never returns early either. There the id setter already ignores an unchanged id, so the difference is only that the selection is cleared and the editor state set again. `ControllerStore.AnimatorControllerStore.SelectController` is modelled as written.
