/**
 * The content record a transition keeps (`ITransitionData`, the transition's
 * `_data`), its conditions, and the timing defaults fixed at construction.
 */
module TransitionRecord {
  import Decimal

  /** How a condition compares its parameter with the threshold. */
  datatype ConditionMode = If | IfNot | Greater | Less | Equals | NotEqual

  /** A JavaScript value that is either a number or a string. */
  datatype Scalar = Num(n: real) | Text(s: string)

  /** `IConditionData`. */
  datatype Condition = Condition(id: string, parameterId: string, mode: ConditionMode, threshold: Scalar)

  /** `ITransitionData`. */
  datatype TransitionData = TransitionData(
    id: string,
    sourceStateId: string,
    destinationStateId: string,
    isFixedDuration: bool,
    duration: real,
    offset: real,
    exitTime: real,
    solo: bool,
    mute: bool,
    hasExitTime: bool,
    conditions: seq<Condition>)

  /** The record a new transition starts with, before the timing rules. */
  const DefaultTransitionData: TransitionData :=
    TransitionData("", "", "", false, 0.25, 0.0, 0.75, false, false, true, [])

  /** The constructor's timing rules, decided by the endpoints' NAMES:
      a transition out of `entry` takes no time, and one out of `entry` or
      `any`, or into `exit`, does not wait for an exit time. */
  function InitialTransitionData(sourceName: string, targetName: string): (d: TransitionData)
    ensures d.duration == if sourceName == "entry" then 0.0 else 0.25
    ensures !d.hasExitTime <==> sourceName == "entry" || sourceName == "any" || targetName == "exit"
    ensures d.exitTime == 0.75 && d.offset == 0.0 && d.conditions == []
    ensures !d.solo && !d.mute && !d.isFixedDuration
  {
    var d := if sourceName == "entry" then DefaultTransitionData.(duration := 0.0) else DefaultTransitionData;
    if sourceName == "entry" || sourceName == "any" || targetName == "exit" then d.(hasExitTime := false) else d
  }

  /** The keys of `ITransitionData`. */
  datatype TransitionKey =
    | TransitionIdKey | SourceStateIdKey | DestinationStateIdKey | IsFixedDurationKey
    | DurationKey | OffsetKey | ExitTimeKey | SoloKey | MuteKey | HasExitTimeKey | ConditionsKey

  /** One key of `ITransitionData` with a value for it. */
  datatype TransitionField =
    | TransitionId(id: string)
    | SourceStateId(sourceStateId: string)
    | DestinationStateId(destinationStateId: string)
    | IsFixedDuration(isFixedDuration: bool)
    | Duration(duration: real)
    | Offset(offset: real)
    | ExitTime(exitTime: real)
    | Solo(solo: bool)
    | Mute(mute: bool)
    | HasExitTime(hasExitTime: bool)
    | Conditions(conditions: seq<Condition>)
  {
    function Key(): TransitionKey {
      match this
      case TransitionId(_) => TransitionIdKey
      case SourceStateId(_) => SourceStateIdKey
      case DestinationStateId(_) => DestinationStateIdKey
      case IsFixedDuration(_) => IsFixedDurationKey
      case Duration(_) => DurationKey
      case Offset(_) => OffsetKey
      case ExitTime(_) => ExitTimeKey
      case Solo(_) => SoloKey
      case Mute(_) => MuteKey
      case HasExitTime(_) => HasExitTimeKey
      case Conditions(_) => ConditionsKey
    }
  }

  /** `d[k]`. */
  function Lookup(d: TransitionData, k: TransitionKey): (f: TransitionField)
    ensures f.Key() == k
  {
    match k
    case TransitionIdKey => TransitionId(d.id)
    case SourceStateIdKey => SourceStateId(d.sourceStateId)
    case DestinationStateIdKey => DestinationStateId(d.destinationStateId)
    case IsFixedDurationKey => IsFixedDuration(d.isFixedDuration)
    case DurationKey => Duration(d.duration)
    case OffsetKey => Offset(d.offset)
    case ExitTimeKey => ExitTime(d.exitTime)
    case SoloKey => Solo(d.solo)
    case MuteKey => Mute(d.mute)
    case HasExitTimeKey => HasExitTime(d.hasExitTime)
    case ConditionsKey => Conditions(d.conditions)
  }

  /** `d[f.key] = f.value`: sets one key and leaves every other key as it was. */
  function WithField(d: TransitionData, f: TransitionField): (r: TransitionData)
    ensures Lookup(r, f.Key()) == f
    ensures forall k | k != f.Key() :: Lookup(r, k) == Lookup(d, k)
  {
    match f
    case TransitionId(v) => d.(id := v)
    case SourceStateId(v) => d.(sourceStateId := v)
    case DestinationStateId(v) => d.(destinationStateId := v)
    case IsFixedDuration(v) => d.(isFixedDuration := v)
    case Duration(v) => d.(duration := v)
    case Offset(v) => d.(offset := v)
    case ExitTime(v) => d.(exitTime := v)
    case Solo(v) => d.(solo := v)
    case Mute(v) => d.(mute := v)
    case HasExitTime(v) => d.(hasExitTime := v)
    case Conditions(v) => d.(conditions := v)
  }

  /** Applying the fields one after the other, as the setter's loop does. */
  function WithFields(d: TransitionData, fs: seq<TransitionField>): TransitionData
    decreases |fs|
  {
    if fs == [] then d else WithFields(WithField(d, fs[0]), fs[1..])
  }

  /** The value the last field of `fs` with key `k` carries, or `dflt`. */
  function LastFor(fs: seq<TransitionField>, k: TransitionKey, dflt: TransitionField): TransitionField
  {
    if fs == [] then dflt
    else if fs[|fs| - 1].Key() == k then fs[|fs| - 1]
    else LastFor(fs[..|fs| - 1], k, dflt)
  }

  lemma {:induction false} WithFieldsSnoc(d: TransitionData, fs: seq<TransitionField>, f: TransitionField)
    ensures WithFields(d, fs + [f]) == WithField(WithFields(d, fs), f)
    decreases |fs|
  {
    if fs == [] {
      assert [f][1..] == [];
    } else {
      assert (fs + [f])[1..] == fs[1..] + [f];
      WithFieldsSnoc(WithField(d, fs[0]), fs[1..], f);
    }
  }

  /** After the setter, a key given in `fs` holds the value given last for it;
      every key not given keeps its old value. */
  lemma {:induction false} WithFieldsLookup(d: TransitionData, fs: seq<TransitionField>, k: TransitionKey)
    ensures Lookup(WithFields(d, fs), k) == LastFor(fs, k, Lookup(d, k))
  {
    if fs != [] {
      var last := fs[|fs| - 1];
      var init := fs[..|fs| - 1];
      WithFieldsSnoc(d, init, last);
      assert init + [last] == fs;
      WithFieldsLookup(d, init, k);
    }
  }

  /** Every key of `d` with its value. */
  function FieldsOf(d: TransitionData): (fs: seq<TransitionField>)
    ensures |fs| == 11
  {
    [ TransitionId(d.id), SourceStateId(d.sourceStateId), DestinationStateId(d.destinationStateId),
      IsFixedDuration(d.isFixedDuration), Duration(d.duration), Offset(d.offset), ExitTime(d.exitTime),
      Solo(d.solo), Mute(d.mute), HasExitTime(d.hasExitTime), Conditions(d.conditions) ]
  }

  /** A record is determined by what it holds under each key. */
  lemma LookupExtensional(a: TransitionData, b: TransitionData)
    requires forall k :: Lookup(a, k) == Lookup(b, k)
    ensures a == b
  {
    assert Lookup(a, TransitionIdKey) == Lookup(b, TransitionIdKey);
    assert Lookup(a, SourceStateIdKey) == Lookup(b, SourceStateIdKey);
    assert Lookup(a, DestinationStateIdKey) == Lookup(b, DestinationStateIdKey);
    assert Lookup(a, IsFixedDurationKey) == Lookup(b, IsFixedDurationKey);
    assert Lookup(a, DurationKey) == Lookup(b, DurationKey);
    assert Lookup(a, OffsetKey) == Lookup(b, OffsetKey);
    assert Lookup(a, ExitTimeKey) == Lookup(b, ExitTimeKey);
    assert Lookup(a, SoloKey) == Lookup(b, SoloKey);
    assert Lookup(a, MuteKey) == Lookup(b, MuteKey);
    assert Lookup(a, HasExitTimeKey) == Lookup(b, HasExitTimeKey);
    assert Lookup(a, ConditionsKey) == Lookup(b, ConditionsKey);
  }

  /** The last field with key `k` is the one at `i` when no later field has that key. */
  lemma {:induction false} LastForAt(fs: seq<TransitionField>, k: TransitionKey, dflt: TransitionField, i: nat)
    requires i < |fs| && fs[i].Key() == k
    requires forall j | i < j < |fs| :: fs[j].Key() != k
    ensures LastFor(fs, k, dflt) == fs[i]
  {
    if i < |fs| - 1 {
      LastForAt(fs[..|fs| - 1], k, dflt, i);
    }
  }

  /** Giving the setter a complete record makes the content that record. */
  lemma WithAllFields(d: TransitionData, e: TransitionData)
    ensures WithFields(d, FieldsOf(e)) == e
  {
    forall k ensures Lookup(WithFields(d, FieldsOf(e)), k) == Lookup(e, k) {
      WithAllFieldsAt(d, e, k);
    }
    LookupExtensional(WithFields(d, FieldsOf(e)), e);
  }

  lemma WithAllFieldsAt(d: TransitionData, e: TransitionData, k: TransitionKey)
    ensures Lookup(WithFields(d, FieldsOf(e)), k) == Lookup(e, k)
  {
    WithFieldsLookup(d, FieldsOf(e), k);
    if k.TransitionIdKey? || k.SourceStateIdKey? || k.DestinationStateIdKey? || k.IsFixedDurationKey? {
      LastOfIdentity(e, k, Lookup(d, k));
    } else if k.DurationKey? || k.OffsetKey? || k.ExitTimeKey? || k.SoloKey? {
      LastOfTiming(e, k, Lookup(d, k));
    } else {
      LastOfFlags(e, k, Lookup(d, k));
    }
  }

  /** In a complete copy, the identity keys are read from the copied record. */
  lemma LastOfIdentity(e: TransitionData, k: TransitionKey, dflt: TransitionField)
    requires k.TransitionIdKey? || k.SourceStateIdKey? || k.DestinationStateIdKey? || k.IsFixedDurationKey?
    ensures LastFor(FieldsOf(e), k, dflt) == Lookup(e, k)
  {
    var i := match k
      case TransitionIdKey => 0 case SourceStateIdKey => 1 case DestinationStateIdKey => 2 case _ => 3;
    LastForAt(FieldsOf(e), k, dflt, i);
  }

  /** In a complete copy, the timing keys are read from the copied record. */
  lemma LastOfTiming(e: TransitionData, k: TransitionKey, dflt: TransitionField)
    requires k.DurationKey? || k.OffsetKey? || k.ExitTimeKey? || k.SoloKey?
    ensures LastFor(FieldsOf(e), k, dflt) == Lookup(e, k)
  {
    var i := match k
      case DurationKey => 4 case OffsetKey => 5 case ExitTimeKey => 6 case _ => 7;
    LastForAt(FieldsOf(e), k, dflt, i);
  }

  /** In a complete copy, the remaining keys are read from the copied record. */
  lemma LastOfFlags(e: TransitionData, k: TransitionKey, dflt: TransitionField)
    requires k.MuteKey? || k.HasExitTimeKey? || k.ConditionsKey?
    ensures LastFor(FieldsOf(e), k, dflt) == Lookup(e, k)
  {
    var i := match k
      case MuteKey => 8 case HasExitTimeKey => 9 case _ => 10;
    LastForAt(FieldsOf(e), k, dflt, i);
  }

  /** The threshold coercion of `updateConditionData`: a truthy numeric-like
      value becomes the number `parseFloat` reads from it; anything else (an
      empty string, text that is not a number) is kept as given. A number is
      kept as it is (`parseFloat` of a number's text is that number, and the
      falsy 0 is kept raw). */
  function CoerceThreshold(v: Scalar): (r: Scalar)
  {
    match v
    case Num(_) => v
    case Text(s) => if s != "" && Decimal.IsNumeric(s) then Num(Decimal.DecimalValue(s)) else v
  }

  /** Coercion yields a number exactly for numbers and numeric-like text, and
      keeps any other text unchanged. */
  lemma CoerceThresholdCases(v: Scalar)
    ensures CoerceThreshold(v).Num? <==> v.Num? || Decimal.IsNumeric(v.s)
    ensures CoerceThreshold(v).Text? ==> CoerceThreshold(v) == v
  {
    if v.Text? && Decimal.IsNumeric(v.s) {
      assert v.s != "";
    }
  }

  /** Coercing twice is coercing once. */
  lemma CoerceThresholdIdempotent(v: Scalar)
    ensures CoerceThreshold(CoerceThreshold(v)) == CoerceThreshold(v)
  {
  }

  /** Typing the digits of a whole number stores that number. */
  lemma CoerceThresholdDigits(n: nat)
    ensures CoerceThreshold(Text(Decimal.NatToString(n))) == Num(n as real)
  {
    Decimal.NatToStringNumeric(n);
  }

  /** One own property of the patch given to `updateConditionData`. */
  datatype ConditionField =
    | ConditionId(id: string)
    | ParameterId(parameterId: string)
    | Mode(mode: ConditionMode)
    | Threshold(threshold: Scalar)

  /** One step of `updateConditionData`'s loop: `threshold` is coerced, every
      other key is copied as given. */
  function PatchField(c: Condition, f: ConditionField): Condition
  {
    match f
    case ConditionId(v) => c.(id := v)
    case ParameterId(v) => c.(parameterId := v)
    case Mode(v) => c.(mode := v)
    case Threshold(v) => c.(threshold := CoerceThreshold(v))
  }

  function Patch(c: Condition, fs: seq<ConditionField>): Condition
    decreases |fs|
  {
    if fs == [] then c else Patch(PatchField(c, fs[0]), fs[1..])
  }

  /** Whether the patch gives a threshold. */
  predicate HasThreshold(fs: seq<ConditionField>) {
    exists i | 0 <= i < |fs| :: fs[i].Threshold?
  }

  /** After a patch, the threshold is the coerced last threshold given, or
      the old one when the patch gives none. */
  lemma {:induction false} PatchThreshold(c: Condition, fs: seq<ConditionField>)
    ensures !HasThreshold(fs) ==> Patch(c, fs).threshold == c.threshold
    ensures forall i | 0 <= i < |fs| && fs[i].Threshold? && (forall j | i < j < |fs| :: !fs[j].Threshold?) ::
      Patch(c, fs).threshold == CoerceThreshold(fs[i].threshold)
  {
    if fs != [] {
      var last := fs[|fs| - 1];
      var init := fs[..|fs| - 1];
      PatchSnoc(c, init, last);
      assert init + [last] == fs;
      PatchThreshold(c, init);
      assert forall i | 0 <= i < |init| :: init[i] == fs[i];
    }
  }

  /** After a patch, the mode is the last one given, or the old one. */
  lemma {:induction false} PatchMode(c: Condition, fs: seq<ConditionField>)
    ensures (forall i | 0 <= i < |fs| :: !fs[i].Mode?) ==> Patch(c, fs).mode == c.mode
    ensures forall i | 0 <= i < |fs| && fs[i].Mode? && (forall j | i < j < |fs| :: !fs[j].Mode?) ::
      Patch(c, fs).mode == fs[i].mode
  {
    if fs != [] {
      var last := fs[|fs| - 1];
      var init := fs[..|fs| - 1];
      PatchSnoc(c, init, last);
      assert init + [last] == fs;
      PatchMode(c, init);
      assert forall i | 0 <= i < |init| :: init[i] == fs[i];
    }
  }

  /** After a patch, the parameter is the last one given, or the old one. */
  lemma {:induction false} PatchParameterId(c: Condition, fs: seq<ConditionField>)
    ensures (forall i | 0 <= i < |fs| :: !fs[i].ParameterId?) ==> Patch(c, fs).parameterId == c.parameterId
    ensures forall i | 0 <= i < |fs| && fs[i].ParameterId? && (forall j | i < j < |fs| :: !fs[j].ParameterId?) ::
      Patch(c, fs).parameterId == fs[i].parameterId
  {
    if fs != [] {
      var last := fs[|fs| - 1];
      var init := fs[..|fs| - 1];
      PatchSnoc(c, init, last);
      assert init + [last] == fs;
      PatchParameterId(c, init);
      assert forall i | 0 <= i < |init| :: init[i] == fs[i];
    }
  }

  /** After a patch, the condition id is the last one given, or the old one. */
  lemma {:induction false} PatchConditionId(c: Condition, fs: seq<ConditionField>)
    ensures (forall i | 0 <= i < |fs| :: !fs[i].ConditionId?) ==> Patch(c, fs).id == c.id
    ensures forall i | 0 <= i < |fs| && fs[i].ConditionId? && (forall j | i < j < |fs| :: !fs[j].ConditionId?) ::
      Patch(c, fs).id == fs[i].id
  {
    if fs != [] {
      var last := fs[|fs| - 1];
      var init := fs[..|fs| - 1];
      PatchSnoc(c, init, last);
      assert init + [last] == fs;
      PatchConditionId(c, init);
      assert forall i | 0 <= i < |init| :: init[i] == fs[i];
    }
  }

  lemma {:induction false} PatchSnoc(c: Condition, fs: seq<ConditionField>, f: ConditionField)
    ensures Patch(c, fs + [f]) == PatchField(Patch(c, fs), f)
    decreases |fs|
  {
    if fs == [] {
      assert [f][1..] == [];
    } else {
      assert (fs + [f])[1..] == fs[1..] + [f];
      PatchSnoc(PatchField(c, fs[0]), fs[1..], f);
    }
  }
}
