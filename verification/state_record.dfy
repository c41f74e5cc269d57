/**
 * The content record a state keeps (`IStateData`, the state's `_data`), the
 * kind of a state, and the key-by-key updates the record accepts.
 */
module StateRecord {
  import opened Wrappers

  /** `StateType`: 0 Normal, 1 Entry, 2 Exit, 3 AnyState. */
  datatype StateType = Normal | Entry | Exit | AnyState

  /** `IStateData`. `clip` is an asset reference or null; `wrapMode` is
      undefined or a mode number; `transitions` lists outgoing transition ids. */
  datatype StateData = StateData(
    id: string,
    name: string,
    clip: Option<string>,
    speed: real,
    wrapMode: Option<int>,
    clipStartNormalizedTime: real,
    clipEndNormalizedTime: real,
    transitions: seq<string>,
    scripts: seq<string>,
    isDefault: bool)

  /** The record a new state starts with. */
  const DefaultStateData: StateData :=
    StateData("", "", None, 1.0, None, 0.0, 1.0, [], [], false)

  /** The keys of `IStateData`. */
  datatype StateKey =
    | IdKey | NameKey | ClipKey | SpeedKey | WrapModeKey
    | ClipStartKey | ClipEndKey | TransitionsKey | ScriptsKey | IsDefaultKey

  /** One key of `IStateData` together with a value for it: the
      `(property, value)` pair of `updateData`, or one own property of the
      object given to the `data` setter. */
  datatype StateField =
    | Id(id: string)
    | Name(name: string)
    | Clip(clip: Option<string>)
    | Speed(speed: real)
    | WrapMode(wrapMode: Option<int>)
    | ClipStart(clipStart: real)
    | ClipEnd(clipEnd: real)
    | Transitions(transitions: seq<string>)
    | Scripts(scripts: seq<string>)
    | IsDefault(isDefault: bool)
  {
    function Key(): StateKey {
      match this
      case Id(_) => IdKey
      case Name(_) => NameKey
      case Clip(_) => ClipKey
      case Speed(_) => SpeedKey
      case WrapMode(_) => WrapModeKey
      case ClipStart(_) => ClipStartKey
      case ClipEnd(_) => ClipEndKey
      case Transitions(_) => TransitionsKey
      case Scripts(_) => ScriptsKey
      case IsDefault(_) => IsDefaultKey
    }
  }

  /** `d[k]`: the value `d` holds under key `k`. */
  function Lookup(d: StateData, k: StateKey): (f: StateField)
    ensures f.Key() == k
  {
    match k
    case IdKey => Id(d.id)
    case NameKey => Name(d.name)
    case ClipKey => Clip(d.clip)
    case SpeedKey => Speed(d.speed)
    case WrapModeKey => WrapMode(d.wrapMode)
    case ClipStartKey => ClipStart(d.clipStartNormalizedTime)
    case ClipEndKey => ClipEnd(d.clipEndNormalizedTime)
    case TransitionsKey => Transitions(d.transitions)
    case ScriptsKey => Scripts(d.scripts)
    case IsDefaultKey => IsDefault(d.isDefault)
  }

  /** A record is determined by what it holds under each key. */
  lemma LookupExtensional(a: StateData, b: StateData)
    requires forall k :: Lookup(a, k) == Lookup(b, k)
    ensures a == b
  {
    assert Lookup(a, IdKey) == Lookup(b, IdKey);
    assert Lookup(a, NameKey) == Lookup(b, NameKey);
    assert Lookup(a, ClipKey) == Lookup(b, ClipKey);
    assert Lookup(a, SpeedKey) == Lookup(b, SpeedKey);
    assert Lookup(a, WrapModeKey) == Lookup(b, WrapModeKey);
    assert Lookup(a, ClipStartKey) == Lookup(b, ClipStartKey);
    assert Lookup(a, ClipEndKey) == Lookup(b, ClipEndKey);
    assert Lookup(a, TransitionsKey) == Lookup(b, TransitionsKey);
    assert Lookup(a, ScriptsKey) == Lookup(b, ScriptsKey);
    assert Lookup(a, IsDefaultKey) == Lookup(b, IsDefaultKey);
  }

  /** `d[f.key] = f.value`: sets one key and leaves every other key as it was. */
  function WithField(d: StateData, f: StateField): (r: StateData)
    ensures Lookup(r, f.Key()) == f
    ensures forall k | k != f.Key() :: Lookup(r, k) == Lookup(d, k)
  {
    match f
    case Id(v) => d.(id := v)
    case Name(v) => d.(name := v)
    case Clip(v) => d.(clip := v)
    case Speed(v) => d.(speed := v)
    case WrapMode(v) => d.(wrapMode := v)
    case ClipStart(v) => d.(clipStartNormalizedTime := v)
    case ClipEnd(v) => d.(clipEndNormalizedTime := v)
    case Transitions(v) => d.(transitions := v)
    case Scripts(v) => d.(scripts := v)
    case IsDefault(v) => d.(isDefault := v)
  }

  /** Applying the fields one after the other, as the setter's loop does. */
  function WithFields(d: StateData, fs: seq<StateField>): StateData
    decreases |fs|
  {
    if fs == [] then d else WithFields(WithField(d, fs[0]), fs[1..])
  }

  /** The value the last field of `fs` with key `k` carries, or `dflt`. */
  function LastFor(fs: seq<StateField>, k: StateKey, dflt: StateField): StateField
  {
    if fs == [] then dflt
    else if fs[|fs| - 1].Key() == k then fs[|fs| - 1]
    else LastFor(fs[..|fs| - 1], k, dflt)
  }

  /** After the setter, a key given in `fs` holds the value given last for it;
      every key not given keeps its old value. */
  lemma {:induction false} WithFieldsLookup(d: StateData, fs: seq<StateField>, k: StateKey)
    ensures Lookup(WithFields(d, fs), k) == LastFor(fs, k, Lookup(d, k))
  {
    if fs != [] {
      var last := fs[|fs| - 1];
      var init := fs[..|fs| - 1];
      WithFieldsSnoc(d, init, last);
      assert init + [last] == fs;
      WithFieldsLookup(d, init, k);
    }
  }

  lemma {:induction false} WithFieldsSnoc(d: StateData, fs: seq<StateField>, f: StateField)
    ensures WithFields(d, fs + [f]) == WithField(WithFields(d, fs), f)
    decreases |fs|
  {
    if fs == [] {
      assert [f][1..] == [];
    } else {
      assert (fs + [f])[1..] == fs[1..] + [f];
      WithFieldsSnoc(WithField(d, fs[0]), fs[1..], f);
    }
  }

  /** Every key of `d` with its value: the own properties of a complete record. */
  function FieldsOf(d: StateData): (fs: seq<StateField>)
    ensures |fs| == 10
  {
    [ Id(d.id), Name(d.name), Clip(d.clip), Speed(d.speed), WrapMode(d.wrapMode),
      ClipStart(d.clipStartNormalizedTime), ClipEnd(d.clipEndNormalizedTime),
      Transitions(d.transitions), Scripts(d.scripts), IsDefault(d.isDefault) ]
  }

  /** The last field with key `k` is the one at `i` when no later field has that key. */
  lemma {:induction false} LastForAt(fs: seq<StateField>, k: StateKey, dflt: StateField, i: nat)
    requires i < |fs| && fs[i].Key() == k
    requires forall j | i < j < |fs| :: fs[j].Key() != k
    ensures LastFor(fs, k, dflt) == fs[i]
  {
    if i < |fs| - 1 {
      LastForAt(fs[..|fs| - 1], k, dflt, i);
    }
  }

  /** Giving the setter a complete record makes the content that record. */
  lemma WithAllFields(d: StateData, e: StateData)
    ensures WithFields(d, FieldsOf(e)) == e
  {
    forall k ensures Lookup(WithFields(d, FieldsOf(e)), k) == Lookup(e, k) {
      WithAllFieldsAt(d, e, k);
    }
    LookupExtensional(WithFields(d, FieldsOf(e)), e);
  }

  lemma WithAllFieldsAt(d: StateData, e: StateData, k: StateKey)
    ensures Lookup(WithFields(d, FieldsOf(e)), k) == Lookup(e, k)
  {
    var fs := FieldsOf(e);
    WithFieldsLookup(d, fs, k);
    var i := match k
      case IdKey => 0 case NameKey => 1 case ClipKey => 2 case SpeedKey => 3
      case WrapModeKey => 4 case ClipStartKey => 5 case ClipEndKey => 6
      case TransitionsKey => 7 case ScriptsKey => 8 case IsDefaultKey => 9;
    assert fs[i] == Lookup(e, k);
    LastForAt(fs, k, Lookup(d, k), i);
  }
}
