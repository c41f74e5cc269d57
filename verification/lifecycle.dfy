/**
 * The lifecycle decision `checkAnimatorControllerAsset` takes from the
 * host's current entity selection: ask for a selection, ask for a
 * controller to be created, or bind the controller the entity's Animator
 * refers to. The host snapshot is reduced to the few values it consults.
 */
module Lifecycle {
  import opened Wrappers

  datatype EditorState = NeedSelect | NeedCreate | Loading | Editable | Visible | NoVisible

  /** `IRefObject`: an asset reference. */
  datatype RefObject = RefObject(refId: string, key: string)

  /** The selected entity: its id and, when it has an Animator component,
      that component's controller reference (if any). */
  datatype EntitySnapshot = EntitySnapshot(id: string, animator: Option<Option<RefObject>>)

  /** The asset id a reference names: `refId`, or `refId-key` when the key
      is non-empty. */
  function AssetId(ref: RefObject): (id: string)
    ensures |id| == |ref.refId| + if ref.key == "" then 0 else |ref.key| + 1
    ensures ref.key == "" ==> id == ref.refId
    ensures ref.key != "" ==> id[..|ref.refId|] == ref.refId && id[|ref.refId|..] == "-" + ref.key
  {
    if ref.key != "" then ref.refId + "-" + ref.key else ref.refId
  }

  /** Position of the first '-' in `s`, or its length when there is none. */
  function FirstDash(s: string): (i: nat)
    ensures i <= |s| && '-' !in s[..i]
    ensures i < |s| ==> s[i] == '-'
  {
    if s == [] then 0
    else if s[0] == '-' then 0
    else
      var i := 1 + FirstDash(s[1..]);
      assert s[..i] == [s[0]] + s[1..][..i - 1];
      i
  }

  lemma AssetIdPrefix(ref: RefObject)
    requires '-' !in ref.refId
    ensures FirstDash(AssetId(ref)) == |ref.refId|
  {
    var id := AssetId(ref);
    var i := FirstDash(id);
    assert id[..|ref.refId|] == ref.refId;
    assert ref.key != "" ==> id[|ref.refId|] == '-';
    assert forall j | 0 <= j < i :: id[j] == id[..i][j];
  }

  /** When reference ids contain no '-', distinct references name distinct
      assets. */
  lemma AssetIdInjective(a: RefObject, b: RefObject)
    requires '-' !in a.refId && '-' !in b.refId
    requires AssetId(a) == AssetId(b)
    ensures a == b
  {
    var id := AssetId(a);
    AssetIdPrefix(a);
    AssetIdPrefix(b);
    assert a.refId == id[..|a.refId|] == b.refId;
    assert a.key == "" <==> |id| == |a.refId|;
    assert b.key == "" <==> |id| == |b.refId|;
    if a.key != "" {
      assert a.key == ("-" + a.key)[1..] == id[|a.refId| + 1..] == ("-" + b.key)[1..] == b.key;
    }
  }

  /** A reference id containing '-' and an empty key can name the same asset
      as a shorter reference id with a key. */
  lemma AssetIdAmbiguous()
    ensures AssetId(RefObject("a-b", "")) == AssetId(RefObject("a", "b"))
  {
  }

  /** What `checkAnimatorControllerAsset` does. */
  datatype Decision =
    | Skip
      /** No entity is selected: the editor asks for a selection. */
    | RequireSelect
      /** The entity lacks an Animator, or the Animator lacks a controller:
          the editor asks for one to be created; the entity is remembered. */
    | RequireCreate(entityId: string, hasAnimator: bool)
      /** The entity's controller becomes the edited one. */
    | Bind(entityId: string, assetId: string)

  /** The decision from the selection alone, as the source takes it: the
      "already bound" guard reads an accessor that has only a setter, so it
      never fires. */
  function DecideAsWritten(host: Option<EntitySnapshot>): (d: Decision)
    ensures d != Skip
  {
    match host
    case None => RequireSelect
    case Some(e) =>
      match e.animator
      case None => RequireCreate(e.id, false)
      case Some(None) => RequireCreate(e.id, true)
      case Some(Some(ref)) => Bind(e.id, AssetId(ref))
  }

  /** The decision as intended: nothing happens while a controller is bound
      (`boundId` is "" when none is). */
  function Decide(boundId: string, host: Option<EntitySnapshot>): (d: Decision)
    ensures boundId != "" ==> d == Skip
    ensures boundId == "" ==> d == DecideAsWritten(host)
  {
    if boundId != "" then Skip else DecideAsWritten(host)
  }

  /** With a controller bound and the selected entity lacking an Animator,
      the source still asks for a controller to be created, where the
      intended decision leaves the binding alone. */
  lemma DecideAsWrittenIgnoresBinding()
    ensures DecideAsWritten(Some(EntitySnapshot("e1", None))) == RequireCreate("e1", false)
    ensures Decide("c1", Some(EntitySnapshot("e1", None))) == Skip
  {
  }

  /** Binding happens exactly when nothing is bound and the selected entity
      has an Animator with a controller reference; the asset id is then
      that reference's. */
  lemma DecideBinds(boundId: string, host: Option<EntitySnapshot>)
    ensures Decide(boundId, host).Bind? <==>
      boundId == "" && host.Some? && host.value.animator.Some? && host.value.animator.value.Some?
    ensures Decide(boundId, host).Bind? ==>
      Decide(boundId, host) == Bind(host.value.id, AssetId(host.value.animator.value.value))
  {
  }

  /** The editor state the decision leaves (the current one when it binds
      or skips). */
  function StateAfter(d: Decision, current: EditorState): (s: EditorState)
    ensures d.RequireSelect? ==> s == NeedSelect
    ensures d.RequireCreate? ==> s == NeedCreate
    ensures d.Skip? || d.Bind? ==> s == current
  {
    match d
    case Skip => current
    case RequireSelect => NeedSelect
    case RequireCreate(_, _) => NeedCreate
    case Bind(_, _) => current
  }
}
