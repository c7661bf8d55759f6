/**
 * Finding the wallet snap among those the host has installed, and telling a
 * locally served snap from a published one.
 *
 * The host's `wallet_getSnaps` reply is taken as an input: the descriptors in the
 * order `Object.values` lists them, or the failure the request raised. The
 * expected snap id (`defaultSnapOrigin`) is a parameter, since the site's
 * configuration is not part of this model.
 */
module SnapLocator {
  import opened Wrappers

  /** A snap descriptor: its id and its version. */
  datatype Snap = Snap(id: string, version: string)

  const LocalPrefix := "local:"

  /** `isLocalSnap`: the id starts with `local:`. */
  function IsLocalSnap(snapId: string): (local: bool)
    ensures local <==> |snapId| >= |LocalPrefix| && snapId[..|LocalPrefix|] == LocalPrefix
  {
    LocalPrefix <= snapId
  }

  /**
   * The predicate `getSnap` hands to `find`: the id is the expected one and, when a
   * version was asked for (a non-empty string; `undefined` and `""` are both falsy),
   * the version is that one too.
   */
  predicate Selects(snap: Snap, origin: string, version: Option<string>)
    ensures Selects(snap, origin, version) ==> snap.id == origin
    ensures Selects(snap, origin, version) && version.Some? && version.value != "" ==> snap.version == version.value
    ensures snap.id == origin && (version.None? || version.value == "") ==> Selects(snap, origin, version)
    ensures snap.id == origin && version == Some(snap.version) ==> Selects(snap, origin, version)
  {
    snap.id == origin && (version.None? || version.value == "" || snap.version == version.value)
  }

  /** `find` from index `from` on: the first selected descriptor's index, or None. */
  function FindFrom(snaps: seq<Snap>, origin: string, version: Option<string>, from: nat): (r: Option<nat>)
    requires from <= |snaps|
    ensures r.Some? ==> from <= r.value < |snaps| && Selects(snaps[r.value], origin, version)
    ensures r.Some? ==> forall j :: from <= j < r.value ==> !Selects(snaps[j], origin, version)
    ensures r.None? <==> forall j :: from <= j < |snaps| ==> !Selects(snaps[j], origin, version)
    decreases |snaps| - from
  {
    if from == |snaps| then None
    else if Selects(snaps[from], origin, version) then Some(from)
    else FindFrom(snaps, origin, version, from + 1)
  }

  /**
   * `getSnap(version)` given the host's reply: the first installed snap the
   * predicate selects; absent when none is selected or the query failed.
   */
  function GetSnap(installed: Result<seq<Snap>, string>, origin: string, version: Option<string>): (r: Option<Snap>)
    ensures installed.Failure? ==> r.None?
    ensures r.Some? ==> exists i :: 0 <= i < |installed.value| && installed.value[i] == r.value
    ensures r.Some? ==> Selects(r.value, origin, version)
    ensures installed.Success? ==>
      (r.None? <==> forall j :: 0 <= j < |installed.value| ==> !Selects(installed.value[j], origin, version))
  {
    match installed
    case Failure(_) => None
    case Success(snaps) =>
      match FindFrom(snaps, origin, version, 0)
      case None => None
      case Some(i) => Some(snaps[i])
  }

  /**
   * What `GetSnap` returns comes before every other selected descriptor: the
   * selection is the first match, not just any match.
   */
  lemma GetSnapIsFirst(snaps: seq<Snap>, origin: string, version: Option<string>, j: nat)
    requires j < |snaps| && Selects(snaps[j], origin, version)
    ensures GetSnap(Success(snaps), origin, version).Some?
    ensures exists i :: 0 <= i <= j && snaps[i] == GetSnap(Success(snaps), origin, version).value
  {
  }

  /** Without a version (or with `""`), any descriptor with the expected id is selected. */
  lemma NoVersionMatchesAnyVersion(snaps: seq<Snap>, origin: string)
    ensures GetSnap(Success(snaps), origin, None) == GetSnap(Success(snaps), origin, Some(""))
    ensures GetSnap(Success(snaps), origin, None).Some? <==> exists j :: 0 <= j < |snaps| && snaps[j].id == origin
  {
  }
}
