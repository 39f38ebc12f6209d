/** The permission gate: three flags the user toggles one by one, and a
    Continue button that leads to the home page only once all are granted. */
module Permissions {

  import opened Wrappers
  import opened Routing

  datatype PermissionKey = Microphone | Accessibility | Overlay

  /** The page's permission state, one flag per key. */
  datatype PermissionSet = PermissionSet(microphone: bool, accessibility: bool, overlay: bool)

  /** Nothing is granted when the page opens. */
  const InitialPermissions: PermissionSet := PermissionSet(false, false, false)

  /** The flag stored under a key. */
  function Get(p: PermissionSet, k: PermissionKey): bool
  {
    match k
    case Microphone => p.microphone
    case Accessibility => p.accessibility
    case Overlay => p.overlay
  }

  /** The record's values in declaration order. */
  function Values(p: PermissionSet): (vs: seq<bool>)
    ensures |vs| == 3
  {
    [p.microphone, p.accessibility, p.overlay]
  }

  /** Whether every value of a list is true. */
  function Every(vs: seq<bool>): (b: bool)
    ensures b <==> forall i :: 0 <= i < |vs| ==> vs[i]
  {
    if vs == [] then true else vs[0] && Every(vs[1..])
  }

  /** The derived flag that enables Continue: every value of the record holds. */
  function AllGranted(p: PermissionSet): (granted: bool)
    ensures granted <==> forall i :: 0 <= i < |Values(p)| ==> Values(p)[i]
  {
    Every(Values(p))
  }

  /** The click handler of a permission row: the record with that one key negated. */
  function TogglePermission(p: PermissionSet, k: PermissionKey): (r: PermissionSet)
    ensures Get(r, k) == !Get(p, k)
    ensures forall j :: j != k ==> Get(r, j) == Get(p, j)
  {
    match k
    case Microphone => p.(microphone := !p.microphone)
    case Accessibility => p.(accessibility := !p.accessibility)
    case Overlay => p.(overlay := !p.overlay)
  }

  /** The Continue button: navigation to the home page when all are granted,
      otherwise nothing. */
  function HandleContinue(p: PermissionSet): (nav: Option<Route>)
    ensures nav == Some(Home) <==> AllGranted(p)
    ensures nav == None <==> !AllGranted(p)
  {
    if AllGranted(p) then Some(Home) else None
  }

  /** All are granted exactly when each of the three flags is set. */
  lemma AllGrantedIffEach(p: PermissionSet)
    ensures AllGranted(p) <==> p.microphone && p.accessibility && p.overlay
    ensures AllGranted(p) <==> forall k :: Get(p, k)
  {
    assert Values(p)[0] == p.microphone && Values(p)[1] == p.accessibility && Values(p)[2] == p.overlay;
    if forall k :: Get(p, k) {
      assert Get(p, Microphone) && Get(p, Accessibility) && Get(p, Overlay);
    }
  }

  /** On first display nothing is granted and Continue does nothing. */
  lemma InitiallyBlocked()
    ensures !AllGranted(InitialPermissions)
    ensures HandleContinue(InitialPermissions) == None
  {
    AllGrantedIffEach(InitialPermissions);
  }

  /** Toggling a key twice restores the state. */
  lemma ToggleTwice(p: PermissionSet, k: PermissionKey)
    ensures TogglePermission(TogglePermission(p, k), k) == p
  {
  }

  /** Toggles of different keys commute. */
  lemma TogglesCommute(p: PermissionSet, j: PermissionKey, k: PermissionKey)
    ensures TogglePermission(TogglePermission(p, j), k) == TogglePermission(TogglePermission(p, k), j)
  {
  }

  /** The state after a sequence of row clicks. */
  function ApplyToggles(p: PermissionSet, ks: seq<PermissionKey>): PermissionSet
    decreases |ks|
  {
    if ks == [] then p else ApplyToggles(TogglePermission(p, ks[0]), ks[1..])
  }

  /** How many times a key occurs among the clicks. */
  function Occurrences(ks: seq<PermissionKey>, k: PermissionKey): nat
  {
    if ks == [] then 0 else (if ks[0] == k then 1 else 0) + Occurrences(ks[1..], k)
  }

  /** After any clicks a flag is its old value flipped once per click on its key. */
  lemma {:induction false} ApplyTogglesParity(p: PermissionSet, ks: seq<PermissionKey>, k: PermissionKey)
    ensures Get(ApplyToggles(p, ks), k) == (Get(p, k) != (Occurrences(ks, k) % 2 == 1))
    decreases |ks|
  {
    if ks != [] {
      ApplyTogglesParity(TogglePermission(p, ks[0]), ks[1..], k);
    }
  }

  /** From the opening state, Continue leads home exactly when each of the
      three rows was clicked an odd number of times. */
  lemma ContinueAfterClicks(ks: seq<PermissionKey>)
    ensures HandleContinue(ApplyToggles(InitialPermissions, ks)) == Some(Home) <==>
              Occurrences(ks, Microphone) % 2 == 1 &&
              Occurrences(ks, Accessibility) % 2 == 1 &&
              Occurrences(ks, Overlay) % 2 == 1
  {
    var q := ApplyToggles(InitialPermissions, ks);
    ApplyTogglesParity(InitialPermissions, ks, Microphone);
    ApplyTogglesParity(InitialPermissions, ks, Accessibility);
    ApplyTogglesParity(InitialPermissions, ks, Overlay);
    AllGrantedIffEach(q);
  }
}
