/** Positions on a ring of `n` places, and sequences that list the members of a ring. */
module Rings {

  /** The position after `i`. */
  function Succ(n: nat, i: nat): (j: nat)
    requires i < n
    ensures j < n
  {
    if i + 1 < n then i + 1 else 0
  }

  /** `s` with `b` put in after position `i`. */
  function Inserted(s: seq<nat>, i: nat, b: nat): (r: seq<nat>)
    requires i < |s|
    ensures |r| == |s| + 1 && r[i + 1] == b
    ensures forall k :: 0 <= k <= i ==> r[k] == s[k]
    ensures forall k :: i + 1 < k <= |s| ==> r[k] == s[k - 1]
  {
    s[..i + 1] + [b] + s[i + 1..]
  }

  /** `s` without its member at position `i`. */
  function Removed(s: seq<nat>, i: nat): (r: seq<nat>)
    requires i < |s|
    ensures |r| == |s| - 1
    ensures forall k :: 0 <= k < i ==> r[k] == s[k]
    ensures forall k :: i <= k < |s| - 1 ==> r[k] == s[k + 1]
  {
    s[..i] + s[i + 1..]
  }

  ghost predicate Distinct(s: seq<nat>) {
    forall j, k :: 0 <= j < k < |s| ==> s[j] != s[k]
  }
}
