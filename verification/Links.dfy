/**
 Linked structures as lists of element numbers: what the link fields of each element are.
 */
module Links {
  /** The element linked behind place `j`, or -1 for null. */
  ghost function After(l: seq<nat>, j: nat): int
    requires j < |l|
  {
    if j + 1 < |l| then l[j + 1] else -1
  }

  /** The element linked before place `j`, or -1 for the head. */
  ghost function Before(l: seq<nat>, j: nat): int
    requires j < |l|
  {
    if j > 0 then l[j - 1] else -1
  }

  ghost predicate Distinct(l: seq<nat>) {
    forall i, j :: 0 <= i < j < |l| ==> l[i] != l[j]
  }
}
