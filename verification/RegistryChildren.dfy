/**
 Which names lie beneath a name, and which are its immediate children, as the iteration
 over the flat table tells them apart; and the case-insensitive order they are returned in.
 */
module RegistryChildren {
  import opened RegistryNames
  import opened RegistrySpec

  /** The test made on each name met while iterating over a prefix. */
  predicate Matches(prefix: string, name: string) {
    || |prefix| == 0
    || ((|name| == |prefix| || (|name| > |prefix| && name[|prefix|] == '.')) && name[..|prefix|] == prefix)
  }

  lemma MatchIsBeneath(prefix: string, name: string)
    ensures Matches(prefix, name) <==> Beneath(prefix, name)
  {
  }

  predicate NoDot(s: string) {
    forall i :: 0 <= i < |s| ==> s[i] != '.'
  }

  lemma NoDotIs(s: string)
    ensures NoDot(s) <==> '.' !in s
  {
  }

  /** The name of a component under a parent. */
  function Join(parent: string, component: string): string {
    if parent == "" then component else parent + "." + component
  }

  /** A name of one component more than its parent. */
  ghost predicate IsChild(parent: string, name: string) {
    exists c :: c != "" && NoDot(c) && name == Join(parent, c)
  }

  function ChildrenOf(t: Table, parent: string): set<string> {
    set k | k in t && LooksLikeChild(parent, k)
  }

  /** What the search for children asks of a name that matches the prefix. */
  predicate LooksLikeChild(prefix: string, name: string) {
    && Matches(prefix, name)
    && (prefix == "" || (|name| > |prefix| && name[|prefix|] == '.'))
    && |name| > |prefix| && NoDot(name[|prefix| + 1..])
  }

  /** What the count of children asks of it: beneath the root, any name but the root's counts. */
  predicate CountsAsChild(prefix: string, name: string) {
    if |name| > |prefix| && name[|prefix|] == '.' then NoDot(name[|prefix| + 1..]) else name != "" && prefix == ""
  }

  /** The search finds exactly the immediate children. */
  lemma SearchFindsChildren(parent: string, name: string)
    requires IsValid(name)
    ensures LooksLikeChild(parent, name) <==> IsChild(parent, name)
    ensures LooksLikeChild(parent, name) <==>
      if parent == "" then name != "" && '.' !in name
      else |name| > |parent| + 1 && name[..|parent|] == parent && name[|parent|] == '.'
           && '.' !in name[|parent| + 1..]
  {
    if name != "" { NoDotIs(name[1..]); }
    NoDotIs(name);
    if |name| > |parent| { NoDotIs(name[|parent| + 1..]); }
    if LooksLikeChild(parent, name) {
      var c := if parent == "" then name else name[|parent| + 1..];
      if parent == "" {
        assert forall i :: 0 < i < |name| ==> name[i] == name[1..][i - 1];
      } else {
        assert name == parent + "." + c;
      }
      assert c != "" && NoDot(c) && name == Join(parent, c);
    }
    if IsChild(parent, name) {
      var c :| c != "" && NoDot(c) && name == Join(parent, c);
      if parent == "" {
        assert NoDot(name[1..]);
      } else {
        assert name[|parent| + 1..] == c && name[..|parent|] == parent;
      }
    }
  }

  /** The count takes the children of a name, but under the root every name there is. */
  lemma CountTakesChildren(parent: string, name: string)
    requires IsValid(name)
    ensures Matches(parent, name) && CountsAsChild(parent, name) <==>
            if parent == "" then name != "" else LooksLikeChild(parent, name)
  {
  }

  // ------------------------------------------------------- the returned order

  function Lower(c: char): char {
    if 'A' <= c <= 'Z' then c - 'A' + 'a' else c
  }

  /** `strcasecmp(a, b) <= 0`. */
  predicate AtMost(a: string, b: string) {
    if a == "" then true
    else if b == "" then false
    else if Lower(a[0]) != Lower(b[0]) then Lower(a[0]) < Lower(b[0])
    else AtMost(a[1..], b[1..])
  }

  /** The order does not tell capital letters from small ones, and nothing else apart from themselves. */
  lemma LowerIs(c: char)
    ensures 'A' <= c <= 'Z' ==> Lower(c) as int == c as int + 32
    ensures !('A' <= c <= 'Z') ==> Lower(c) == c
  {
  }

  /**
   Of two names that agree in their first `k` characters, case aside, the one that ends there is at most the other, and
   else the one with the lesser next character.
   */
  lemma {:induction false} AtMostAt(a: string, b: string, k: nat)
    requires k <= |a| && k <= |b| && forall i :: 0 <= i < k ==> Lower(a[i]) == Lower(b[i])
    ensures k == |a| ==> AtMost(a, b)
    ensures k == |b| < |a| ==> !AtMost(a, b)
    ensures k < |a| && k < |b| && Lower(a[k]) != Lower(b[k]) ==> (AtMost(a, b) <==> Lower(a[k]) < Lower(b[k]))
  {
    hide Lower;
    if k > 0 {
      assert forall i :: 0 <= i < k - 1 ==> a[1..][i] == a[i + 1] && b[1..][i] == b[i + 1];
      AtMostAt(a[1..], b[1..], k - 1);
    }
  }

  ghost predicate Sorted(s: seq<string>) {
    forall i, j :: 0 <= i < j < |s| ==> AtMost(s[i], s[j])
  }

  lemma {:induction false} AtMostTotal(a: string, b: string)
    ensures AtMost(a, b) || AtMost(b, a)
  {
    if a != "" && b != "" {
      AtMostTotal(a[1..], b[1..]);
    }
  }

  lemma {:induction false} AtMostTransitive(a: string, b: string, c: string)
    requires AtMost(a, b) && AtMost(b, c)
    ensures AtMost(a, c)
  {
    if a != "" && b != "" && c != "" && Lower(a[0]) == Lower(b[0]) == Lower(c[0]) {
      AtMostTransitive(a[1..], b[1..], c[1..]);
    }
  }

  /** The library's sort: some arrangement of the same names in order. */
  method QSort(s: seq<string>) returns (r: seq<string>)
    ensures Sorted(r) && multiset(r) == multiset(s)
  {
    r := [];
    for i := 0 to |s|
      invariant Sorted(r) && multiset(r) == multiset(s[..i])
    {
      assert s[..i + 1] == s[..i] + [s[i]];
      r := InsertInOrder(r, s[i]);
    }
    assert s[..|s|] == s;
  }

  method InsertInOrder(s: seq<string>, x: string) returns (r: seq<string>)
    requires Sorted(s)
    ensures Sorted(r) && multiset(r) == multiset(s + [x])
  {
    var k := 0;
    while k < |s| && AtMost(s[k], x)
      invariant 0 <= k <= |s| && forall i :: 0 <= i < k ==> AtMost(s[i], x)
    {
      k := k + 1;
    }
    r := s[..k] + [x] + s[k..];
    assert s == s[..k] + s[k..];
    InsertedSorted(s, x, k);
  }

  lemma InsertedSorted(s: seq<string>, x: string, k: nat)
    requires Sorted(s) && k <= |s| && (forall i :: 0 <= i < k ==> AtMost(s[i], x)) && (k < |s| ==> !AtMost(s[k], x))
    ensures Sorted(s[..k] + [x] + s[k..])
  {
    var r := s[..k] + [x] + s[k..];
    forall i | k <= i < |s| ensures AtMost(x, s[i]) {
      AtMostTotal(x, s[k]);
      if i > k { AtMostTransitive(x, s[k], s[i]); }
    }
    assert forall i :: 0 <= i < |r| ==> r[i] == if i < k then s[i] else if i == k then x else s[i - 1];
  }
}
