/**
 Making names from names: a component put under a parent, and an ancestor of a given
 generation cut out of a descendant.
 */
module RegistryPaths {
  import opened RegistryNames
  import opened RegistrySpec
  import opened RegistryChildren

  /** A character of a component: one that may not be in a component becomes an underscore. */
  function Tame(c: char): char {
    if !Graphic(c) || c == '.' || c == '/' then '_' else c
  }

  function TameAll(s: string): (r: string)
    ensures |r| == |s| && forall i :: 0 <= i < |s| ==> r[i] == Tame(s[i])
  {
    seq(|s|, i requires 0 <= i < |s| => Tame(s[i]))
  }

  predicate CanMake(parent: string, child: string) {
    && IsValid(parent) && |parent| + |child| + 2 <= NAME_SIZE
    && child != "" && child[0] != '.' && child[|child| - 1] != '.'
  }

  /** Puts a component under a parent, character by character. */
  method MakeRegistry(parent: string, child: string) returns (status: Status, out: string)
    ensures status == if CanMake(parent, child) then Done else BadArgs
    ensures status == Done <==>
      IsValid(parent) && |parent| + |child| <= 126 && child != "" && child[0] != '.' && child[|child| - 1] != '.'
    ensures status == Done ==> out == Join(parent, TameAll(child)) && |out| < NAME_SIZE
    ensures status == Done ==>
      var start := if parent == "" then 0 else |parent| + 1;
      && |out| == start + |child| && out[..|parent|] == parent && (parent != "" ==> out[|parent|] == '.')
      && forall i :: 0 <= i < |child| ==>
           out[start + i] == if '!' <= child[i] <= '~' && child[i] != '.' && child[i] != '/' then child[i] else '_'
  {
    hide IsValid, Join, TameAll;
    out := "";
    if !IsValid(parent) {
      return BadArgs, out;
    }
    if child != "" && child[0] == '.' {
      return BadArgs, out;
    }
    var plen, clen := |parent|, |child|;
    if plen + clen + 2 > NAME_SIZE {
      return BadArgs, out;
    }
    out := parent;
    if parent != "" {
      out := out + ".";
    }
    ghost var start := out;
    var i := 0;
    while i < clen
      invariant 0 <= i <= clen && out == start + TameAll(child)[..i]
    {
      var c := child[i];
      if !Graphic(c) || c == '.' || c == '/' {
        c := '_';
      }
      out, i := out + [c], i + 1;
    }
    if i == 0 || child[i - 1] == '.' {
      return BadArgs, out;
    }
    assert TameAll(child)[..clen] == TameAll(child);
    MadeSpells(parent, child);
    status := Done;
  }

  /** What a name made of a parent and a component spells. */
  lemma MadeSpells(parent: string, child: string)
    ensures var out, start := Join(parent, TameAll(child)), if parent == "" then 0 else |parent| + 1;
      && out == (if parent == "" then parent else parent + ".") + TameAll(child)
      && |out| == start + |child| && out[..|parent|] == parent && (parent != "" ==> out[|parent|] == '.')
      && forall i :: 0 <= i < |child| ==>
           out[start + i] == if '!' <= child[i] <= '~' && child[i] != '.' && child[i] != '/' then child[i] else '_'
  {
    hide Tame;
    forall i | 0 <= i < |child| ensures Tame(child[i]) ==
        if '!' <= child[i] <= '~' && child[i] != '.' && child[i] != '/' then child[i] else '_' {
      TameIs(child[i]);
    }
  }

  lemma TameIs(c: char)
    ensures Tame(c) == if '!' <= c <= '~' && c != '.' && c != '/' then c else '_'
  {
  }

  predicate LegalComponent(c: string) {
    forall i :: 0 <= i < |c| ==> Graphic(c[i]) && c[i] != '.' && c[i] != '/'
  }

  lemma JoinIsValid(parent: string, c: string)
    requires IsValid(parent) && |parent| + |c| + 2 <= NAME_SIZE && c != "" && LegalComponent(c)
    ensures IsValid(Join(parent, c))
  {
  }

  lemma TameIsLegal(c: string)
    ensures LegalComponent(TameAll(c)) && NoDot(TameAll(c)) && (TameAll(c) == c <==> LegalComponent(c))
  {
  }

  /** The name made is legal and a child of its parent; it spells the component as given just if that was legal. */
  lemma MadeIsChild(parent: string, child: string)
    requires CanMake(parent, child)
    ensures var out := Join(parent, TameAll(child));
      IsValid(out) && IsChild(parent, out) && (out == Join(parent, child) <==> LegalComponent(child))
  {
    hide IsValid, LegalComponent, TameAll, NoDot;
    var t := TameAll(child);
    TameIsLegal(child);
    JoinIsValid(parent, t);
    JoinTail(parent, t);
    JoinTail(parent, child);
  }

  lemma JoinTail(parent: string, c: string)
    ensures var out := Join(parent, c);
      && |out| == (if parent == "" then 0 else |parent| + 1) + |c|
      && c == out[|out| - |c|..]
  {
  }

  // --------------------------------------------------------- cutting ancestors

  /** Where to cut `s`, from `from` on, to keep `generation` dots. */
  function CutAt(s: string, from: nat, generation: nat): (r: nat)
    requires from <= |s|
    ensures from <= r <= |s|
    decreases |s| - from
  {
    if from == |s| then from
    else if s[from] != '.' then CutAt(s, from + 1, generation)
    else if generation == 0 then from
    else CutAt(s, from + 1, generation - 1)
  }

  function Dots(s: string): nat {
    if s == "" then 0 else Dots(s[..|s| - 1]) + if s[|s| - 1] == '.' then 1 else 0
  }

  lemma {:induction false} DotsFirst(s: string)
    requires s != ""
    ensures Dots(s) == Dots(s[1..]) + if s[0] == '.' then 1 else 0
  {
    if |s| > 1 {
      DotsFirst(s[..|s| - 1]);
      assert s[1..][..|s| - 2] == s[..|s| - 1][1..];
    }
  }

  /** The cut is before a dot or at the end; only a name with fewer dots is kept whole. */
  lemma {:induction false} CutIs(s: string, from: nat, generation: nat)
    requires from <= |s|
    ensures var r := CutAt(s, from, generation);
      && (r < |s| ==> s[r] == '.' && Dots(s[from..r]) == generation)
      && (r == |s| ==> Dots(s[from..r]) <= generation)
    decreases |s| - from
  {
    if from < |s| && !(s[from] == '.' && generation == 0) {
      var g := if s[from] == '.' then generation - 1 else generation;
      CutIs(s, from + 1, g);
      var r := CutAt(s, from, generation);
      assert s[from..r][1..] == s[from + 1..r];
      DotsFirst(s[from..r]);
    }
  }

  /** `strncasecmp` over the length of `a` finds no difference. */
  predicate CasePrefix(a: string, b: string) {
    |a| <= |b| && forall i :: 0 <= i < |a| ==> Lower(a[i]) == Lower(b[i])
  }

  /** The ancestor of `descendant` that lies `generation` components below the one after `parent`. */
  method MakeChildRegistry(parent: string, descendant: string, generation: nat) returns (status: Status, child: string)
    requires |parent| < NAME_SIZE
    ensures status == if CasePrefix(parent, descendant) && CutAt(descendant, |parent|, generation) < NAME_SIZE
        then Done else BadArgs
    ensures status == Done ==> child == descendant[..CutAt(descendant, |parent|, generation)] && |child| < 128
    ensures status == Done ==> |parent| <= |descendant| && forall i :: 0 <= i < |parent| ==>
              Lower(parent[i]) == Lower(descendant[i])
  {
    child := "";
    var length := |parent|;
    if !CasePrefix(parent, descendant) {
      return BadArgs, child;
    }
    var left := generation;
    while length < |descendant|
      invariant |parent| <= length <= |descendant| && length < NAME_SIZE
      invariant CutAt(descendant, length, left) == CutAt(descendant, |parent|, generation)
    {
      if descendant[length] == '.' {
        if left == 0 {
          break;
        }
        left := left - 1;
      }
      length := length + 1;
      assert CutAt(descendant, length, left) == CutAt(descendant, |parent|, generation);
      if length >= NAME_SIZE {
        return BadArgs, child;
      }
    }
    child := descendant[..length];
    status := Done;
  }

  /** Cutting one generation below the parent gives back the child that was put under it, from anything beneath it. */
  lemma {:induction false} MakeThenCut(parent: string, component: string, descendant: string)
    requires component != "" && NoDot(component) && Within(Join(parent, component), descendant)
    ensures CasePrefix(parent, descendant)
    ensures descendant[..CutAt(descendant, |parent|, if parent == "" then 0 else 1)] == Join(parent, component)
  {
    var out := Join(parent, component);
    var start := if parent == "" then 0 else |parent| + 1;
    assert descendant[..|out|] == out;
    assert forall i :: 0 <= i < |out| ==> descendant[i] == out[i];
    CutAfter(descendant, start, |out|);
  }

  lemma {:induction false} CutAfter(s: string, from: nat, to: nat)
    requires from <= to <= |s| && (forall i :: from <= i < to ==> s[i] != '.') && (to < |s| ==> s[to] == '.')
    ensures CutAt(s, from, 0) == to
    decreases |s| - from
  {
    if from < to {
      CutAfter(s, from + 1, to);
    }
  }
}
