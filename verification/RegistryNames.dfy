/**
 Registry names: dotted paths such as "a.b.c", the root being the empty name.
 A string stands for the characters before the terminating NUL.
 */
module RegistryNames {
  /** The size of the C type, terminator included. */
  const NAME_SIZE: nat := 128

  /** Printable, not a blank, in the C locale. */
  predicate Graphic(c: char) {
    ' ' < c <= '~'
  }

  /** What `nr_reg_is_valid` accepts. */
  predicate IsValid(name: string) {
    && |name| < NAME_SIZE
    && (name != [] ==> name[0] != '.' && name[|name| - 1] != '.')
    && (forall i :: 0 <= i < |name| ==> Graphic(name[i]) && name[i] != '/')
  }

  /**
   The check of a name: it fits its type with the terminator, neither begins nor ends with a dot, and holds no
   blank, no slash and nothing that does not print.
   */
  method CheckName(name: string) returns (ok: bool)
    ensures ok <==> IsValid(name)
    ensures ok <==>
      && |name| <= 127 && (name != "" ==> name[0] != '.' && name[|name| - 1] != '.')
      && forall i :: 0 <= i < |name| ==> '!' <= name[i] <= '~' && name[i] != '/'
  {
    if |name| >= NAME_SIZE {
      return false;
    }
    if name != "" && (name[0] == '.' || name[|name| - 1] == '.') {
      return false;
    }
    var i := 0;
    while i < |name|
      invariant 0 <= i <= |name| && forall k :: 0 <= k < i ==> Graphic(name[k]) && name[k] != '/'
    {
      if !Graphic(name[i]) || name[i] == '/' {
        return false;
      }
      i := i + 1;
    }
    ok := true;
  }

  /** Where `strrchr` finds the last dot, or -1. */
  function LastDot(name: string): (d: int)
    ensures -1 <= d < |name|
    ensures d >= 0 ==> name[d] == '.'
    ensures forall i :: d < i < |name| ==> name[i] != '.'
  {
    if name == [] then -1 else if name[|name| - 1] == '.' then |name| - 1 else LastDot(name[..|name| - 1])
  }

  /** `a` is `name` cut off before one of its dots. */
  predicate Ancestor(a: string, name: string) {
    |a| < |name| && name[..|a|] == a && name[|a|] == '.'
  }

  /** `name` or something beneath it. */
  predicate Within(top: string, name: string) {
    name == top || Ancestor(top, name)
  }

  predicate NoEmptyComponent(name: string) {
    forall i :: 0 <= i < |name| - 1 ==> !(name[i] == '.' && name[i + 1] == '.')
  }

  /** The ancestors are the parent, and the parent's ancestors. */
  lemma AncestorsOfParent(a: string, name: string)
    ensures var d := LastDot(name);
      Ancestor(a, name) <==> d >= 0 && (a == name[..d] || Ancestor(a, name[..d]))
  {
    var d := LastDot(name);
    if d >= 0 {
      var p := name[..d];
      if Ancestor(a, name) && a != p {
        assert p[..|a|] == a;
      }
      if Ancestor(a, p) {
        assert name[..|a|] == p[..|a|];
      }
    }
  }

  lemma AncestorTransitive(a: string, b: string, c: string)
    requires Ancestor(a, b) && Ancestor(b, c)
    ensures Ancestor(a, c)
  {
    assert c[..|a|] == b[..|a|];
  }

  /** A valid name's ancestors are valid exactly when none of its components is empty. */
  lemma AncestorsValid(name: string)
    requires IsValid(name)
    ensures (forall a :: Ancestor(a, name) ==> IsValid(a)) <==> NoEmptyComponent(name)
  {
    if NoEmptyComponent(name) {
      forall a | Ancestor(a, name) ensures IsValid(a) {
        if a != [] {
          assert a[0] == name[0] && a[|a| - 1] == name[|a| - 1];
          assert name[|a| - 1] != '.';
        }
        assert forall i :: 0 <= i < |a| ==> a[i] == name[i];
      }
    } else {
      var i :| 0 <= i < |name| - 1 && name[i] == '.' && name[i + 1] == '.';
      var a := name[..i + 1];
      assert Ancestor(a, name) && a[|a| - 1] == '.' && !IsValid(a);
    }
  }
}
