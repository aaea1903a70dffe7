/**
 IPv6 addresses as text, as section 2.2 of RFC 4291 defines it: numbers in hexadecimal and
 decimal, a reader of the three forms, and the form printed for a given run of zeros.
 */
module Ipv6Text {
  import opened Options

  // ----------------------------------------------------------------- numbers

  function Digit(d: nat): (c: char)
    requires d < 16
    ensures '0' <= c <= '9' || 'a' <= c <= 'f'
  {
    if d < 10 then '0' + d as char else 'a' + (d - 10) as char
  }

  function DigitValue(c: char): Option<nat> {
    if '0' <= c <= '9' then Some((c - '0') as nat)
    else if 'a' <= c <= 'f' then Some((c - 'a') as nat + 10)
    else if 'A' <= c <= 'F' then Some((c - 'A') as nat + 10)
    else None
  }

  /** The digits of a number, without leading zeros. */
  function Number(n: nat, radix: nat): (s: string)
    requires 2 <= radix <= 16
    ensures s != "" && forall i :: 0 <= i < |s| ==> '0' <= s[i] <= '9' || 'a' <= s[i] <= 'f'
  {
    if n < radix then [Digit(n)] else Number(n / radix, radix) + [Digit(n % radix)]
  }

  /** The value of a string of digits. */
  function Value(s: string, radix: nat): Option<nat>
    requires 2 <= radix <= 16
  {
    if s == "" then Some(0)
    else
      var high, low := Value(s[..|s| - 1], radix), DigitValue(s[|s| - 1]);
      if high.None? || low.None? || low.value >= radix then None else Some(high.value * radix + low.value)
  }

  lemma DigitReads(d: nat)
    requires d < 16
    ensures DigitValue(Digit(d)) == Some(d)
  {
  }

  lemma {:induction false} NumberReads(n: nat, radix: nat)
    requires radix == 10 || radix == 16
    ensures Value(Number(n, radix), radix) == Some(n)
    decreases n
  {
    hide Number, Value, Digit;
    NumberUnfolds(n, radix);
    if n < radix {
      LastDigit("", 0, n, radix);
      assert "" + [Digit(n)] == [Digit(n)];
    } else {
      Divides(n, radix);
      NumberReads(n / radix, radix);
      LastDigit(Number(n / radix, radix), n / radix, n % radix, radix);
    }
  }

  lemma NumberUnfolds(n: nat, radix: nat)
    requires radix == 10 || radix == 16
    ensures Number(n, radix) == if n < radix then [Digit(n)] else Number(n / radix, radix) + [Digit(n % radix)]
    ensures Value("", radix) == Some(0)
  {
  }

  lemma Divides(n: nat, radix: nat)
    requires radix == 10 || radix == 16
    ensures n / radix * radix + n % radix == n && n % radix < radix && (n >= radix ==> n / radix < n)
  {
    if radix == 10 { assert n / 10 * 10 + n % 10 == n; } else { assert n / 16 * 16 + n % 16 == n; }
  }

  lemma LastDigit(s: string, high: nat, d: nat, radix: nat)
    requires (radix == 10 || radix == 16) && d < radix && Value(s, radix) == Some(high)
    ensures Value(s + [Digit(d)], radix) == Some(high * radix + d)
  {
    DigitReads(d);
    assert (s + [Digit(d)])[..|s|] == s;
  }

  lemma OneMoreDigit(n: nat, radix: nat, k: nat)
    requires 2 <= radix <= 16
    requires n >= radix ==> |Number(n / radix, radix)| <= k
    ensures |Number(n, radix)| <= k + 1
  {
  }

  lemma HexLength(n: nat)
    requires n < 0x1_0000
    ensures |Number(n, 16)| <= 4
  {
    hide Number;
    var a := n / 16;
    var b := a / 16;
    var c := b / 16;
    assert a < 0x1000 && b < 0x100 && c < 16;
    OneMoreDigit(c, 16, 0);
    OneMoreDigit(b, 16, 1);
    OneMoreDigit(a, 16, 2);
    OneMoreDigit(n, 16, 3);
  }

  lemma DecimalLength(n: nat)
    requires n < 1000
    ensures |Number(n, 10)| <= 3
  {
    hide Number;
    var a := n / 10;
    var b := a / 10;
    assert a < 100 && b < 10;
    OneMoreDigit(b, 10, 0);
    OneMoreDigit(a, 10, 1);
    OneMoreDigit(n, 10, 2);
  }

  // ------------------------------------------------------------------ reading

  /** The place of the first `c`, or the end. */
  function Find(s: string, c: char): (k: nat)
    ensures k <= |s| && (k < |s| ==> s[k] == c) && forall i :: 0 <= i < k ==> s[i] != c
  {
    if s == "" || s[0] == c then 0 else 1 + Find(s[1..], c)
  }

  /** The place of the first "::", or the end. */
  function FindDouble(s: string): (k: nat)
    ensures k <= |s| && (k < |s| ==> k + 1 < |s| && s[k] == ':' && s[k + 1] == ':')
  {
    if s == "" then 0
    else if |s| > 1 && s[0] == ':' && s[1] == ':' then 0
    else 1 + FindDouble(s[1..])
  }

  /** One to four hexadecimal digits. */
  function ReadGroup(s: string): Option<nat> {
    if 1 <= |s| <= 4 then Value(s, 16) else None
  }

  /** One to three decimal digits, at most 255. */
  function ReadOctet(s: string): Option<nat> {
    if 1 <= |s| <= 3 && Value(s, 10).Some? && Value(s, 10).value < 256 then Value(s, 10) else None
  }

  /** Four octets between dots, as two words. */
  function ReadDotted(s: string): Option<seq<nat>> {
    var i := Find(s, '.');
    if i == |s| then None
    else
      var t := s[i + 1..];
      var j := Find(t, '.');
      if j == |t| then None
      else
        var u := t[j + 1..];
        var k := Find(u, '.');
        if k == |u| then None
        else
          TwoWords(ReadOctet(s[..i]), ReadOctet(t[..j]), ReadOctet(u[..k]), ReadOctet(u[k + 1..]))
  }

  function TwoWords(a: Option<nat>, b: Option<nat>, c: Option<nat>, d: Option<nat>): Option<seq<nat>> {
    if a.None? || b.None? || c.None? || d.None? then None
    else Some([a.value * 256 + b.value, c.value * 256 + d.value])
  }

  /** Groups between colons; the last may be dotted. */
  function ReadGroups(s: string): Option<seq<nat>>
    decreases |s|
  {
    var k := Find(s, ':');
    if k == |s| then
      if Find(s, '.') < |s| then ReadDotted(s)
      else if ReadGroup(s).Some? then Some([ReadGroup(s).value]) else None
    else
      var first, rest := ReadGroup(s[..k]), ReadGroups(s[k + 1..]);
      if first.None? || rest.None? then None else Some([first.value] + rest.value)
  }

  function ReadSide(s: string): Option<seq<nat>> {
    if s == "" then Some([]) else ReadGroups(s)
  }

  function Zeros(n: nat): (z: seq<nat>)
    ensures |z| == n && forall i :: 0 <= i < n ==> z[i] == 0
  {
    seq(n, _ => 0)
  }

  /** An address: eight words, or fewer around one "::" that stands for the zeros left out. */
  function ReadAddress(s: string): Option<seq<nat>> {
    var k := FindDouble(s);
    if k == |s| then
      var all := ReadGroups(s);
      if all.Some? && |all.value| == 8 then all else None
    else
      var left, right := ReadSide(s[..k]), ReadSide(s[k + 2..]);
      if left.None? || right.None? || |left.value| + |right.value| > 7 then None
      else Some(left.value + Zeros(8 - |left.value| - |right.value|) + right.value)
  }

  // ----------------------------------------------------------------- printing

  function Hex(w: nat): string {
    Number(w, 16)
  }

  /** Words between colons. */
  function Join(ws: seq<nat>): string {
    if |ws| == 0 then "" else if |ws| == 1 then Hex(ws[0]) else Join(ws[..|ws| - 1]) + ":" + Hex(ws[|ws| - 1])
  }

  function Dotted(w: nat, x: nat): string {
    Number(w / 256, 10) + "." + Number(w % 256, 10) + "." + Number(x / 256, 10) + "." + Number(x % 256, 10)
  }

  predicate IsAddress(ws: seq<nat>) {
    |ws| == 8 && forall i :: 0 <= i < 8 ==> ws[i] < 0x1_0000
  }

  /** The zeros left out are those from `base` on; a base of -1 leaves nothing out. */
  predicate FitsRun(ws: seq<nat>, base: int, len: int) {
    base == -1 || (0 <= base && 2 <= len && base + len <= |ws| && forall i :: base <= i < base + len ==> ws[i] == 0)
  }

  /** Addresses that carry an IPv4 address in their last two words, printed with dots. */
  predicate Embeds(ws: seq<nat>, base: int, len: int)
    requires |ws| == 8
  {
    base == 0 && (len == 6 || (len == 5 && ws[5] == 0xffff))
  }

  function Text(ws: seq<nat>, base: int, len: int): string
    requires IsAddress(ws) && FitsRun(ws, base, len)
  {
    if base == -1 then Join(ws)
    else if Embeds(ws, base, len) then "::" + (if len == 5 then "ffff:" else "") + Dotted(ws[6], ws[7])
    else Join(ws[..base]) + "::" + Join(ws[base + len..])
  }

  // -------------------------------------------------------------- reading back

  lemma {:induction false} FindIs(s: string, c: char, k: nat)
    requires k <= |s| && (k < |s| ==> s[k] == c) && forall i :: 0 <= i < k ==> s[i] != c
    ensures Find(s, c) == k
  {
  }

  lemma {:induction false} FindDoubleIs(s: string, k: nat)
    requires k <= |s| && (k < |s| ==> k + 1 < |s| && s[k] == ':' && s[k + 1] == ':')
    requires forall i :: 0 <= i < k && i + 1 < |s| ==> !(s[i] == ':' && s[i + 1] == ':')
    ensures FindDouble(s) == k
  {
    if k > 0 {
      FindDoubleIs(s[1..], k - 1);
    }
  }

  lemma GroupReads(w: nat)
    requires w < 0x1_0000
    ensures ReadGroup(Hex(w)) == Some(w) && 1 <= |Hex(w)| <= 4
    ensures forall i :: 0 <= i < |Hex(w)| ==> Hex(w)[i] != ':' && Hex(w)[i] != '.'
  {
    HexLength(w);
    NumberReads(w, 16);
  }

  /** A printed group in front of a colon and more groups. */
  lemma GroupThenRest(w: nat, rest: string)
    requires w < 0x1_0000
    ensures ReadGroups(Hex(w) + ":" + rest) == if ReadGroups(rest).Some? then Some([w] + ReadGroups(rest).value)
        else None
  {
    GroupReads(w);
    var s := Hex(w) + ":" + rest;
    FindIs(s, ':', |Hex(w)|);
    assert s[..|Hex(w)|] == Hex(w) && s[|Hex(w)| + 1..] == rest;
  }

  lemma LoneGroup(w: nat)
    requires w < 0x1_0000
    ensures ReadGroups(Hex(w)) == Some([w])
  {
    GroupReads(w);
    FindIs(Hex(w), ':', |Hex(w)|);
    FindIs(Hex(w), '.', |Hex(w)|);
  }

  /** Joining from the front is joining from the back. */
  lemma {:induction false} JoinFront(ws: seq<nat>)
    requires |ws| >= 2
    ensures Join(ws) == Hex(ws[0]) + ":" + Join(ws[1..])
  {
    var n := |ws| - 1;
    if n > 1 {
      JoinFront(ws[..n]);
      assert ws[1..][..n - 1] == ws[..n][1..];
      assert Join(ws[1..]) == Join(ws[..n][1..]) + ":" + Hex(ws[n]);
    } else {
      assert ws[..1] == [ws[0]] && ws[1..] == [ws[1]];
    }
  }

  lemma {:induction false} JoinReads(ws: seq<nat>)
    requires ws != [] && forall i :: 0 <= i < |ws| ==> ws[i] < 0x1_0000
    ensures ReadGroups(Join(ws)) == Some(ws)
  {
    if |ws| == 1 {
      LoneGroup(ws[0]);
      assert ws == [ws[0]];
    } else {
      JoinFront(ws);
      JoinReads(ws[1..]);
      GroupThenRest(ws[0], Join(ws[1..]));
      assert ws == [ws[0]] + ws[1..];
    }
  }

  /** No two colons stand together in a join, nor one at either end. */
  predicate Spaced(s: string) {
    && (s != "" ==> s[0] != ':' && s[|s| - 1] != ':')
    && forall i :: 0 <= i < |s| - 1 ==> !(s[i] == ':' && s[i + 1] == ':')
  }

  lemma {:induction false} JoinSpaced(ws: seq<nat>)
    requires forall i :: 0 <= i < |ws| ==> ws[i] < 0x1_0000
    ensures Spaced(Join(ws)) && (ws != [] ==> Join(ws) != "") && |Join(ws)| <= 5 * |ws|
  {
    if ws != [] {
      var n := |ws| - 1;
      GroupReads(ws[n]);
      JoinSpaced(ws[..n]);
    }
  }

  lemma DoubleBetween(left: string, right: string)
    requires Spaced(left)
    ensures FindDouble(left + "::" + right) == |left|
  {
    FindDoubleIs(left + "::" + right, |left|);
  }

  lemma OctetReads(n: nat)
    requires n < 256
    ensures ReadOctet(Number(n, 10)) == Some(n) && 1 <= |Number(n, 10)| <= 3
    ensures forall i :: 0 <= i < |Number(n, 10)| ==> Number(n, 10)[i] != ':' && Number(n, 10)[i] != '.'
  {
    DecimalLength(n);
    NumberReads(n, 10);
  }

  lemma DottedSplits(a: string, b: string, c: string, d: string)
    requires forall i :: 0 <= i < |a| ==> a[i] != '.'
    requires forall i :: 0 <= i < |b| ==> b[i] != '.'
    requires forall i :: 0 <= i < |c| ==> c[i] != '.'
    ensures var s := a + "." + b + "." + c + "." + d;
      var t := b + "." + c + "." + d;
      var u := c + "." + d;
      && Find(s, '.') == |a| && s[..|a|] == a && s[|a| + 1..] == t
      && Find(t, '.') == |b| && t[..|b|] == b && t[|b| + 1..] == u
      && Find(u, '.') == |c| && u[..|c|] == c && u[|c| + 1..] == d
  {
    var s := a + "." + b + "." + c + "." + d;
    FindIs(s, '.', |a|);
    var t := b + "." + c + "." + d;
    assert s[|a| + 1..] == t;
    FindIs(t, '.', |b|);
    var u := c + "." + d;
    assert t[|b| + 1..] == u;
    FindIs(u, '.', |c|);
  }

  lemma DottedReads(w: nat, x: nat)
    requires w < 0x1_0000 && x < 0x1_0000
    ensures ReadGroups(Dotted(w, x)) == Some([w, x]) && 7 <= |Dotted(w, x)| <= 15
    ensures Dotted(w, x)[0] != ':'
  {
    hide Number, ReadOctet, Find, ReadDotted;
    DottedIsRead(w, x);
    var a, b, c, d := Number(w / 256, 10), Number(w % 256, 10), Number(x / 256, 10), Number(x % 256, 10);
    OctetReads(w / 256);
    OctetReads(w % 256);
    OctetReads(x / 256);
    OctetReads(x % 256);
    DottedSplits(a, b, c, d);
    NoColon(a, b, c, d);
    FindIs(Dotted(w, x), ':', |Dotted(w, x)|);
  }

  lemma DottedIsRead(w: nat, x: nat)
    requires w < 0x1_0000 && x < 0x1_0000
    ensures ReadDotted(Dotted(w, x)) == Some([w, x])
  {
    hide Number, ReadOctet, Find, TwoWords;
    var a, b, c, d := Number(w / 256, 10), Number(w % 256, 10), Number(x / 256, 10), Number(x % 256, 10);
    OctetReads(w / 256);
    OctetReads(w % 256);
    OctetReads(x / 256);
    OctetReads(x % 256);
    DottedSplits(a, b, c, d);
    TwoWordsAre(w, x);
  }

  lemma TwoWordsAre(w: nat, x: nat)
    ensures TwoWords(Some(w / 256), Some(w % 256), Some(x / 256), Some(x % 256)) == Some([w, x])
  {
  }

  lemma NoColon(a: string, b: string, c: string, d: string)
    requires forall i :: 0 <= i < |a| ==> a[i] != ':'
    requires forall i :: 0 <= i < |b| ==> b[i] != ':'
    requires forall i :: 0 <= i < |c| ==> c[i] != ':'
    requires forall i :: 0 <= i < |d| ==> d[i] != ':'
    ensures var s := a + "." + b + "." + c + "." + d; forall i :: 0 <= i < |s| ==> s[i] != ':'
  {
  }

  /** An address printed with any run of two or more zeros left out reads back as itself. */
  lemma TextReadsBack(ws: seq<nat>, base: int, len: int)
    requires IsAddress(ws) && FitsRun(ws, base, len)
    ensures ReadAddress(Text(ws, base, len)) == Some(ws) && |Text(ws, base, len)| <= 40
  {
    if base == -1 {
      WholeReadsBack(ws);
    } else if Embeds(ws, base, len) {
      EmbeddedReadsBack(ws, len);
    } else {
      ShortReadsBack(ws, base, len);
    }
  }

  lemma WholeReadsBack(ws: seq<nat>)
    requires IsAddress(ws)
    ensures ReadAddress(Join(ws)) == Some(ws) && |Join(ws)| <= 40
  {
    hide Join, ReadGroups, FindDouble;
    JoinReads(ws);
    JoinSpaced(ws);
    FindDoubleIs(Join(ws), |Join(ws)|);
  }

  lemma ShortReadsBack(ws: seq<nat>, base: nat, len: nat)
    requires IsAddress(ws) && FitsRun(ws, base, len)
    ensures var s := Join(ws[..base]) + "::" + Join(ws[base + len..]); ReadAddress(s) == Some(ws) && |s| <= 40
  {
    hide Join, ReadGroups, FindDouble;
    var l, r := ws[..base], ws[base + len..];
    SideReads(l);
    SideReads(r);
    JoinSpaced(l);
    JoinSpaced(r);
    DoubleBetween(Join(l), Join(r));
    var s := Join(l) + "::" + Join(r);
    assert s[..|Join(l)|] == Join(l) && s[|Join(l)| + 2..] == Join(r);
    assert ws == l + Zeros(len) + r;
  }

  lemma SideReads(ws: seq<nat>)
    requires forall i :: 0 <= i < |ws| ==> ws[i] < 0x1_0000
    ensures ReadSide(Join(ws)) == Some(ws)
  {
    if ws != [] {
      JoinReads(ws);
      JoinSpaced(ws);
    }
  }

  lemma EmbeddedReadsBack(ws: seq<nat>, len: nat)
    requires IsAddress(ws) && FitsRun(ws, 0, len) && Embeds(ws, 0, len)
    ensures ReadAddress(Text(ws, 0, len)) == Some(ws) && |Text(ws, 0, len)| <= 40
  {
    hide ReadGroups, FindDouble, Dotted, Hex;
    var d := Dotted(ws[6], ws[7]);
    DottedReads(ws[6], ws[7]);
    var right := (if len == 5 then "ffff:" else "") + d;
    DoubleBetween("", right);
    assert Text(ws, 0, len) == "" + "::" + right;
    var s := Text(ws, 0, len);
    assert s[..0] == "" && s[2..] == right;
    if len == 5 {
      HexFfff();
      GroupThenRest(0xffff, d);
      assert right == Hex(0xffff) + ":" + d;
      assert ReadSide(right) == Some([0xffff] + [ws[6], ws[7]]);
      assert ws == [] + Zeros(5) + ([0xffff] + [ws[6], ws[7]]);
    } else {
      assert right == d;
      assert ws == [] + Zeros(6) + [ws[6], ws[7]];
    }
  }

  lemma HexFfff()
    ensures Hex(0xffff) == "ffff"
  {
    assert Number(0xf, 16) == "f";
    assert Number(0xff, 16) == "ff";
    assert Number(0xfff, 16) == "fff";
  }

  // --------------------------------------------------------- what is printed

  /** Numbers are printed without leading zeros, and hexadecimal digits as small letters. */
  lemma {:induction false} NumberIs(n: nat, radix: nat)
    requires radix == 10 || radix == 16
    ensures |Number(n, radix)| > 1 ==> Number(n, radix)[0] != '0'
    ensures forall i :: 0 <= i < |Number(n, radix)| ==>
      '0' <= Number(n, radix)[i] <= '9' || (radix == 16 && 'a' <= Number(n, radix)[i] <= 'f')
    ensures n < radix ==> Number(n, radix) == [Digit(n)]
    decreases n
  {
    hide Number, Digit;
    NumberUnfolds(n, radix);
    Divides(n, radix);
    DigitIs(n % radix, radix);
    if n < radix {
      DigitIs(n, radix);
    } else {
      NumberIs(n / radix, radix);
      FirstOfNumber(n / radix, radix);
    }
  }

  lemma DigitIs(d: nat, radix: nat)
    requires (radix == 10 || radix == 16) && d < radix
    ensures '0' <= Digit(d) <= '9' || (radix == 16 && 'a' <= Digit(d) <= 'f')
    ensures Digit(d) == '0' <==> d == 0
  {
  }

  lemma FirstOfNumber(n: nat, radix: nat)
    requires radix == 10 || radix == 16
    requires |Number(n, radix)| > 1 ==> Number(n, radix)[0] != '0'
    ensures n > 0 ==> Number(n, radix)[0] != '0'
  {
    hide Digit;
    NumberUnfolds(n, radix);
    if n < radix { DigitIs(n, radix); }
  }

  /** Words are printed one by one with a colon between each two. */
  lemma {:induction false} JoinIs(a: seq<nat>, b: seq<nat>, w: nat)
    ensures Join([]) == "" && Join([w]) == Number(w, 16)
    ensures a != [] && b != [] ==> Join(a + b) == Join(a) + ":" + Join(b)
  {
    hide Number;
    if a != [] && |b| > 1 {
      var n := |b| - 1;
      JoinIs(a, b[..n], w);
      assert (a + b)[..|a + b| - 1] == a + b[..n];
    } else if a != [] && b != [] {
      assert (a + b)[..|a + b| - 1] == a;
    }
  }

  /**
   The text with the run left out: the words before it and behind it around two colons; but dotted at the end if all
   the first six words are zero and the seventh is not, or all the first five are and the sixth is ffff.
   */
  lemma TextIs(ws: seq<nat>, base: int, len: int)
    requires IsAddress(ws) && FitsRun(ws, base, len) && (base != -1 && base + len < 8 ==> ws[base + len] != 0)
    ensures base == -1 ==> Text(ws, base, len) == Join(ws)
    ensures base == 0 && len == 6 ==> Text(ws, base, len) == "::" + Dotted(ws[6], ws[7])
    ensures base == 0 && len == 5 && ws[5] == 0xffff ==> Text(ws, base, len) == "::ffff:" + Dotted(ws[6], ws[7])
    ensures base > 0 || (base == 0 && len != 6 && !(len == 5 && ws[5] == 0xffff)) ==>
              Text(ws, base, len) == Join(ws[..base]) + "::" + Join(ws[base + len..])
    ensures Dotted(ws[6], ws[7]) == Number(ws[6] / 256, 10) + "." + Number(ws[6] % 256, 10) + "."
                                  + Number(ws[7] / 256, 10) + "." + Number(ws[7] % 256, 10)
  {
    hide Number;
  }

  /** The unspecified address. */
  lemma Unspecified()
    ensures Text([0, 0, 0, 0, 0, 0, 0, 0], 0, 8) == "::"
  {
    hide Join, Number;
    var ws := [0, 0, 0, 0, 0, 0, 0, 0];
    JoinOf([]);
    assert ws[..0] == [] && ws[8..] == [];
  }

  /** The loopback address. */
  lemma Loopback()
    ensures Text([0, 0, 0, 0, 0, 0, 0, 1], 0, 7) == "::1"
  {
    hide Join, Number;
    var ws := [0, 0, 0, 0, 0, 0, 0, 1];
    JoinOf([]);
    JoinOf([1]);
    NumberUnfolds(1, 16);
    assert ws[..0] == [] && ws[7..] == [1];
  }

  /** An address with two runs of zeros. */
  lemma TwoRuns()
    ensures Text([0x2001, 0xdb8, 0, 0, 1, 0, 0, 1], 2, 2) == "2001:db8::1:0:0:1"
  {
    hide Join, Number;
    var ws := [0x2001, 0xdb8, 0, 0, 1, 0, 0, 1];
    Spelled();
    NumberUnfolds(1, 16);
    NumberUnfolds(0, 16);
    JoinOf([0x2001, 0xdb8]);
    JoinOf([1, 0, 0, 1]);
    assert ws[..2] == [0x2001, 0xdb8] && ws[4..] == [1, 0, 0, 1];
  }

  /** An address that carries an IPv4 address. */
  lemma Mapped()
    ensures Text([0, 0, 0, 0, 0, 0xffff, 0xc000, 0x201], 0, 5) == "::ffff:192.0.2.1"
  {
    hide Join, Number;
    Spelled();
    assert 0xc000 / 256 == 192 && 0xc000 % 256 == 0 && 0x201 / 256 == 2 && 0x201 % 256 == 1;
  }

  lemma JoinOf(ws: seq<nat>)
    ensures ws == [] ==> Join(ws) == ""
    ensures |ws| == 1 ==> Join(ws) == Number(ws[0], 16)
    ensures |ws| == 2 ==> Join(ws) == Number(ws[0], 16) + ":" + Number(ws[1], 16)
    ensures |ws| == 4 ==>
      Join(ws) == Number(ws[0], 16) + ":" + Number(ws[1], 16) + ":" + Number(ws[2], 16) + ":" + Number(ws[3], 16)
  {
    hide Number;
    if |ws| == 4 {
      assert ws[..3][..2][..1] == [ws[0]];
    }
  }

  lemma Spelled()
    ensures Number(0x2001, 16) == "2001" && Number(0xdb8, 16) == "db8"
    ensures Number(192, 10) == "192" && Number(0, 10) == "0" && Number(2, 10) == "2" && Number(1, 10) == "1"
  {
    assert Number(0x20, 16) == "20" && Number(0x200, 16) == "200" && Number(0xdb, 16) == "db";
    assert Number(19, 10) == "19";
  }
}
