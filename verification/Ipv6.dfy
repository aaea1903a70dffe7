/**
 Printing IPv6 addresses: the words are gathered, the longest run of zeros is found, and the
 text is put together in a buffer of fixed size.
 */
module Ipv6 {
  import opened Options
  import opened Ipv6Text

  /** The size of the buffer: the longest text imaginable, and its terminator. */
  const TMP_SIZE: nat := 46

  type Byte = x: nat | x < 256

  function Word(high: nat, low: nat): nat { high * 256 + low }

  datatype Run = Run(base: int, len: int)

  function WordsOf(src: seq<Byte>): (ws: seq<nat>)
    requires |src| == 16
    ensures IsAddress(ws)
  {
    seq(8, i requires 0 <= i < 8 => Word(src[2 * i], src[2 * i + 1]))
  }

  // ------------------------------------------------------ the run of zeros

  predicate ZeroRun(ws: seq<nat>, b: int, l: int) {
    0 <= b && 1 <= l && b + l <= |ws| && forall i :: b <= i < b + l ==> ws[i] == 0
  }

  /** Of the runs of zeros among the first `n` words, `r` is the first of the longest; -1 if there is none. */
  ghost predicate BestIn(ws: seq<nat>, n: int, r: Run) {
    if r.base == -1 then forall i :: 0 <= i < n && i < |ws| ==> ws[i] != 0
    else
      && ZeroRun(ws, r.base, r.len) && r.base + r.len <= n
      && forall b, l :: ZeroRun(ws, b, l) && b + l <= n ==> l < r.len || (l == r.len && r.base <= b)
  }

  /** The run to leave out: the first of the longest, unless that is a single word. */
  ghost predicate Chosen(ws: seq<nat>, r: Run) {
    if r.base == -1 then forall i :: 0 <= i < |ws| - 1 ==> !(ws[i] == 0 && ws[i + 1] == 0)
    else r.len >= 2 && BestIn(ws, |ws|, r)
  }

  /** The run being met ends before word `n`. */
  ghost predicate Open(ws: seq<nat>, n: int, cur: Run) {
    ZeroRun(ws, cur.base, cur.len) && cur.base + cur.len == n && (cur.base == 0 || ws[cur.base - 1] != 0)
  }

  function Better(best: Run, cur: Run): Run {
    if best.base == -1 || cur.len > best.len then cur else best
  }

  lemma CloseRun(ws: seq<nat>, n: nat, best: Run, cur: Run)
    requires n <= |ws| && Open(ws, n, cur) && BestIn(ws, cur.base, best)
    ensures BestIn(ws, n, Better(best, cur))
  {
    forall b, l | ZeroRun(ws, b, l) && b + l <= n
      ensures b + l <= cur.base || (cur.base <= b && l <= cur.len)
      ensures b + l <= cur.base ==> best.base != -1
    {
      ZeroAtStart(ws, b, l);
      if cur.base > 0 { RunAvoids(ws, b, l, cur.base - 1); }
    }
  }

  lemma ZeroAtStart(ws: seq<nat>, b: int, l: int)
    requires ZeroRun(ws, b, l)
    ensures 0 <= b < |ws| && ws[b] == 0
  {
  }

  lemma RunAvoids(ws: seq<nat>, b: int, l: int, i: nat)
    requires ZeroRun(ws, b, l) && i < |ws| && ws[i] != 0
    ensures i < b || b + l <= i
  {
  }

  lemma NonzeroEnds(ws: seq<nat>, i: nat, best: Run)
    requires i < |ws| && ws[i] != 0 && BestIn(ws, i, best)
    ensures BestIn(ws, i + 1, best)
  {
    forall b, l | ZeroRun(ws, b, l) && b + l <= i + 1 ensures b + l <= i {
      RunAvoids(ws, b, l, i);
    }
  }

  lemma TooShort(ws: seq<nat>, best: Run)
    requires BestIn(ws, |ws|, best)
    ensures Chosen(ws, if best.base != -1 && best.len < 2 then best.(base := -1) else best)
  {
    if best.base == -1 || best.len < 2 {
      forall i | 0 <= i < |ws| - 1 ensures !(ws[i] == 0 && ws[i + 1] == 0) {
        assert ZeroRun(ws, i, 2) <==> ws[i] == 0 && ws[i + 1] == 0;
      }
    }
  }

  /** One pass over the words, with the best run so far and the one being met. */
  method FindBest(ws: seq<nat>) returns (best: Run)
    ensures Chosen(ws, best)
  {
    hide BestIn, ZeroRun, Chosen;
    best := Run(-1, -1);
    var cur := Run(-1, -1);
    NothingYet(ws);
    var i := 0;
    while i < |ws|
      invariant 0 <= i <= |ws|
      invariant cur.base == -1 ==> BestIn(ws, i, best) && (i > 0 ==> ws[i - 1] != 0)
      invariant cur.base != -1 ==> Open(ws, i, cur) && BestIn(ws, cur.base, best)
    {
      if ws[i] == 0 {
        ZeroMet(ws, i, cur);
        if cur.base == -1 {
          cur := Run(i, 1);
        } else {
          cur := cur.(len := cur.len + 1);
        }
      } else {
        if cur.base != -1 {
          CloseRun(ws, i, best, cur);
          if best.base == -1 || cur.len > best.len {
            best := cur;
          }
          cur := cur.(base := -1);
        }
        NonzeroEnds(ws, i, best);
      }
      i := i + 1;
    }
    if cur.base != -1 {
      CloseRun(ws, i, best, cur);
      if best.base == -1 || cur.len > best.len {
        best := cur;
      }
    }
    TooShort(ws, best);
    if best.base != -1 && best.len < 2 {
      best := best.(base := -1);
    }
  }

  lemma NothingYet(ws: seq<nat>)
    ensures BestIn(ws, 0, Run(-1, -1))
  {
  }

  lemma ZeroMet(ws: seq<nat>, i: nat, cur: Run)
    requires i < |ws| && ws[i] == 0
    ensures cur.base == -1 && (i > 0 ==> ws[i - 1] != 0) ==> Open(ws, i + 1, Run(i, 1))
    ensures cur.base != -1 && Open(ws, i, cur) ==> Open(ws, i + 1, cur.(len := cur.len + 1))
  {
  }

  // ------------------------------------------------------------- the text

  /** Words each behind a colon. */
  function Tail(ws: seq<nat>): string {
    if ws == [] then "" else Tail(ws[..|ws| - 1]) + ":" + Hex(ws[|ws| - 1])
  }

  /** The text after the first `i` words. */
  function Partial(ws: seq<nat>, r: Run, i: nat): string
    requires IsAddress(ws) && FitsRun(ws, r.base, r.len) && i <= 8
  {
    if r.base == -1 || i <= r.base then Join(ws[..i])
    else if i <= r.base + r.len then Join(ws[..r.base]) + ":"
    else Join(ws[..r.base]) + ":" + Tail(ws[r.base + r.len..i])
  }

  lemma {:induction false} TailIsJoin(ws: seq<nat>)
    requires ws != []
    ensures Tail(ws) == ":" + Join(ws)
  {
    var n := |ws| - 1;
    if n > 0 {
      TailIsJoin(ws[..n]);
    } else {
      assert ws[..0] == [];
    }
  }

  lemma JoinMore(ws: seq<nat>, i: nat)
    requires i < |ws|
    ensures Join(ws[..i + 1]) == Join(ws[..i]) + (if i != 0 then ":" else "") + Hex(ws[i])
  {
    hide Hex;
    assert ws[..i + 1][..i] == ws[..i];
  }

  lemma TailMore(ws: seq<nat>, from: nat, i: nat)
    requires from <= i < |ws|
    ensures Tail(ws[from..i + 1]) == Tail(ws[from..i]) + ":" + Hex(ws[i])
  {
    hide Hex;
    assert ws[from..i + 1][..i - from] == ws[from..i];
  }

  lemma PartialStep(ws: seq<nat>, r: Run, i: nat)
    requires IsAddress(ws) && FitsRun(ws, r.base, r.len) && i < 8
    ensures r.base != -1 && r.base <= i < r.base + r.len ==>
              Partial(ws, r, i + 1) == Partial(ws, r, i) + if i == r.base then ":" else ""
    ensures !(r.base != -1 && r.base <= i < r.base + r.len) ==>
              Partial(ws, r, i + 1) == Partial(ws, r, i) + (if i != 0 then ":" else "") + Hex(ws[i])
  {
    hide Hex, Join, Tail;
    if r.base == -1 || i < r.base {
      JoinMore(ws, i);
    } else if i >= r.base + r.len {
      TailMore(ws, r.base + r.len, i);
      assert ws[r.base + r.len..r.base + r.len] == [];
      assert Tail([]) == "" by { TailOfNone(); }
    }
  }

  lemma TailOfNone()
    ensures Tail([]) == ""
  {
  }

  /** All words in, but for the colon that closes a run at the end, the text is done. */
  lemma PartialIsText(ws: seq<nat>, r: Run)
    requires IsAddress(ws) && FitsRun(ws, r.base, r.len) && !(r.base != -1 && Embeds(ws, r.base, r.len))
    ensures Partial(ws, r, 8) + (if r.base != -1 && r.base + r.len == 8 then ":" else "") == Text(ws, r.base, r.len)
  {
    hide Hex;
    if r.base == -1 {
      assert ws[..8] == ws;
    } else if r.base + r.len < 8 {
      TailIsJoin(ws[r.base + r.len..8]);
      assert ws[r.base + r.len..8] == ws[r.base + r.len..];
    } else {
      assert ws[r.base + r.len..] == [];
    }
  }

  lemma EmbeddedIsText(ws: seq<nat>, r: Run)
    requires IsAddress(ws) && FitsRun(ws, r.base, r.len) && r.base == 0 && Embeds(ws, 0, r.len)
    ensures Partial(ws, r, 6) + ":" + Dotted(ws[6], ws[7]) == Text(ws, 0, r.len)
  {
    hide Dotted;
    assert ws[..0] == [];
    if r.len == 5 {
      assert ws[5..6] == [0xffff] && [0xffff][..0] == [];
      HexFfff();
    }
  }

  lemma {:induction false} PartialLength(ws: seq<nat>, r: Run, i: nat)
    requires IsAddress(ws) && FitsRun(ws, r.base, r.len) && i <= 8
    ensures |Partial(ws, r, i)| <= 5 * i
  {
    hide Partial;
    if i > 0 {
      PartialLength(ws, r, i - 1);
      PartialStep(ws, r, i - 1);
      GroupReads(ws[i - 1]);
    } else {
      PartialOfNone(ws, r);
    }
  }

  lemma PartialOfNone(ws: seq<nat>, r: Run)
    requires IsAddress(ws) && FitsRun(ws, r.base, r.len)
    ensures Partial(ws, r, 0) == ""
  {
  }

  /** Four numbers with dots, if the text and its terminator fit. */
  method InetNtop4(a: Byte, b: Byte, c: Byte, d: Byte, size: nat) returns (r: Option<string>)
    ensures var t := Dotted(Word(a, b), Word(c, d)); r == if |t| >= size then None else Some(t)
    ensures var t := Number(a, 10) + "." + Number(b, 10) + "." + Number(c, 10) + "." + Number(d, 10);
      r == if |t| >= size then None else Some(t)
  {
    var tmp := Number(a, 10) + "." + Number(b, 10) + "." + Number(c, 10) + "." + Number(d, 10);
    if |tmp| >= size {
      return None;
    }
    r := Some(tmp);
  }

  /** The bytes by twos as words. */
  method LoadWords(src: seq<Byte>) returns (words: seq<nat>)
    requires |src| == 16
    ensures words == WordsOf(src)
    ensures |words| == 8 && forall k :: 0 <= k < 8 ==> words[k] == src[2 * k] as int * 256 + src[2 * k + 1] as int
  {
    var ws := new nat[8](_ => 0);
    var i := 0;
    while i < 16
      invariant 0 <= i <= 16
      invariant forall k :: 0 <= k < 8 ==>
        ws[k] == Word(if 2 * k < i then src[2 * k] else 0, if 2 * k + 1 < i then src[2 * k + 1] else 0)
    {
      ws[i / 2] := ws[i / 2] + if i % 2 == 0 then Word(src[i], 0) else src[i];
      i := i + 1;
    }
    words := ws[..];
  }

  /** Puts the text together word by word; the buffer is never too small. */
  method Format(src: seq<Byte>, ws: seq<nat>, best: Run) returns (room: bool, tp: string)
    requires |src| == 16 && ws == WordsOf(src) && FitsRun(ws, best.base, best.len)
    ensures room && tp == Text(ws, best.base, best.len)
  {
    hide Partial, Text, Dotted, Hex, WordsOf;
    tp, room := "", true;
    var i, embedded, last := 0, false, ws[7];
    PartialOfNone(ws, best);
    while i < 8 && !embedded
      invariant 0 <= i <= 8 && room
      invariant !embedded ==> tp == Partial(ws, best, i)
      invariant embedded ==> best.base == 0 && Embeds(ws, 0, best.len) && tp == Text(ws, 0, best.len) && |tp| <= 40
      invariant i > 6 && !embedded ==> !(best.base != -1 && Embeds(ws, best.base, best.len))
      decreases 8 - i, !embedded
    {
      PartialLength(ws, best, i);
      PartialStep(ws, best, i);
      GroupReads(ws[i]);
      if best.base != -1 && i >= best.base && i < best.base + best.len {
        if i == best.base {
          tp := tp + ":";
        }
        i := i + 1;
      } else {
        if i != 0 {
          if |tp| + 1 >= TMP_SIZE {
            room := false;
          }
          tp := tp + ":";
        }
        if i == 6 && best.base == 0 &&
           (best.len == 6 || (best.len == 7 && last != 0x0001) || (best.len == 5 && ws[5] == 0xffff)) {
          var v4 := InetNtop4(src[12], src[13], src[14], src[15], TMP_SIZE - |tp|);
          EmbeddedIsText(ws, best);
          TextReadsBack(ws, 0, best.len);
          LastWords(src, ws);
          if v4.None? {
            room := false;
          } else {
            tp := tp + v4.value;
          }
          embedded := true;
        } else {
          var digits := Hex(ws[i]);
          if |digits| >= TMP_SIZE - |tp| {
            room := false;
          }
          tp := tp + digits;
          i := i + 1;
        }
      }
    }
    if !embedded { PartialIsText(ws, best); }
    TextReadsBack(ws, best.base, best.len);
    if best.base != -1 && best.base + best.len == 8 {
      if |tp| + 1 >= TMP_SIZE {
        room := false;
      }
      tp := tp + ":";
    }
    if |tp| + 1 >= TMP_SIZE {
      room := false;
    }
  }

  lemma LastWords(src: seq<Byte>, ws: seq<nat>)
    requires |src| == 16 && ws == WordsOf(src)
    ensures ws[6] == Word(src[12], src[13]) && ws[7] == Word(src[14], src[15])
  {
  }

  lemma ChosenFits(ws: seq<nat>, r: Run)
    requires Chosen(ws, r)
    ensures FitsRun(ws, r.base, r.len)
  {
  }

  /** The address as text, if it and its terminator fit in `size`; it reads back to the same words. */
  method InetNtop6(src: seq<Byte>, size: nat) returns (r: Option<string>, ghost run: Run)
    requires |src| == 16
    ensures Chosen(WordsOf(src), run) && FitsRun(WordsOf(src), run.base, run.len)
    ensures var t := Text(WordsOf(src), run.base, run.len); r == if |t| + 1 > size then None else Some(t)
    ensures r.Some? ==> ReadAddress(r.value) == Some(WordsOf(src))
    ensures size >= TMP_SIZE ==> r.Some?
  {
    hide Text, WordsOf, ReadAddress, Chosen;
    var ws := LoadWords(src);
    var best := FindBest(ws);
    ChosenFits(ws, best);
    run := best;
    var room, tp := Format(src, ws, best);
    TextReadsBack(ws, best.base, best.len);
    if !room || |tp| + 1 > size {
      return None, run;
    }
    r := Some(tp);
  }

  /** What the chosen run is, and when the address is printed with dots. */
  lemma ChosenIs(ws: seq<nat>, r: Run)
    requires IsAddress(ws) && Chosen(ws, r)
    ensures r.base == -1 <==> forall i :: 0 <= i < 7 ==> !(ws[i] == 0 && ws[i + 1] == 0)
    ensures r.base != -1 ==> 0 <= r.base && r.len >= 2 && r.base + r.len <= 8
    ensures r.base != -1 ==> forall i :: r.base <= i < r.base + r.len ==> ws[i] == 0
    ensures r.base == 0 && Embeds(ws, r.base, r.len) <==>
      ws[0] == 0 && ws[1] == 0 && ws[2] == 0 && ws[3] == 0 && ws[4] == 0
      && (ws[5] == 0xffff || (ws[5] == 0 && ws[6] != 0))
  {
    if r.base != -1 {
      assert ws[r.base] == 0 && ws[r.base + 1] == 0;
    } else {
      assert ws[0] != 0 || ws[1] != 0;
    }
    EmbedsIff(ws, r);
  }

  /** No other run of zeros is longer than the chosen one, and none as long begins before it. */
  lemma ChosenIsLongest(ws: seq<nat>, r: Run, b: nat, l: nat)
    requires IsAddress(ws) && Chosen(ws, r) && r.base != -1
    requires b + l <= 8 && forall i :: b <= i < b + l ==> ws[i] == 0
    ensures l < r.len || (l == r.len && r.base <= b)
  {
    if l >= 1 { assert ZeroRun(ws, b, l); }
  }

  lemma EmbedsIff(ws: seq<nat>, r: Run)
    requires IsAddress(ws) && Chosen(ws, r)
    ensures r.base == 0 && Embeds(ws, r.base, r.len) <==>
      ws[0] == 0 && ws[1] == 0 && ws[2] == 0 && ws[3] == 0 && ws[4] == 0
      && (ws[5] == 0xffff || (ws[5] == 0 && ws[6] != 0))
  {
    if r.base == 0 && Embeds(ws, r.base, r.len) {
      if r.len == 6 { assert ZeroRun(ws, 0, 7) <==> ws[6] == 0; }
    }
    if ws[0] == 0 && ws[1] == 0 && ws[2] == 0 && ws[3] == 0 && ws[4] == 0 {
      if ws[5] == 0 && ws[6] != 0 {
        LongAtStart(ws, r, 6);
      } else if ws[5] == 0xffff {
        LongAtStart(ws, r, 5);
      }
    }
  }

  /** A run of five or more at the start is the one chosen. */
  lemma LongAtStart(ws: seq<nat>, r: Run, l: nat)
    requires IsAddress(ws) && Chosen(ws, r) && 5 <= l < 8 && ZeroRun(ws, 0, l) && ws[l] != 0
    ensures r == Run(0, l)
  {
    assert ws[0] == 0 && ws[1] == 0;
    RunAvoids(ws, r.base, r.len, l);
  }

  /** Only one run can be chosen, as far as the text goes. */
  lemma ChosenOnce(ws: seq<nat>, r: Run, s: Run)
    requires Chosen(ws, r) && Chosen(ws, s)
    ensures r.base == s.base && (r.base != -1 ==> r.len == s.len)
  {
    if r.base != -1 {
      assert ws[r.base] == 0 && ws[r.base + 1] == 0;
    }
    if s.base != -1 {
      assert ws[s.base] == 0 && ws[s.base + 1] == 0;
    }
  }
}
