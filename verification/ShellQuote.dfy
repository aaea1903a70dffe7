/**
 Quoting a string for the shell, and a reader of shell words as the POSIX.1-2017 Shell
 Command Language has them (sections 2.2, 2.2.2 and 2.2.3).
 */
module ShellQuote {
  import opened Options

  // --------------------------------------------------------- the shell's side

  /** How the text being read is quoted. */
  datatype Mode = Plain | Single | Double

  /** A character that stands for itself when it is not quoted (section 2.2). */
  predicate StandsForItself(c: char) {
    && c != '|' && c != '&' && c != ';' && c != '<' && c != '>' && c != '(' && c != ')' && c != '$' && c != '`'
    && c != '\\' && c != '"' && c != '\'' && c != ' ' && c != '\t' && c != '\n'
    && c != '*' && c != '?' && c != '[' && c != '#' && c != '~' && c != '=' && c != '%'
  }

  /** The text read as part of one word, or None if the word ends, expands or is left open. */
  function Read(text: string, mode: Mode): (word: Option<string>) {
    if text == "" then
      if mode == Plain then Some("") else None
    else
      var c, rest := text[0], text[1..];
      match mode
      case Plain =>
        if c == '\'' then Read(rest, Single)
        else if c == '"' then Read(rest, Double)
        else if StandsForItself(c) then Put(c, Read(rest, Plain))
        else None
      case Single =>
        if c == '\'' then Read(rest, Plain) else Put(c, Read(rest, Single))
      case Double =>
        if c == '"' then Read(rest, Plain)
        else if c == '$' || c == '`' || c == '\\' then None
        else Put(c, Read(rest, Double))
  }

  function Put(c: char, word: Option<string>): Option<string> {
    if word.Some? then Some([c] + word.value) else None
  }

  /** The text read as exactly one word; no text at all is no word. */
  function ReadWord(text: string): Option<string> {
    if text == "" then None else Read(text, Plain)
  }

  // ----------------------------------------------------------------- quoting

  predicate IsAlnum(c: char) {
    '0' <= c <= '9' || 'A' <= c <= 'Z' || 'a' <= c <= 'z'
  }

  /** Characters taken to need no quoting. */
  predicate IsShOk(c: char) {
    IsAlnum(c) || c == ',' || c == '_' || c == '.' || c == ':' || c == '-'
  }

  function Piece(c: char): string {
    if c == '\'' then "'\"'\"'" else [c]
  }

  function Body(s: string): string {
    if s == "" then "" else Piece(s[0]) + Body(s[1..])
  }

  function Quoted(s: string): string {
    "'" + Body(s) + "'"
  }

  /** How many characters need quoting. */
  function Needs(s: string): nat {
    if s == "" then 0 else Needs(s[..|s| - 1]) + if IsShOk(s[|s| - 1]) then 0 else 1
  }

  lemma {:induction false} BodyMore(s: string, c: char)
    ensures Body(s + [c]) == Body(s) + Piece(c)
  {
    if s == "" {
      assert Body([c]) == Piece(c) + Body("");
    } else {
      BodyMore(s[1..], c);
      assert (s + [c])[1..] == s[1..] + [c];
    }
  }

  /** Each quote in the text costs four characters more. */
  lemma {:induction false} BodyLength(s: string)
    ensures |s| <= |Body(s)| <= |s| + 4 * Needs(s)
  {
    if s != "" {
      var n := |s| - 1;
      BodyLength(s[..n]);
      BodyMore(s[..n], s[n]);
      assert s == s[..n] + [s[n]];
    }
  }

  lemma {:induction false} NeedsPrefix(s: string, i: nat)
    requires i <= |s|
    ensures Needs(s[..i]) <= Needs(s)
  {
    if i < |s| {
      NeedsPrefix(s[..|s| - 1], i);
      assert s[..|s| - 1][..i] == s[..i];
    } else {
      assert s[..i] == s;
    }
  }

  /** Counts the characters that need quoting. */
  method CountNeeds(s: string) returns (needs: nat)
    ensures needs == Needs(s)
  {
    needs := 0;
    var len := 0;
    while len < |s|
      invariant 0 <= len <= |s| && needs == Needs(s[..len])
    {
      assert s[..len + 1][..len] == s[..len];
      if !IsShOk(s[len]) {
        needs := needs + 1;
      }
      len := len + 1;
    }
    assert s[..len] == s;
  }

  /** Writes one character at `p`, a quote with the quotes around it; returns the next place. */
  method WritePiece(c: char, buf: array<char>, p: nat) returns (next: nat)
    requires p + |Piece(c)| <= buf.Length
    modifies buf
    ensures next == p + |Piece(c)| && buf[..next] == old(buf[..p]) + Piece(c)
  {
    next := p;
    if c == '\'' {
      buf[p], buf[p + 1], buf[p + 2], buf[p + 3] := '\'', '"', '\'', '"';
      next := next + 4;
    }
    buf[next] := c;
    next := next + 1;
  }

  /** Counts, allocates, and writes through a moving index: no write leaves the buffer. */
  method ShellQuoteString(s: string) returns (rejected: bool, quoted: array<char>)
    ensures fresh(quoted)
    ensures rejected <==> forall i :: 0 <= i < |s| ==>
      || '0' <= s[i] <= '9' || 'A' <= s[i] <= 'Z' || 'a' <= s[i] <= 'z'
      || s[i] == ',' || s[i] == '_' || s[i] == '.' || s[i] == ':' || s[i] == '-'
    ensures !rejected ==>
              && quoted.Length == |s| + 4 * Needs(s) + 3
              && |Quoted(s)| < quoted.Length && quoted[..|Quoted(s)|] == Quoted(s) && quoted[|Quoted(s)|] == '\0'
  {
    hide Needs, Body, Piece;
    var len := |s|;
    var needs := CountNeeds(s);
    NeedsNone(s);
    if needs == 0 {
      quoted := new char[0];
      return true, quoted;
    }
    quoted := new char[len + 4 * needs + 3];
    quoted[0] := '\'';
    var p: nat, i := 1, 0;
    BodyOfNone(s);
    while i < len
      invariant 0 <= i <= len && p == 1 + |Body(s[..i])| && p <= quoted.Length
      invariant quoted[..p] == "'" + Body(s[..i])
    {
      StepFits(s, i);
      p := WritePiece(s[i], quoted, p);
      i := i + 1;
    }
    BodyLength(s);
    assert s[..i] == s;
    quoted[p] := '\'';
    quoted[p + 1] := '\0';
    assert quoted[..p + 1] == quoted[..p] + "'";
    rejected := false;
  }

  /** Nothing needs quoting if no character does. */
  lemma {:induction false} NeedsNone(s: string)
    ensures Needs(s) == 0 <==> forall i :: 0 <= i < |s| ==>
      || '0' <= s[i] <= '9' || 'A' <= s[i] <= 'Z' || 'a' <= s[i] <= 'z'
      || s[i] == ',' || s[i] == '_' || s[i] == '.' || s[i] == ':' || s[i] == '-'
  {
    if s != "" {
      NeedsNone(s[..|s| - 1]);
      assert forall i :: 0 <= i < |s| - 1 ==> s[..|s| - 1][i] == s[i];
    }
  }

  /** Quoted text is the text between single quotes, each quote of its own between double quotes outside of them. */
  lemma {:induction false} QuotedIs(s: string, t: string)
    ensures (forall i :: 0 <= i < |s| ==> s[i] != '\'') ==> Quoted(s) == "'" + s + "'"
    ensures Body("'") == "'\"'\"'" && Body(s + t) == Body(s) + Body(t)
  {
    if s == "" {
      assert s + t == t;
    } else {
      QuotedIs(s[1..], t);
      assert (s + t)[1..] == s[1..] + t;
      assert forall i :: 0 <= i < |s| - 1 ==> s[1..][i] == s[i + 1];
      if forall i :: 0 <= i < |s| ==> s[i] != '\'' {
        BodyPlain(s);
      }
    }
  }

  lemma {:induction false} BodyPlain(s: string)
    requires forall i :: 0 <= i < |s| ==> s[i] != '\''
    ensures Body(s) == s
  {
    if s != "" {
      BodyPlain(s[1..]);
      assert s == [s[0]] + s[1..];
    }
  }

  lemma BodyOfNone(s: string)
    ensures Body(s[..0]) == ""
  {
  }

  lemma StepFits(s: string, i: nat)
    requires i < |s|
    ensures Body(s[..i + 1]) == Body(s[..i]) + Piece(s[i])
    ensures |Body(s[..i + 1])| <= i + 1 + 4 * Needs(s[..i + 1]) && Needs(s[..i + 1]) <= Needs(s)
  {
    assert s[..i + 1] == s[..i] + [s[i]];
    BodyMore(s[..i], s[i]);
    BodyLength(s[..i + 1]);
    NeedsPrefix(s, i + 1);
  }

  // ------------------------------------------------------------ reading back

  /** Inside single quotes, each piece is read as its character, and reading goes on inside. */
  lemma PieceReads(c: char, rest: string)
    ensures Read(Piece(c) + rest, Single) == Put(c, Read(rest, Single))
  {
    if c == '\'' {
      var t := Piece(c) + rest;
      assert t[1..] == "\"'\"'" + rest;
      assert t[1..][1..] == "'\"'" + rest;
      assert t[1..][1..][1..] == "\"'" + rest;
      assert t[1..][1..][1..][1..] == "'" + rest;
      assert t[1..][1..][1..][1..][1..] == rest;
      assert Read("'" + rest, Plain) == Read(rest, Single) by { assert ("'" + rest)[1..] == rest; }
      assert Read("\"'" + rest, Double) == Read("'" + rest, Plain);
      assert Read("'\"'" + rest, Double) == Put('\'', Read("\"'" + rest, Double));
      assert Read("\"'\"'" + rest, Plain) == Read("'\"'" + rest, Double);
    } else {
      assert (Piece(c) + rest)[1..] == rest;
    }
  }

  lemma {:induction false} BodyReads(s: string)
    ensures Read(Body(s) + "'", Single) == Some(s)
  {
    if s == "" {
      assert Body(s) + "'" == "'" && "'"[1..] == "";
    } else {
      assert s == [s[0]] + s[1..];
      BodyReads(s[1..]);
      PieceReads(s[0], Body(s[1..]) + "'");
      assert Body(s) + "'" == Piece(s[0]) + (Body(s[1..]) + "'");
    }
  }

  lemma {:induction false} OkReads(s: string)
    requires Needs(s) == 0
    ensures Read(s, Plain) == Some(s)
  {
    NoneNeeds(s);
    OkReadsAsIs(s);
  }

  lemma {:induction false} NoneNeeds(s: string)
    ensures Needs(s) == 0 <==> forall i :: 0 <= i < |s| ==> IsShOk(s[i])
  {
    if s != "" {
      NoneNeeds(s[..|s| - 1]);
    }
  }

  lemma {:induction false} OkReadsAsIs(s: string)
    requires forall i :: 0 <= i < |s| ==> IsShOk(s[i])
    ensures Read(s, Plain) == Some(s)
  {
    if s != "" {
      assert IsShOk(s[0]);
      OkStandsForItself(s[0]);
      OkReadsAsIs(s[1..]);
      assert s == [s[0]] + s[1..];
    }
  }

  lemma OkStandsForItself(c: char)
    requires IsShOk(c)
    ensures StandsForItself(c) && c != '\'' && c != '"'
  {
  }

  /** What to give the shell: the quoted text, or the string itself when quoting was refused. */
  function ForShell(s: string): string {
    if Needs(s) == 0 then s else Quoted(s)
  }

  /**
   The shell reads exactly one word, the original string, except that the empty string stays unquoted and
   vanishes.
   */
  lemma ShellReadsBack(s: string)
    ensures ReadWord(ForShell(s)) == if s == "" then None else Some(s)
  {
    if s != "" {
      if Needs(s) == 0 {
        OkReads(s);
      } else {
        BodyReads(s);
        assert Quoted(s)[1..] == Body(s) + "'";
      }
    }
  }
}
