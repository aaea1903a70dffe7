/**
 The registry's events as lines of text: how the daemon prints them and how a client reads
 them back out of a byte stream.
 */
module RelayWire {
  import opened RegistrySpec
  import opened RegistryChildren
  import RegistryNames

  // ---------------------------------------------------------------- printing

  function ActionName(action: Action): string {
    match action
    case Add => "add"
    case Delete => "delete"
    case Change => "change"
    case Final => "final"
  }

  function Wire(e: Event): string {
    ActionName(e.action) + " " + e.name + "\n\r"
  }

  /** What the daemon sends: an event, or a lone newline that tells whether the client is still there. */
  datatype Message = Tell(event: Event) | KeepAlive

  function BytesOf(m: Message): string {
    match m
    case Tell(e) => Wire(e)
    case KeepAlive => "\n"
  }

  function Bytes(ms: seq<Message>): string {
    if ms == [] then "" else Bytes(ms[..|ms| - 1]) + BytesOf(ms[|ms| - 1])
  }

  function EventsSent(ms: seq<Message>): seq<Event> {
    if ms == [] then []
    else EventsSent(ms[..|ms| - 1]) + if ms[|ms| - 1].Tell? then [ms[|ms| - 1].event] else []
  }

  /** What goes over the wire, written out. */
  lemma MessagesAre(name: string)
    ensures BytesOf(KeepAlive) == "\n"
    ensures BytesOf(Tell(Event(Add, name))) == "add " + name + "\n\r"
    ensures BytesOf(Tell(Event(Change, name))) == "change " + name + "\n\r"
    ensures BytesOf(Tell(Event(Delete, name))) == "delete " + name + "\n\r"
    ensures BytesOf(Tell(Event(Final, name))) == "final " + name + "\n\r"
  {
  }

  // ----------------------------------------------------------------- reading

  predicate Terminator(c: char) {
    c == '\n' || c == '\r'
  }

  /** The place of the first line terminator, or the end. */
  function LineEnd(s: string): (i: nat)
    ensures i <= |s| && (i < |s| ==> Terminator(s[i]))
    ensures forall k :: 0 <= k < i ==> !Terminator(s[k])
  {
    if s == "" || Terminator(s[0]) then 0 else 1 + LineEnd(s[1..])
  }

  /** The characters before the first NUL. */
  function CString(s: string): (r: string)
    ensures r <= s && forall i :: 0 <= i < |r| ==> r[i] != '\0'
  {
    if s == "" || s[0] == '\0' then "" else [s[0]] + CString(s[1..])
  }

  /** `strncasecmp(word, line, |word|)` finds no difference. */
  predicate StartsWith(word: string, line: string): (b: bool)
    ensures b ==> |word| <= |line|
  {
    |word| <= |line| && forall i :: 0 <= i < |word| ==> Lower(word[i]) == Lower(line[i])
  }

  /** The event a line tells of; a line that starts with no action is dropped. */
  function ParseLine(line: string): seq<Event> {
    if StartsWith("change ", line) then [Event(Change, line[7..])]
    else if StartsWith("add ", line) then [Event(Add, line[4..])]
    else if StartsWith("delete ", line) then [Event(Delete, line[7..])]
    else if StartsWith("final ", line) then [Event(Final, line[6..])]
    else []
  }

  /** A line tells of an event if it starts with an action, in capitals or not, and a blank; the rest is the name. */
  lemma LinesAre(line: string)
    ensures |line| >= 4 && Lower(line[0]) == 'a' && Lower(line[1]) == 'd' && Lower(line[2]) == 'd' && line[3] == ' ' ==>
      ParseLine(line) == [Event(Add, line[4..])]
    ensures (|line| >= 6 && Lower(line[0]) == 'f' && Lower(line[1]) == 'i' && Lower(line[2]) == 'n'
             && Lower(line[3]) == 'a' && Lower(line[4]) == 'l' && line[5] == ' ') ==>
      ParseLine(line) == [Event(Final, line[6..])]
    ensures (|line| >= 7 && Lower(line[0]) == 'c' && Lower(line[1]) == 'h' && Lower(line[2]) == 'a'
             && Lower(line[3]) == 'n' && Lower(line[4]) == 'g' && Lower(line[5]) == 'e' && line[6] == ' ') ==>
      ParseLine(line) == [Event(Change, line[7..])]
    ensures (|line| >= 7 && Lower(line[0]) == 'd' && Lower(line[1]) == 'e' && Lower(line[2]) == 'l'
             && Lower(line[3]) == 'e' && Lower(line[4]) == 't' && Lower(line[5]) == 'e' && line[6] == ' ') ==>
      ParseLine(line) == [Event(Delete, line[7..])]
    ensures (line == "" || (Lower(line[0]) != 'a' && Lower(line[0]) != 'c' && Lower(line[0]) != 'd'
                            && Lower(line[0]) != 'f')) ==> ParseLine(line) == []
  {
  }

  /** Empty lines are passed over. */
  function LineEvents(line: string): seq<Event> {
    if line == "" then [] else ParseLine(CString(line))
  }

  /** The events of the complete lines of a stream. */
  function EventsOf(s: string): seq<Event>
    decreases |s|
  {
    var i := LineEnd(s);
    if i == |s| then [] else LineEvents(s[..i]) + EventsOf(s[i + 1..])
  }

  /** What is left of a stream after its last terminator. */
  function Rest(s: string): string
    decreases |s|
  {
    var i := LineEnd(s);
    if i == |s| then s else Rest(s[i + 1..])
  }

  lemma {:induction false} LineEndIs(s: string, i: nat)
    requires i <= |s| && (i < |s| ==> Terminator(s[i])) && forall k :: 0 <= k < i ==> !Terminator(s[k])
    ensures LineEnd(s) == i
  {
  }

  lemma FirstLineSame(s: string, t: string)
    requires LineEnd(s) < |s|
    ensures var i := LineEnd(s);
      LineEnd(s + t) == i && (s + t)[..i] == s[..i] && (s + t)[i + 1..] == s[i + 1..] + t
  {
    LineEndIs(s + t, LineEnd(s));
  }

  /** Reading on from what was left is reading the whole stream. */
  lemma {:induction false} ReadOn(s: string, t: string)
    ensures EventsOf(s + t) == EventsOf(s) + EventsOf(Rest(s) + t)
    ensures Rest(s + t) == Rest(Rest(s) + t)
    decreases |s|
  {
    hide LineEvents, LineEnd;
    var i := LineEnd(s);
    if i < |s| {
      FirstLineSame(s, t);
      ReadOn(s[i + 1..], t);
    }
  }

  /** The events of the first line, and then those of the others. */
  lemma LineThenRest(s: string)
    ensures var i := LineEnd(s);
      if i == |s| then EventsOf(s) == [] && Rest(s) == s
      else EventsOf(s) == LineEvents(s[..i]) + EventsOf(s[i + 1..]) && Rest(s) == Rest(s[i + 1..])
  {
    hide LineEvents, ParseLine, StartsWith, CString, Terminator, LineEnd, Bytes, EventsSent;
    RestUnfolds(s);
  }

  lemma RestUnfolds(s: string)
    ensures LineEnd(s) == |s| ==> Rest(s) == s
    ensures LineEnd(s) < |s| ==> Rest(s) == Rest(s[LineEnd(s) + 1..])
  {
    hide *;
    hide Rest;
    RestIs(s, LineEnd(s));
  }

  lemma RestIs(s: string, i: nat)
    requires i == LineEnd(s)
    ensures i == |s| ==> Rest(s) == s
    ensures i < |s| ==> Rest(s) == Rest(s[i + 1..])
  {
    hide EventsOf, LineEvents, Terminator, LineEnd;
  }

  /** No line end is left behind. */
  lemma {:induction false} RestIsOpen(s: string)
    ensures LineEnd(Rest(s)) == |Rest(s)| && EventsOf(Rest(s)) == [] && Rest(Rest(s)) == Rest(s)
    decreases |s|
  {
    if LineEnd(s) < |s| {
      RestIsOpen(s[LineEnd(s) + 1..]);
    }
  }

  // ------------------------------------------------------------ the theorems

  predicate Clean(name: string) {
    forall i :: 0 <= i < |name| ==> !Terminator(name[i]) && name[i] != '\0'
  }

  lemma {:induction false} CleanCString(s: string)
    requires forall i :: 0 <= i < |s| ==> s[i] != '\0'
    ensures CString(s) == s
  {
    if s != "" {
      CleanCString(s[1..]);
    }
  }

  /** A printed event is read as that event, and nothing is left over. */
  lemma OneEvent(e: Event)
    requires Clean(e.name)
    ensures EventsOf(Wire(e)) == [e] && Rest(Wire(e)) == ""
  {
    var line := ActionName(e.action) + " " + e.name;
    LineEndIs(Wire(e), |line|);
    assert Wire(e)[..|line|] == line && Wire(e)[|line| + 1..] == "\r";
    LineEndIs("\r", 0);
    CleanCString(line);
    ReadBack(e);
  }

  lemma ReadBack(e: Event)
    ensures ParseLine(ActionName(e.action) + " " + e.name) == [e]
  {
    var line := ActionName(e.action) + " " + e.name;
    assert line[0] == ActionName(e.action)[0];
    assert line[|ActionName(e.action)| + 1..] == e.name;
  }

  lemma OneMessage(m: Message)
    requires m.Tell? ==> Clean(m.event.name)
    ensures EventsOf(BytesOf(m)) == (if m.Tell? then [m.event] else []) && Rest(BytesOf(m)) == ""
  {
    if m.Tell? { OneEvent(m.event); } else { LineEndIs("\n", 0); }
  }

  /** The whole stream is read as the events sent, in order. */
  lemma {:induction false} StreamReadsBack(ms: seq<Message>)
    requires forall m :: m in ms && m.Tell? ==> Clean(m.event.name)
    ensures EventsOf(Bytes(ms)) == EventsSent(ms) && Rest(Bytes(ms)) == ""
  {
    if ms != [] {
      var n := |ms| - 1;
      StreamReadsBack(ms[..n]);
      OneMessage(ms[n]);
      ReadOn(Bytes(ms[..n]), BytesOf(ms[n]));
      assert "" + BytesOf(ms[n]) == BytesOf(ms[n]);
    }
  }

  /** Of any part of the stream that has arrived, the events read are the first of those sent. */
  lemma PartReadsPrefix(ms: seq<Message>, part: string)
    requires forall m :: m in ms && m.Tell? ==> Clean(m.event.name)
    requires part <= Bytes(ms)
    ensures EventsOf(part) <= EventsSent(ms)
  {
    StreamReadsBack(ms);
    var rest := Bytes(ms)[|part|..];
    assert Bytes(ms) == part + rest;
    ReadOn(part, rest);
  }

  /** Names read off a stream are always clean. */
  lemma {:induction false} ReadNamesClean(s: string)
    ensures forall e :: e in EventsOf(s) ==> Clean(e.name)
    decreases |s|
  {
    hide LineEvents, Clean, LineEnd;
    var i := LineEnd(s);
    if i < |s| {
      LineNamesClean(s[..i]);
      ReadNamesClean(s[i + 1..]);
    }
  }

  lemma LineNamesClean(line: string)
    requires forall k :: 0 <= k < |line| ==> !Terminator(line[k])
    ensures forall e :: e in LineEvents(line) ==> Clean(e.name)
  {
    hide Terminator, StartsWith, CString;
    var r := CString(line);
    assert forall k :: 0 <= k < |r| ==> r[k] == line[k];
    assert forall n :: 0 <= n <= |r| ==> Clean(r[n..]);
  }

  /** The client sees the daemon's events exactly when no name holds a line terminator or NUL. */
  lemma RelayIsExactIff(ms: seq<Message>)
    ensures EventsOf(Bytes(ms)) == EventsSent(ms) <==> forall m :: m in ms && m.Tell? ==> Clean(m.event.name)
  {
    if forall m :: m in ms && m.Tell? ==> Clean(m.event.name) {
      StreamReadsBack(ms);
    } else {
      var m :| m in ms && m.Tell? && !Clean(m.event.name);
      SentHas(ms, m);
      ReadNamesClean(Bytes(ms));
    }
  }

  lemma {:induction false} SentHas(ms: seq<Message>, m: Message)
    requires m in ms && m.Tell?
    ensures m.event in EventsSent(ms)
  {
    var n := |ms| - 1;
    if m != ms[n] {
      assert ms == ms[..n] + [ms[n]];
      SentHas(ms[..n], m);
    }
  }

  /** Legal names are clean. */
  lemma LegalIsClean(name: string)
    requires RegistryNames.IsValid(name)
    ensures Clean(name)
  {
  }
}
