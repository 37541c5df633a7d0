/**
 * The response line assembler of libhfp/hfp.cpp, and that of
 * hfpd/configfile.cpp, which differs in buffer size and handlers: bytes are read
 * into a bounded buffer and cut into lines in place.  The lines handed on are
 * those of a splitter over the whole stream, however the stream arrives.
 */
module Lines {

  const RFCOMM_MAX_LINELEN := 512

  predicate IsWS(c: char) { c == ' ' || c == '\t' }

  predicate IsNL(c: char) { c == '\r' || c == '\n' }

  predicate IsTrimmed(c: char) { IsWS(c) || IsNL(c) }

  // ---------------------------------------------------------------------
  // The splitter
  // ---------------------------------------------------------------------

  datatype Cutting = Cutting(lines: seq<string>, rest: string)

  /** Where the first newline is, or the length if there is none. */
  function LineEnd(s: string): (p: nat)
    ensures p <= |s|
    ensures p < |s| ==> IsNL(s[p])
    ensures forall i :: 0 <= i < p ==> !IsNL(s[i])
  {
    if s == "" || IsNL(s[0]) then 0 else 1 + LineEnd(s[1..])
  }

  /** The complete lines of a text, leading blanks dropped from each, and the unfinished line behind them. */
  function Cut(s: string): Cutting
    decreases |s|
  {
    if s == "" then Cutting([], "")
    else if IsTrimmed(s[0]) then Cut(s[1..])
    else
      var p := LineEnd(s);
      if p == |s| then Cutting([], s)
      else
        var t := Cut(s[p + 1..]);
        Cutting([s[..p]] + t.lines, t.rest)
  }

  lemma LineEndUnique(s: string, p: nat)
    requires p <= |s|
    requires p < |s| ==> IsNL(s[p])
    requires forall i :: 0 <= i < p ==> !IsNL(s[i])
    ensures LineEnd(s) == p
  {
  }

  lemma LineEndBounds(s: string)
    ensures var p := LineEnd(s);
      && p <= |s|
      && (p < |s| ==> IsNL(s[p]))
      && (forall i :: 0 <= i < p ==> !IsNL(s[i]))
  {
  }

  lemma CutTrim(s: string)
    requires s != "" && IsTrimmed(s[0])
    ensures Cut(s) == Cut(s[1..])
  {
  }

  lemma CutLine(s: string, p: nat)
    requires p < |s| && !IsTrimmed(s[0]) && IsNL(s[p])
    requires forall i :: 0 <= i < p ==> !IsNL(s[i])
    ensures Cut(s) == Cutting([s[..p]] + Cut(s[p + 1..]).lines, Cut(s[p + 1..]).rest)
  {
    LineEndUnique(s, p);
  }

  lemma CutOpen(s: string)
    requires s != "" ==> !IsTrimmed(s[0])
    requires forall i :: 0 <= i < |s| ==> !IsNL(s[i])
    ensures Cut(s) == Cutting([], s)
  {
    LineEndUnique(s, |s|);
  }

  /** Cutting a stream in two and carrying the unfinished line over makes no difference. */
  lemma {:induction false} CutAppend(a: string, b: string)
    ensures var front := Cut(a);
            var back := Cut(front.rest + b);
            Cut(a + b) == Cutting(front.lines + back.lines, back.rest)
    decreases |a|
  {
    hide Cut, LineEnd;
    if a == "" {
      CutOpen(a);
      assert a + b == b;
    } else if IsTrimmed(a[0]) {
      CutTrim(a);
      CutTrim(a + b);
      assert (a + b)[1..] == a[1..] + b;
      CutAppend(a[1..], b);
    } else {
      var p := LineEnd(a);
      if p < |a| {
        CutLine(a, p);
        CutLine(a + b, p);
        assert (a + b)[..p] == a[..p];
        assert (a + b)[p + 1..] == a[p + 1..] + b;
        CutAppend(a[p + 1..], b);
      } else {
        CutOpen(a);
      }
    }
  }

  /** A line as handed on: not empty, no blank in front, no newline inside. */
  predicate IsLine(line: string) {
    line != "" && !IsTrimmed(line[0]) && forall c <- line :: !IsNL(c)
  }

  lemma {:induction false} CutClean(s: string)
    ensures forall line <- Cut(s).lines :: IsLine(line)
    ensures Cut(s).rest != "" ==> IsLine(Cut(s).rest)
    ensures |Cut(s).rest| <= |s| && forall c <- Cut(s).rest :: c in s
    ensures forall line <- Cut(s).lines :: |line| < |s| && forall c <- line :: c in s
    decreases |s|
  {
    hide Cut, LineEnd;
    if s == "" {
      CutOpen(s);
    } else if IsTrimmed(s[0]) {
      CutTrim(s);
      CutClean(s[1..]);
    } else {
      var p := LineEnd(s);
      if p < |s| {
        CutLine(s, p);
        CutClean(s[p + 1..]);
      } else {
        CutOpen(s);
      }
    }
  }

  /** Spaces, tabs, carriage returns and newlines in front of a line are dropped; the latter two end it. */
  lemma CutAt(line: string, blank: char, end: char, more: string)
    requires IsLine(line) && blank in " \t\r\n" && end in "\r\n"
    ensures Cut([blank] + more) == Cut(more)
    ensures Cut(line + [end] + more) == Cutting([line] + Cut(more).lines, Cut(more).rest)
    ensures Cut(line) == Cutting([], line)
  {
    CutTrim([blank] + more);
    assert ([blank] + more)[1..] == more;
    var s := line + [end] + more;
    assert forall i :: 0 <= i < |line| ==> s[i] == line[i] && line[i] in line;
    CutLine(s, |line|);
    assert s[..|line|] == line && s[|line| + 1..] == more;
    assert forall i :: 0 <= i < |line| ==> line[i] in line;
    CutOpen(line);
  }

  /** A line is anything that starts with something else and has neither of those two inside. */
  lemma LineIs(line: string)
    ensures IsLine(line) <==> line != "" && line[0] !in " \t\r\n" && '\r' !in line && '\n' !in line
  {
  }

  /** How an audio gateway frames its result codes. */
  function Framed(lines: seq<string>): string {
    if lines == [] then "" else "\r\n" + lines[0] + "\r\n" + Framed(lines[1..])
  }

  /** Framing and cutting are inverse. */
  lemma {:induction false} CutFramed(lines: seq<string>)
    requires forall line <- lines :: IsLine(line)
    ensures Cut(Framed(lines)) == Cutting(lines, "")
  {
    hide Cut, LineEnd;
    if lines == [] {
      CutOpen("");
    } else {
      var line, more := lines[0], Framed(lines[1..]);
      var body := line + "\r\n" + more;
      assert Framed(lines) == "\r\n" + body;
      CutSkips(body);
      assert line in lines;
      assert forall i :: 0 <= i < |line| ==> body[i] == line[i] && line[i] in line;
      CutLine(body, |line|);
      assert body[..|line|] == line && body[|line| + 1..] == "\n" + more;
      CutTrim("\n" + more);
      assert ("\n" + more)[1..] == more;
      CutFramed(lines[1..]);
      assert lines == [line] + lines[1..];
    }
  }

  lemma CutSkips(s: string)
    ensures Cut("\r\n" + s) == Cut(s)
  {
    CutTrim("\r\n" + s);
    assert ("\r\n" + s)[1..] == "\n" + s;
    CutTrim("\n" + s);
    assert ("\n" + s)[1..] == s;
  }

  function Joined(chunks: seq<string>): string {
    if chunks == [] then "" else chunks[0] + Joined(chunks[1..])
  }

  /** Cutting chunk by chunk, carrying the unfinished line from each to the next. */
  function CutChunks(held: string, chunks: seq<string>): Cutting
    decreases |chunks|
  {
    if chunks == [] then Cut(held)
    else
      var now := Cut(held + chunks[0]);
      var later := CutChunks(now.rest, chunks[1..]);
      Cutting(now.lines + later.lines, later.rest)
  }

  /** However a stream is cut into chunks, the lines and the unfinished rest are those of the whole stream. */
  lemma {:induction false} ChunkingIrrelevant(held: string, chunks: seq<string>)
    ensures CutChunks(held, chunks) == Cut(held + Joined(chunks))
    decreases |chunks|
  {
    if chunks == [] {
      assert held + Joined(chunks) == held;
    } else {
      var more := Joined(chunks[1..]);
      assert held + Joined(chunks) == (held + chunks[0]) + more;
      ChunkingIrrelevant(Cut(held + chunks[0]).rest, chunks[1..]);
      CutAppend(held + chunks[0], more);
    }
  }

  /** No line of the stream, finished or not, fills a buffer of this size. */
  ghost predicate Fits(s: string, size: nat) {
    && (forall line <- Cut(s).lines :: |line| < size)
    && |Cut(s).rest| < size
  }

  lemma FitsIs(s: string, size: nat)
    ensures Fits(s, size) <==> |Cut(s).rest| < size && forall line <- Cut(s).lines :: |line| < size
  {
  }

  /** A buffer's worth behind a stream that fits: only the unfinished line can be too long. */
  lemma FitsAppend(a: string, b: string, size: nat)
    requires Fits(a, size)
    requires |Cut(a).rest + b| <= size
    ensures Fits(a + b, size) <==> |Cut(a + b).rest| != size
  {
    CutAppend(a, b);
    CutClean(Cut(a).rest + b);
  }

  /** What is too long in a part of a stream is too long in all of it. */
  lemma FitsPrefix(a: string, b: string, size: nat)
    requires Fits(a + b, size)
    ensures Fits(a, size)
  {
    hide Cut, LineEnd;
    var held := Cut(a).rest;
    CutAppend(a, b);
    CutClean(a);
    if held != "" {
      var s := held + b;
      assert forall i :: 0 <= i < |held| ==> s[i] == held[i] && held[i] in held;
      var p := LineEnd(s);
      LineEndBounds(s);
      if p < |s| {
        CutLine(s, p);
        assert s[..p] in Cut(s).lines;
      } else {
        CutOpen(s);
      }
    }
  }

  // ---------------------------------------------------------------------
  // NUL bytes
  // ---------------------------------------------------------------------

  const NUL := '\0'

  /** A line as a C string: what a handler sees of it. */
  function CString(line: string): (text: string)
    ensures text <= line && NUL !in text
    ensures text == "" <==> line == "" || line[0] == NUL
    ensures NUL !in line ==> text == line
    ensures |text| < |line| ==> line[|text|] == NUL
  {
    if line == "" || line[0] == NUL then "" else [line[0]] + CString(line[1..])
  }

  function Texts(lines: seq<string>): seq<string> {
    seq(|lines|, i requires 0 <= i < |lines| => CString(lines[i]))
  }

  /**
   * What is asserted while this is consumed: no line starts with NUL; and, where the reader looks at the last
   * byte held whenever it has cut off a line (`checksLast`), that byte is no NUL either.
   */
  ghost predicate Sane(held: string, checksLast: bool) {
    && (forall i :: 0 <= i < |Cut(held).lines| ==> Starts(Cut(held).lines[i]))
    && Starts(Cut(held).rest)
    && (checksLast && Cut(held).lines != [] ==> held != "" && held[|held| - 1] != NUL)
  }

  predicate Starts(line: string) { line != "" ==> line[0] != NUL }

  lemma SaneTrim(held: string, checksLast: bool)
    requires held != "" && IsTrimmed(held[0])
    ensures Sane(held, checksLast) <==> Sane(held[1..], checksLast)
  {
    CutTrim(held);
    CutOpen("");
  }

  lemma SaneLine(held: string, p: nat, checksLast: bool)
    requires p < |held| && !IsTrimmed(held[0]) && IsNL(held[p])
    requires forall i :: 0 <= i < p ==> !IsNL(held[i])
    ensures Sane(held, checksLast)
       <==> held[0] != NUL && (checksLast ==> held[|held| - 1] != NUL) && Sane(held[p + 1..], checksLast)
  {
    hide Cut;
    CutLine(held, p);
    var t := Cut(held[p + 1..]);
    var lines := Cut(held).lines;
    assert lines == [held[..p]] + t.lines;
    assert lines[0] == held[..p] && forall i :: 0 <= i < |t.lines| ==> lines[i + 1] == t.lines[i];
    CutOpen("");
    assert p + 1 < |held| ==> held[p + 1..][|held| - p - 2] == held[|held| - 1];
  }

  /** Without NUL all assertions hold, and the handlers see the lines themselves. */
  lemma SaneText(held: string, checksLast: bool)
    requires NUL !in held
    ensures Sane(held, checksLast)
    ensures Texts(Cut(held).lines) == Cut(held).lines
  {
    hide Cut;
    CutClean(held);
    CutOpen("");
    var lines := Cut(held).lines;
    forall i | 0 <= i < |lines|
      ensures Starts(lines[i]) && CString(lines[i]) == lines[i]
    {
      assert lines[i] in lines;
    }
  }

  /** What the handlers see is still a line. */
  lemma TextsAreLines(held: string)
    requires Sane(held, false)
    ensures forall text <- Texts(Cut(held).lines) :: IsLine(text)
  {
    hide Cut;
    CutClean(held);
    var lines := Cut(held).lines;
    forall i | 0 <= i < |lines|
      ensures IsLine(CString(lines[i]))
    {
      var line, text := lines[i], CString(lines[i]);
      assert line in lines && Starts(line);
      assert text == line[..|text|];
    }
  }

  /** Where the last byte is not looked at: behind a part that is fine, what matters is the unfinished line and on. */
  lemma SaneAppend(a: string, b: string)
    requires Sane(a, false)
    ensures Sane(a + b, false) <==> Sane(Cut(a).rest + b, false)
  {
    hide Cut;
    CutAppend(a, b);
    var front, back, all := Cut(a).lines, Cut(Cut(a).rest + b).lines, Cut(a + b).lines;
    assert forall i :: 0 <= i < |front| ==> all[i] == front[i];
    assert forall i :: 0 <= i < |back| ==> all[|front| + i] == back[i];
  }

  /** What fails in a part of a stream fails in all of it. */
  lemma SanePrefix(a: string, b: string)
    requires Sane(a + b, false)
    ensures Sane(a, false)
  {
    hide Cut, LineEnd;
    var held := Cut(a).rest;
    CutAppend(a, b);
    CutClean(a);
    var front, back, all := Cut(a).lines, Cut(held + b).lines, Cut(a + b).lines;
    assert forall i :: 0 <= i < |front| ==> all[i] == front[i];
    assert forall i :: 0 <= i < |back| ==> all[|front| + i] == back[i];
    if held != "" {
      var s := held + b;
      assert forall i :: 0 <= i < |held| ==> s[i] == held[i] && held[i] in held;
      var p := LineEnd(s);
      LineEndBounds(s);
      if p < |s| {
        CutLine(s, p);
        assert back[0] == s[..p];
      } else {
        CutOpen(s);
      }
    }
  }

  // ---------------------------------------------------------------------
  // The buffer
  // ---------------------------------------------------------------------

  /** Handing on the lines in `now` behind `got` accounts for the first `cons` bytes of `was`. */
  ghost predicate Took(was: string, cons: nat, got: seq<string>, now: seq<string>, checksLast: bool) {
    && cons <= |was|
    && got <= now
    && Texts(Cut(was).lines) == now[|got|..] + Texts(Cut(was[cons..]).lines)
    && Cut(was).rest == Cut(was[cons..]).rest
    && (Sane(was, checksLast) <==> Sane(was[cons..], checksLast))
  }

  /** Before `held` and the lines handed on until `now` there were `was` and `got`. */
  ghost predicate Ahead(was: string, got: seq<string>, held: string, now: seq<string>, checksLast: bool) {
    && got <= now
    && now + Texts(Cut(held).lines) == got + Texts(Cut(was).lines)
    && Cut(held).rest == Cut(was).rest
    && (Sane(held, checksLast) <==> Sane(was, checksLast))
  }

  lemma AheadStart(was: string, got: seq<string>, checksLast: bool)
    ensures Ahead(was, got, was, got, checksLast)
  {
  }

  lemma AheadStep(was: string, got: seq<string>, held: string, cons: nat, now: seq<string>, later: seq<string>,
                  checksLast: bool)
    requires Ahead(was, got, held, now, checksLast) && Took(held, cons, now, later, checksLast)
    ensures Ahead(was, got, held[cons..], later, checksLast)
  {
    hide Cut, Sane, Texts;
    var some, more := later[|now|..], Texts(Cut(held[cons..]).lines);
    assert later == now + some;
    assert later + more == now + (some + more);
  }

  lemma AheadBound(was: string, got: seq<string>, held: string, now: seq<string>, later: seq<string>, checksLast: bool)
    requires Ahead(was, got, held, now, checksLast) && now <= later <= now + Texts(Cut(held).lines)
    ensures got <= later <= got + Texts(Cut(was).lines)
    ensures Sane(held, checksLast) <==> Sane(was, checksLast)
  {
    hide Cut, Sane, Texts;
  }

  /** With nothing left but an unfinished line everything has been handed on. */
  lemma AheadAll(was: string, got: seq<string>, held: string, now: seq<string>, checksLast: bool)
    requires Ahead(was, got, held, now, checksLast)
    requires held == "" || (Cut(held) == Cutting([], held) && Sane(held, checksLast))
    ensures now == got + Texts(Cut(was).lines) && Cut(was).rest == held && Sane(was, checksLast)
  {
    assert Texts([]) == [];
    assert now + [] == now;
  }

  lemma TextsAppend(a: seq<string>, b: seq<string>)
    ensures Texts(a + b) == Texts(a) + Texts(b)
  {
  }

  /**
   * A bounded buffer in which lines are assembled.  The session's reader has handlers that may hang up, and
   * looks at the last byte held; the settings file's has neither.
   */
  class LineReader {
    const buf: array<char>
    const mayHangUp: bool
    const checksLast: bool
    var start: nat
    var len: nat
    var connected: bool
    /** The lines handed on so far, as C strings. */
    var handed: seq<string>
    /** Whether a handler has dropped the connection. */
    var dropped: bool
    /** An assertion of the source has failed: the program has ended. */
    var failed: bool
    /** Everything read on this connection. */
    ghost var stream: string

    ghost predicate Window()
      reads this
    {
      start + len <= buf.Length
    }

    ghost function Held(): string
      requires Window()
      reads this, buf
    {
      buf[start..start + len]
    }

    ghost predicate Valid()
      reads this, buf
    {
      && Window() && !failed && buf.Length > 0
      && (connected ==>
            && start + len < buf.Length
            && handed == Texts(Cut(stream).lines)
            && Held() == Cut(stream).rest
            && Fits(stream, buf.Length)
            && !dropped)
      && (!connected ==> start == len == 0)
      && (dropped ==> mayHangUp)
    }

    constructor (size: nat, mayHangUp: bool, checksLast: bool)
      requires size > 0
      ensures Valid() && connected && stream == "" && handed == [] && fresh(buf) && buf.Length == size
      ensures this.mayHangUp == mayHangUp && this.checksLast == checksLast
    {
      buf := new char[size](_ => ' ');
      this.mayHangUp, this.checksLast := mayHangUp, checksLast;
      start, len, connected, handed, dropped, failed := 0, 0, true, [], false, false;
      stream := "";
    }

    method Disconnect()
      modifies this`start, this`len, this`connected
      ensures !connected && start == len == 0
    {
      connected := false;
      start, len := 0, 0;
    }

    /** A handler takes a line; it may drop the connection. */
    method Hand(line: string)
      requires connected && !dropped
      modifies this`start, this`len, this`connected, this`handed, this`dropped
      ensures handed == old(handed) + [CString(line)]
      ensures connected <==> !dropped
      ensures connected ==> unchanged(this`start, this`len)
      ensures !connected ==> mayHangUp && start == len == 0
    {
      handed := handed + [CString(line)];
      var hangUp := *;
      if mayHangUp && hangUp {
        dropped := true;
        Disconnect();
      }
    }

    /** What a reader does with what it holds before the next line is looked for. */
    ghost predicate Reading()
      reads this
    {
      Window() && connected && !dropped && !failed && len > 0
    }

    /** Consumes blanks or one line from the front of what is held; nothing if there is only an unfinished line. */
    method Consume() returns (cons: nat)
      requires Reading()
      modifies this`start, this`len, this`connected, this`handed, this`dropped, this`failed, buf
      ensures cons <= old(len)
      ensures failed ==> !Sane(old(Held()), checksLast)
      ensures connected <==> !dropped
      ensures !connected ==> mayHangUp && start == len == 0 && cons > 0
      ensures connected ==> unchanged(this`start, this`len)
      ensures connected && !failed ==> buf[start + cons..start + len] == old(Held())[cons..]
      ensures !failed && cons == 0 ==>
        && unchanged(this) && unchanged(buf)
        && Cut(old(Held())) == Cutting([], old(Held())) && Sane(old(Held()), checksLast)
      ensures !failed && cons > 0 ==> Took(old(Held()), cons, old(handed), handed, checksLast)
      ensures old(handed) <= handed <= old(handed) + Texts(Cut(old(Held())).lines)
    {
      hide Cut, LineEnd, Took, Sane;
      var c := buf[start];
      assert c == Held()[0];
      cons := 0;
      if c == NUL {
        NulFirst(Held(), checksLast);
        failed := true;
        return;
      }
      if IsTrimmed(c) {
        cons := Trim();
        return;
      }
      var pos := FindEnd();
      if pos < len {
        TakeLine(pos);
        cons := pos + 1;
        return;
      }
      OpenSane(Held(), checksLast);
    }

    static lemma NulFirst(held: string, checksLast: bool)
      requires held != "" && held[0] == NUL
      ensures !Sane(held, checksLast)
    {
      hide Cut;
      var p := LineEnd(held);
      if p < |held| {
        SaneLine(held, p, checksLast);
      } else {
        CutOpen(held);
      }
    }

    static lemma OpenSane(held: string, checksLast: bool)
      requires held != "" && held[0] != NUL && Cut(held) == Cutting([], held)
      ensures Sane(held, checksLast)
    {
    }

    method FindEnd() returns (pos: nat)
      requires Window() && len > 0 && !IsTrimmed(buf[start])
      ensures 0 < pos <= len
      ensures forall i :: 0 <= i < pos ==> !IsNL(Held()[i])
      ensures pos < len ==> IsNL(Held()[pos])
      ensures pos == len ==> Cut(Held()) == Cutting([], Held())
    {
      pos := 1;
      while pos < len && !IsNL(buf[start + pos])
        invariant 0 < pos <= len
        invariant forall i :: 0 <= i < pos ==> !IsNL(Held()[i])
      {
        pos := pos + 1;
      }
      if pos == len {
        CutOpen(Held());
      }
    }

    /** Ends the line in place and hands it on; then the last byte held may be looked at. */
    method TakeLine(pos: nat)
      requires Reading() && 0 < pos < len
      requires !IsTrimmed(Held()[0]) && Held()[0] != NUL && IsNL(Held()[pos])
      requires forall i :: 0 <= i < pos ==> !IsNL(Held()[i])
      modifies this`start, this`len, this`connected, this`handed, this`dropped, this`failed, buf
      ensures connected <==> !dropped
      ensures connected ==> unchanged(this`start, this`len)
      ensures connected ==> buf[start + pos + 1..start + len] == old(Held())[pos + 1..]
      ensures !connected ==> mayHangUp && start == len == 0
      ensures failed ==> !Sane(old(Held()), checksLast)
      ensures !failed ==> Took(old(Held()), pos + 1, old(handed), handed, checksLast)
      ensures old(handed) <= handed <= old(handed) + Texts(Cut(old(Held())).lines)
    {
      hide Cut, LineEnd, Sane, Texts, CString;
      ghost var was := Held();
      LineTaken(was, pos, handed, checksLast);
      var last := buf[start + len - 1];
      var more := pos < len - 1;
      assert last == was[|was| - 1];
      assert !more ==> IsNL(last) && last != NUL;
      var line := EndLine(pos);
      Hand(line);
      if checksLast && more && last == NUL {
        failed := true;
      }
    }

    /** Puts a NUL where the newline is. */
    method EndLine(pos: nat) returns (line: string)
      requires Window() && pos < len
      modifies buf
      ensures line == old(Held())[..pos]
      ensures buf[start + pos + 1..start + len] == old(Held())[pos + 1..]
    {
      buf[start + pos] := NUL;
      line := buf[start..start + pos];
    }

    static lemma LineTaken(was: string, pos: nat, got: seq<string>, checksLast: bool)
      requires pos < |was| && !IsTrimmed(was[0]) && was[0] != NUL && IsNL(was[pos])
      requires forall i :: 0 <= i < pos ==> !IsNL(was[i])
      ensures checksLast && was[|was| - 1] == NUL ==> !Sane(was, checksLast)
      ensures !(checksLast && was[|was| - 1] == NUL) ==> Took(was, pos + 1, got, got + [CString(was[..pos])], checksLast)
      ensures got + [CString(was[..pos])] <= got + Texts(Cut(was).lines)
    {
      hide Cut, LineEnd, Sane, Texts, CString;
      var line, lines := was[..pos], Cut(was[pos + 1..]).lines;
      CutLine(was, pos);
      SaneLine(was, pos, checksLast);
      TextsAppend([line], lines);
      OneText(line);
      Behind(got, CString(line), Texts(lines));
    }

    static lemma Behind(got: seq<string>, text: string, more: seq<string>)
      ensures got + [text] <= got + ([text] + more)
      ensures (got + [text])[|got|..] == [text]
    {
      assert got + ([text] + more) == (got + [text]) + more;
    }

    static lemma OneText(line: string)
      ensures Texts([line]) == [CString(line)]
    {
    }

    /** Skips blanks up to something else, and does not look behind what is held. */
    method Trim() returns (pos: nat)
      requires Window() && len > 0 && IsTrimmed(buf[start])
      ensures 0 < pos <= len
      ensures Took(Held(), pos, handed, handed, checksLast)
    {
      hide Cut, Sane, Texts;
      pos := 1;
      while pos < len && IsTrimmed(buf[start + pos])
        invariant 0 < pos <= len
        invariant forall i :: 0 <= i < pos ==> IsTrimmed(Held()[i])
      {
        pos := pos + 1;
      }
      BlanksSkipped(Held(), pos, checksLast);
    }

    static lemma {:induction false} BlanksSkipped(held: string, pos: nat, checksLast: bool)
      requires pos <= |held| && forall i :: 0 <= i < pos ==> IsTrimmed(held[i])
      ensures Cut(held) == Cut(held[pos..])
      ensures Sane(held, checksLast) <==> Sane(held[pos..], checksLast)
    {
      hide Cut, Sane;
      if pos == 0 {
        assert held[0..] == held;
      } else {
        CutTrim(held);
        SaneTrim(held, checksLast);
        BlanksSkipped(held[1..], pos - 1, checksLast);
        assert held[1..][pos - 1..] == held[pos..];
      }
    }

    /** Moves what is held to the front of the buffer. */
    method Compact()
      requires Window()
      modifies this`start, buf
      ensures Window() && start == 0
      ensures Held() == old(Held())
    {
      forall i | 0 <= i < len {
        buf[i] := buf[start + i];
      }
      start := 0;
    }

    method ConsumeAll()
      requires Reading()
      modifies this`start, this`len, this`connected, this`handed, this`dropped, this`failed, buf
      ensures Window() && (dropped ==> mayHangUp && !connected)
      ensures old(handed) <= handed <= old(handed) + Texts(Cut(old(Held())).lines)
      ensures failed ==> !Sane(old(Held()), checksLast)
      ensures !failed && !dropped ==>
        && Sane(old(Held()), checksLast)
        && handed == old(handed) + Texts(Cut(old(Held())).lines)
        && (connected <==> |Cut(old(Held())).rest| != buf.Length)
      ensures !failed && connected ==> start + len < buf.Length && Held() == Cut(old(Held())).rest
      ensures !failed && !connected ==> start == len == 0
    {
      hide Cut, LineEnd, Took, Sane, Texts, Ahead;
      ghost var all, before := Held(), handed;
      AheadStart(all, before, checksLast);
      while true
        invariant Reading()
        invariant Ahead(all, before, Held(), handed, checksLast)
        decreases len
      {
        ghost var was, got := Held(), handed;
        var cons := Consume();
        AheadBound(all, before, was, got, handed, checksLast);
        if failed || !connected {
          return;
        }
        if cons == 0 {
          AheadAll(all, before, was, handed, checksLast);
          MakeRoom();
          return;
        }
        AheadStep(all, before, was, cons, got, handed, checksLast);
        if cons == len {
          start, len := 0, 0;
          AheadAll(all, before, was[cons..], handed, checksLast);
          return;
        }
        start, len := start + cons, len - cons;
        assert Held() == was[cons..];
      }
    }

    /** An unfinished line up to the end of the buffer moves to the front of it, or is too long. */
    method MakeRoom()
      requires Reading()
      modifies this`start, this`len, this`connected, buf
      ensures connected <==> old(len) != buf.Length
      ensures connected ==> start + len < buf.Length && Held() == old(Held())
      ensures !connected ==> start == len == 0
    {
      if start + len == buf.Length {
        if start == 0 {
          Disconnect();
          return;
        }
        Compact();
      }
    }

    /** Puts the bytes read behind what is held. */
    method Fill(chunk: string)
      requires Window() && start + len + |chunk| <= buf.Length
      modifies this`len, this`stream, buf
      ensures Window() && start + len == old(start + len) + |chunk|
      ensures Held() == old(Held()) + chunk
      ensures stream == old(stream) + chunk
    {
      forall i | 0 <= i < |chunk| {
        buf[start + len + i] := chunk[i];
      }
      len := len + |chunk|;
      stream := stream + chunk;
    }

    /**
     * A read that returned bytes, no more than the room behind what is held.  The lines handed on depend only on
     * the stream.  Unless a handler hung up, the connection survives exactly if no line fills the buffer, and an
     * assertion fails exactly if a line starts with NUL or the read ends with one behind a whole line.
     */
    method DataReady(chunk: string)
      requires Valid() && connected
      requires 0 < |chunk| <= buf.Length - (start + len)
      modifies this, buf
      ensures stream == old(stream) + chunk
      ensures failed ==> !Sane(old(Held()) + chunk, checksLast)
      ensures !dropped ==> (failed <==> !Sane(old(Held()) + chunk, checksLast))
      ensures !failed ==> Valid()
      ensures !failed && !dropped ==> handed == Texts(Cut(stream).lines)
      ensures !failed && !dropped ==>
        (connected <==> |Cut(stream).rest| < buf.Length && forall line <- Cut(stream).lines :: |line| < buf.Length)
      ensures dropped ==> mayHangUp && old(handed) <= handed <= Texts(Cut(stream).lines)
    {
      hide Cut, Sane, Texts;
      Fill(chunk);
      Carried(old(stream), chunk, buf.Length);
      TextsAppend(Cut(old(stream)).lines, Cut(Cut(old(stream)).rest + chunk).lines);
      ConsumeAll();
      assert handed[..|old(handed)|] == old(handed);
    }

    /** What is asserted of NUL bytes, in so many words. */
    static lemma SaneIs(held: string, checksLast: bool)
      ensures Sane(held, checksLast) <==>
        && (forall line <- Cut(held).lines :: line != "" ==> line[0] != '\0')
        && (Cut(held).rest != "" ==> Cut(held).rest[0] != '\0')
        && (checksLast && Cut(held).lines != [] ==> held != "" && held[|held| - 1] != '\0')
    {
      hide Cut;
      assert forall i :: 0 <= i < |Cut(held).lines| ==> Cut(held).lines[i] in Cut(held).lines;
    }

    static lemma Carried(front: string, chunk: string, size: nat)
      requires Fits(front, size)
      requires |Cut(front).rest| + |chunk| <= size
      ensures Cut(front + chunk).lines == Cut(front).lines + Cut(Cut(front).rest + chunk).lines
      ensures Cut(front + chunk).rest == Cut(Cut(front).rest + chunk).rest
      ensures |Cut(front + chunk).rest| <= size
      ensures Fits(front + chunk, size) <==> |Cut(front + chunk).rest| != size
    {
      CutAppend(front, chunk);
      CutClean(Cut(front).rest + chunk);
      FitsAppend(front, chunk, size);
    }
  }
}
