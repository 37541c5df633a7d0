/**
 * The settings file of hfpd/configfile.cpp: what Save prints, Load reads back,
 * and which of several files a setting is taken from.  A file is read through
 * the buffer of module Lines.
 */
module ConfigFiles {
  import opened Options
  import opened Lines

  datatype Tuple = Tuple(key: string, value: string, layer: int, lowest: int)

  datatype Section = Section(name: string, tuples: seq<Tuple>)

  const READ_BUFFER := 1024
  const INT_MAX := 0x7fff_ffff

  // Each in two pieces, short enough for the verifier to take apart.
  const COMMENT_LOCAL := "# Local settings" + " file for hfpd"
  const COMMENT_LOST := "# Automatically generated," + " comments will be lost"

  // ---------------------------------------------------------------------
  // Reading a line
  // ---------------------------------------------------------------------

  /** Where `c` first occurs, or the length. */
  function IndexOf(s: string, c: char): (p: nat)
    ensures p <= |s|
    ensures p < |s| ==> s[p] == c
    ensures forall i :: 0 <= i < p ==> s[i] != c
  {
    if s == "" || s[0] == c then 0 else 1 + IndexOf(s[1..], c)
  }

  function TrimStart(s: string): string {
    if s != "" && IsWS(s[0]) then TrimStart(s[1..]) else s
  }

  function TrimEnd(s: string): string {
    if s != "" && IsWS(s[|s| - 1]) then TrimEnd(s[..|s| - 1]) else s
  }

  function FindTuple(tuples: seq<Tuple>, key: string): (i: nat)
    ensures i <= |tuples|
    ensures i < |tuples| ==> tuples[i].key == key
    ensures forall j :: 0 <= j < i ==> tuples[j].key != key
  {
    if tuples == [] || tuples[0].key == key then 0 else 1 + FindTuple(tuples[1..], key)
  }

  /** Sections read so far, and whether a header has been seen: entries go to the last section. */
  datatype Reading = Reading(sections: seq<Section>, open: bool) {
    ghost predicate Valid() { open ==> sections != [] }
  }

  function FindSection(sections: seq<Section>, name: string): (i: nat)
    ensures i <= |sections|
    ensures i < |sections| ==> sections[i].name == name
    ensures forall j :: 0 <= j < i ==> sections[j].name != name
  {
    if sections == [] || sections[0].name == name then 0 else 1 + FindSection(sections[1..], name)
  }

  /** A setting read from a file of some layer, against those the section has. */
  function Entered(tuples: seq<Tuple>, key: string, value: string, layer: int): seq<Tuple> {
    var i := FindTuple(tuples, key);
    if i == |tuples| then tuples + [Tuple(key, value, layer, layer)]
    else if tuples[i].layer >= layer || tuples[i].value == value then tuples
    else tuples[..i] + tuples[i + 1..] + [Tuple(key, value, layer, tuples[i].lowest)]
  }

  function ParsedLine(r: Reading, line: string, layer: int): (q: Reading)
    requires r.Valid() && IsLine(line)
    ensures q.Valid()
  {
    if line[0] == '#' then r
    else if line[0] == '[' then
      var part := TrimStart(line[1..]);
      var end := IndexOf(part, ']');
      if end == |part| || end == 0 then r
      else Reading(r.sections + [Section(part[..end], [])], true)
    else if !r.open then r
    else
      var eq := IndexOf(line, '=');
      if eq == |line| || eq == 0 then r
      else
        var last := |r.sections| - 1;
        var tuples := Entered(r.sections[last].tuples, TrimEnd(line[..eq]), TrimEnd(TrimStart(line[eq + 1..])), layer);
        Reading(r.sections[last := r.sections[last].(tuples := tuples)], true)
  }

  function Parsed(r: Reading, lines: seq<string>, layer: int): (q: Reading)
    requires r.Valid() && forall line <- lines :: IsLine(line)
    ensures q.Valid()
    decreases |lines|
  {
    if lines == [] then r
    else
      assert lines[0] in lines && forall line <- lines[1..] :: line in lines;
      Parsed(ParsedLine(r, lines[0], layer), lines[1..], layer)
  }

  // ---------------------------------------------------------------------
  // Printing
  // ---------------------------------------------------------------------

  predicate Written(t: Tuple, layer: int) {
    t.layer >= layer && (t.value != "" || t.lowest < layer)
  }

  function EntryLine(t: Tuple): string { t.key + " = " + t.value }

  function EntriesText(tuples: seq<Tuple>, layer: int): string {
    if tuples == [] then ""
    else (if Written(tuples[0], layer) then EntryLine(tuples[0]) + "\n" else "") + EntriesText(tuples[1..], layer)
  }

  predicate AnyWritten(tuples: seq<Tuple>, layer: int) {
    tuples != [] && (Written(tuples[0], layer) || AnyWritten(tuples[1..], layer))
  }

  function HeaderLine(s: Section): string { "[" + s.name + "]" }

  function SectionText(s: Section, layer: int): string {
    if AnyWritten(s.tuples, layer) then "\n" + HeaderLine(s) + "\n" + EntriesText(s.tuples, layer) else ""
  }

  function SectionsText(sections: seq<Section>, layer: int): string {
    if sections == [] then "" else SectionText(sections[0], layer) + SectionsText(sections[1..], layer)
  }

  function SavedText(sections: seq<Section>, layer: int): string {
    COMMENT_LOCAL + "\n" + COMMENT_LOST + "\n" + SectionsText(sections, layer)
  }

  // ---------------------------------------------------------------------
  // The round trip
  // ---------------------------------------------------------------------

  predicate Padded(s: string) { s != "" && (IsWS(s[0]) || IsWS(s[|s| - 1])) }

  predicate Plain(s: string) { !Padded(s) && forall c <- s :: !IsNL(c) && c != NUL }

  predicate WellFormedKey(key: string) {
    Plain(key) && key != "" && key[0] != '#' && key[0] != '[' && '=' !in key
  }

  /** Settings that survive being printed. */
  predicate WellFormedTuple(t: Tuple) {
    WellFormedKey(t.key) && Plain(t.value)
  }

  predicate WellFormed(s: Section) {
    && s.name != "" && !IsWS(s.name[0]) && ']' !in s.name && (forall c <- s.name :: !IsNL(c) && c != NUL)
    && (forall t <- s.tuples :: WellFormedTuple(t))
    && (forall i, j :: 0 <= i < j < |s.tuples| ==> s.tuples[i].key != s.tuples[j].key)
  }

  /** What a file keeps of a section's settings, as read back on some layer. */
  function KeptTuples(tuples: seq<Tuple>, layer: int, to: int): seq<Tuple> {
    if tuples == [] then [] else KeptTuple(tuples[0], layer, to) + KeptTuples(tuples[1..], layer, to)
  }

  function KeptTuple(t: Tuple, layer: int, to: int): seq<Tuple> {
    if Written(t, layer) then [Tuple(t.key, t.value, to, to)] else []
  }

  function Kept(sections: seq<Section>, layer: int, to: int): seq<Section> {
    if sections == [] then [] else KeptSection(sections[0], layer, to) + Kept(sections[1..], layer, to)
  }

  function KeptSection(s: Section, layer: int, to: int): seq<Section> {
    if AnyWritten(s.tuples, layer) then [Section(s.name, KeptTuples(s.tuples, layer, to))] else []
  }

  // ---- lines printed and cut again ------------------------------------------

  lemma CutTerminated(line: string, more: string)
    requires IsLine(line)
    ensures Cut(line + "\n" + more) == Cutting([line] + Cut(more).lines, Cut(more).rest)
  {
    var s := line + "\n" + more;
    assert forall i :: 0 <= i < |line| ==> s[i] == line[i] && line[i] in line;
    CutLine(s, |line|);
    assert s[..|line|] == line && s[|line| + 1..] == more;
  }

  function EntryLines(tuples: seq<Tuple>, layer: int): seq<string> {
    if tuples == [] then []
    else if Written(tuples[0], layer) then [EntryLine(tuples[0])] + EntryLines(tuples[1..], layer)
    else EntryLines(tuples[1..], layer)
  }

  function SectionLines(s: Section, layer: int): seq<string> {
    if AnyWritten(s.tuples, layer) then [HeaderLine(s)] + EntryLines(s.tuples, layer) else []
  }

  function SectionsLines(sections: seq<Section>, layer: int): seq<string> {
    if sections == [] then [] else SectionLines(sections[0], layer) + SectionsLines(sections[1..], layer)
  }

  lemma {:induction false} CutEntries(tuples: seq<Tuple>, layer: int, more: string)
    requires forall t <- tuples :: WellFormedTuple(t)
    ensures forall line <- EntryLines(tuples, layer) :: IsLine(line)
    ensures Cut(EntriesText(tuples, layer) + more)
         == Cutting(EntryLines(tuples, layer) + Cut(more).lines, Cut(more).rest)
  {
    hide Cut, IsLine, WellFormedTuple, Written, EntryLine;
    if tuples == [] {
      assert EntriesText(tuples, layer) + more == more;
    } else {
      var t, rest := tuples[0], EntriesText(tuples[1..], layer) + more;
      assert t in tuples;
      CutEntries(tuples[1..], layer, more);
      if Written(t, layer) {
        EntryIsLine(t);
        CutTerminated(EntryLine(t), rest);
        assert EntriesText(tuples, layer) + more == EntryLine(t) + "\n" + rest;
      } else {
        assert EntriesText(tuples, layer) + more == rest;
      }
    }
  }

  lemma EntryIsLine(t: Tuple)
    requires WellFormedTuple(t)
    ensures IsLine(EntryLine(t))
  {
    var line := EntryLine(t);
    assert line[0] == t.key[0];
    forall c <- line
      ensures !IsNL(c)
    {
      assert c in t.key || c in t.value || c in " = ";
    }
  }

  lemma HeaderIsLine(s: Section)
    requires WellFormed(s)
    ensures IsLine(HeaderLine(s))
  {
    forall c <- HeaderLine(s)
      ensures !IsNL(c)
    {
      assert c in s.name || c in "[]";
    }
  }

  lemma CutSectionText(s: Section, layer: int, more: string)
    requires WellFormed(s)
    ensures forall line <- SectionLines(s, layer) :: IsLine(line)
    ensures Cut(SectionText(s, layer) + more) == Cutting(SectionLines(s, layer) + Cut(more).lines, Cut(more).rest)
  {
    hide Cut, IsLine, EntriesText, EntryLines, AnyWritten;
    if AnyWritten(s.tuples, layer) {
      var header, entries := HeaderLine(s), EntriesText(s.tuples, layer);
      CutEntries(s.tuples, layer, more);
      HeaderIsLine(s);
      CutTerminated(header, entries + more);
      Regroup("\n", header, entries, more);
      var body := header + "\n" + (entries + more);
      CutTrim("\n" + body);
      assert ("\n" + body)[1..] == body;
    } else {
      assert SectionText(s, layer) + more == more;
    }
  }

  lemma Regroup(before: string, first: string, second: string, more: string)
    ensures before + first + "\n" + second + more == before + (first + "\n" + (second + more))
  {
  }

  lemma {:induction false} CutSections(sections: seq<Section>, layer: int)
    requires forall s <- sections :: WellFormed(s)
    ensures forall line <- SectionsLines(sections, layer) :: IsLine(line)
    ensures Cut(SectionsText(sections, layer)) == Cutting(SectionsLines(sections, layer), "")
  {
    hide Cut, IsLine, WellFormed, SectionText, SectionLines;
    if sections == [] {
      CutOpen("");
    } else {
      assert sections[0] in sections;
      CutSections(sections[1..], layer);
      CutSectionText(sections[0], layer, SectionsText(sections[1..], layer));
    }
  }

  lemma CommentsAreLines()
    ensures IsLine(COMMENT_LOCAL) && IsLine(COMMENT_LOST)
  {
    Clean("# Local settings", " file for hfpd");
    Clean("# Automatically generated,", " comments will be lost");
  }

  lemma Clean(a: string, b: string)
    requires |a| > 0 && a[0] == '#'
    requires forall i :: 0 <= i < |a| ==> !IsNL(a[i])
    requires forall i :: 0 <= i < |b| ==> !IsNL(b[i])
    ensures IsLine(a + b)
  {
  }

  function SavedLines(sections: seq<Section>, layer: int): seq<string> {
    [COMMENT_LOCAL, COMMENT_LOST] + SectionsLines(sections, layer)
  }

  lemma CutSaved(sections: seq<Section>, layer: int)
    requires forall s <- sections :: WellFormed(s)
    ensures forall line <- SavedLines(sections, layer) :: IsLine(line)
    ensures Cut(SavedText(sections, layer)) == Cutting(SavedLines(sections, layer), "")
  {
    hide Cut, IsLine;
    CommentsAreLines();
    CutSections(sections, layer);
    Commented(COMMENT_LOCAL, COMMENT_LOST, SectionsText(sections, layer), SectionsLines(sections, layer));
  }

  lemma Commented(first: string, second: string, more: string, lines: seq<string>)
    requires IsLine(first) && IsLine(second) && Cut(more) == Cutting(lines, "")
    ensures Cut(first + "\n" + second + "\n" + more) == Cutting([first, second] + lines, "")
  {
    hide Cut, IsLine;
    CutTerminated(second, more);
    CutTerminated(first, second + "\n" + more);
    TwoLines(first, second, more);
    assert [first] + ([second] + lines) == [first, second] + lines;
  }

  lemma TwoLines(first: string, second: string, more: string)
    ensures first + "\n" + second + "\n" + more == first + "\n" + (second + "\n" + more)
  {
  }

  lemma {:induction false} EntriesNoNul(tuples: seq<Tuple>, layer: int)
    requires forall t <- tuples :: WellFormedTuple(t)
    ensures NUL !in EntriesText(tuples, layer)
  {
    if tuples != [] {
      var t := tuples[0];
      assert t in tuples;
      EntriesNoNul(tuples[1..], layer);
      assert forall c <- EntryLine(t) :: c in t.key || c in t.value || c in " = ";
    }
  }

  lemma {:induction false} SectionsNoNul(sections: seq<Section>, layer: int)
    requires forall s <- sections :: WellFormed(s)
    ensures NUL !in SectionsText(sections, layer)
  {
    if sections != [] {
      var s := sections[0];
      assert s in sections;
      EntriesNoNul(s.tuples, layer);
      SectionsNoNul(sections[1..], layer);
      assert forall c <- HeaderLine(s) :: c in s.name || c in "[]";
    }
  }

  lemma SavedNoNul(sections: seq<Section>, layer: int)
    requires forall s <- sections :: WellFormed(s)
    ensures NUL !in SavedText(sections, layer)
  {
    SectionsNoNul(sections, layer);
    assert NUL !in "# Local settings" && NUL !in " file for hfpd";
    assert NUL !in "# Automatically generated," && NUL !in " comments will be lost";
  }

  // ---- lines parsed back ------------------------------------------------------

  lemma IndexFirst(s: string, c: char, p: nat)
    requires p < |s| && s[p] == c && forall i :: 0 <= i < p ==> s[i] != c
    ensures IndexOf(s, c) == p
  {
    var q := IndexOf(s, c);
    assert q <= p;
    assert s[q] == c;
  }

  lemma TrimNothing(s: string)
    requires !Padded(s)
    ensures TrimEnd(s) == s && TrimStart(s) == s
  {
  }

  lemma TrimSpace(s: string)
    requires !Padded(s)
    ensures TrimEnd(s + " ") == s && TrimStart(" " + s) == s
  {
    TrimNothing(s);
    assert (s + " ")[..|s|] == s;
    assert (" " + s)[1..] == s;
  }

  /** Comments say nothing, wherever they stand. */
  lemma CommentIgnored(r: Reading, line: string, layer: int)
    requires r.Valid() && IsLine(line) && line[0] == '#'
    ensures ParsedLine(r, line, layer) == r
  {
  }

  /** Neither do headers without a name or an end, and settings outside sections, without '=' or without a key. */
  lemma MalformedIgnored(r: Reading, line: string, layer: int)
    requires r.Valid() && IsLine(line) && line[0] != '#'
    requires if line[0] == '[' then ']' !in line || exists blanks :: Blank(blanks) && "[" + blanks + "]" <= line
             else !r.open || '=' !in line || line[0] == '='
    ensures ParsedLine(r, line, layer) == r
  {
    if line[0] == '[' {
      if ']' !in line {
        TrimmedStart(line[1..]);
        assert forall c <- TrimStart(line[1..]) :: c in line[1..] && c in line;
      } else {
        var blanks :| Blank(blanks) && "[" + blanks + "]" <= line;
        var more := line[|blanks| + 2..];
        assert line == "[" + blanks + "]" + more;
        assert line[1..] == blanks + ("]" + more);
        TrimBlanks(blanks, "]" + more);
      }
    }
  }

  /** Nothing but spaces and tabs. */
  predicate Blank(s: string) {
    forall c <- s :: c == ' ' || c == '\t'
  }

  lemma {:induction false} TrimBlanks(blanks: string, s: string)
    requires Blank(blanks) && (s == "" || !IsWS(s[0]))
    ensures TrimStart(blanks + s) == s
  {
    if blanks == "" {
      assert blanks + s == s;
    } else {
      assert blanks[0] in blanks && (blanks + s)[1..] == blanks[1..] + s;
      assert forall c <- blanks[1..] :: c in blanks;
      TrimBlanks(blanks[1..], s);
    }
  }

  lemma {:induction false} TrimBlanksEnd(s: string, blanks: string)
    requires Blank(blanks) && (s == "" || !IsWS(s[|s| - 1]))
    ensures TrimEnd(s + blanks) == s
  {
    if blanks == "" {
      assert s + blanks == s;
    } else {
      var k := |blanks| - 1;
      assert blanks[k] in blanks && (s + blanks)[..|s| + k] == s + blanks[..k];
      assert forall c <- blanks[..k] :: c in blanks;
      TrimBlanksEnd(s, blanks[..k]);
    }
  }

  /** A header opens a section of its own, blanks in front of the name and all behind the bracket aside. */
  lemma HeaderRead(r: Reading, blanks: string, s: Section, more: string, layer: int)
    requires r.Valid() && Blank(blanks) && WellFormed(s) && IsLine("[" + blanks + s.name + "]" + more)
    ensures ParsedLine(r, "[" + blanks + s.name + "]" + more, layer)
         == Reading(r.sections + [Section(s.name, [])], true)
  {
    var line, part := "[" + blanks + s.name + "]" + more, s.name + "]" + more;
    assert line[1..] == blanks + part;
    TrimBlanks(blanks, part);
    IndexFirst(part, ']', |s.name|);
    assert part[..|s.name|] == s.name;
  }

  /** A setting goes to the last section, with blanks around key and value dropped. */
  lemma EntryRead(r: Reading, t: Tuple, a: string, b: string, c: string, layer: int)
    requires r.Valid() && r.open && WellFormedTuple(t) && Blank(a) && Blank(b) && Blank(c) && (t.value == "" ==> c == "")
    requires IsLine(t.key + a + "=" + b + t.value + c)
    ensures var last := |r.sections| - 1;
      ParsedLine(r, t.key + a + "=" + b + t.value + c, layer) == Reading(r.sections[last := r.sections[last].(tuples :=
        Entered(r.sections[last].tuples, t.key, t.value, layer))], true)
  {
    hide Entered, IsLine;
    var line, eq := t.key + a + "=" + b + t.value + c, |t.key| + |a|;
    EntryParts(t, a, b, c);
    TrimBlanksEnd(t.key, a);
    TrimBlanks(b, t.value + c);
    TrimBlanksEnd(t.value, c);
  }

  lemma EntryParts(t: Tuple, a: string, b: string, c: string)
    requires WellFormedTuple(t) && Blank(a)
    ensures var line, eq := t.key + a + "=" + b + t.value + c, |t.key| + |a|;
      && line[0] == t.key[0] && IndexOf(line, '=') == eq
      && line[..eq] == t.key + a && line[eq + 1..] == b + (t.value + c)
  {
    var line, eq := t.key + a + "=" + b + t.value + c, |t.key| + |a|;
    assert line == (t.key + a) + ("=" + (b + (t.value + c)));
    assert line[..eq] == t.key + a && line[eq] == '=';
    assert forall x <- t.key + a :: x in t.key || x in a;
    assert forall i :: 0 <= i < eq ==> line[i] == (t.key + a)[i] && line[i] in t.key + a;
    IndexFirst(line, '=', eq);
  }

  /** A printed setting is read back as it was. */
  lemma ParseEntry(r: Reading, t: Tuple, to: int)
    requires r.Valid() && r.open && WellFormedTuple(t)
    ensures IsLine(EntryLine(t))
    ensures var last := |r.sections| - 1;
      ParsedLine(r, EntryLine(t), to)
      == Reading(r.sections[last := r.sections[last].(tuples := Entered(r.sections[last].tuples, t.key, t.value, to))], true)
  {
    EntryIsLine(t);
    var line, eq := EntryLine(t), |t.key| + 1;
    assert line[0] == t.key[0];
    assert line[..eq] == t.key + " ";
    assert line[eq + 1..] == " " + t.value;
    IndexFirst(line, '=', eq);
    TrimSpace(t.key);
    TrimSpace(t.value);
    TrimNothing(t.value);
  }

  lemma ParseHeader(r: Reading, s: Section, to: int)
    requires r.Valid() && WellFormed(s)
    ensures IsLine(HeaderLine(s))
    ensures ParsedLine(r, HeaderLine(s), to) == Reading(r.sections + [Section(s.name, [])], true)
  {
    HeaderIsLine(s);
    var part := HeaderLine(s)[1..];
    assert part == s.name + "]";
    assert TrimStart(part) == part;
    assert part[..|s.name|] == s.name;
    IndexFirst(part, ']', |s.name|);
  }

  lemma {:induction false} ParsedAppend(r: Reading, a: seq<string>, b: seq<string>, layer: int)
    requires r.Valid() && forall line <- a + b :: IsLine(line)
    ensures (forall line <- a :: IsLine(line)) && (forall line <- b :: IsLine(line))
    ensures Parsed(r, a + b, layer) == Parsed(Parsed(r, a, layer), b, layer)
    decreases |a|
  {
    hide ParsedLine;
    assert forall line <- a :: line in a + b;
    assert forall line <- b :: line in a + b;
    if a == [] {
      assert a + b == b;
    } else {
      assert (a + b)[1..] == a[1..] + b;
      ParsedAppend(ParsedLine(r, a[0], layer), a[1..], b, layer);
    }
  }

  /** The settings of a section are read back in order, behind those it has. */
  lemma {:induction false} ParseEntries(before: seq<Section>, name: string, have: seq<Tuple>, tuples: seq<Tuple>,
                                        layer: int, to: int)
    requires forall t <- tuples :: WellFormedTuple(t)
    requires forall i, j :: 0 <= i < j < |tuples| ==> tuples[i].key != tuples[j].key
    requires forall i, j :: 0 <= i < |tuples| && 0 <= j < |have| ==> tuples[i].key != have[j].key
    ensures forall line <- EntryLines(tuples, layer) :: IsLine(line)
    ensures Parsed(Reading(before + [Section(name, have)], true), EntryLines(tuples, layer), to)
         == Reading(before + [Section(name, have + KeptTuples(tuples, layer, to))], true)
    decreases |tuples|
  {
    hide ParsedLine, IsLine, WellFormedTuple, Written, EntryLine, Cut;
    var r := Reading(before + [Section(name, have)], true);
    CutEntries(tuples, layer, "");
    if tuples == [] {
      assert have + KeptTuples(tuples, layer, to) == have;
    } else {
      var t, rest := tuples[0], tuples[1..];
      assert t in tuples && forall u <- rest :: u in tuples;
      assert forall i, j :: 0 <= i < j < |rest| ==> rest[i] == tuples[i + 1] && rest[j] == tuples[j + 1];
      if Written(t, layer) {
        var u := Tuple(t.key, t.value, to, to);
        EntryParsed(before, name, have, t, to);
        ParseEntries(before, name, have + [u], rest, layer, to);
        assert have + [u] + KeptTuples(rest, layer, to) == have + KeptTuples(tuples, layer, to);
        assert EntryLines(tuples, layer)[1..] == EntryLines(rest, layer);
      } else {
        ParseEntries(before, name, have, rest, layer, to);
        assert KeptTuple(t, layer, to) + KeptTuples(rest, layer, to) == KeptTuples(rest, layer, to);
        assert EntryLines(tuples, layer) == EntryLines(rest, layer);
      }
    }
  }

  lemma EntryParsed(before: seq<Section>, name: string, have: seq<Tuple>, t: Tuple, to: int)
    requires WellFormedTuple(t) && forall i :: 0 <= i < |have| ==> have[i].key != t.key
    ensures IsLine(EntryLine(t))
    ensures ParsedLine(Reading(before + [Section(name, have)], true), EntryLine(t), to)
         == Reading(before + [Section(name, have + [Tuple(t.key, t.value, to, to)])], true)
  {
    hide ParsedLine, IsLine, WellFormedTuple, EntryLine;
    ParseEntry(Reading(before + [Section(name, have)], true), t, to);
    assert Entered(have, t.key, t.value, to) == have + [Tuple(t.key, t.value, to, to)];
  }

  lemma {:induction false} ParseSections(r: Reading, sections: seq<Section>, layer: int, to: int)
    requires r.Valid() && forall s <- sections :: WellFormed(s)
    ensures forall line <- SectionsLines(sections, layer) :: IsLine(line)
    ensures Parsed(r, SectionsLines(sections, layer), to).sections == r.sections + Kept(sections, layer, to)
    decreases |sections|
  {
    hide Parsed, ParsedLine, IsLine, AnyWritten, WellFormed, KeptSection, SectionLines, Cut;
    CutSections(sections, layer);
    if sections == [] {
      ParsedNothing(r, to);
      assert r.sections + [] == r.sections;
    } else {
      var s, rest := sections[0], sections[1..];
      assert s in sections;
      var kept := r.sections + KeptSection(s, layer, to);
      ParsedAppend(r, SectionLines(s, layer), SectionsLines(rest, layer), to);
      ParseSection(r, s, layer, to);
      ParseSections(Parsed(r, SectionLines(s, layer), to), rest, layer, to);
      assert kept + Kept(rest, layer, to) == r.sections + Kept(sections, layer, to);
    }
  }

  lemma ParsedNothing(r: Reading, layer: int)
    requires r.Valid()
    ensures Parsed(r, [], layer) == r
  {
  }

  lemma ParseSection(r: Reading, s: Section, layer: int, to: int)
    requires r.Valid() && WellFormed(s)
    ensures forall line <- SectionLines(s, layer) :: IsLine(line)
    ensures Parsed(r, SectionLines(s, layer), to).sections == r.sections + KeptSection(s, layer, to)
  {
    hide ParsedLine, IsLine, AnyWritten;
    if AnyWritten(s.tuples, layer) {
      CutEntries(s.tuples, layer, "");
      ParseHeader(r, s, to);
      ParseEntries(r.sections, s.name, [], s.tuples, layer, to);
      assert SectionLines(s, layer)[1..] == EntryLines(s.tuples, layer);
      assert [] + KeptTuples(s.tuples, layer, to) == KeptTuples(s.tuples, layer, to);
    } else {
      assert r.sections + [] == r.sections;
    }
  }

  /** Reading a saved file into nothing gives back what was saved: the sections with something to keep, in order. */
  lemma RoundTrip(sections: seq<Section>, layer: int, to: int)
    requires forall s <- sections :: WellFormed(s)
    ensures var cutting := Cut(SavedText(sections, layer));
      && cutting.rest == ""
      && (forall line <- cutting.lines :: IsLine(line))
      && Parsed(Reading([], false), cutting.lines, to).sections == Kept(sections, layer, to)
  {
    CutSaved(sections, layer);
    var comments, more := [COMMENT_LOCAL, COMMENT_LOST], SectionsLines(sections, layer);
    ParsedAppend(Reading([], false), comments, more, to);
    CommentsIgnored(to);
    ParseSections(Reading([], false), sections, layer, to);
  }

  lemma CommentsIgnored(to: int)
    ensures IsLine(COMMENT_LOCAL) && IsLine(COMMENT_LOST)
    ensures Parsed(Reading([], false), [COMMENT_LOCAL, COMMENT_LOST], to) == Reading([], false)
  {
    CommentsAreLines();
    var lines := [COMMENT_LOCAL, COMMENT_LOST];
    assert COMMENT_LOCAL[0] == '#' && COMMENT_LOST[0] == '#';
    assert lines[1..] == [COMMENT_LOST] && lines[1..][1..] == [];
    var r := Reading([], false);
    assert Parsed(r, lines[1..], to) == Parsed(r, lines[1..][1..], to) == r;
  }

  // ---- saving what was loaded -------------------------------------------------

  /** No setting is written out with an empty value, as one overriding a lower layer would be. */
  predicate NoBlank(tuples: seq<Tuple>, layer: int) {
    tuples == [] || ((Written(tuples[0], layer) ==> tuples[0].value != "") && NoBlank(tuples[1..], layer))
  }

  lemma {:induction false} EntriesAgain(tuples: seq<Tuple>, layer: int)
    ensures var kept := KeptTuples(tuples, layer, layer);
      && |EntriesText(kept, layer)| <= |EntriesText(tuples, layer)|
      && (NoBlank(tuples, layer) ==> EntriesText(kept, layer) == EntriesText(tuples, layer))
      && (!NoBlank(tuples, layer) ==> |EntriesText(kept, layer)| < |EntriesText(tuples, layer)|)
      && (AnyWritten(kept, layer) ==> AnyWritten(tuples, layer))
      && (!AnyWritten(tuples, layer) ==> NoBlank(tuples, layer))
      && (NoBlank(tuples, layer) && AnyWritten(tuples, layer) ==> AnyWritten(kept, layer))
  {
    if tuples != [] {
      var t, rest := tuples[0], tuples[1..];
      var kept, more := KeptTuples(tuples, layer, layer), KeptTuples(rest, layer, layer);
      EntriesAgain(rest, layer);
      if Written(t, layer) {
        var u := Tuple(t.key, t.value, layer, layer);
        assert kept[0] == u && kept[1..] == more;
      } else {
        assert kept == more;
      }
    }
  }

  lemma SectionAgain(s: Section, layer: int, kept: seq<Section>, more: seq<Section>)
    requires kept == KeptSection(s, layer, layer)
    ensures var text := SectionsText(kept + more, layer);
      && |text| <= |SectionText(s, layer)| + |SectionsText(more, layer)|
      && (NoBlank(s.tuples, layer) ==> text == SectionText(s, layer) + SectionsText(more, layer))
      && (!NoBlank(s.tuples, layer) ==> |text| < |SectionText(s, layer)| + |SectionsText(more, layer)|)
  {
    EntriesAgain(s.tuples, layer);
    if AnyWritten(s.tuples, layer) {
      assert (kept + more)[1..] == more;
    } else {
      assert kept + more == more;
    }
  }

  /** The settings that have a value. */
  function Filled(tuples: seq<Tuple>): seq<Tuple> {
    if tuples == [] then [] else (if tuples[0].value == "" then [] else [tuples[0]]) + Filled(tuples[1..])
  }

  function FilledSections(sections: seq<Section>): seq<Section> {
    seq(|sections|, i requires 0 <= i < |sections| => sections[i].(tuples := Filled(sections[i].tuples)))
  }

  lemma {:induction false} EntriesFilled(tuples: seq<Tuple>, layer: int)
    ensures var kept, filled := KeptTuples(tuples, layer, layer), Filled(tuples);
      && EntriesText(kept, layer) == EntriesText(filled, layer)
      && (AnyWritten(kept, layer) <==> AnyWritten(filled, layer))
      && (AnyWritten(kept, layer) ==> AnyWritten(tuples, layer))
  {
    if tuples != [] {
      var t, rest := tuples[0], tuples[1..];
      var kept, filled := KeptTuples(tuples, layer, layer), Filled(tuples);
      EntriesFilled(rest, layer);
      if Written(t, layer) {
        assert kept[0] == Tuple(t.key, t.value, layer, layer) && kept[1..] == KeptTuples(rest, layer, layer);
      } else {
        assert kept == KeptTuples(rest, layer, layer);
      }
      if t.value == "" {
        assert filled == Filled(rest);
      } else {
        assert filled[0] == t && filled[1..] == Filled(rest);
      }
    }
  }

  lemma SectionFilled(s: Section, layer: int, more: seq<Section>)
    ensures SectionsText(KeptSection(s, layer, layer) + more, layer)
         == SectionText(s.(tuples := Filled(s.tuples)), layer) + SectionsText(more, layer)
  {
    EntriesFilled(s.tuples, layer);
    var kept := KeptSection(s, layer, layer);
    if AnyWritten(s.tuples, layer) {
      assert (kept + more)[1..] == more;
    } else {
      assert kept + more == more;
    }
  }

  /** Loading a saved file and saving it again drops the settings with a blank value, and nothing else. */
  lemma {:induction false} SaveAgainFilled(sections: seq<Section>, layer: int)
    ensures SectionsText(Kept(sections, layer, layer), layer) == SectionsText(FilledSections(sections), layer)
  {
    hide SectionText, KeptSection, Filled;
    if sections != [] {
      var s, rest := sections[0], sections[1..];
      SaveAgainFilled(rest, layer);
      SectionFilled(s, layer, Kept(rest, layer, layer));
      assert FilledSections(sections)[0] == s.(tuples := Filled(s.tuples));
      assert FilledSections(sections)[1..] == FilledSections(rest);
    }
  }

  /** A setting blanked to override a lower layer is one that is dropped: the override is gone. */
  lemma BlankDropped(name: string, key: string, layer: int)
    requires layer <= INT_MAX
    ensures var sections := [Section(name, [Tuple(key, "", INT_MAX, layer - 1)])];
      && SectionsText(sections, layer) != ""
      && SectionsText(Kept(sections, layer, layer), layer) == ""
  {
    hide HeaderLine, EntryLine;
    var t := Tuple(key, "", INT_MAX, layer - 1);
    var s := Section(name, [t]);
    assert Written(t, layer) && AnyWritten([t], layer);
    assert [s][0] == s && [s][1..] == [];
    assert SectionsText([s], layer) == SectionText(s, layer) + "";
    SaveAgainFilled([s], layer);
    assert Filled([t]) == [];
    assert FilledSections([s]) == [Section(name, [])];
  }

  /** Loading a saved file and saving it again prints the same text exactly if no blank value was printed. */
  lemma {:induction false} SaveAgain(sections: seq<Section>, layer: int)
    ensures var text := SectionsText(Kept(sections, layer, layer), layer);
      && |text| <= |SectionsText(sections, layer)|
      && ((forall s <- sections :: NoBlank(s.tuples, layer)) ==> text == SectionsText(sections, layer))
      && ((exists s <- sections :: !NoBlank(s.tuples, layer)) ==> |text| < |SectionsText(sections, layer)|)
  {
    hide SectionText, NoBlank, KeptSection;
    if sections != [] {
      var s, rest := sections[0], sections[1..];
      SaveAgain(rest, layer);
      SectionAgain(s, layer, KeptSection(s, layer, layer), Kept(rest, layer, layer));
      assert forall x <- rest :: x in sections;
      assert forall x <- sections :: x == s || x in rest;
    }
  }

  // ---------------------------------------------------------------------
  // Layers
  // ---------------------------------------------------------------------

  predicate Distinct(tuples: seq<Tuple>) {
    forall i, j :: 0 <= i < j < |tuples| ==> tuples[i].key != tuples[j].key
  }

  function Setting(tuples: seq<Tuple>, key: string): Option<Tuple> {
    var i := FindTuple(tuples, key);
    if i < |tuples| then Some(tuples[i]) else None
  }

  lemma FoundTuple(tuples: seq<Tuple>, key: string, i: nat)
    requires i <= |tuples| && (i < |tuples| ==> tuples[i].key == key)
    requires forall j :: 0 <= j < i ==> tuples[j].key != key
    ensures FindTuple(tuples, key) == i
  {
    assert FindTuple(tuples, key) >= i;
  }

  lemma FoundSection(sections: seq<Section>, name: string, i: nat)
    requires i <= |sections| && (i < |sections| ==> sections[i].name == name)
    requires forall j :: 0 <= j < i ==> sections[j].name != name
    ensures FindSection(sections, name) == i
  {
    assert FindSection(sections, name) >= i;
  }

  /** Taking the setting of a key out, and putting another one behind the rest. */
  function Replaced(tuples: seq<Tuple>, key: string, repl: seq<Tuple>): seq<Tuple> {
    var i := FindTuple(tuples, key);
    (if i < |tuples| then tuples[..i] + tuples[i + 1..] else tuples) + repl
  }

  lemma ReplacedSettings(tuples: seq<Tuple>, key: string, repl: seq<Tuple>)
    requires Distinct(tuples) && (repl == [] || (|repl| == 1 && repl[0].key == key))
    ensures var now := Replaced(tuples, key, repl);
      && Distinct(now)
      && (forall k :: k != key ==> Setting(now, k) == Setting(tuples, k))
      && Setting(now, key) == (if repl == [] then None else Some(repl[0]))
  {
    hide FindTuple;
    var i := FindTuple(tuples, key);
    var others := if i < |tuples| then tuples[..i] + tuples[i + 1..] else tuples;
    OthersStay(tuples, key, others);
    assert Replaced(tuples, key, repl) == others + repl;
    if repl == [] {
      assert others + repl == others;
      FoundTuple(others, key, |others|);
    } else {
      assert repl == [repl[0]];
      OneBehind(others, repl[0]);
    }
  }

  lemma OthersStay(tuples: seq<Tuple>, key: string, others: seq<Tuple>)
    requires Distinct(tuples)
    requires var i := FindTuple(tuples, key); others == if i < |tuples| then tuples[..i] + tuples[i + 1..] else tuples
    ensures Distinct(others) && (forall t <- others :: t.key != key)
    ensures forall k :: k != key ==> Setting(others, k) == Setting(tuples, k)
  {
    hide FindTuple, Setting;
    var i := FindTuple(tuples, key);
    if i < |tuples| {
      assert forall j :: 0 <= j < |others| ==> others[j] == tuples[if j < i then j else j + 1];
      forall k | k != key
        ensures Setting(others, k) == Setting(tuples, k)
      {
        OtherStays(tuples, i, others, k);
      }
    }
  }

  lemma OtherStays(tuples: seq<Tuple>, i: nat, others: seq<Tuple>, k: string)
    requires i < |tuples| && |others| == |tuples| - 1 && k != tuples[i].key
    requires forall j :: 0 <= j < |others| ==> others[j] == tuples[if j < i then j else j + 1]
    ensures Setting(others, k) == Setting(tuples, k)
  {
    hide FindTuple;
    var j := FindTuple(tuples, k);
    FoundTuple(others, k, if j > i then j - 1 else j);
  }

  lemma OneBehind(others: seq<Tuple>, t: Tuple)
    requires Distinct(others) && forall u <- others :: u.key != t.key
    ensures Distinct(others + [t])
    ensures forall k :: k != t.key ==> Setting(others + [t], k) == Setting(others, k)
    ensures Setting(others + [t], t.key) == Some(t)
  {
    hide FindTuple;
    var now := others + [t];
    FoundTuple(now, t.key, |others|);
    forall k | k != t.key
      ensures Setting(now, k) == Setting(others, k)
    {
      var i := FindTuple(others, k);
      FoundTuple(now, k, if i < |others| then i else |now|);
    }
  }

  /**
   * Entering a setting touches no other key.  A value of this layer or a higher one stays, and so does an equal one;
   * any other is replaced, and the lowest layer the key was ever set on is remembered.
   */
  lemma SettingEntered(tuples: seq<Tuple>, key: string, value: string, layer: int)
    requires Distinct(tuples)
    ensures var now := Entered(tuples, key, value, layer);
      && Distinct(now)
      && (forall k :: k != key ==> Setting(now, k) == Setting(tuples, k))
      && Setting(now, key) == (match Setting(tuples, key)
           case None => Some(Tuple(key, value, layer, layer))
           case Some(t) => if t.layer < layer && t.value != value then Some(Tuple(key, value, layer, t.lowest)) else Some(t))
  {
    var i := FindTuple(tuples, key);
    if i == |tuples| {
      ReplacedSettings(tuples, key, [Tuple(key, value, layer, layer)]);
    } else {
      ReplacedSettings(tuples, key, [Tuple(key, value, layer, tuples[i].lowest)]);
    }
  }

  function SettingAt(sections: seq<Section>, name: string, key: string): Option<Tuple> {
    var i := FindSection(sections, name);
    if i == |sections| then None else Setting(sections[i].tuples, key)
  }

  function Value(t: Option<Tuple>): string {
    match t case None => "" case Some(t) => t.value
  }

  /** What a client asks for; a blank value is none. */
  function ValueAt(sections: seq<Section>, name: string, key: string): string {
    Value(SettingAt(sections, name, key))
  }

  /** Sections as one file leaves them: each key once, and no trace of another layer. */
  predicate OfLayer(sections: seq<Section>, layer: int) {
    forall s <- sections :: Distinct(s.tuples) && forall t <- s.tuples :: t.layer == t.lowest == layer
  }

  lemma LineBehind(before: seq<Section>, r: Reading, line: string, layer: int)
    requires r.Valid() && IsLine(line) && OfLayer(r.sections, layer)
    ensures var q := ParsedLine(r, line, layer);
      && OfLayer(q.sections, layer)
      && ParsedLine(Reading(before + r.sections, r.open), line, layer) == Reading(before + q.sections, q.open)
  {
    hide Entered, FindTuple;
    if line[0] == '[' {
      var part := TrimStart(line[1..]);
      var header := [Section(part[..IndexOf(part, ']')], [])];
      assert before + r.sections + header == before + (r.sections + header);
    } else if line[0] != '#' && r.open {
      var eq := IndexOf(line, '=');
      if eq < |line| && eq > 0 {
        EntryBehind(before, r.sections, TrimEnd(line[..eq]), TrimEnd(TrimStart(line[eq + 1..])), layer);
      }
    }
  }

  lemma EntryBehind(before: seq<Section>, sections: seq<Section>, key: string, value: string, layer: int)
    requires sections != [] && OfLayer(sections, layer)
    ensures var last := |sections| - 1;
      var tuples := Entered(sections[last].tuples, key, value, layer);
      && OfLayer(sections[last := sections[last].(tuples := tuples)], layer)
      && (before + sections)[|before| + last := sections[last].(tuples := tuples)]
         == before + sections[last := sections[last].(tuples := tuples)]
  {
    var last := |sections| - 1;
    assert sections[last] in sections;
    var i := FindTuple(sections[last].tuples, key);
    if i < |sections[last].tuples| {
      assert sections[last].tuples[i] in sections[last].tuples;
    }
  }

  /** A file is read into sections of its own, whatever was there before: its settings never meet another layer's. */
  lemma {:induction false} ParsedBehind(before: seq<Section>, r: Reading, lines: seq<string>, layer: int)
    requires r.Valid() && OfLayer(r.sections, layer) && forall line <- lines :: IsLine(line)
    ensures var q := Parsed(r, lines, layer);
      && OfLayer(q.sections, layer)
      && Parsed(Reading(before + r.sections, r.open), lines, layer) == Reading(before + q.sections, q.open)
    decreases |lines|
  {
    hide ParsedLine, OfLayer, IsLine;
    if lines != [] {
      assert lines[0] in lines && forall line <- lines[1..] :: line in lines;
      LineBehind(before, r, lines[0], layer);
      ParsedBehind(before, ParsedLine(r, lines[0], layer), lines[1..], layer);
    }
  }

  /**
   * So of two files that have a section in common the one loaded first wins for all of that section, whatever their
   * layers: the second one's values are seen exactly for sections the first one does not have.
   */
  lemma FirstFileWins(sections: seq<Section>, lines: seq<string>, layer: int, name: string, key: string)
    requires forall line <- lines :: IsLine(line)
    ensures var file := Parsed(Reading([], false), lines, layer).sections;
      var now := Parsed(Reading(sections, false), lines, layer).sections;
      && now == sections + file
      && OfLayer(file, layer)
      && ValueAt(now, name, key)
         == if FindSection(sections, name) < |sections| then ValueAt(sections, name, key) else ValueAt(file, name, key)
  {
    hide Parsed, FindSection, SettingAt, OfLayer, Distinct, IsLine;
    EmptyOfLayer(layer);
    ParsedBehind(sections, Reading([], false), lines, layer);
    assert sections + [] == sections;
    SettingBehind(sections, Parsed(Reading([], false), lines, layer).sections, name, key);
  }

  lemma EmptyOfLayer(layer: int)
    ensures OfLayer([], layer)
  {
  }

  lemma SettingBehind(a: seq<Section>, b: seq<Section>, name: string, key: string)
    ensures SettingAt(a + b, name, key)
         == if FindSection(a, name) < |a| then SettingAt(a, name, key) else SettingAt(b, name, key)
  {
    hide FindSection, Setting;
    FoundBehind(a, b, name);
  }

  lemma FoundBehind(a: seq<Section>, b: seq<Section>, name: string)
    ensures FindSection(a + b, name) == if FindSection(a, name) < |a| then FindSection(a, name) else |a| + FindSection(b, name)
  {
    hide FindSection;
    var i, j := FindSection(a, name), FindSection(b, name);
    assert forall k :: 0 <= k < |b| ==> (a + b)[|a| + k] == b[k];
    assert forall k :: |a| <= k < |a| + |b| ==> (a + b)[k] == b[k - |a|];
    FoundSection(a + b, name, if i < |a| then i else |a| + j);
  }

  /** Settings saved from one run and loaded in the next behind another file are lost if it has a section of that name. */
  lemma ReloadedBehind(base: seq<Section>, sections: seq<Section>, layer: int, to: int, name: string, key: string)
    requires forall s <- sections :: WellFormed(s)
    ensures var lines := Cut(SavedText(sections, layer)).lines;
      && (forall line <- lines :: IsLine(line))
      && ValueAt(Parsed(Reading(base, false), lines, to).sections, name, key)
         == if FindSection(base, name) < |base| then ValueAt(base, name, key)
            else ValueAt(Kept(sections, layer, to), name, key)
  {
    hide Cut, Parsed, SavedText, IsLine;
    RoundTrip(sections, layer, to);
    FirstFileWins(base, Cut(SavedText(sections, layer)).lines, to, name, key);
  }

  /** A system file sets x to 1, the user's file of a higher layer sets it to 2: what a client gets is 1. */
  lemma OverrideLost()
    ensures var lines := ["[a]", "x = 2"];
      && (forall line <- lines :: IsLine(line))
      && ValueAt(Parsed(Reading([], false), lines, 2).sections, "a", "x") == "2"
      && ValueAt(Parsed(Reading([Section("a", [Tuple("x", "1", 1, 1)])], false), lines, 2).sections, "a", "x") == "1"
  {
    hide ParsedLine;
    var s, t := Section("a", []), Tuple("x", "2", 2, 2);
    var lines := ["[a]", "x = 2"];
    var base := [Section("a", [Tuple("x", "1", 1, 1)])];
    ParseHeader(Reading([], false), s, 2);
    ParseEntry(Reading([s], true), t, 2);
    assert HeaderLine(s) == lines[0] && EntryLine(t) == lines[1];
    var more := lines[1..];
    assert more == [lines[1]] && more[1..] == [];
    assert [] + [s] == [s] && [s][0 := s.(tuples := [t])] == [Section("a", [t])];
    assert Entered([], "x", "2", 2) == [t];
    var read := Reading([Section("a", [t])], true);
    assert ParsedLine(Reading([s], true), more[0], 2) == read;
    ParsedNothing(read, 2);
    assert Parsed(Reading([s], true), more, 2) == read;
    FirstFileWins(base, lines, 2, "a", "x");
  }

  // ---- what files can hold --------------------------------------------------------

  lemma {:induction false} TrimmedEnd(s: string)
    ensures TrimEnd(s) <= s && (TrimEnd(s) != "" ==> !IsWS(TrimEnd(s)[|TrimEnd(s)| - 1]))
    ensures s != "" && !IsWS(s[0]) ==> TrimEnd(s) != ""
  {
    if s != "" && IsWS(s[|s| - 1]) {
      TrimmedEnd(s[..|s| - 1]);
    }
  }

  lemma {:induction false} TrimmedStart(s: string)
    ensures TrimStart(s) != "" ==> !IsWS(TrimStart(s)[0])
    ensures forall c <- TrimStart(s) :: c in s
  {
    if s != "" && IsWS(s[0]) {
      TrimmedStart(s[1..]);
    }
  }

  predicate Fine(sections: seq<Section>) {
    forall s <- sections :: WellFormed(s)
  }

  lemma HeaderWellFormed(line: string)
    requires IsLine(line) && NUL !in line && line[0] == '['
    ensures var part := TrimStart(line[1..]);
      var end := IndexOf(part, ']');
      end == |part| || end == 0 || WellFormed(Section(part[..end], []))
  {
    TrimmedStart(line[1..]);
    var part := TrimStart(line[1..]);
    var end := IndexOf(part, ']');
    if 0 < end < |part| {
      forall c <- part[..end]
        ensures !IsNL(c) && c != NUL && c != ']'
      {
        assert c in part && c in line[1..] && c in line;
      }
      assert part[..end][0] == part[0];
    }
  }

  lemma KeyWellFormed(key: string)
    requires IsLine(key) && NUL !in key && key[0] != '#' && key[0] != '[' && '=' !in key
    ensures WellFormedKey(TrimEnd(key))
  {
    TrimmedEnd(key);
    var k := TrimEnd(key);
    assert k[0] == key[0];
    assert forall c <- k :: c in key;
  }

  lemma ValueWellFormed(part: string)
    requires forall c <- part :: !IsNL(c) && c != NUL
    ensures Plain(TrimEnd(TrimStart(part)))
  {
    TrimmedStart(part);
    var p := TrimStart(part);
    TrimmedEnd(p);
    var v := TrimEnd(p);
    assert v != "" ==> v[0] == p[0];
    assert forall c <- v :: c in p && c in part;
  }

  lemma EntryWellFormed(line: string)
    requires IsLine(line) && NUL !in line && line[0] != '#' && line[0] != '['
    ensures var eq := IndexOf(line, '=');
      eq == |line| || eq == 0 || (WellFormedKey(TrimEnd(line[..eq])) && Plain(TrimEnd(TrimStart(line[eq + 1..]))))
  {
    var eq := IndexOf(line, '=');
    if 0 < eq < |line| {
      assert forall c <- line[..eq] :: c in line;
      assert forall c <- line[eq + 1..] :: c in line;
      KeyWellFormed(line[..eq]);
      ValueWellFormed(line[eq + 1..]);
    }
  }

  lemma EnteredWellFormed(s: Section, key: string, value: string, layer: int)
    requires WellFormed(s) && WellFormedKey(key) && Plain(value)
    ensures WellFormed(s.(tuples := Entered(s.tuples, key, value, layer)))
  {
    hide WellFormedKey, Plain, FindTuple;
    SettingEntered(s.tuples, key, value, layer);
  }

  lemma LineWellFormed(r: Reading, line: string, layer: int)
    requires r.Valid() && IsLine(line) && NUL !in line && Fine(r.sections)
    ensures Fine(ParsedLine(r, line, layer).sections)
  {
    hide WellFormed, WellFormedKey, Plain, Entered;
    if line[0] == '[' {
      HeaderWellFormed(line);
    } else if line[0] != '#' && r.open {
      var eq := IndexOf(line, '=');
      if 0 < eq < |line| {
        var last := |r.sections| - 1;
        assert r.sections[last] in r.sections;
        EntryWellFormed(line);
        EnteredWellFormed(r.sections[last], TrimEnd(line[..eq]), TrimEnd(TrimStart(line[eq + 1..])), layer);
      }
    }
  }

  /** Whatever a file holds, what is read from it is well-formed: it can be saved and read back. */
  lemma {:induction false} ParsedWellFormed(r: Reading, lines: seq<string>, layer: int)
    requires r.Valid() && Fine(r.sections)
    requires forall line <- lines :: IsLine(line) && NUL !in line
    ensures Fine(Parsed(r, lines, layer).sections)
    decreases |lines|
  {
    hide ParsedLine, IsLine, WellFormed;
    if lines != [] {
      assert lines[0] in lines && forall line <- lines[1..] :: line in lines;
      LineWellFormed(r, lines[0], layer);
      ParsedWellFormed(ParsedLine(r, lines[0], layer), lines[1..], layer);
    }
  }

  // ---- settings changed by clients ----------------------------------------------

  /** A client's value goes above all layers; no value at all is remembered only over a file's. */
  function Assigned(tuples: seq<Tuple>, key: string, value: Option<string>): seq<Tuple> {
    var lowest := match Setting(tuples, key) case None => INT_MAX case Some(t) => t.lowest;
    Replaced(tuples, key, match value
      case None => if lowest == INT_MAX then [] else [Tuple(key, "", INT_MAX, lowest)]
      case Some(v) => [Tuple(key, v, INT_MAX, lowest)])
  }

  function Opened(sections: seq<Section>, name: string): (now: seq<Section>)
    ensures FindSection(now, name) < |now|
  {
    var i := FindSection(sections, name);
    if i < |sections| then sections
    else
      FoundBehind(sections, [Section(name, [])], name);
      sections + [Section(name, [])]
  }

  function Changed(sections: seq<Section>, name: string, key: string, value: Option<string>): seq<Section> {
    var now := Opened(sections, name);
    var i := FindSection(now, name);
    now[i := now[i].(tuples := Assigned(now[i].tuples, key, value))]
  }

  predicate Tidy(sections: seq<Section>) {
    forall s <- sections :: Distinct(s.tuples)
  }

  /** What a client sets is what it gets, and no other setting changes. */
  lemma SetAndGet(sections: seq<Section>, name: string, key: string, value: Option<string>)
    requires Tidy(sections)
    ensures var now := Changed(sections, name, key, value);
      && Tidy(now)
      && ValueAt(now, name, key) == (match value case None => "" case Some(v) => v)
      && (forall n, k :: n != name || k != key ==> ValueAt(now, n, k) == ValueAt(sections, n, k))
      && (value.Some? ==> SettingAt(now, name, key).Some? && SettingAt(now, name, key).value.layer == INT_MAX)
  {
    hide Assigned, Setting, FindSection, Distinct, Opened;
    OpenedSame(sections, name);
    var open, now := Opened(sections, name), Changed(sections, name, key, value);
    var i := FindSection(open, name);
    assert open[i] in open;
    AssignedSettings(open[i].tuples, key, value);
    SameNames(open, now);
    forall n, k | n != name || k != key
      ensures ValueAt(now, n, k) == ValueAt(open, n, k)
    {
      var j := FindSection(open, n);
      assert j < |open| && j != i ==> now[j] == open[j];
    }
  }

  /** Opening an empty section changes no setting. */
  lemma OpenedSame(sections: seq<Section>, name: string)
    requires Tidy(sections)
    ensures Tidy(Opened(sections, name))
    ensures forall n, k :: ValueAt(Opened(sections, name), n, k) == ValueAt(sections, n, k)
  {
    hide FindSection, SettingAt;
    if FindSection(sections, name) == |sections| {
      forall n, k
        ensures ValueAt(Opened(sections, name), n, k) == ValueAt(sections, n, k)
      {
        SettingBehind(sections, [Section(name, [])], n, k);
        NoSetting(name, n, k);
        if FindSection(sections, n) == |sections| {
          Unsectioned(sections, n, k);
        }
      }
    }
  }

  lemma NoSetting(name: string, n: string, k: string)
    ensures SettingAt([Section(name, [])], n, k) == None
  {
  }

  lemma Unsectioned(sections: seq<Section>, n: string, k: string)
    requires FindSection(sections, n) == |sections|
    ensures SettingAt(sections, n, k) == None
  {
  }

  lemma SameNames(a: seq<Section>, b: seq<Section>)
    requires |a| == |b| && forall i :: 0 <= i < |a| ==> a[i].name == b[i].name
    ensures forall n :: FindSection(a, n) == FindSection(b, n)
  {
    forall n
      ensures FindSection(a, n) == FindSection(b, n)
    {
      FoundSection(b, n, FindSection(a, n));
    }
  }

  lemma AssignedSettings(tuples: seq<Tuple>, key: string, value: Option<string>)
    requires Distinct(tuples)
    ensures var now := Assigned(tuples, key, value);
      && Distinct(now)
      && (forall k :: k != key ==> Setting(now, k) == Setting(tuples, k))
      && Value(Setting(now, key)) == (match value case None => "" case Some(v) => v)
      && (value.Some? ==> Setting(now, key).Some? && Setting(now, key).value.layer == INT_MAX)
      && (match Setting(tuples, key)
          case None => Setting(now, key) == (if value.Some? then Some(Tuple(key, value.value, INT_MAX, INT_MAX)) else None)
          case Some(t) =>
            (Setting(now, key) == if value.Some? then Some(Tuple(key, value.value, INT_MAX, t.lowest))
                                  else if t.lowest == INT_MAX then None else Some(Tuple(key, "", INT_MAX, t.lowest))))
  {
    hide Replaced;
    var lowest := match Setting(tuples, key) case None => INT_MAX case Some(t) => t.lowest;
    ReplacedSettings(tuples, key, match value
      case None => if lowest == INT_MAX then [] else [Tuple(key, "", INT_MAX, lowest)]
      case Some(v) => [Tuple(key, v, INT_MAX, lowest)]);
  }

  // ---- across a restart ------------------------------------------------------------

  predicate Named(sections: seq<Section>) {
    forall i, j :: 0 <= i < j < |sections| ==> sections[i].name != sections[j].name
  }

  /** A setting as a file of layer `layer` keeps it. */
  function AsKept(t: Option<Tuple>, layer: int, to: int): Option<Tuple> {
    if t.Some? && t.value.layer >= layer && (t.value.value != "" || t.value.lowest < layer)
    then Some(Tuple(t.value.key, t.value.value, to, to)) else None
  }

  lemma SettingFirst(t: Tuple, rest: seq<Tuple>, key: string)
    ensures Setting([t] + rest, key) == if t.key == key then Some(t) else Setting(rest, key)
  {
    assert ([t] + rest)[1..] == rest;
  }

  lemma {:induction false} KeptSetting(tuples: seq<Tuple>, layer: int, to: int, key: string)
    requires Distinct(tuples)
    ensures Setting(KeptTuples(tuples, layer, to), key) == AsKept(Setting(tuples, key), layer, to)
    ensures !AnyWritten(tuples, layer) ==> AsKept(Setting(tuples, key), layer, to) == None
  {
    hide Setting, FindTuple;
    if tuples == [] {
      NoSettings(key);
    } else {
      var t, rest := tuples[0], tuples[1..];
      var kept := KeptTuples(rest, layer, to);
      assert tuples == [t] + rest;
      KeptSetting(rest, layer, to, key);
      SettingFirst(t, rest, key);
      if Written(t, layer) {
        SettingFirst(Tuple(t.key, t.value, to, to), kept, key);
      } else {
        assert [] + kept == kept;
        if t.key == key {
          NotSet(rest, key);
        }
      }
    }
  }

  lemma NoSettings(key: string)
    ensures Setting([], key) == None
  {
  }

  lemma NotSet(tuples: seq<Tuple>, key: string)
    requires forall t <- tuples :: t.key != key
    ensures Setting(tuples, key) == None
  {
  }

  lemma {:induction false} KeptAbsent(sections: seq<Section>, layer: int, to: int, name: string, key: string)
    requires forall s <- sections :: s.name != name
    ensures SettingAt(Kept(sections, layer, to), name, key) == None
  {
    if sections != [] {
      var s, rest := sections[0], sections[1..];
      assert s in sections && forall x <- rest :: x in sections;
      KeptAbsent(rest, layer, to, name, key);
      SettingBehind(KeptSection(s, layer, to), Kept(rest, layer, to), name, key);
    }
  }

  /** A file keeps of each setting what it was written to keep. */
  lemma {:induction false} KeptAt(sections: seq<Section>, layer: int, to: int, name: string, key: string)
    requires Named(sections) && Tidy(sections)
    ensures SettingAt(Kept(sections, layer, to), name, key) == AsKept(SettingAt(sections, name, key), layer, to)
  {
    hide AnyWritten, KeptTuples, Setting, Distinct, Written;
    if sections != [] {
      var s, rest := sections[0], sections[1..];
      var kept := Kept(rest, layer, to);
      assert s in sections && forall i :: 0 <= i < |rest| ==> rest[i] == sections[i + 1] && rest[i] in sections;
      SettingBehind(KeptSection(s, layer, to), kept, name, key);
      KeptSetting(s.tuples, layer, to, key);
      if s.name == name {
        KeptAbsent(rest, layer, to, name, key);
      } else {
        KeptAt(rest, layer, to, name, key);
        SettingBehind([s], rest, name, key);
        assert [s] + rest == sections;
      }
    }
  }

  /** What a client sets and has saved is what it gets after a restart. */
  lemma SettingSurvives(sections: seq<Section>, name: string, key: string, value: string, layer: int, to: int)
    requires var now := Changed(sections, name, key, Some(value));
      Tidy(sections) && Named(now) && forall s <- now :: WellFormed(s)
    requires value != "" && layer <= INT_MAX
    ensures var lines := Cut(SavedText(Changed(sections, name, key, Some(value)), layer)).lines;
      && (forall line <- lines :: IsLine(line))
      && ValueAt(Parsed(Reading([], false), lines, to).sections, name, key) == value
  {
    hide Cut, Parsed, SavedText, IsLine, Changed, SettingAt, WellFormed, Named;
    var now := Changed(sections, name, key, Some(value));
    SetAndGet(sections, name, key, Some(value));
    RoundTrip(now, layer, to);
    KeptAt(now, layer, to, name, key);
  }

  // ---------------------------------------------------------------------
  // The file object
  // ---------------------------------------------------------------------

  /** A setting that was written now exists on the layer it was written for. */
  function RecordedTuples(tuples: seq<Tuple>, layer: int): seq<Tuple> {
    seq(|tuples|, i requires 0 <= i < |tuples| =>
      if Written(tuples[i], layer) then tuples[i].(layer := layer) else tuples[i])
  }

  function Recorded(sections: seq<Section>, layer: int): seq<Section> {
    seq(|sections|, i requires 0 <= i < |sections| =>
      sections[i].(tuples := RecordedTuples(sections[i].tuples, layer)))
  }

  method WithoutTrailing(s: string) returns (n: nat)
    ensures n <= |s| && s[..n] == TrimEnd(s)
    ensures s != "" && !IsWS(s[0]) ==> n > 0
  {
    n := |s|;
    assert s[..n] == s;
    while n > 0 && IsWS(s[n - 1])
      invariant n <= |s| && TrimEnd(s[..n]) == TrimEnd(s)
      invariant s != "" && !IsWS(s[0]) ==> n > 0
    {
      assert s[..n][..n - 1] == s[..n - 1];
      n := n - 1;
    }
  }

  method WithoutLeading(s: string) returns (p: nat)
    ensures p <= |s| && s[p..] == TrimStart(s)
  {
    p := 0;
    while p < |s| && IsWS(s[p])
      invariant p <= |s| && TrimStart(s[p..]) == TrimStart(s)
    {
      assert s[p..][1..] == s[p + 1..];
      p := p + 1;
    }
  }

  /** A section's settings have been gone through up to one of them, and this is printed. */
  ghost predicate PrintedTo(s: Section, layer: int, i: nat, wrote: bool, text: string)
    requires i <= |s.tuples|
  {
    && (wrote ==> AnyWritten(s.tuples, layer) && text + EntriesText(s.tuples[i..], layer) == SectionText(s, layer))
    && (!wrote ==> text == "" && EntriesText(s.tuples[i..], layer) == EntriesText(s.tuples, layer))
    && (!wrote ==> (AnyWritten(s.tuples[i..], layer) <==> AnyWritten(s.tuples, layer)))
  }

  lemma PrintStep(s: Section, layer: int, i: nat, wrote: bool, text: string)
    requires i < |s.tuples| && PrintedTo(s, layer, i, wrote, text)
    ensures var t := s.tuples[i];
      if Written(t, layer) then
        PrintedTo(s, layer, i + 1, true, (if wrote then text else text + "\n" + HeaderLine(s) + "\n") + EntryLine(t) + "\n")
      else PrintedTo(s, layer, i + 1, wrote, text)
  {
    hide HeaderLine, EntryLine, Written;
    var t, rest := s.tuples[i], s.tuples[i..];
    assert rest[0] == t && rest[1..] == s.tuples[i + 1..];
    if Written(t, layer) {
      var more := EntriesText(s.tuples[i + 1..], layer);
      var top := if wrote then text else text + "\n" + HeaderLine(s) + "\n";
      assert top + EntryLine(t) + "\n" + more == top + (EntryLine(t) + "\n" + more);
    }
  }

  lemma PrintStart(s: Section, layer: int)
    ensures PrintedTo(s, layer, 0, false, "")
  {
    assert s.tuples[0..] == s.tuples;
  }

  lemma PrintEnd(s: Section, layer: int, wrote: bool, text: string)
    requires PrintedTo(s, layer, |s.tuples|, wrote, text)
    ensures text == SectionText(s, layer)
  {
    assert text + "" == text;
  }

  class ConfigFile {
    var sections: seq<Section>

    constructor ()
      ensures sections == []
    {
      sections := [];
    }

    method PrintEntries(s: Section, layer: int) returns (text: string, tuples: seq<Tuple>)
      ensures text == SectionText(s, layer)
      ensures tuples == RecordedTuples(s.tuples, layer)
    {
      hide HeaderLine, EntryLine, Written, PrintedTo;
      text, tuples := "", s.tuples;
      var wrote := false;
      PrintStart(s, layer);
      var i := 0;
      while i < |tuples|
        invariant 0 <= i <= |tuples| == |s.tuples|
        invariant PrintedTo(s, layer, i, wrote, text)
        invariant forall j :: 0 <= j < i ==> tuples[j] == RecordedTuples(s.tuples, layer)[j]
        invariant forall j :: i <= j < |tuples| ==> tuples[j] == s.tuples[j]
      {
        var t := tuples[i];
        PrintStep(s, layer, i, wrote, text);
        if Written(t, layer) {
          if !wrote {
            text := text + "\n" + HeaderLine(s) + "\n";
            wrote := true;
          }
          text := text + EntryLine(t) + "\n";
          tuples := tuples[i := t.(layer := layer)];
        }
        i := i + 1;
      }
      PrintEnd(s, layer, wrote, text);
    }

    /** Prints what belongs in the file for a layer, and notes where those settings now exist. */
    method Save(layer: int) returns (text: string)
      modifies this
      ensures text == SavedText(old(sections), layer)
      ensures sections == Recorded(old(sections), layer)
      ensures |sections| == |old(sections)| && forall i :: 0 <= i < |sections| ==>
        sections[i].name == old(sections)[i].name && |sections[i].tuples| == |old(sections)[i].tuples|
      ensures forall i, j :: 0 <= i < |sections| && 0 <= j < |sections[i].tuples| ==>
        var t := old(sections)[i].tuples[j];
        sections[i].tuples[j]
        == if t.layer >= layer && (t.value != "" || t.lowest < layer) then t.(layer := layer) else t
    {
      hide SectionText, RecordedTuples;
      text := COMMENT_LOCAL + "\n" + COMMENT_LOST + "\n";
      ghost var was, top := sections, text;
      assert was[0..] == was;
      var i := 0;
      while i < |sections|
        invariant 0 <= i <= |sections| == |was|
        invariant text + SectionsText(was[i..], layer) == top + SectionsText(was, layer)
        invariant forall j :: 0 <= j < i ==> sections[j] == Recorded(was, layer)[j]
        invariant forall j :: i <= j < |sections| ==> sections[j] == was[j]
      {
        assert was[i..][0] == sections[i] && was[i..][1..] == was[i + 1..];
        var part, tuples := PrintEntries(sections[i], layer);
        assert text + part + SectionsText(was[i + 1..], layer) == text + (part + SectionsText(was[i + 1..], layer));
        text := text + part;
        sections := sections[i := sections[i].(tuples := tuples)];
        i := i + 1;
      }
      RecordedIs(was, layer);
    }

    static lemma RecordedIs(was: seq<Section>, layer: int)
      ensures |Recorded(was, layer)| == |was|
      ensures forall i :: 0 <= i < |was| ==>
        Recorded(was, layer)[i].name == was[i].name && |Recorded(was, layer)[i].tuples| == |was[i].tuples|
      ensures forall i, j :: 0 <= i < |was| && 0 <= j < |was[i].tuples| ==>
        var t := was[i].tuples[j];
        (Recorded(was, layer)[i].tuples[j]
         == if t.layer >= layer && (t.value != "" || t.lowest < layer) then t.(layer := layer) else t)
    {
    }

    /** One line of a file being read; `open` says whether a section header came before. */
    method ParseLine(line: string, layer: int, open: bool) returns (started: bool)
      requires IsLine(line) && (open ==> sections != [])
      modifies this
      ensures Reading(sections, started) == ParsedLine(Reading(old(sections), open), line, layer)
    {
      started := open;
      if line[0] == '#' {
        return;
      }
      if line[0] == '[' {
        var part := TrimStart(line[1..]);
        var end := IndexOf(part, ']');
        if end < |part| && end > 0 {
          sections := sections + [Section(part[..end], [])];
          started := true;
        }
        return;
      }
      if !open {
        return;
      }
      var eq := IndexOf(line, '=');
      if eq == |line| || eq == 0 {
        return;
      }
      var kl := WithoutTrailing(line[..eq]);
      assert kl > 0;
      var part := WithoutLeading(line[eq + 1..]);
      var value := line[eq + 1..][part..];
      var dl := WithoutTrailing(value);
      Enter(line[..eq][..kl], value[..dl], layer);
    }

    /** Enters a setting in the last section, unless one of this layer or a higher one, or an equal one, is there. */
    method Enter(key: string, value: string, layer: int)
      requires sections != []
      modifies this
      ensures var last := |old(sections)| - 1;
        var was := old(sections)[last];
        sections == old(sections)[last := was.(tuples := Entered(was.tuples, key, value, layer))]
    {
      var last := |sections| - 1;
      var tuples := sections[last].tuples;
      var i := FindTuple(tuples, key);
      var lowest := layer;
      if i < |tuples| {
        if tuples[i].layer >= layer || tuples[i].value == value {
          return;
        }
        lowest := tuples[i].lowest;
        tuples := tuples[..i] + tuples[i + 1..];
      }
      tuples := tuples + [Tuple(key, value, layer, lowest)];
      sections := sections[last := sections[last].(tuples := tuples)];
    }

    /** Looks a setting up; a section that is asked for exists from then on. */
    method Get(name: string, key: string) returns (found: bool, value: string)
      requires name != ""
      modifies this
      ensures sections == if exists s <- old(sections) :: s.name == name then old(sections)
                          else old(sections) + [Section(name, [])]
      ensures value == ValueAt(old(sections), name, key) && (found <==> value != "")
    {
      var i := FindSection(sections, name);
      if i == |sections| {
        sections := sections + [Section(name, [])];
        return false, "";
      }
      var t := FindTuple(sections[i].tuples, key);
      if t == |sections[i].tuples| {
        return false, "";
      }
      value := sections[i].tuples[t].value;
      found := value != "";
    }

    /** Sets a value above all layers, or takes it away. */
    method Set(name: string, key: string, value: Option<string>)
      requires name != "" && key != ""
      modifies this
      ensures sections == Changed(old(sections), name, key, value)
    {
      var i := FindSection(sections, name);
      if i == |sections| {
        FoundBehind(sections, [Section(name, [])], name);
        sections := sections + [Section(name, [])];
      }
      assert sections == Opened(old(sections), name) && i == FindSection(sections, name);
      var lowest, tuples := INT_MAX, sections[i].tuples;
      var t := FindTuple(tuples, key);
      if t < |tuples| {
        lowest := tuples[t].lowest;
        tuples := tuples[..t] + tuples[t + 1..];
      }
      if value.Some? {
        tuples := tuples + [Tuple(key, value.value, INT_MAX, lowest)];
      } else if lowest != INT_MAX {
        tuples := tuples + [Tuple(key, "", INT_MAX, lowest)];
      }
      assert tuples == Assigned(sections[i].tuples, key, value);
      sections := sections[i := sections[i].(tuples := tuples)];
    }

    /** Parses the lines that have come out of the buffer since `done` of them had. */
    method ParseAll(lines: seq<string>, done: nat, layer: int, open: bool, ghost start: Reading) returns (started: bool)
      requires done <= |lines| && (forall line <- lines :: IsLine(line)) && (open ==> sections != [])
      requires start.Valid() && Reading(sections, open) == Parsed(start, lines[..done], layer)
      modifies this
      ensures Reading(sections, started) == Parsed(start, lines, layer)
    {
      hide Parsed, ParsedLine, IsLine;
      started := open;
      var i := done;
      while i < |lines|
        invariant done <= i <= |lines| && (started ==> sections != [])
        invariant Reading(sections, started) == Parsed(start, lines[..i], layer)
      {
        assert lines[i] in lines;
        ParsedOneMore(start, lines, i, layer);
        started := ParseLine(lines[i], layer, started);
        i := i + 1;
      }
      assert lines[..i] == lines;
    }

    static lemma ParsedOneMore(start: Reading, lines: seq<string>, i: nat, layer: int)
      requires start.Valid() && i < |lines| && forall line <- lines :: IsLine(line)
      ensures Parsed(start, lines[..i + 1], layer) == ParsedLine(Parsed(start, lines[..i], layer), lines[i], layer)
    {
      hide ParsedLine, IsLine;
      assert lines[..i + 1] == lines[..i] + [lines[i]];
      ParsedAppend(start, lines[..i], [lines[i]], layer);
    }

    /**
     * Reads a whole file through the buffer, in pieces of any size.  All of it is parsed exactly if no line fills the
     * buffer and none starts with NUL; what is too long makes all settings go, and a NUL in front fails an assertion,
     * whichever comes first.  What the last line does if it is not ended is not said.
     */
    method Load(text: string, layer: int) returns (stands: bool, ok: bool)
      modifies this
      ensures Sane(text, false) ==> stands
      ensures stands && ok ==> Sane(text, false) && Fits(text, READ_BUFFER)
      ensures Cut(text).rest == "" && Sane(text, false) && Fits(text, READ_BUFFER) ==> ok
      ensures Sane(text, false) ==> forall line <- Texts(Cut(text).lines) :: IsLine(line)
      ensures Cut(text).rest == "" && stands && ok ==>
        sections == Parsed(Reading(old(sections), false), Texts(Cut(text).lines), layer).sections
      ensures stands && !ok ==> sections == []
    {
      hide Sane, Cut, Texts, Fits, Parsed, ParsedLine, IsLine;
      if Sane(text, false) {
        TextsAreLines(text);
      }
      var r := new LineReader(READ_BUFFER, false, false);
      ghost var start := Reading(sections, false);
      var open, done, read := false, 0, 0;
      assert text[..0] == "";
      AtStart(start, layer);
      while read < |text|
        invariant fresh(r) && fresh(r.buf) && r.buf.Length == READ_BUFFER && !r.mayHangUp && !r.checksLast
        invariant r.Valid() && r.connected
        invariant read <= |text| && r.stream == text[..read]
        invariant Sane(r.stream, false) && forall line <- r.handed :: IsLine(line)
        invariant done == |r.handed| && (open ==> sections != [])
        invariant Reading(sections, open) == Parsed(start, r.handed, layer)
      {
        var n: nat :| 0 < n <= |text| - read && r.start + r.len + n <= READ_BUFFER;
        var chunk := text[read..read + n];
        ghost var before, was := r.stream, r.handed;
        PieceRead(text, read, n);
        r.DataReady(chunk);
        FitsIs(r.stream, READ_BUFFER);
        if r.failed {
          return false, false;
        }
        if !r.connected {
          sections := [];
          return true, false;
        }
        HandedOn(before, chunk);
        assert r.handed[..done] == was;
        open := ParseAll(r.handed, done, layer, open, start);
        done := |r.handed|;
        read := read + n;
      }
      assert text[..read] == text;
      stands, ok := true, true;
      if r.len > 0 {
        sections, ok := *, *;
        if !ok {
          sections := [];
        }
      }
    }

    static lemma AtStart(start: Reading, layer: int)
      requires start.Valid()
      ensures Cut("") == Cutting([], "") && Texts([]) == [] && Sane("", false) && Parsed(start, [], layer) == start
    {
    }

    /** What is wrong with a part read so far is wrong with the whole. */
    static lemma PieceRead(text: string, read: nat, n: nat)
      requires read + n <= |text| && Sane(text[..read], false)
      ensures text[..read] + text[read..read + n] == text[..read + n]
      ensures Sane(Cut(text[..read]).rest + text[read..read + n], false) <==> Sane(text[..read + n], false)
      ensures Sane(text, false) ==> Sane(text[..read + n], false)
      ensures Fits(text, READ_BUFFER) ==> Fits(text[..read + n], READ_BUFFER)
    {
      hide Sane, Cut, Fits;
      var now, more := text[..read + n], text[read + n..];
      assert text == now + more;
      assert text[..read] + text[read..read + n] == now;
      SaneAppend(text[..read], text[read..read + n]);
      if Sane(text, false) {
        SanePrefix(now, more);
      }
      if Fits(text, READ_BUFFER) {
        FitsPrefix(now, more, READ_BUFFER);
      }
    }

    static lemma HandedOn(front: string, chunk: string)
      requires Sane(front + chunk, false)
      ensures Texts(Cut(front).lines) <= Texts(Cut(front + chunk).lines)
      ensures forall line <- Texts(Cut(front + chunk).lines) :: IsLine(line)
    {
      hide Sane, Cut, Texts, IsLine;
      CutAppend(front, chunk);
      TextsAppend(Cut(front).lines, Cut(Cut(front).rest + chunk).lines);
      TextsAreLines(front + chunk);
    }
  }

  /** Saving, and loading the file into an empty object: the written settings come back unless a line is too long. */
  method SaveAndLoad(c: ConfigFile, layer: int, to: int) returns (d: ConfigFile, stands: bool, ok: bool)
    requires forall s <- c.sections :: WellFormed(s)
    modifies c
    ensures fresh(d) && stands
    ensures ok <==> forall line <- SavedLines(old(c.sections), layer) :: |line| < READ_BUFFER
    ensures d.sections == if ok then Kept(old(c.sections), layer, to) else []
  {
    hide Cut, Parsed, SavedText, Sane, Texts, SavedLines, IsLine;
    RoundTrip(c.sections, layer, to);
    CutSaved(c.sections, layer);
    SavedNoNul(c.sections, layer);
    var text := c.Save(layer);
    SaneText(text, false);
    d := new ConfigFile();
    stands, ok := d.Load(text, to);
  }
}
