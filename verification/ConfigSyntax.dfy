/** The syntax of WireGuard configuration files as vpn/wireguard_config.go reads it:
    the two regular expressions, and the sections they cut a text into. */
module ConfigSyntax {
  import opened Outcomes
  import opened GoText

  // ----- the section pattern --------------------------------------------------------

  /** The last position of `c`, or -1. */
  function FindLast(s: string, c: char): (k: int)
    ensures -1 <= k < |s|
  {
    if s == [] then -1
    else if s[|s| - 1] == c then |s| - 1
    else FindLast(s[..|s| - 1], c)
  }

  lemma {:induction false} FindLastIsLast(s: string, c: char)
    ensures forall i :: FindLast(s, c) < i < |s| ==> s[i] != c
    ensures FindLast(s, c) >= 0 ==> s[FindLast(s, c)] == c
  {
    if s != [] && s[|s| - 1] != c {
      FindLastIsLast(s[..|s| - 1], c);
    }
  }

  /** What the unanchored section pattern captures in a line. */
  function HeaderName(line: string): (r: Option<string>) {
    var i, j := Find(line, '['), FindLast(line, ']');
    if i < j then Some(line[i + 1..j]) else None
  }

  /** Some way to match the pattern. */
  predicate HeaderMatch(line: string, i: int, j: int) {
    0 <= i < j < |line| && line[i] == '[' && line[j] == ']'
  }

  ghost predicate HasBrackets(line: string) {
    exists i, j :: HeaderMatch(line, i, j)
  }

  /** The pattern matches when a `[` precedes a `]`; of all matches the leftmost and,
      there, the longest is taken. */
  lemma HeaderIsLeftmostLongest(line: string)
    ensures HeaderName(line).Some? <==> HasBrackets(line)
    ensures HasBrackets(line) ==>
              var i, j := Find(line, '['), FindLast(line, ']');
              && HeaderMatch(line, i, j) && HeaderName(line) == Some(line[i + 1..j])
              && forall i', j' :: HeaderMatch(line, i', j') ==> i <= i' && j' <= j
  {
    var i, j := Find(line, '['), FindLast(line, ']');
    FindIsFirst(line, '[');
    FindLastIsLast(line, ']');
    forall x | 0 <= x < i ensures line[x] != '[' {
      assert line[..i][x] == line[x];
    }
    if i < j {
      assert HeaderMatch(line, i, j);
    }
  }

  // ----- the attribute pattern ------------------------------------------------------

  predicate IsKeyChar(c: char) {
    'a' <= c <= 'z' || 'A' <= c <= 'Z' || '0' <= c <= '9' || c == '-' || c == '_'
  }

  predicate IsSpace(c: char) {
    c == ' ' || c == '\t' || c == '\n' || c == '\r' || c == '\U{000C}'
  }

  /** All of `s[i..j]` are key characters. */
  predicate KeyRun(s: string, i: nat, j: nat) {
    i <= j <= |s| && forall x :: i <= x < j ==> IsKeyChar(s[x])
  }

  predicate SpaceRun(s: string, i: nat, j: nat) {
    i <= j <= |s| && forall x :: i <= x < j ==> IsSpace(s[x])
  }

  /** Where the longest run of key characters that starts at `i` ends. */
  function KeyEnd(s: string, i: nat): (j: nat)
    requires i <= |s|
    ensures i <= j <= |s|
    decreases |s| - i
  {
    if i < |s| && IsKeyChar(s[i]) then KeyEnd(s, i + 1) else i
  }

  /** Where the longest run of blanks that starts at `i` ends. */
  function SpaceEnd(s: string, i: nat): (j: nat)
    requires i <= |s|
    ensures i <= j <= |s|
    decreases |s| - i
  {
    if i < |s| && IsSpace(s[i]) then SpaceEnd(s, i + 1) else i
  }

  datatype Attr = Attr(key: string, value: string)

  /** What the attribute pattern captures in a line. */
  function Attribute(line: string): (r: Option<Attr>) {
    var k := KeyEnd(line, 0);
    var e := SpaceEnd(line, k);
    if e < |line| && line[e] == '=' then Some(Attr(line[..k], line[SpaceEnd(line, e + 1)..])) else None
  }

  predicate StartsBlank(s: string) {
    s != [] && IsSpace(s[0])
  }

  lemma {:induction false} KeyEndHolds(s: string, i: nat)
    requires i <= |s|
    ensures KeyRun(s, i, KeyEnd(s, i))
    decreases |s| - i
  {
    if i < |s| && IsKeyChar(s[i]) {
      KeyEndHolds(s, i + 1);
    }
  }

  lemma {:induction false} KeyEndIs(s: string, i: nat, j: nat)
    requires KeyRun(s, i, j) && (j < |s| ==> !IsKeyChar(s[j]))
    ensures KeyEnd(s, i) == j
    decreases j - i
  {
    if i < j {
      KeyEndIs(s, i + 1, j);
    }
  }

  lemma {:induction false} SpaceEndHolds(s: string, i: nat)
    requires i <= |s|
    ensures SpaceRun(s, i, SpaceEnd(s, i))
    ensures SpaceEnd(s, i) < |s| ==> !IsSpace(s[SpaceEnd(s, i)])
    decreases |s| - i
  {
    if i < |s| && IsSpace(s[i]) {
      SpaceEndHolds(s, i + 1);
    }
  }

  lemma {:induction false} SpaceEndIs(s: string, i: nat, j: nat)
    requires SpaceRun(s, i, j) && (j < |s| ==> !IsSpace(s[j]))
    ensures SpaceEnd(s, i) == j
    decreases j - i
  {
    if i < j {
      SpaceEndIs(s, i + 1, j);
    }
  }

  /** A way to read a line: a key up to `k`, blanks up to `e`, an `=` sign, blanks up to
      `v`, and a value that does not start with a blank. */
  predicate Reading(line: string, k: nat, e: nat, v: nat) {
    && KeyRun(line, 0, k) && SpaceRun(line, k, e) && e < |line| && line[e] == '='
    && SpaceRun(line, e + 1, v) && (v < |line| ==> !IsSpace(line[v]))
  }

  /** Every way to read a line is the one the pattern takes. */
  lemma AttributeReads(line: string, k: nat, e: nat, v: nat)
    requires Reading(line, k, e, v)
    ensures Attribute(line) == Some(Attr(line[..k], line[v..]))
  {
    assert k < e ==> IsSpace(line[k]);
    KeyEndIs(line, 0, k);
    SpaceEndIs(line, k, e);
    SpaceEndIs(line, e + 1, v);
  }

  /** Conversely, whatever the pattern captures comes from such a reading. */
  lemma AttributeExplains(line: string) returns (k: nat, e: nat, v: nat)
    requires Attribute(line).Some?
    ensures Reading(line, k, e, v)
    ensures Attribute(line) == Some(Attr(line[..k], line[v..]))
  {
    k := KeyEnd(line, 0);
    e := SpaceEnd(line, k);
    v := SpaceEnd(line, e + 1);
    KeyEndHolds(line, 0);
    SpaceEndHolds(line, k);
    SpaceEndHolds(line, e + 1);
  }

  /** Letters, digits, `-` and `_` make a key, and blanks and tabs around the equals sign do
      not matter. */
  lemma SampleLine()
    ensures Attribute("Az-_09 \t=\t v w") == Some(Attr("Az-_09", "v w"))
  {
    var line := "Az-_09 \t=\t v w";
    AttributeReads(line, 6, 8, 11);
    assert line[..6] == "Az-_09" && line[11..] == "v w";
  }

  /** Any other character ends the match. */
  lemma SampleMismatches()
    ensures Attribute("a.b = c") == None && Attribute("# a = c") == None
  {
    KeyEndIs("a.b = c", 0, 1);
    SpaceEndIs("a.b = c", 1, 1);
    KeyEndIs("# a = c", 0, 0);
    SpaceEndIs("# a = c", 0, 0);
  }

  // ----- sections -------------------------------------------------------------

  datatype Line = Header(name: string) | Assignment(attr: Attr) | Other

  /** A header wins over an attribute; an attribute with an empty key counts for nothing. */
  function Classify(line: string): (r: Line) {
    var h, a := HeaderName(line), Attribute(line);
    if h.Some? then Header(h.value)
    else if a.Some? && a.value.key != "" then Assignment(a.value)
    else Other
  }

  /** The first bracket pair of a line names the section, whatever stands around it. */
  lemma BracketsAreHeader(line: string, i: nat, j: nat)
    requires HeaderMatch(line, i, j)
    requires Lacks(line[..i], '[') && Lacks(line[j + 1..], ']')
    ensures Classify(line) == Header(line[i + 1..j])
  {
    HeaderIsLeftmostLongest(line);
    assert forall x :: 0 <= x < i ==> line[x] == line[..i][x];
    assert forall x :: j < x < |line| ==> line[x] == line[j + 1..][x - j - 1];
  }

  datatype Section = Section(name: string, attrs: seq<Attr>)

  /** The section that is open gets one more attribute; without one it is ignored. */
  function Extend(secs: seq<Section>, a: Attr): (r: seq<Section>) {
    if secs == [] then []
    else
      var n := |secs| - 1;
      secs[..n] + [Section(secs[n].name, secs[n].attrs + [a])]
  }

  function NextSections(before: seq<Section>, line: Line): (secs: seq<Section>) {
    match line
    case Header(name) => before + [Section(name, [])]
    case Assignment(a) => Extend(before, a)
    case Other => before
  }

  /** Each header opens a section, which collects the attributes up to the next one. */
  function Sections(lines: seq<Line>): (secs: seq<Section>) {
    if lines == [] then [] else NextSections(Sections(lines[..|lines| - 1]), lines[|lines| - 1])
  }

  function ClassifyAll(lines: seq<string>): (ls: seq<Line>)
    ensures |ls| == |lines| && forall i :: 0 <= i < |ls| ==> ls[i] == Classify(lines[i])
  {
    seq(|lines|, i requires 0 <= i < |lines| => Classify(lines[i]))
  }

  /** The sections of a text. */
  function TextSections(text: string): (secs: seq<Section>) {
    Sections(ClassifyAll(Lines(text)))
  }

  // ----- values that survive printing --------------------------------------------

  /** A value that can be recovered from the middle of a line. */
  ghost predicate Readable(v: string) {
    Lacks(v, '\n') && !StartsBlank(v) && !HasBrackets(v)
  }

  predicate EndsWithCR(v: string) {
    v != [] && v[|v| - 1] == '\r'
  }

  lemma SuffixMatch(line: string, v: nat)
    requires v <= |line| && HasBrackets(line[v..])
    ensures HasBrackets(line)
  {
    var i, j :| HeaderMatch(line[v..], i, j);
    assert HeaderMatch(line, v + i, v + j);
  }

  lemma SuffixReadable(line: string, v: nat)
    requires Lacks(line, '\n') && HeaderName(line).None?
    requires v <= |line| && !StartsBlank(line[v..])
    ensures Readable(line[v..])
  {
    HeaderIsLeftmostLongest(line);
    if HasBrackets(line[v..]) {
      SuffixMatch(line, v);
    }
  }

  lemma ClassifiesAssignment(line: string, a: Attr)
    requires HeaderName(line).None? && Attribute(line) == Some(a) && a.key != ""
    ensures Classify(line) == Assignment(a)
  {
  }

  lemma ClassifiedAssignment(line: string)
    requires Classify(line).Assignment?
    ensures HeaderName(line).None? && Attribute(line) == Some(Classify(line).attr)
  {
  }

  /** Every value a line yields is readable. */
  lemma AttributeValueReadable(line: string)
    requires Lacks(line, '\n') && Classify(line).Assignment?
    ensures Readable(Classify(line).attr.value)
  {
    ClassifiedAssignment(line);
    var k, e, v := AttributeExplains(line);
    SuffixReadable(line, v);
  }

  ghost predicate AllReadable(secs: seq<Section>) {
    forall i, k :: 0 <= i < |secs| && 0 <= k < |secs[i].attrs| ==> Readable(secs[i].attrs[k].value)
  }

  lemma NextReadable(secs: seq<Section>, c: Line)
    requires AllReadable(secs) && (c.Assignment? ==> Readable(c.attr.value))
    ensures AllReadable(NextSections(secs, c))
  {
  }

  lemma {:induction false} SectionsReadable(lines: seq<Line>)
    requires forall i :: 0 <= i < |lines| && lines[i].Assignment? ==> Readable(lines[i].attr.value)
    ensures AllReadable(Sections(lines))
  {
    if lines != [] {
      var n := |lines| - 1;
      SectionsReadable(lines[..n]);
      NextReadable(Sections(lines[..n]), lines[n]);
    }
  }

  /** Whatever the text, its sections hold readable values only. */
  lemma TextSectionsReadable(text: string)
    ensures AllReadable(TextSections(text))
  {
    var lines := Lines(text);
    LinesHaveNoBreaks(text);
    var ls := ClassifyAll(lines);
    forall i | 0 <= i < |ls| && ls[i].Assignment? ensures Readable(ls[i].attr.value) {
      AttributeValueReadable(lines[i]);
    }
    SectionsReadable(ls);
  }
}
