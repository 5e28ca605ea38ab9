/** The text handling the parsers rely on: line scanning, splitting and joining, and
    decimal numbers, as Go's bufio, strings, fmt and strconv packages do it. */
module GoText {
  import opened GoInts
  import opened Outcomes
  import opened Sequences

  // ----- searching ------------------------------------------------------------

  predicate Lacks(s: string, c: char) {
    forall i :: 0 <= i < |s| ==> s[i] != c
  }

  /** The first position of `c`, or the length of the text. */
  function Find(s: string, c: char): (k: nat)
    ensures k <= |s|
  {
    if s == [] then 0
    else if s[0] == c then 0
    else 1 + Find(s[1..], c)
  }

  lemma {:induction false} FindIsFirst(s: string, c: char)
    ensures Lacks(s[..Find(s, c)], c)
    ensures Find(s, c) < |s| ==> s[Find(s, c)] == c
    ensures Lacks(s, c) <==> Find(s, c) == |s|
  {
    if s != [] && s[0] != c {
      FindIsFirst(s[1..], c);
      var k := Find(s[1..], c);
      forall i | 0 <= i < 1 + k ensures s[i] != c {
        if i > 0 {
          assert s[1..][..k][i - 1] == s[i];
        }
      }
      if Lacks(s[1..], c) {
        forall i | 0 <= i < |s| ensures s[i] != c {
          if i > 0 {
            assert s[1..][i - 1] == s[i];
          }
        }
      }
    }
  }

  lemma {:induction false} FindSplits(a: string, c: char, b: string)
    requires Lacks(a, c)
    ensures Find(a + ([c] + b), c) == |a|
  {
    if a == [] {
      assert a + ([c] + b) == [c] + b;
    } else {
      FindSplits(a[1..], c, b);
      assert (a + ([c] + b))[1..] == a[1..] + ([c] + b);
    }
  }

  // ----- lines ------------------------------------------------------------------

  /** A line end may be preceded by one carriage return, which is not part of the line. */
  function DropCR(line: string): (r: string) {
    if line != [] && line[|line| - 1] == '\r' then line[..|line| - 1] else line
  }

  /** The lines of a text; an unterminated last line counts unless it is empty. */
  function Lines(text: string): (ls: seq<string>)
    decreases |text|
  {
    if text == [] then []
    else
      var k := Find(text, '\n');
      if k == |text| then [DropCR(text)] else [DropCR(text[..k])] + Lines(text[k + 1..])
  }

  lemma {:induction false} LinesCons(line: string, rest: string)
    requires Lacks(line, '\n')
    ensures Lines(line + ("\n" + rest)) == [DropCR(line)] + Lines(rest)
  {
    var text := line + ("\n" + rest);
    FindSplits(line, '\n', rest);
    assert text[..|line|] == line && text[|line| + 1..] == rest;
  }

  lemma {:induction false} LinesHaveNoBreaks(text: string)
    ensures forall i :: 0 <= i < |Lines(text)| ==> Lacks(Lines(text)[i], '\n')
    decreases |text|
  {
    if text != [] {
      FindIsFirst(text, '\n');
      var k := Find(text, '\n');
      if k < |text| {
        LinesHaveNoBreaks(text[k + 1..]);
      }
    }
  }

  // ----- lines and texts -------------------------------------------------------------

  /** Lines, each followed by a line break. */
  function Unlines(ls: seq<string>): (text: string) {
    if ls == [] then "" else Unlines(ls[..|ls| - 1]) + (ls[|ls| - 1] + "\n")
  }

  lemma UnlinesSnoc(ls: seq<string>, line: string)
    ensures Unlines(ls + [line]) == Unlines(ls) + (line + "\n")
  {
  }

  function Dropped(ls: seq<string>): (r: seq<string>)
    ensures |r| == |ls| && forall i :: 0 <= i < |ls| ==> r[i] == DropCR(ls[i])
  {
    seq(|ls|, i requires 0 <= i < |ls| => DropCR(ls[i]))
  }

  lemma DroppedSnoc(ls: seq<string>, line: string, rest: seq<string>)
    ensures Dropped(ls) + ([DropCR(line)] + rest) == Dropped(ls + [line]) + rest
  {
  }

  /** Scanning undoes joining lines, up to carriage returns at line ends. */
  lemma {:induction false} LinesOfUnlines(ls: seq<string>, rest: string)
    requires forall i :: 0 <= i < |ls| ==> Lacks(ls[i], '\n')
    ensures Lines(Unlines(ls) + rest) == Dropped(ls) + Lines(rest)
    decreases |ls|
  {
    if ls == [] {
      assert Unlines(ls) + rest == rest;
    } else {
      var n := |ls| - 1;
      var init, line := ls[..n], ls[n];
      Assoc(line, "\n", rest);
      Assoc(Unlines(init), line + "\n", rest);
      LinesOfUnlines(init, line + ("\n" + rest));
      LinesCons(line, rest);
      DroppedSnoc(init, line, Lines(rest));
      assert ls == init + [line];
    }
  }

  /** Texts of lines add up, and one line is its text and a line break. */
  lemma {:induction false} UnlinesConcat(a: seq<string>, b: seq<string>)
    ensures Unlines(a + b) == Unlines(a) + Unlines(b)
    decreases |b|
  {
    if b == [] {
      assert a + b == a;
    } else {
      var n := |b| - 1;
      UnlinesConcat(a, b[..n]);
      assert b == b[..n] + [b[n]] && a + b == (a + b[..n]) + [b[n]];
      UnlinesSnoc(a + b[..n], b[n]);
      UnlinesSnoc(b[..n], b[n]);
      Assoc(Unlines(a), Unlines(b[..n]), b[n] + "\n");
    }
  }

  lemma UnlinesOne(line: string)
    ensures Unlines([line]) == line + "\n"
  {
    UnlinesSnoc([], line);
    assert [] + [line] == [line];
  }

  /** A text that is written line by line is scanned line by line. */
  lemma LinesOfText(ls: seq<string>)
    requires forall i :: 0 <= i < |ls| ==> Lacks(ls[i], '\n') && DropCR(ls[i]) == ls[i]
    ensures Lines(Unlines(ls)) == ls
  {
    LinesOfUnlines(ls, "");
    assert Unlines(ls) + "" == Unlines(ls);
    assert Dropped(ls) + [] == ls;
  }

  /** A non-empty text without line break is one line, terminated or not. */
  lemma OneLine(text: string)
    requires text != "" && Lacks(text, '\n')
    ensures Lines(text) == [DropCR(text)] && Lines(text + "\n") == [DropCR(text)]
  {
    FindIsFirst(text, '\n');
    LinesCons(text, "");
    assert text + ("\n" + "") == text + "\n";
  }

  /** A line break at the end of a text changes nothing, unless there is one already. */
  lemma {:induction false} FinalBreak(text: string)
    requires text != "" && text[|text| - 1] != '\n'
    ensures Lines(text + "\n") == Lines(text)
    decreases |text|
  {
    FindIsFirst(text, '\n');
    var k := Find(text, '\n');
    if k == |text| {
      OneLine(text);
    } else {
      var line, rest := text[..k], text[k + 1..];
      assert text == line + ("\n" + rest);
      assert rest != "" && rest[|rest| - 1] == text[|text| - 1];
      FinalBreak(rest);
      LinesCons(line, rest);
      LinesCons(line, rest + "\n");
      assert text + "\n" == line + ("\n" + (rest + "\n"));
    }
  }

  // ----- splitting ----------------------------------------------------------------

  function Split(s: string, c: char): (parts: seq<string>)
    ensures |parts| > 0
    decreases |s|
  {
    var k := Find(s, c);
    if k == |s| then [s] else [s[..k]] + Split(s[k + 1..], c)
  }

  function Join(parts: seq<string>, c: char): (s: string) {
    if parts == [] then ""
    else if |parts| == 1 then parts[0]
    else parts[0] + ([c] + Join(parts[1..], c))
  }

  /** Joining puts one separator between any two lists, and nothing around a single part. */
  lemma {:induction false} JoinConcat(a: seq<string>, b: seq<string>, c: char)
    requires a != [] && b != []
    ensures Join(a + b, c) == Join(a, c) + ([c] + Join(b, c))
    ensures Join([a[0]], c) == a[0]
  {
    assert (a + b)[1..] == a[1..] + b;
    if |a| == 1 {
      assert a[1..] + b == b;
    } else {
      JoinConcat(a[1..], b, c);
    }
  }

  predicate Free(parts: seq<string>, c: char) {
    forall i :: 0 <= i < |parts| ==> Lacks(parts[i], c)
  }

  lemma {:induction false} SplitIsFree(s: string, c: char)
    ensures Free(Split(s, c), c)
    decreases |s|
  {
    FindIsFirst(s, c);
    var k := Find(s, c);
    if k < |s| {
      SplitIsFree(s[k + 1..], c);
    }
  }

  lemma {:induction false} SplitCons(a: string, c: char, b: string)
    requires Lacks(a, c)
    ensures Split(a + ([c] + b), c) == [a] + Split(b, c)
  {
    FindSplits(a, c, b);
    var s := a + ([c] + b);
    assert s[..|a|] == a && s[|a| + 1..] == b;
  }

  lemma {:induction false} SplitOfJoin(parts: seq<string>, c: char)
    requires parts != [] && Free(parts, c)
    ensures Split(Join(parts, c), c) == parts
  {
    if |parts| == 1 {
      FindIsFirst(parts[0], c);
    } else {
      SplitOfJoin(parts[1..], c);
      SplitCons(parts[0], c, Join(parts[1..], c));
      assert parts == [parts[0]] + parts[1..];
    }
  }

  /** Splitting undoes joining if and only if no part contains the separator. */
  lemma SplitUndoesJoin(parts: seq<string>, c: char)
    requires parts != []
    ensures Split(Join(parts, c), c) == parts <==> Free(parts, c)
  {
    SplitIsFree(Join(parts, c), c);
    if Free(parts, c) {
      SplitOfJoin(parts, c);
    }
  }

  // ----- decimal numbers --------------------------------------------------------

  predicate IsDigit(c: char) {
    '0' <= c <= '9'
  }

  predicate AllDigits(s: string) {
    forall i :: 0 <= i < |s| ==> IsDigit(s[i])
  }

  function Digit(d: nat): (c: char)
    requires d < 10
    ensures IsDigit(c)
  {
    ('0' as int + d) as char
  }

  function DigitsOf(n: nat): (s: string)
    ensures s != [] && AllDigits(s)
  {
    if n < 10 then [Digit(n)] else DigitsOf(n / 10) + [Digit(n % 10)]
  }

  function PrintInt(n: int): (s: string) {
    if n < 0 then "-" + DigitsOf(-n) else DigitsOf(n)
  }

  function ValueOf(s: string): (n: nat)
    requires AllDigits(s)
  {
    if s == [] then 0
    else
      var c := s[|s| - 1];
      assert IsDigit(c);
      10 * ValueOf(s[..|s| - 1]) + (c as int - '0' as int)
  }

  function Signed(negative: bool, digits: string): (r: Option<int64>) {
    if digits == [] || !AllDigits(digits) then None
    else
      var v: int := ValueOf(digits);
      var n := if negative then -v else v;
      if IsInt64(n) then Some(n) else None
  }

  /** Base-10 `strconv.ParseInt` for 64 bits, and `strconv.Atoi` on a 64-bit machine:
      an optional sign, at least one digit, nothing else, and no overflow. */
  function ParseInt64(s: string): (r: Option<int64>) {
    if s != [] && (s[0] == '-' || s[0] == '+') then Signed(s[0] == '-', s[1..]) else Signed(false, s)
  }

  function Pow10(n: nat): (p: nat) {
    if n == 0 then 1 else 10 * Pow10(n - 1)
  }

  lemma ValueSnoc(s: string, d: nat)
    requires AllDigits(s) && d < 10
    ensures AllDigits(s + [Digit(d)]) && ValueOf(s + [Digit(d)]) == 10 * ValueOf(s) + d
  {
    assert (s + [Digit(d)])[..|s|] == s;
  }

  /** Digits count by their place. */
  lemma {:induction false} PlaceValue(a: string, b: string)
    requires AllDigits(a) && AllDigits(b)
    ensures AllDigits(a + b) && ValueOf(a + b) == ValueOf(a) * Pow10(|b|) + ValueOf(b)
    decreases |b|
  {
    if b == [] {
      assert a + b == a;
    } else {
      var n := |b| - 1;
      var d := b[n] as int - '0' as int;
      assert IsDigit(b[n]) && b[n] == Digit(d);
      assert b == b[..n] + [Digit(d)] && a + b == (a + b[..n]) + [Digit(d)];
      PlaceValue(a, b[..n]);
      ValueSnoc(b[..n], d);
      ValueSnoc(a + b[..n], d);
      Tenfold(ValueOf(a), n);
    }
  }

  lemma Tenfold(v: nat, n: nat)
    ensures v * Pow10(n + 1) == 10 * (v * Pow10(n))
  {
  }

  /** A printed number has no leading zero, except zero itself. */
  lemma {:induction false} NoLeadingZero(n: nat)
    requires n > 0
    ensures DigitsOf(n)[0] != '0'
  {
    if n >= 10 {
      NoLeadingZero(n / 10);
    }
  }

  /** A sign may precede the digits; anything else that is not a digit is an error. */
  lemma NumberSyntax(s: string, i: nat)
    requires i < |s|
    ensures AllDigits(s) ==> ParseInt64("+" + s) == ParseInt64(s)
    ensures !IsDigit(s[i]) && (i > 0 || (s[i] != '-' && s[i] != '+')) ==> ParseInt64(s).None?
    ensures ParseInt64("").None? && ParseInt64("+").None? && ParseInt64("-").None?
  {
    assert ("+" + s)[1..] == s;
    if i > 0 {
      assert s[1..][i - 1] == s[i];
    }
    assert "+"[1..] == "" && "-"[1..] == "";
  }

  lemma {:induction false} ValueOfDigits(n: nat)
    ensures ValueOf(DigitsOf(n)) == n
  {
    if n >= 10 {
      ValueOfDigits(n / 10);
      assert DigitsOf(n)[..|DigitsOf(n)| - 1] == DigitsOf(n / 10);
    }
  }

  lemma {:induction false} SignedDigits(negative: bool, n: nat)
    ensures Signed(negative, DigitsOf(n)) ==
            var v := if negative then 0 - n else n;
            if IsInt64(v) then Some(v) else None
  {
    ValueOfDigits(n);
  }

  /** A printed number reads back as itself if and only if it fits in 64 bits. */
  lemma {:induction false} ParseOfPrint(n: int)
    ensures ParseInt64(PrintInt(n)) == if IsInt64(n) then Some(n) else None
  {
    var s := PrintInt(n);
    if n < 0 {
      assert s[0] == '-' && s[1..] == DigitsOf(-n);
      SignedDigits(true, -n);
    } else {
      assert IsDigit(s[0]);
      SignedDigits(false, n);
    }
  }
}
