/** Text bodies: line endings, trailing blanks and trailing blank lines do not count. */
module TextNormalise {
  import opened Strings
  import opened Utf16

  const TAB: Unit := 9
  const LF: Unit := 10
  const CR: Unit := 13
  const SPACE: Unit := 32

  // ---- the pipeline --------------------------------------------------------

  /** `replaceAll('\r\n', '\n')`. */
  function ReplaceCrLf(s: Text): Text {
    if s == [] then []
    else if |s| >= 2 && s[0] == CR && s[1] == LF then [LF] + ReplaceCrLf(s[2..])
    else [s[0]] + ReplaceCrLf(s[1..])
  }

  /** `replaceAll('\r', '\n')`. */
  function ReplaceCr(s: Text): Text {
    if s == [] then [] else [if s[0] == CR then LF else s[0]] + ReplaceCr(s[1..])
  }

  predicate IsBlank(c: Unit) { c == SPACE || c == TAB }

  /** `line.replace(/[ \t]+$/, '')`. */
  function Strip(line: Text): Text {
    if line != [] && IsBlank(line[|line| - 1]) then Strip(line[..|line| - 1]) else line
  }

  function StripAll(lines: seq<Text>): (r: seq<Text>)
    ensures |r| == |lines| && forall i :: 0 <= i < |r| ==> r[i] == Strip(lines[i])
  {
    if lines == [] then [] else [Strip(lines[0])] + StripAll(lines[1..])
  }

  /** `join('\n')`. */
  function Join(lines: seq<Text>): Text {
    if lines == [] then []
    else if |lines| == 1 then lines[0]
    else lines[0] + [LF] + Join(lines[1..])
  }

  /** `replace(/\n+$/, '')`. */
  function DropTrailingBreaks(s: Text): Text {
    if s != [] && s[|s| - 1] == LF then DropTrailingBreaks(s[..|s| - 1]) else s
  }

  function NormaliseText(s: Text): Text {
    DropTrailingBreaks(Join(StripAll(Split<Unit>(ReplaceCr(ReplaceCrLf(s)), LF))))
  }

  // ---- what the text means -------------------------------------------------

  /** The lines of a text, ended by CRLF, CR or LF. */
  function Lines(s: Text): (lines: seq<Text>)
    ensures |lines| >= 1
  {
    if s == [] then [[]]
    else if |s| >= 2 && s[0] == CR && s[1] == LF then [[]] + Lines(s[2..])
    else if s[0] == CR || s[0] == LF then [[]] + Lines(s[1..])
    else
      var rest := Lines(s[1..]);
      [[s[0]] + rest[0]] + rest[1..]
  }

  /** What stands on line `i`, trailing blanks aside; nothing beyond the last line. */
  function LineAt(s: Text, i: nat): Text {
    if i < |Lines(s)| then Strip(Lines(s)[i]) else []
  }

  /** The two texts read the same, line by line. */
  ghost predicate SameText(a: Text, b: Text) {
    forall i: nat :: LineAt(a, i) == LineAt(b, i)
  }

  // ---- the pipeline reads the lines ----------------------------------------

  lemma {:induction false} PipelineLines(s: Text)
    ensures Split<Unit>(ReplaceCr(ReplaceCrLf(s)), LF) == Lines(s)
  {
    if s != [] {
      var t := ReplaceCrLf(s);
      if |s| >= 2 && s[0] == CR && s[1] == LF {
        PipelineLines(s[2..]);
        assert t[1..] == ReplaceCrLf(s[2..]);
        assert ReplaceCr(t) == [LF] + ReplaceCr(t[1..]);
        assert ReplaceCr(t)[1..] == ReplaceCr(t[1..]);
      } else {
        PipelineLines(s[1..]);
        assert t[1..] == ReplaceCrLf(s[1..]);
        assert ReplaceCr(t)[1..] == ReplaceCr(t[1..]);
      }
    }
  }

  predicate NoBreaks(line: Text) {
    forall k :: 0 <= k < |line| ==> line[k] != LF && line[k] != CR
  }

  ghost predicate Unbroken(lines: seq<Text>) {
    forall i :: 0 <= i < |lines| ==> NoBreaks(lines[i])
  }

  lemma {:induction false} LinesAreUnbroken(s: Text)
    ensures Unbroken(Lines(s))
  {
    if s != [] {
      if |s| >= 2 && s[0] == CR && s[1] == LF { LinesAreUnbroken(s[2..]); } else { LinesAreUnbroken(s[1..]); }
    }
  }

  lemma {:induction false} StripTwice(line: Text)
    ensures Strip(Strip(line)) == Strip(line)
    ensures NoBreaks(line) ==> NoBreaks(Strip(line))
  {
    if line != [] && IsBlank(line[|line| - 1]) { StripTwice(line[..|line| - 1]); }
  }

  /** Trailing empty lines dropped. */
  function Trim(lines: seq<Text>): (r: seq<Text>)
    ensures |r| <= |lines| && r == lines[..|r|]
    ensures r != [] ==> r[|r| - 1] != []
    ensures forall i :: |r| <= i < |lines| ==> lines[i] == []
  {
    if lines != [] && lines[|lines| - 1] == [] then Trim(lines[..|lines| - 1]) else lines
  }

  lemma {:induction false} JoinSnoc(lines: seq<Text>, last: Text)
    ensures Join(lines + [last]) == if lines == [] then last else Join(lines) + [LF] + last
  {
    if lines == [] {
      assert lines + [last] == [last];
    } else {
      assert (lines + [last])[1..] == lines[1..] + [last];
      JoinSnoc(lines[1..], last);
    }
  }

  lemma {:induction false} DropOnUnended(s: Text)
    requires s == [] || s[|s| - 1] != LF
    ensures DropTrailingBreaks(s) == s
  {}

  lemma DropOnEnded(s: Text)
    ensures DropTrailingBreaks(s + [LF]) == DropTrailingBreaks(s)
  {
    assert (s + [LF])[..|s|] == s;
  }

  /** Dropping trailing breaks from the joined text is dropping trailing empty lines. */
  lemma {:induction false} DropIsTrim(lines: seq<Text>)
    requires Unbroken(lines)
    ensures DropTrailingBreaks(Join(lines)) == Join(Trim(lines))
  {
    if lines != [] {
      var init, last := lines[..|lines| - 1], lines[|lines| - 1];
      assert lines == init + [last];
      JoinSnoc(init, last);
      if last == [] {
        DropIsTrim(init);
        if init != [] {
          assert Join(lines) == Join(init) + [LF];
          DropOnEnded(Join(init));
        }
      } else {
        assert Join(lines)[|Join(lines)| - 1] == last[|last| - 1];
        DropOnUnended(Join(lines));
      }
    }
  }

  lemma NormalForm(s: Text)
    ensures NormaliseText(s) == Join(Trim(StripAll(Lines(s))))
    ensures Unbroken(StripAll(Lines(s)))
  {
    PipelineLines(s);
    LinesAreUnbroken(s);
    var lines := StripAll(Lines(s));
    forall i | 0 <= i < |lines| ensures NoBreaks(lines[i]) { StripTwice(Lines(s)[i]); }
    DropIsTrim(lines);
  }

  // ---- equal results mean equal texts --------------------------------------

  lemma {:induction false} LinesOfOne(line: Text)
    requires NoBreaks(line)
    ensures Lines(line) == [line]
  {
    if line != [] {
      LinesOfOne(line[1..]);
      assert line == [line[0]] + line[1..];
    }
  }

  lemma {:induction false} LinesOfMore(line: Text, rest: Text)
    requires NoBreaks(line)
    ensures Lines(line + [LF] + rest) == [line] + Lines(rest)
  {
    var s := line + [LF] + rest;
    if line == [] {
      assert s[1..] == rest;
    } else {
      LinesOfMore(line[1..], rest);
      assert s[1..] == line[1..] + [LF] + rest;
      assert line == [line[0]] + line[1..];
    }
  }

  lemma {:induction false} LinesOfJoin(lines: seq<Text>)
    requires Unbroken(lines) && lines != []
    ensures Lines(Join(lines)) == lines
  {
    if |lines| == 1 {
      LinesOfOne(lines[0]);
    } else {
      LinesOfJoin(lines[1..]);
      LinesOfMore(lines[0], Join(lines[1..]));
      assert lines == [lines[0]] + lines[1..];
    }
  }

  lemma KeptLines(s: Text)
    ensures var kept := Trim(StripAll(Lines(s)));
            Lines(NormaliseText(s)) == if kept == [] then [[]] else kept
  {
    NormalForm(s);
    var kept := Trim(StripAll(Lines(s)));
    if kept == [] { LinesOfOne([]); } else { LinesOfJoin(kept); }
  }

  lemma LineOfKept(s: Text, t: Text, kept: seq<Text>, i: nat)
    requires kept == Trim(StripAll(Lines(s))) && Lines(t) == if kept == [] then [[]] else kept
    ensures LineAt(t, i) == LineAt(s, i)
  {
    if i < |kept| { StripTwice(Lines(s)[i]); }
  }

  /** Normalising changes no line of the text, and leaves none to strip. */
  lemma NormaliseKeepsText(s: Text)
    ensures SameText(NormaliseText(s), s)
  {
    forall i: nat ensures LineAt(NormaliseText(s), i) == LineAt(s, i) {
      KeptLines(s);
      LineOfKept(s, NormaliseText(s), Trim(StripAll(Lines(s))), i);
    }
  }

  function Nth(lines: seq<Text>, i: nat): Text {
    if i < |lines| then lines[i] else []
  }

  lemma LineAtTrimmed(s: Text, i: nat)
    ensures LineAt(s, i) == Nth(Trim(StripAll(Lines(s))), i)
  {}

  lemma TrimmedEqual(s: seq<Text>, t: seq<Text>)
    requires (s != [] ==> s[|s| - 1] != []) && (t != [] ==> t[|t| - 1] != [])
    requires forall i: nat :: Nth(s, i) == Nth(t, i)
    ensures s == t
  {
    assert (t != [] ==> Nth(t, |t| - 1) != []) && (s != [] ==> Nth(s, |s| - 1) != []);
    assert |s| == |t|;
    forall i | 0 <= i < |s| ensures s[i] == t[i] { assert Nth(s, i) == Nth(t, i); }
  }

  lemma SameTextSameLines(a: Text, b: Text)
    requires SameText(a, b)
    ensures Trim(StripAll(Lines(a))) == Trim(StripAll(Lines(b)))
  {
    var s, t := Trim(StripAll(Lines(a))), Trim(StripAll(Lines(b)));
    forall i: nat ensures Nth(s, i) == Nth(t, i) {
      LineAtTrimmed(a, i);
      LineAtTrimmed(b, i);
      assert LineAt(a, i) == LineAt(b, i);
    }
    TrimmedEqual(s, t);
  }

  /** Two texts normalise alike exactly when they read the same. */
  lemma NormaliseDecides(a: Text, b: Text)
    ensures NormaliseText(a) == NormaliseText(b) <==> SameText(a, b)
  {
    NormalForm(a);
    NormalForm(b);
    if SameText(a, b) { SameTextSameLines(a, b); }
    if NormaliseText(a) == NormaliseText(b) {
      NormaliseKeepsText(a);
      NormaliseKeepsText(b);
      forall i: nat ensures LineAt(a, i) == LineAt(b, i) {
        assert LineAt(NormaliseText(a), i) == LineAt(a, i);
        assert LineAt(NormaliseText(b), i) == LineAt(b, i);
      }
    }
  }

  lemma NormaliseTwice(s: Text)
    ensures NormaliseText(NormaliseText(s)) == NormaliseText(s)
  {
    NormaliseKeepsText(s);
    NormaliseDecides(NormaliseText(s), s);
  }
}
