/**
 * The T-SQL masking scanner. Characters stand for UTF-16 code units; the
 * scanner itself only looks at ASCII ones.
 */
module TsqlMask {
  import opened Wrappers

  // ---- the regions ---------------------------------------------------------

  predicate At(text: string, i: nat, a: char, b: char) {
    i + 1 < |text| && text[i] == a && text[i + 1] == b
  }

  predicate IsBreak(c: char) { c == '\n' || c == '\r' }

  function BlankChar(c: char): char { if IsBreak(c) then c else ' ' }

  /** Where a line comment ends: the line break itself is not part of it. */
  function LineEnd(text: string, i: nat): (r: nat)
    requires i <= |text|
    ensures i <= r <= |text|
    decreases |text| - i
  {
    if i == |text| || text[i] == '\n' then i else LineEnd(text, i + 1)
  }

  /** Where a block comment entered `depth` deep ends, and the depth left open there. */
  function CommentEnd(text: string, i: nat, depth: nat): (r: (nat, nat))
    requires i <= |text| && depth > 0
    ensures i <= r.0 <= |text| && (r.1 > 0 ==> r.0 == |text|)
    decreases |text| - i
  {
    if i == |text| then (i, depth)
    else if At(text, i, '/', '*') then CommentEnd(text, i + 2, depth + 1)
    else if At(text, i, '*', '/') then (if depth == 1 then (i + 2, 0) else CommentEnd(text, i + 2, depth - 1))
    else CommentEnd(text, i + 1, depth)
  }

  /** Where a quoted run ends, doubled closers being escapes, and whether it was closed. */
  function QuoteEnd(text: string, i: nat, close: char): (r: (nat, bool))
    requires i <= |text|
    ensures i <= r.0 <= |text| && (!r.1 ==> r.0 == |text|)
    decreases |text| - i
  {
    if i == |text| then (i, false)
    else if text[i] != close then QuoteEnd(text, i + 1, close)
    else if At(text, i, close, close) then QuoteEnd(text, i + 2, close)
    else (i + 1, true)
  }

  datatype Kind = BLOCK_COMMENT | STRING_LITERAL | QUOTED_IDENTIFIER

  /** A stretch to blank: where it ends, and what it is if it never closes. */
  datatype Region = Region(end: nat, unterminated: Option<Kind>)

  predicate IsQuote(c: char) { c == '\'' || c == '"' || c == '[' }

  function Closer(c: char): char { if c == '[' then ']' else c }

  function QuoteKind(c: char): Kind { if c == '\'' then STRING_LITERAL else QUOTED_IDENTIFIER }

  predicate Opens(text: string, i: nat)
    requires i < |text|
  {
    At(text, i, '-', '-') || At(text, i, '/', '*') || IsQuote(text[i])
  }

  /** The region that opens at `i`. */
  function RegionAt(text: string, i: nat): (r: Region)
    requires i < |text| && Opens(text, i)
    ensures i < r.end <= |text| && (r.unterminated.Some? ==> r.end == |text|)
  {
    if At(text, i, '-', '-') then Region(LineEnd(text, i + 1), None)
    else if At(text, i, '/', '*') then
      var (end, depth) := CommentEnd(text, i + 2, 1);
      assert depth > 0 ==> end == |text|;
      Region(end, if depth > 0 then Some(BLOCK_COMMENT) else None)
    else
      var (end, closed) := QuoteEnd(text, i + 1, Closer(text[i]));
      Region(end, if closed then None else Some(QuoteKind(text[i])))
  }

  /** Is offset `k` blanked by a scan that stands at `i`? */
  predicate Hidden(text: string, i: nat, k: nat)
    requires i <= |text|
    decreases |text| - i
  {
    if i == |text| then false
    else if !Opens(text, i) then Hidden(text, i + 1, k)
    else i <= k < RegionAt(text, i).end || Hidden(text, RegionAt(text, i).end, k)
  }

  function Mask(text: string): (m: string)
    ensures |m| == |text|
    ensures forall k :: 0 <= k < |text| ==> m[k] == if Hidden(text, 0, k) then BlankChar(text[k]) else text[k]
  {
    seq(|text|, k requires 0 <= k < |text| => if Hidden(text, 0, k) then BlankChar(text[k]) else text[k])
  }

  datatype Report = Report(start: nat, kind: Kind)

  /** The findings of a scan that stands at `i`. */
  function Reports(text: string, i: nat): seq<Report>
    requires i <= |text|
    decreases |text| - i
  {
    if i == |text| then []
    else if !Opens(text, i) then Reports(text, i + 1)
    else
      var region := RegionAt(text, i);
      (if region.unterminated.Some? then [Report(i, region.unterminated.value)] else []) + Reports(text, region.end)
  }

  // ---- the scanner ---------------------------------------------------------

  /** `blank(chars, start, end)`: spaces, but every line break kept. */
  method Blank(chars: array<char>, start: nat, end: nat)
    requires start <= end
    modifies chars
    ensures forall k :: 0 <= k < chars.Length ==>
      chars[k] == if start <= k < end then BlankChar(old(chars[k])) else old(chars[k])
  {
    var i := start;
    while i < end && i < chars.Length
      invariant start <= i <= end
      invariant forall k :: 0 <= k < chars.Length ==>
        chars[k] == if start <= k < i then BlankChar(old(chars[k])) else old(chars[k])
    {
      if !IsBreak(chars[i]) { chars[i] := ' '; }
      i := i + 1;
    }
  }

  /** `indexOfOrEnd(text, '\n', from)`. */
  method EndOfLine(text: string, from: nat) returns (i: nat)
    requires from <= |text|
    ensures i == LineEnd(text, from)
  {
    i := from;
    while i < |text| && text[i] != '\n'
      invariant from <= i <= |text| && LineEnd(text, i) == LineEnd(text, from)
    {
      i := i + 1;
    }
  }

  /** The nested-comment loop, from just before the first opener. */
  method EndOfComment(text: string, start: nat) returns (i: nat, depth: nat)
    requires At(text, start, '/', '*')
    ensures (i, depth) == CommentEnd(text, start + 2, 1)
  {
    i, depth := start, 0;
    while i < |text|
      invariant start <= i <= |text| && (depth == 0 ==> i == start)
      invariant depth > 0 ==> CommentEnd(text, i, depth) == CommentEnd(text, start + 2, 1)
      decreases |text| - i
    {
      if text[i] == '/' && i + 1 < |text| && text[i + 1] == '*' {
        depth := depth + 1;
        i := i + 2;
      } else if text[i] == '*' && i + 1 < |text| && text[i + 1] == '/' {
        depth := depth - 1;
        i := i + 2;
        if depth == 0 { return; }
      } else {
        i := i + 1;
      }
    }
  }

  method EndOfQuote(text: string, start: nat, close: char) returns (i: nat, closed: bool)
    requires start < |text|
    ensures (i, closed) == QuoteEnd(text, start + 1, close)
  {
    i, closed := start + 1, false;
    while i < |text|
      invariant start < i <= |text| && QuoteEnd(text, i, close) == QuoteEnd(text, start + 1, close)
    {
      if text[i] == close {
        if i + 1 < |text| && text[i + 1] == close {
          i := i + 2;
          continue;
        }
        i := i + 1;
        return i, true;
      }
      i := i + 1;
    }
  }

  /** The three branches of the loop, on text that opens a region at `i`. */
  method ScanRegion(text: string, i: nat) returns (end: nat, unterminated: Option<Kind>)
    requires i < |text| && Opens(text, i)
    ensures Region(end, unterminated) == RegionAt(text, i)
  {
    var c := text[i];
    unterminated := None;
    if c == '-' && i + 1 < |text| && text[i + 1] == '-' {
      end := EndOfLine(text, i + 1);
    } else if c == '/' && i + 1 < |text| && text[i + 1] == '*' {
      var depth;
      end, depth := EndOfComment(text, i);
      if depth > 0 { unterminated := Some(BLOCK_COMMENT); }
    } else {
      var close := if c == '[' then ']' else c;
      var closed;
      end, closed := EndOfQuote(text, i, close);
      if !closed { unterminated := Some(if c == '\'' then STRING_LITERAL else QUOTED_IDENTIFIER); }
    }
  }

  /** `chars` is the text with everything the scan hid before `i` blanked. */
  ghost predicate BlankedTo(text: string, chars: seq<char>, i: nat)
    requires i <= |text| == |chars|
  {
    && (forall k :: i <= k < |text| ==> chars[k] == text[k])
    && (forall k :: 0 <= k < i ==> chars[k] == if Hidden(text, 0, k) then BlankChar(text[k]) else text[k])
    && (forall k :: i <= k < |text| ==> Hidden(text, 0, k) == Hidden(text, i, k))
  }

  lemma BlankedPast(text: string, chars: seq<char>, i: nat, end: nat, after: seq<char>)
    requires i < |text| == |chars| && BlankedTo(text, chars, i)
    requires end == if Opens(text, i) then RegionAt(text, i).end else i + 1
    requires |after| == |text| && forall k :: 0 <= k < |text| ==>
      after[k] == if Opens(text, i) && i <= k < end then BlankChar(chars[k]) else chars[k]
    ensures BlankedTo(text, after, end)
  {
    HiddenStep(text, i, end);
  }

  lemma ReportsStep(text: string, i: nat)
    requires i < |text|
    ensures Reports(text, i) ==
      if !Opens(text, i) then Reports(text, i + 1)
      else
        var region := RegionAt(text, i);
        (if region.unterminated.Some? then [Report(i, region.unterminated.value)] else []) + Reports(text, region.end)
  {}

  lemma NoReports(text: string)
    ensures Reports(text, |text|) == []
  {}

  method Scan(text: string) returns (masked: string, reports: seq<Report>)
    ensures masked == Mask(text)
    ensures reports == Reports(text, 0)
  {
    hide Hidden, RegionAt, Opens, Reports;
    var chars := new char[|text|](k requires 0 <= k < |text| => text[k]);
    reports := [];
    var i: nat := 0;
    while i < |text|
      invariant i <= |text| == chars.Length
      invariant BlankedTo(text, chars[..], i)
      invariant reports + Reports(text, i) == Reports(text, 0)
    {
      ghost var before, at := chars[..], i;
      ReportsStep(text, i);
      if Opens(text, i) {
        var end, unterminated := ScanRegion(text, i);
        Blank(chars, i, end);
        if unterminated.Some? { reports := reports + [Report(i, unterminated.value)]; }
        i := end;
      } else {
        i := i + 1;
      }
      BlankedPast(text, before, at, i, chars[..]);
    }
    masked := chars[..];
    NoReports(text);
  }

  // ---- what the mask looks like --------------------------------------------

  /** A scan decides nothing about what is already behind it. */
  lemma {:induction false} HiddenAhead(text: string, i: nat, k: nat)
    requires k < i <= |text|
    ensures !Hidden(text, i, k)
    decreases |text| - i
  {
    if i < |text| {
      if !Opens(text, i) { HiddenAhead(text, i + 1, k); } else { HiddenAhead(text, RegionAt(text, i).end, k); }
    }
  }

  lemma HiddenStep(text: string, i: nat, end: nat)
    requires i < |text| && end == if Opens(text, i) then RegionAt(text, i).end else i + 1
    ensures forall k :: i <= k < end ==> Hidden(text, i, k) == Opens(text, i)
    ensures forall k :: end <= k < |text| ==> Hidden(text, i, k) == Hidden(text, end, k)
  {
    forall k | i <= k < end ensures Hidden(text, i, k) == Opens(text, i) { HiddenAhead(text, end, k); }
  }

  /** What stays visible was looked at as code, so nothing opens there. */
  lemma {:induction false} VisibleIsCode(text: string, i: nat, k: nat)
    requires i <= k < |text| && !Hidden(text, i, k)
    ensures !Opens(text, k)
    decreases |text| - i
  {
    if Opens(text, i) {
      VisibleIsCode(text, RegionAt(text, i).end, k);
    } else if i < k {
      VisibleIsCode(text, i + 1, k);
    }
  }

  /** Nothing the scanner reacts to starts anywhere in `s`. */
  ghost predicate NothingOpens(s: string) {
    forall k :: 0 <= k < |s| ==> !Opens(s, k)
  }

  /** No quote, square bracket, line or block comment is left to be seen in the mask. */
  lemma MaskIsClean(text: string)
    ensures NothingOpens(Mask(text))
  {
    var m := Mask(text);
    forall k | 0 <= k < |m| ensures !Opens(m, k) {
      if !Hidden(text, 0, k) { VisibleIsCode(text, 0, k); }
    }
  }

  /** Length and line breaks are kept; every character is kept or made a space. */
  lemma MaskKeepsShape(text: string)
    ensures |Mask(text)| == |text|
    ensures forall k :: 0 <= k < |text| ==> Mask(text)[k] == text[k] || Mask(text)[k] == ' '
    ensures forall k :: 0 <= k < |text| ==> (IsBreak(text[k]) <==> IsBreak(Mask(text)[k]))
    ensures forall k :: 0 <= k < |text| && IsBreak(text[k]) ==> Mask(text)[k] == text[k]
  {}

  lemma {:induction false} CleanIsUntouched(s: string, i: nat)
    requires NothingOpens(s) && i <= |s|
    ensures Reports(s, i) == [] && forall k :: 0 <= k < |s| ==> !Hidden(s, i, k)
    decreases |s| - i
  {
    if i < |s| { CleanIsUntouched(s, i + 1); }
  }

  /** Scanning the mask again changes nothing and reports nothing. */
  lemma MaskIsFixpoint(text: string)
    ensures Mask(Mask(text)) == Mask(text) && Reports(Mask(text), 0) == []
  {
    MaskIsClean(text);
    CleanIsUntouched(Mask(text), 0);
  }

  lemma {:induction false} AtMostOneReport(text: string, i: nat)
    requires i <= |text|
    ensures |Reports(text, i)| <= 1
    ensures |Reports(text, i)| == 1 ==>
      var r := Reports(text, i)[0];
      && i <= r.start < |text| && Opens(text, r.start)
      && RegionAt(text, r.start) == Region(|text|, Some(r.kind))
    decreases |text| - i
  {
    if i < |text| {
      if !Opens(text, i) {
        AtMostOneReport(text, i + 1);
      } else if RegionAt(text, i).unterminated.None? {
        AtMostOneReport(text, RegionAt(text, i).end);
      }
    }
  }
}
