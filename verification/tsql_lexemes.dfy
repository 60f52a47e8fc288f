/** The regions the scanner blanks are the lexemes of T-SQL, described without the scanner. */
module TsqlLexemes {
  import opened Wrappers
  import opened TsqlMask

  // ---- block comments ------------------------------------------------------

  /** The inside of a comment: plain characters and whole comments, in order. */
  datatype Nest = End | Chr(c: char, rest: Nest) | Sub(inner: Nest, rest: Nest)

  function Size(p: Nest): nat {
    match p
    case End => 0
    case Chr(_, rest) => 1 + Size(rest)
    case Sub(inner, rest) => 4 + Size(inner) + Size(rest)
  }

  /** The text at `i` spells `p`; a character that begins a delimiter is never plain. */
  predicate Spells(text: string, i: nat, p: Nest)
    decreases p
  {
    match p
    case End => i <= |text|
    case Chr(c, rest) =>
      i < |text| && text[i] == c && !At(text, i, '/', '*') && !At(text, i, '*', '/') && Spells(text, i + 1, rest)
    case Sub(inner, rest) =>
      At(text, i, '/', '*') && Spells(text, i + 2, inner) && At(text, i + 2 + Size(inner), '*', '/') &&
      Spells(text, i + 4 + Size(inner), rest)
  }

  /** `text[i..e]` is one block comment, nested comments properly closed inside it. */
  ghost predicate IsBlockComment(text: string, i: nat, e: nat) {
    exists p ::
      At(text, i, '/', '*') && Spells(text, i + 2, p) && At(text, i + 2 + Size(p), '*', '/') && e == i + 4 + Size(p)
  }

  lemma StepInto(text: string, i: nat, depth: nat)
    requires i < |text| && depth > 0
    ensures At(text, i, '/', '*') ==>
              i + 2 <= |text| && CommentEnd(text, i, depth) == CommentEnd(text, i + 2, depth + 1)
    ensures At(text, i, '*', '/') ==>
              i + 2 <= |text| &&
              CommentEnd(text, i, depth) == if depth > 1 then CommentEnd(text, i + 2, depth - 1) else (i + 2, 0)
    ensures !At(text, i, '/', '*') && !At(text, i, '*', '/') ==>
              CommentEnd(text, i, depth) == CommentEnd(text, i + 1, depth)
  {}

  lemma {:induction false} PastSub(text: string, i: nat, inside: nat, depth: nat)
    requires depth > 0 && i + 2 <= inside <= |text| && At(text, i, '/', '*') && At(text, inside, '*', '/')
    requires CommentEnd(text, i + 2, depth + 1) == CommentEnd(text, inside, depth + 1)
    ensures inside + 2 <= |text| && CommentEnd(text, i, depth) == CommentEnd(text, inside + 2, depth)
  {
    StepInto(text, i, depth);
    StepInto(text, inside, depth + 1);
  }

  lemma {:induction false} ChrIsSkipped(text: string, i: nat, c: char, rest: Nest, depth: nat)
    requires Spells(text, i, Chr(c, rest)) && depth > 0
    ensures var end := i + 1 + Size(rest);
            end <= |text| && CommentEnd(text, i, depth) == CommentEnd(text, end, depth)
    decreases Chr(c, rest), 0
  {
    StepInto(text, i, depth);
    SpeltIsSkipped(text, i + 1, rest, depth);
  }

  lemma SubSpelt(text: string, i: nat, inner: Nest, rest: Nest)
    requires Spells(text, i, Sub(inner, rest))
    ensures At(text, i, '/', '*') && Spells(text, i + 2, inner) && At(text, i + 2 + Size(inner), '*', '/')
    ensures Spells(text, i + 4 + Size(inner), rest)
  {}

  lemma {:induction false} SubIsSkipped(text: string, i: nat, inner: Nest, rest: Nest, depth: nat)
    requires Spells(text, i, Sub(inner, rest)) && depth > 0
    ensures var end := i + 4 + Size(inner) + Size(rest);
            end <= |text| && CommentEnd(text, i, depth) == CommentEnd(text, end, depth)
    decreases Sub(inner, rest), 0
  {
    hide *;
    var inside: nat := i + 2 + Size(inner);
    SubSpelt(text, i, inner, rest);
    SpeltIsSkipped(text, i + 2, inner, depth + 1);
    PastSub(text, i, inside, depth);
    SpeltIsSkipped(text, inside + 2, rest, depth);
  }

  lemma {:induction false} SpeltIsSkipped(text: string, i: nat, p: Nest, depth: nat)
    requires Spells(text, i, p) && depth > 0
    ensures i + Size(p) <= |text|
    ensures CommentEnd(text, i, depth) == CommentEnd(text, i + Size(p), depth)
    decreases p, 1
  {
    hide CommentEnd;
    match p
    case End =>
    case Chr(c, rest) => ChrIsSkipped(text, i, c, rest, depth);
    case Sub(inner, rest) => SubIsSkipped(text, i, inner, rest, depth);
  }

  /** One inside per open level, each followed by its closer. */
  predicate SpellsLevels(text: string, i: nat, levels: seq<Nest>, e: nat)
    decreases |levels|
  {
    if levels == [] then i == e
    else
      Spells(text, i, levels[0]) && At(text, i + Size(levels[0]), '*', '/') &&
      SpellsLevels(text, i + Size(levels[0]) + 2, levels[1..], e)
  }

  lemma AtTheEnd(text: string, depth: nat)
    requires depth > 0
    ensures CommentEnd(text, |text|, depth) == (|text|, depth)
  {}

  lemma OpenedLevels(text: string, i: nat, deeper: seq<Nest>, e: nat)
    requires |deeper| >= 2 && At(text, i, '/', '*') && SpellsLevels(text, i + 2, deeper, e)
    ensures SpellsLevels(text, i, [Sub(deeper[0], deeper[1])] + deeper[2..], e)
  {
    var levels := [Sub(deeper[0], deeper[1])] + deeper[2..];
    assert deeper[1..][0] == deeper[1] && deeper[1..][1..] == deeper[2..] == levels[1..];
  }

  lemma LeftLevel(text: string, i: nat, outer: seq<Nest>, e: nat)
    requires At(text, i, '*', '/') && SpellsLevels(text, i + 2, outer, e)
    ensures SpellsLevels(text, i, [End] + outer, e)
  {
    assert ([End] + outer)[1..] == outer;
  }

  lemma PlainLevels(text: string, i: nat, after: seq<Nest>, e: nat)
    requires i < |text| && !At(text, i, '/', '*') && !At(text, i, '*', '/')
    requires after != [] && SpellsLevels(text, i + 1, after, e)
    ensures SpellsLevels(text, i, [Chr(text[i], after[0])] + after[1..], e)
  {
    assert ([Chr(text[i], after[0])] + after[1..])[1..] == after[1..];
  }

  lemma {:induction false} ClosedLevels(text: string, i: nat, depth: nat) returns (levels: seq<Nest>)
    requires i <= |text| && depth > 0 && CommentEnd(text, i, depth).1 == 0
    ensures |levels| == depth && SpellsLevels(text, i, levels, CommentEnd(text, i, depth).0)
    decreases |text| - i
  {
    hide CommentEnd, Spells, SpellsLevels;
    var e := CommentEnd(text, i, depth).0;
    if i < |text| { StepInto(text, i, depth); } else { AtTheEnd(text, depth); }
    if At(text, i, '/', '*') {
      var deeper := ClosedLevels(text, i + 2, depth + 1);
      levels := [Sub(deeper[0], deeper[1])] + deeper[2..];
      OpenedLevels(text, i, deeper, e);
    } else if At(text, i, '*', '/') {
      var outer: seq<Nest> := [];
      if depth == 1 {
        NoLevels(text, e);
      } else {
        outer := ClosedLevels(text, i + 2, depth - 1);
      }
      levels := [End] + outer;
      LeftLevel(text, i, outer, e);
    } else {
      var after := ClosedLevels(text, i + 1, depth);
      levels := [Chr(text[i], after[0])] + after[1..];
      PlainLevels(text, i, after, e);
    }
  }

  lemma NoLevels(text: string, e: nat)
    ensures SpellsLevels(text, e, [], e)
  {}

  /** The depth counter finds exactly the matching closer. */
  lemma CommentEndsAtItsCloser(text: string, i: nat, e: nat)
    requires At(text, i, '/', '*')
    ensures CommentEnd(text, i + 2, 1) == (e, 0) <==> IsBlockComment(text, i, e)
  {
    if CommentEnd(text, i + 2, 1) == (e, 0) {
      var levels := ClosedLevels(text, i + 2, 1);
      assert levels[1..] == [];
    }
    if IsBlockComment(text, i, e) {
      var p :| Spells(text, i + 2, p) && At(text, i + 2 + Size(p), '*', '/') && e == i + 4 + Size(p);
      SpeltIsSkipped(text, i + 2, p, 1);
    }
  }

  // ---- quoted runs and line comments ---------------------------------------

  /** `text[i..j]` is made of other characters and doubled closers. */
  predicate IsQuotedBody(text: string, i: nat, j: nat, close: char)
    decreases j - i
  {
    i == j ||
    (i < j <= |text| && text[i] != close && IsQuotedBody(text, i + 1, j, close)) ||
    (i + 2 <= j <= |text| && At(text, i, close, close) && IsQuotedBody(text, i + 2, j, close))
  }

  /** `text[i..e]` is a literal or delimited identifier, and its last character is not half of an escape. */
  predicate IsQuotedRun(text: string, i: nat, e: nat) {
    && i + 2 <= e <= |text|
    && IsQuotedBody(text, i + 1, e - 1, Closer(text[i]))
    && text[e - 1] == Closer(text[i])
    && !(e < |text| && text[e] == Closer(text[i]))
  }

  lemma {:induction false} QuoteEndsAtItsCloser(text: string, i: nat, e: nat, close: char)
    requires i <= |text|
    ensures QuoteEnd(text, i, close) == (e, true) <==>
            i < e <= |text| && IsQuotedBody(text, i, e - 1, close) && text[e - 1] == close &&
            !(e < |text| && text[e] == close)
    decreases |text| - i
  {
    if i < |text| {
      if text[i] != close { QuoteEndsAtItsCloser(text, i + 1, e, close); }
      else if At(text, i, close, close) { QuoteEndsAtItsCloser(text, i + 2, e, close); }
    }
  }

  /** `text[i..e]` is a comment up to, and without, the end of its line. */
  predicate IsLineComment(text: string, i: nat, e: nat) {
    && i < e <= |text|
    && (forall k :: i <= k < e ==> text[k] != '\n')
    && (e == |text| || text[e] == '\n')
  }

  lemma {:induction false} LineEndsAtBreak(text: string, i: nat, e: nat)
    requires i <= |text|
    ensures LineEnd(text, i) == e <==>
            i <= e <= |text| && (forall k :: i <= k < e ==> text[k] != '\n') && (e == |text| || text[e] == '\n')
    decreases |text| - i
  {
    if i < |text| && text[i] != '\n' { LineEndsAtBreak(text, i + 1, e); }
  }

  // ---- the scanner against the grammar -------------------------------------

  ghost predicate Lexeme(text: string, i: nat, e: nat)
    requires i < |text| && Opens(text, i)
  {
    if At(text, i, '-', '-') then IsLineComment(text, i, e)
    else if At(text, i, '/', '*') then IsBlockComment(text, i, e)
    else IsQuotedRun(text, i, e)
  }

  /** The region opened at `i` is the lexeme there; it is unterminated exactly when no lexeme starts there. */
  lemma RegionIsLexeme(text: string, i: nat)
    requires i < |text| && Opens(text, i)
    ensures forall e :: Lexeme(text, i, e) <==> RegionAt(text, i) == Region(e, None)
    ensures RegionAt(text, i).unterminated.Some? <==> forall e :: !Lexeme(text, i, e)
  {
    forall e ensures Lexeme(text, i, e) <==> RegionAt(text, i) == Region(e, None) {
      if At(text, i, '-', '-') {
        LineEndsAtBreak(text, i + 1, e);
      } else if At(text, i, '/', '*') {
        CommentEndsAtItsCloser(text, i, e);
      } else {
        QuoteEndsAtItsCloser(text, i + 1, e, Closer(text[i]));
      }
    }
    assert RegionAt(text, i).unterminated.None? ==> Lexeme(text, i, RegionAt(text, i).end);
  }

  // ---- the whole text ------------------------------------------------------

  /**
   * `cuts` splits `text[i..]` into single code characters and lexemes: piece by
   * piece, where the next one starts. Only the last may be a region that never ends.
   */
  ghost predicate Lexes(text: string, i: nat, cuts: seq<nat>)
    decreases |cuts|
  {
    if cuts == [] then i == |text|
    else
      && i < cuts[0] <= |text|
      && (if !Opens(text, i) then cuts[0] == i + 1
          else Lexeme(text, i, cuts[0]) || (cuts[0] == |text| && forall e :: !Lexeme(text, i, e)))
      && Lexes(text, cuts[0], cuts[1..])
  }

  /** `k` lies inside one of the blanked pieces. */
  ghost predicate InsideLexeme(text: string, i: nat, cuts: seq<nat>, k: nat)
    requires i <= |text|
    decreases |cuts|
  {
    cuts != [] && i < |text| && cuts[0] <= |text| &&
    ((Opens(text, i) && i <= k < cuts[0]) || InsideLexeme(text, cuts[0], cuts[1..], k))
  }

  lemma {:induction false} LexingExists(text: string, i: nat) returns (cuts: seq<nat>)
    requires i <= |text|
    ensures Lexes(text, i, cuts)
    decreases |text| - i
  {
    if i == |text| {
      cuts := [];
    } else {
      var end := i + 1;
      if Opens(text, i) {
        RegionIsLexeme(text, i);
        end := RegionAt(text, i).end;
      }
      var rest := LexingExists(text, end);
      cuts := [end] + rest;
      assert cuts[1..] == rest;
    }
  }

  lemma {:induction false} LexingDecides(text: string, i: nat, cuts: seq<nat>, k: nat)
    requires i <= |text| && Lexes(text, i, cuts)
    ensures Hidden(text, i, k) <==> InsideLexeme(text, i, cuts, k)
    decreases |cuts|
  {
    if cuts != [] {
      if Opens(text, i) { RegionIsLexeme(text, i); }
      LexingDecides(text, cuts[0], cuts[1..], k);
    }
  }

  /** Every text splits into lexemes, and any such split says which characters the mask blanks. */
  lemma MaskFollowsLexemes(text: string)
    ensures exists cuts :: Lexes(text, 0, cuts)
    ensures forall cuts :: Lexes(text, 0, cuts) ==>
      forall k :: 0 <= k < |text| ==>
        Mask(text)[k] == if InsideLexeme(text, 0, cuts, k) then BlankChar(text[k]) else text[k]
  {
    var some := LexingExists(text, 0);
    forall cuts, k: nat | Lexes(text, 0, cuts) && k < |text|
      ensures Hidden(text, 0, k) <==> InsideLexeme(text, 0, cuts, k)
    {
      LexingDecides(text, 0, cuts, k);
    }
  }
}
