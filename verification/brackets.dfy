/** Bracket matching against the grammar of well-nested words. */
module Brackets {
  import opened Wrappers

  const MAX_PER_RULE := 5

  // ---- the grammar ---------------------------------------------------------

  predicate IsOpener(c: char) { c == '{' || c == '(' || c == '[' }

  predicate IsCloser(c: char) { c == '}' || c == ')' || c == ']' }

  /** `PAIRS[c]`. */
  function CloserOf(c: char): char { if c == '{' then '}' else if c == '(' then ')' else ']' }

  /** A well-nested word: empty, or a bracketed word followed by another. */
  datatype Word = Empty | Group(opener: char, inner: Word, rest: Word)

  predicate ProperWord(w: Word) {
    w.Group? ==> IsOpener(w.opener) && ProperWord(w.inner) && ProperWord(w.rest)
  }

  function Flatten(w: Word): string {
    match w
    case Empty => ""
    case Group(o, inner, rest) => [o] + Flatten(inner) + [CloserOf(o)] + Flatten(rest)
  }

  const ALL_KINDS := {'{', '}', '(', ')', '[', ']'}
  const PARENTHESES := {'(', ')'}

  /** The brackets of a text of the given kinds, everything else dropped. */
  function BracketsOf(s: string, kinds: set<char>): string {
    if s == "" then ""
    else BracketsOf(s[..|s| - 1], kinds) + if s[|s| - 1] in kinds then [s[|s| - 1]] else []
  }

  ghost predicate WellNested(b: string) {
    exists w :: ProperWord(w) && Flatten(w) == b
  }

  // ---- reading a word with a stack -----------------------------------------

  /** The openers left open by `b`, or nothing once a closer has nothing to match. */
  function Pending(b: string): Option<string> {
    if b == "" then Some("")
    else
      match Pending(b[..|b| - 1])
      case None => None
      case Some(open) =>
        var c := b[|b| - 1];
        if IsOpener(c) then Some(open + [c])
        else if |open| > 0 && CloserOf(open[|open| - 1]) == c then Some(open[..|open| - 1])
        else None
  }

  lemma PendingAppend(b: string, c: char)
    ensures Pending(b + [c]) ==
      match Pending(b)
      case None => None
      case Some(open) =>
        if IsOpener(c) then Some(open + [c])
        else if |open| > 0 && CloserOf(open[|open| - 1]) == c then Some(open[..|open| - 1])
        else None
  {
    assert (b + [c])[..|b|] == b;
  }

  lemma OpenedAndClosed(b: string, o: char, inner: string)
    requires IsOpener(o) && Pending(b).Some? && Pending(b + [o] + inner) == Pending(b + [o])
    ensures Pending(b + [o] + inner + [CloserOf(o)]) == Pending(b)
  {
    PendingAppend(b, o);
    PendingAppend(b + [o] + inner, CloserOf(o));
    assert (Pending(b).value + [o])[..|Pending(b).value|] == Pending(b).value;
  }

  lemma GroupConsumed(b: string, o: char, inner: string, rest: string, whole: string)
    requires IsOpener(o) && Pending(b).Some? && whole == [o] + inner + [CloserOf(o)] + rest
    requires Pending(b + [o] + inner) == Pending(b + [o])
    requires var upTo := b + [o] + inner + [CloserOf(o)]; Pending(upTo).Some? ==> Pending(upTo + rest) == Pending(upTo)
    ensures Pending(b + whole) == Pending(b)
  {
    OpenedAndClosed(b, o, inner);
    Reassociate(b, o, inner, CloserOf(o), rest);
  }

  lemma Reassociate(b: string, o: char, inner: string, c: char, rest: string)
    ensures b + ([o] + inner + [c] + rest) == b + [o] + inner + [c] + rest
  {}

  lemma {:induction false} WordIsConsumed(b: string, w: Word)
    requires ProperWord(w) && Pending(b).Some?
    ensures Pending(b + Flatten(w)) == Pending(b)
    decreases w
  {
    match w
    case Empty => assert b + "" == b;
    case Group(o, inner, rest) =>
      PendingAppend(b, o);
      WordIsConsumed(b + [o], inner);
      var upTo := b + [o] + Flatten(inner) + [CloserOf(o)];
      if Pending(upTo).Some? { WordIsConsumed(upTo, rest); }
      GroupConsumed(b, o, Flatten(inner), Flatten(rest), Flatten(w));
  }

  function Append(w: Word, v: Word): Word {
    match w
    case Empty => v
    case Group(o, inner, rest) => Group(o, inner, Append(rest, v))
  }

  lemma ConcatAssociates(s: string, t: string, u: string)
    ensures s + (t + u) == s + t + u
  {}

  lemma {:induction false} FlattenAppend(w: Word, v: Word)
    requires ProperWord(w) && ProperWord(v)
    ensures ProperWord(Append(w, v)) && Flatten(Append(w, v)) == Flatten(w) + Flatten(v)
    decreases w
  {
    match w
    case Empty => assert Flatten(w) + Flatten(v) == Flatten(v);
    case Group(o, inner, rest) =>
      FlattenAppend(rest, v);
      ConcatAssociates([o] + Flatten(inner) + [CloserOf(o)], Flatten(rest), Flatten(v));
  }

  /** What was read so far: a word before each open bracket, and one after the last. */
  function Unclosed(words: seq<Word>, open: string): string
    requires |words| == |open| + 1
    decreases |open|
  {
    if open == "" then Flatten(words[0])
    else Unclosed(words[..|open|], open[..|open| - 1]) + [open[|open| - 1]] + Flatten(words[|open|])
  }

  lemma OpenedGroup(before: seq<Word>, open: string, c: char)
    requires |before| == |open| + 1
    ensures Unclosed(before + [Empty], open + [c]) == Unclosed(before, open) + [c]
  {
    var words, more := before + [Empty], open + [c];
    assert more[..|open|] == open && words[..|open| + 1] == before;
    assert Unclosed(words, more) == Unclosed(before, open) + [c] + "";
  }

  /** The words before a closer, with the last group closed. */
  lemma CloseLast(before: seq<Word>, open: string, c: char) returns (words: seq<Word>)
    requires |open| > 0 && |before| == |open| + 1 && c == CloserOf(open[|open| - 1]) && IsOpener(open[|open| - 1])
    requires forall i :: 0 <= i < |before| ==> ProperWord(before[i])
    ensures |words| == |open| && (forall i :: 0 <= i < |words| ==> ProperWord(words[i]))
    ensures Unclosed(words, open[..|open| - 1]) == Unclosed(before, open) + [c]
  {
    var n := |open| - 1;
    var group := Group(open[n], before[n + 1], Empty);
    FlattenAppend(before[n], group);
    words := before[..n] + [Append(before[n], group)];
    ClosedGroup(before, words, open, c);
  }

  lemma {:induction false} PendingWords(b: string) returns (words: seq<Word>)
    requires Pending(b).Some?
    ensures |words| == |Pending(b).value| + 1 && (forall i :: 0 <= i < |words| ==> ProperWord(words[i]))
    ensures Unclosed(words, Pending(b).value) == b
    ensures forall i :: 0 <= i < |Pending(b).value| ==> IsOpener(Pending(b).value[i])
  {
    if b == "" { return [Empty]; }
    var init, c := b[..|b| - 1], b[|b| - 1];
    assert b == init + [c];
    var before := PendingWords(init);
    var open := Pending(init).value;
    if IsOpener(c) {
      words := before + [Empty];
      OpenedGroup(before, open, c);
    } else {
      words := CloseLast(before, open, c);
    }
  }

  lemma Regroup(front: string, last: string, o: char, inner: string, c: char)
    ensures front + (last + ([o] + inner + [c])) == front + last + [o] + inner + [c]
  {}

  lemma UnclosedStep(words: seq<Word>, open: string)
    requires |words| == |open| + 1
    ensures Unclosed(words, open) ==
            (if open == "" then "" else Unclosed(words[..|open|], open[..|open| - 1]) + [open[|open| - 1]]) +
            Flatten(words[|open|])
  {
    assert open == "" ==> "" + Flatten(words[0]) == Flatten(words[0]);
  }

  lemma GroupFlat(o: char, inner: Word)
    ensures Flatten(Group(o, inner, Empty)) == [o] + Flatten(inner) + [CloserOf(o)]
  {}

  lemma ClosedGroup(before: seq<Word>, words: seq<Word>, open: string, c: char)
    requires |open| > 0 && |before| == |open| + 1 && c == CloserOf(open[|open| - 1])
    requires |words| == |open| && words[..|open| - 1] == before[..|open| - 1]
    requires Flatten(words[|open| - 1]) ==
             Flatten(before[|open| - 1]) + Flatten(Group(open[|open| - 1], before[|open|], Empty))
    ensures Unclosed(words, open[..|open| - 1]) == Unclosed(before, open) + [c]
  {
    var n := |open| - 1;
    var o, outer := open[n], open[..n];
    GroupFlat(o, before[n + 1]);
    hide Unclosed, Flatten;
    UnclosedStep(before, open);
    UnclosedStep(before[..n + 1], outer);
    UnclosedStep(words, outer);
    assert before[..n + 1][..n] == before[..n];
    var front := if outer == "" then "" else Unclosed(before[..n], outer[..n - 1]) + [outer[n - 1]];
    Regroup(front, Flatten(before[n]), o, Flatten(before[n + 1]), c);
  }

  /** A bracket word is well-nested exactly when reading it leaves nothing open and nothing unmatched. */
  lemma WellNestedIffNothingPending(b: string)
    ensures WellNested(b) <==> Pending(b) == Some("")
  {
    if WellNested(b) {
      var w :| ProperWord(w) && Flatten(w) == b;
      WordIsConsumed("", w);
      assert "" + Flatten(w) == b;
    }
    if Pending(b) == Some("") {
      var words := PendingWords(b);
      assert ProperWord(words[0]) && Flatten(words[0]) == b;
    }
  }

  // ---- the linters ---------------------------------------------------------

  datatype Finding = UnmatchedCloser(offset: nat) | NeverClosed(offset: nat)

  /** Reading the first `i` characters. */
  ghost function PendingAt(s: string, kinds: set<char>, i: nat): Option<string>
    requires i <= |s|
  {
    Pending(BracketsOf(s[..i], kinds))
  }

  lemma PendingNext(s: string, kinds: set<char>, i: nat)
    requires i < |s|
    ensures PendingAt(s, kinds, i + 1) ==
      if s[i] !in kinds then PendingAt(s, kinds, i)
      else match PendingAt(s, kinds, i)
           case None => None
           case Some(open) =>
             if IsOpener(s[i]) then Some(open + [s[i]])
             else if |open| > 0 && CloserOf(open[|open| - 1]) == s[i] then Some(open[..|open| - 1])
             else None
  {
    assert s[..i + 1][..i] == s[..i];
    assert BracketsOf(s[..i], kinds) + "" == BracketsOf(s[..i], kinds);
    PendingAppend(BracketsOf(s[..i], kinds), s[i]);
  }

  /** The stack holds the offsets of the openers `pending`, bottom first. */
  ghost predicate StackOf(s: string, stack: seq<nat>, pending: string) {
    && |stack| == |pending|
    && (forall j :: 0 <= j < |stack| ==> stack[j] < |s| && s[stack[j]] == pending[j])
    && (forall j, k :: 0 <= j < k < |stack| ==> stack[j] < stack[k])
  }

  /** `b` stopped being the start of any well-nested word at the closer at offset `k`. */
  ghost predicate LostAt(s: string, kinds: set<char>, k: nat) {
    k < |s| && PendingAt(s, kinds, k).Some? && PendingAt(s, kinds, k + 1).None?
  }

  /** What both linters report on the brackets of the kinds they look at. */
  ghost predicate Diagnoses(s: string, kinds: set<char>, out: seq<Finding>) {
    // Nothing at all exactly on well-nested words.
    && (out == [] <==> WellNested(BracketsOf(s, kinds)))
    // The first finding on a closer is where the text went wrong for good.
    && (PendingAt(s, kinds, |s|).None? ==>
          out != [] && out[0].UnmatchedCloser? && LostAt(s, kinds, out[0].offset))
    // Without one, the findings are the openers still waiting, outermost first.
    && (PendingAt(s, kinds, |s|).Some? ==>
          exists stack ::
            && StackOf(s, stack, PendingAt(s, kinds, |s|).value)
            && |out| == (if |stack| < MAX_PER_RULE then |stack| else MAX_PER_RULE)
            && forall j :: 0 <= j < |out| ==> out[j] == NeverClosed(stack[j]))
    && |out| <= 2 * MAX_PER_RULE
  }

  method ReportOpen(open: seq<nat>, found: seq<Finding>) returns (out: seq<Finding>)
    ensures var n := if |open| < MAX_PER_RULE then |open| else MAX_PER_RULE;
      && |out| == |found| + n && out[..|found|] == found
      && forall j :: 0 <= j < n ==> out[|found| + j] == NeverClosed(open[j])
  {
    out := found;
    var n := if |open| < MAX_PER_RULE then |open| else MAX_PER_RULE;
    for j := 0 to n
      invariant |out| == |found| + j && out[..|found|] == found
      invariant forall k :: 0 <= k < j ==> out[|found| + k] == NeverClosed(open[k])
    {
      out := out + [NeverClosed(open[j])];
    }
  }

  /** The scan's findings so far, on a text that may already have gone wrong. */
  ghost predicate ScanState(s: string, kinds: set<char>, i: nat, open: seq<nat>, out: seq<Finding>)
    requires i <= |s|
  {
    && |out| <= MAX_PER_RULE
    && (forall j :: 0 <= j < |open| ==> open[j] < i)
    && (out == [] <==> PendingAt(s, kinds, i).Some?)
    && (PendingAt(s, kinds, i).Some? ==> StackOf(s, open, PendingAt(s, kinds, i).value))
    && (out != [] ==> out[0].UnmatchedCloser? && LostAt(s, kinds, out[0].offset))
  }

  lemma ConcludeScan(s: string, kinds: set<char>, open: seq<nat>, found: seq<Finding>, out: seq<Finding>)
    requires ScanState(s, kinds, |s|, open, found)
    requires var n := if |open| < MAX_PER_RULE then |open| else MAX_PER_RULE;
      && |out| == |found| + n && out[..|found|] == found
      && forall j :: 0 <= j < n ==> out[|found| + j] == NeverClosed(open[j])
    ensures Diagnoses(s, kinds, out)
  {
    assert s[..|s|] == s;
    WellNestedIffNothingPending(BracketsOf(s, kinds));
    if found != [] {
      assert out[0] == out[..|found|][0] == found[0];
    } else {
      assert StackOf(s, open, PendingAt(s, kinds, |s|).value);
    }
  }

  lemma NothingRead(s: string, kinds: set<char>)
    ensures ScanState(s, kinds, 0, [], [])
  {}

  lemma SkippedChar(s: string, kinds: set<char>, i: nat, open: seq<nat>, out: seq<Finding>)
    requires i < |s| && s[i] !in kinds && ScanState(s, kinds, i, open, out)
    ensures ScanState(s, kinds, i + 1, open, out)
  {
    hide PendingAt;
    PendingNext(s, kinds, i);
  }

  lemma PushedOpener(s: string, kinds: set<char>, i: nat, open: seq<nat>, out: seq<Finding>)
    requires i < |s| && s[i] in kinds && IsOpener(s[i]) && ScanState(s, kinds, i, open, out)
    ensures ScanState(s, kinds, i + 1, open + [i], out)
  {
    hide PendingAt;
    PendingNext(s, kinds, i);
  }

  /** A closer that matches the innermost opener, or one on a text already lost. */
  lemma PoppedOpener(s: string, kinds: set<char>, i: nat, open: seq<nat>, out: seq<Finding>)
    requires i < |s| && s[i] in kinds && !IsOpener(s[i]) && ScanState(s, kinds, i, open, out)
    requires |open| > 0 && (out == [] ==> CloserOf(s[open[|open| - 1]]) == s[i])
    ensures ScanState(s, kinds, i + 1, open[..|open| - 1], out)
  {
    hide PendingAt;
    PendingNext(s, kinds, i);
  }

  /** A closer that matches nothing is reported while there is room, and the rest of the stack is anyone's guess. */
  lemma LostCloser(s: string, kinds: set<char>, i: nat, open: seq<nat>, out: seq<Finding>, rest: seq<nat>)
    requires i < |s| && s[i] in kinds && !IsOpener(s[i]) && ScanState(s, kinds, i, open, out)
    requires |open| == 0 || CloserOf(s[open[|open| - 1]]) != s[i]
    requires rest <= open
    ensures ScanState(s, kinds, i + 1, rest, if |out| < MAX_PER_RULE then out + [UnmatchedCloser(i)] else out)
  {
    hide PendingAt;
    PendingNext(s, kinds, i);
  }

  /** PowerShell: three kinds, recovery pops included. */
  method BracketBalance(masked: string) returns (out: seq<Finding>)
    ensures Diagnoses(masked, ALL_KINDS, out)
  {
    hide PendingAt, StackOf, LostAt, Diagnoses;
    out := [];
    var open: seq<nat> := [];
    NothingRead(masked, ALL_KINDS);
    for i := 0 to |masked|
      invariant ScanState(masked, ALL_KINDS, i, open, out)
      invariant forall j :: 0 <= j < |open| ==> IsOpener(masked[open[j]])
    {
      var c := masked[i];
      if IsOpener(c) {
        PushedOpener(masked, ALL_KINDS, i, open, out);
        open := open + [i];
        continue;
      }
      if !IsCloser(c) {
        SkippedChar(masked, ALL_KINDS, i, open, out);
        continue;
      }
      if |open| == 0 || CloserOf(masked[open[|open| - 1]]) != c {
        LostCloser(masked, ALL_KINDS, i, open, out, if |open| > 0 then open[..|open| - 1] else []);
        if |out| < MAX_PER_RULE { out := out + [UnmatchedCloser(i)]; }
        if |open| > 0 { open := open[..|open| - 1]; }
        continue;
      }
      PoppedOpener(masked, ALL_KINDS, i, open, out);
      open := open[..|open| - 1];
    }
    ghost var found := out;
    out := ReportOpen(open, out);
    ConcludeScan(masked, ALL_KINDS, open, found, out);
  }

  /** T-SQL: parentheses only, where popping an empty stack does nothing. */
  method ParenBalance(masked: string) returns (out: seq<Finding>)
    ensures Diagnoses(masked, PARENTHESES, out)
  {
    out := [];
    var open: seq<nat> := [];
    for i := 0 to |masked|
      invariant ScanState(masked, PARENTHESES, i, open, out)
      invariant forall j :: 0 <= j < |open| ==> masked[open[j]] == '('
    {
      PendingNext(masked, PARENTHESES, i);
      if masked[i] == '(' {
        open := open + [i];
      } else if masked[i] == ')' {
        if |open| == 0 && |out| < MAX_PER_RULE { out := out + [UnmatchedCloser(i)]; }
        if |open| > 0 { open := open[..|open| - 1]; }
      }
    }
    ghost var found := out;
    out := ReportOpen(open, out);
    ConcludeScan(masked, PARENTHESES, open, found, out);
  }
}
