/** Offsets to 1-based lines and columns by binary search over the line starts. */
module Locator {

  /** Line breaks before `offset`. */
  function LinesBefore(text: string, offset: nat): nat
    requires offset <= |text|
  {
    if offset == 0 then 0 else LinesBefore(text, offset - 1) + if text[offset - 1] == '\n' then 1 else 0
  }

  /** `column` characters into line `line`, both counted from 1, is `offset`. */
  ghost predicate IsPosition(text: string, offset: nat, line: nat, column: nat)
    requires offset <= |text|
  {
    && 1 <= line && 1 <= column <= offset + 1
    && line == LinesBefore(text, offset) + 1
    && (column == offset + 1 || text[offset - column] == '\n')
    && forall k :: offset - column < k < offset ==> text[k] != '\n'
  }

  lemma {:induction false} LinesBeforeRises(text: string, i: nat, j: nat)
    requires i <= j <= |text|
    ensures LinesBefore(text, i) <= LinesBefore(text, j)
    ensures (forall k :: i <= k < j ==> text[k] != '\n') <==> LinesBefore(text, i) == LinesBefore(text, j)
    decreases j - i
  {
    if i < j { LinesBeforeRises(text, i, j - 1); }
  }

  /** An offset has one position, and a position belongs to one offset. */
  lemma PositionsAreUnique(text: string, a: nat, b: nat, line: nat, column: nat, line': nat, column': nat)
    requires a <= |text| && b <= |text|
    requires IsPosition(text, a, line, column) && IsPosition(text, b, line', column')
    ensures a == b <==> line == line' && column == column'
  {
    if a < b {
      LinesBeforeRises(text, a, b);
      if line == line' { assert column' > column; }
    } else if b < a {
      LinesBeforeRises(text, b, a);
      if line == line' { assert column > column'; }
    }
  }

  /** The table holds 0 and every offset just after a line break, in order. */
  ghost predicate IsLineTable(text: string, upTo: nat, starts: seq<nat>)
    requires upTo <= |text|
  {
    && |starts| == LinesBefore(text, upTo) + 1
    && starts[0] == 0
    && (forall j :: 0 < j < |starts| ==> 0 < starts[j] <= upTo && text[starts[j] - 1] == '\n')
    && (forall j :: 0 <= j < |starts| ==> starts[j] <= upTo && LinesBefore(text, starts[j]) == j)
  }

  method LineStarts(text: string) returns (starts: seq<nat>)
    ensures IsLineTable(text, |text|, starts)
  {
    starts := [0];
    for i := 0 to |text|
      invariant IsLineTable(text, i, starts)
    {
      if text[i] == '\n' { starts := starts + [i + 1]; }
    }
  }

  /** The function `makeLocator` returns, given its table. */
  method Locate(text: string, starts: seq<nat>, offset: int) returns (line: nat, column: nat)
    requires IsLineTable(text, |text|, starts)
    ensures var clamped := if offset < 0 then 0 else if offset > |text| then |text| else offset;
      IsPosition(text, clamped, line, column)
  {
    var clamped := if offset < 0 then 0 else if offset > |text| then |text| else offset;
    var low, high := 0, |starts| - 1;
    while low < high
      invariant 0 <= low <= high < |starts|
      invariant starts[low] <= clamped
      invariant high + 1 < |starts| ==> clamped < starts[high + 1]
    {
      var mid := (low + high + 1) / 2;
      if starts[mid] <= clamped { low := mid; } else { high := mid - 1; }
    }
    line, column := low + 1, clamped - starts[low] + 1;
    RightmostStart(text, starts, clamped, low);
  }

  lemma RightmostStart(text: string, starts: seq<nat>, offset: nat, low: nat)
    requires IsLineTable(text, |text|, starts) && offset <= |text| && low < |starts|
    requires starts[low] <= offset && (low + 1 < |starts| ==> offset < starts[low + 1])
    ensures IsPosition(text, offset, low + 1, offset - starts[low] + 1)
  {
    LinesBeforeRises(text, starts[low], offset);
    if low + 1 < |starts| {
      LinesBeforeRises(text, offset, starts[low + 1] - 1);
      assert LinesBefore(text, starts[low + 1]) == LinesBefore(text, starts[low + 1] - 1) + 1;
    } else {
      LinesBeforeRises(text, offset, |text|);
    }
  }
}
