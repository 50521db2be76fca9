/** Line/character positions and offsets in a document text, where only the newline character ends a
    line. */
module WorkerDocument {

  datatype Position = Position(line: int, character: int)

  function Clamp(x: int, high: int): int {
    if x < 0 then 0 else if x < high then x else high
  }

  /** `starts` lists exactly the offsets at which a line begins: 0, and after each newline. */
  ghost predicate LineStarts(content: string, starts: seq<int>) {
    && starts != [] && starts[0] == 0
    && (forall i, j :: 0 <= i < j < |starts| ==> starts[i] < starts[j])
    && (forall i :: 0 < i < |starts| ==> 0 < starts[i] <= |content| && content[starts[i] - 1] == '\n')
    && (forall k :: 0 <= k < |content| && content[k] == '\n' ==> k + 1 in starts)
  }

  /** Where line `l` ends: at the start of the next one, or at the end of the text. */
  function LineEnd(content: string, starts: seq<int>, l: nat): int
    requires l < |starts|
  {
    if l + 1 < |starts| then starts[l + 1] else |content|
  }

  function OffsetAt(content: string, starts: seq<int>, p: Position): int
    requires starts != []
  {
    var l := Clamp(p.line, |starts| - 1);
    starts[l] + Clamp(p.character, LineEnd(content, starts, l) - starts[l])
  }

  /** `p` is the position of offset `o`: on the last line that starts at or before it. */
  ghost predicate IsPositionOf(starts: seq<int>, o: int, p: Position) {
    && 0 <= p.line < |starts|
    && starts[p.line] <= o && p.character == o - starts[p.line]
    && (p.line + 1 < |starts| ==> o < starts[p.line + 1])
  }

  /** `p` lies inside its line: the line exists, and the character is before the start of the next
      line, or at most at the end of the text on the last one. */
  ghost predicate InsideLine(content: string, starts: seq<int>, p: Position) {
    && 0 <= p.line < |starts| && 0 <= p.character
    && (if p.line + 1 < |starts| then starts[p.line] + p.character < starts[p.line + 1]
        else starts[p.line] + p.character <= |content|)
  }

  class WorkerDocument {
    const content: string
    var lineStarts: seq<int>

    ghost predicate Valid()
      reads this
    {
      LineStarts(content, lineStarts)
    }

    /** `makeWorkerDocument`: one scan for the newlines. */
    constructor (content: string)
      ensures Valid() && this.content == content
    {
      this.content := content;
      lineStarts := [0];
      new;
      for i := 0 to |content|
        invariant lineStarts != [] && lineStarts[0] == 0
        invariant forall a, b :: 0 <= a < b < |lineStarts| ==> lineStarts[a] < lineStarts[b]
        invariant forall a :: 0 < a < |lineStarts| ==> 0 < lineStarts[a] <= i && content[lineStarts[a] - 1] == '\n'
        invariant forall k :: 0 <= k < i && content[k] == '\n' ==> k + 1 in lineStarts
        invariant lineStarts[|lineStarts| - 1] <= i
      {
        if content[i] == '\n' {
          lineStarts := lineStarts + [i + 1];
        }
      }
    }

    method OffsetOf(p: Position) returns (o: int)
      requires Valid()
      ensures o == OffsetAt(content, lineStarts, p)
    {
      var line := Clamp(p.line, |lineStarts| - 1);
      var lineStart := lineStarts[line];
      var lineEnd := if line + 1 < |lineStarts| then lineStarts[line + 1] else |content|;
      o := lineStart + Clamp(p.character, lineEnd - lineStart);
    }

    /** The binary search for the line of an offset. */
    method PositionOf(offset: int) returns (p: Position)
      requires Valid()
      ensures IsPositionOf(lineStarts, Clamp(offset, |content|), p)
    {
      var clamped := Clamp(offset, |content|);
      var low, high := 0, |lineStarts| - 1;
      while low < high
        invariant 0 <= low <= high < |lineStarts|
        invariant lineStarts[low] <= clamped
        invariant high + 1 < |lineStarts| ==> clamped < lineStarts[high + 1]
        decreases high - low
      {
        var mid := (low + high + 1) / 2;
        if lineStarts[mid] <= clamped {
          low := mid;
        } else {
          high := mid - 1;
        }
      }
      p := Position(low, clamped - lineStarts[low]);
    }

    /** `getText` of a range; `substring` orders its two offsets. */
    method GetText(start: Position, end: Position) returns (text: string)
      requires Valid()
      ensures text == Text(content, lineStarts, start, end)
    {
      OffsetsAreInside(content, lineStarts, start);
      OffsetsAreInside(content, lineStarts, end);
      var a := OffsetOf(start);
      var b := OffsetOf(end);
      text := if a <= b then content[a..b] else content[b..a];
    }
  }

  lemma OffsetsAreInside(content: string, starts: seq<int>, p: Position)
    requires LineStarts(content, starts)
    ensures 0 <= OffsetAt(content, starts, p) <= |content|
  {
    var l := Clamp(p.line, |starts| - 1);
    if l + 1 < |starts| {
      assert starts[l] < starts[l + 1];
    }
  }

  /** A line before the first counts as the first and one past the last as the last; a character before the
      line's start counts as the start and one past its end as the end; otherwise nothing is changed. */
  lemma OffsetIsInItsLine(content: string, starts: seq<int>, p: Position)
    requires LineStarts(content, starts)
    ensures var l := if p.line < 0 then 0 else if p.line >= |starts| then |starts| - 1 else p.line;
            var end := if l + 1 < |starts| then starts[l + 1] else |content|;
            var o := OffsetAt(content, starts, p);
            && starts[l] <= o <= end
            && (p.character <= 0 ==> o == starts[l])
            && (starts[l] + p.character >= end ==> o == end || p.character <= 0)
            && (0 <= p.character <= end - starts[l] ==> o == starts[l] + p.character)
  {
    OffsetsAreInside(content, starts, p);
    var l := Clamp(p.line, |starts| - 1);
    if l + 1 < |starts| {
      assert starts[l] < starts[l + 1];
    }
  }

  /** The text of a range is what lies between its two offsets, whichever comes first. */
  lemma TextIgnoresDirection(content: string, starts: seq<int>, start: Position, end: Position)
    requires LineStarts(content, starts)
    ensures Text(content, starts, start, end) == Text(content, starts, end, start)
    ensures OffsetAt(content, starts, start) <= OffsetAt(content, starts, end) ==>
              content[..OffsetAt(content, starts, start)] + Text(content, starts, start, end)
              == content[..OffsetAt(content, starts, end)]
  {
    hide OffsetAt;
    OffsetsAreInside(content, starts, start);
    OffsetsAreInside(content, starts, end);
  }

  function Text(content: string, starts: seq<int>, start: Position, end: Position): string
    requires LineStarts(content, starts)
  {
    OffsetsAreInside(content, starts, start);
    OffsetsAreInside(content, starts, end);
    var a, b := OffsetAt(content, starts, start), OffsetAt(content, starts, end);
    if a <= b then content[a..b] else content[b..a]
  }

  /** The list of line starts is determined by the text. */
  lemma {:induction false} LineStartsAreUnique(content: string, s: seq<int>, s': seq<int>, i: nat)
    requires LineStarts(content, s) && LineStarts(content, s') && i < |s|
    ensures i < |s'| && s'[i] == s[i]
  {
    if i > 0 {
      LineStartsAreUnique(content, s, s', i - 1);
      assert content[s[i] - 1] == '\n';
      var j :| 0 <= j < |s'| && s'[j] == s[i];
      assert j >= i;
      if s'[i] < s[i] {
        assert content[s'[i] - 1] == '\n';
        var k :| 0 <= k < |s| && s[k] == s'[i];
      }
    }
  }

  /** An offset has exactly one position. */
  lemma PositionIsUnique(content: string, starts: seq<int>, o: int, p: Position, p': Position)
    requires LineStarts(content, starts) && IsPositionOf(starts, o, p) && IsPositionOf(starts, o, p')
    ensures p == p'
  {
  }

  /** From offset to position and back: the clamped offset, for every offset. */
  lemma OffsetRoundTrip(content: string, starts: seq<int>, offset: int, p: Position)
    requires LineStarts(content, starts) && IsPositionOf(starts, Clamp(offset, |content|), p)
    ensures OffsetAt(content, starts, p) == Clamp(offset, |content|)
  {
  }

  /** From position to offset and back: the same position exactly when it lies inside its line. */
  lemma PositionRoundTrip(content: string, starts: seq<int>, p: Position)
    requires LineStarts(content, starts)
    ensures IsPositionOf(starts, OffsetAt(content, starts, p), p) <==> InsideLine(content, starts, p)
  {
    OffsetsAreInside(content, starts, p);
  }

  ghost predicate NotAfter(p: Position, q: Position) {
    p.line < q.line || (p.line == q.line && p.character <= q.character)
  }

  /** Offsets keep the order of positions whose lines are in range. */
  lemma OffsetsAreMonotone(content: string, starts: seq<int>, p: Position, q: Position)
    requires LineStarts(content, starts) && NotAfter(p, q) && 0 <= p.line && q.line < |starts|
    ensures OffsetAt(content, starts, p) <= OffsetAt(content, starts, q)
  {
    if p.line < q.line {
      assert starts[p.line + 1] <= starts[q.line];
    }
  }

  /** Offsets keep the order of any two positions on lines `l` and `l'`. */
  ghost predicate KeepOrder(content: string, starts: seq<int>, l: int, l': int)
    requires starts != []
  {
    forall c, c' :: NotAfter(Position(l, c), Position(l', c')) ==>
      OffsetAt(content, starts, Position(l, c)) <= OffsetAt(content, starts, Position(l', c'))
  }

  /** They keep it, for lines in range or not, exactly when the lines are the same, fall on different
      lines of the text, or fall on one that is empty. */
  lemma OrderIsKeptExactly(content: string, starts: seq<int>, l: int, l': int)
    requires LineStarts(content, starts) && l <= l'
    ensures var k, k' := Clamp(l, |starts| - 1), Clamp(l', |starts| - 1);
            KeepOrder(content, starts, l, l') <==> l == l' || k < k' || LineEnd(content, starts, k) == starts[k]
  {
    var k, k' := Clamp(l, |starts| - 1), Clamp(l', |starts| - 1);
    var length := LineEnd(content, starts, k) - starts[k];
    if l == l' {
    } else if k < k' {
      forall c, c' ensures OffsetAt(content, starts, Position(l, c)) <= OffsetAt(content, starts, Position(l', c')) {
        assert starts[k + 1] <= starts[k'];
      }
    } else {
      assert OffsetAt(content, starts, Position(l, length)) == starts[k] + length;
      assert OffsetAt(content, starts, Position(l', 0)) == starts[k];
      assert NotAfter(Position(l, length), Position(l', 0));
    }
  }

  /** A position past the last line falls back onto it, so its offset may come before that of an earlier
      position. */
  lemma OffsetsCanGoBackOutOfRange()
    ensures LineStarts("ab", [0]) && NotAfter(Position(0, 2), Position(1, 0))
    ensures OffsetAt("ab", [0], Position(1, 0)) < OffsetAt("ab", [0], Position(0, 2))
  {
  }

  /** Adjacent ranges concatenate. */
  lemma AdjacentTextsConcatenate(content: string, starts: seq<int>, a: Position, b: Position, c: Position)
    requires LineStarts(content, starts) && NotAfter(a, b) && NotAfter(b, c) && 0 <= a.line && c.line < |starts|
    ensures Text(content, starts, a, b) + Text(content, starts, b, c) == Text(content, starts, a, c)
  {
    OffsetsAreMonotone(content, starts, a, b);
    OffsetsAreMonotone(content, starts, b, c);
    OffsetsAreInside(content, starts, a);
    OffsetsAreInside(content, starts, c);
  }
}
