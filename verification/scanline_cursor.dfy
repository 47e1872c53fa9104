/**
 The scanline cursor of the run-length-encoded image: a position on one line
 held twice, as an absolute column (`index0`) and as a run-relative pair
 (`realIndex`, `segmentRemainder`). Every step keeps the two consistent
 without searching the run array; `Inv` states that consistency.
 */
module ScanlineCursor {
  import opened RunLength

  /** The iterator's state on its current line.
      - `index0`: the current column, an offset into the line;
      - `beginIndex0`, `endIndex0`: the region's columns on this line, `[begin, end)`;
      - `realIndex`: the run holding `index0`; at the end of the line, when
        `index0` falls on a run boundary, either the run ending there or the
        run starting there;
      - `segmentRemainder`: the pixels from `index0` inclusive to the end of that run. */
  datatype Cursor<V> = Cursor(
    line: Line<V>,
    index0: int,
    beginIndex0: int,
    endIndex0: int,
    realIndex: int,
    segmentRemainder: int)

  /** The line is a stored line and the region's columns lie inside it. */
  predicate Framed<V>(c: Cursor<V>)
  {
    && WellFormed(c.line)
    && 0 <= c.beginIndex0 <= c.endIndex0 <= Width(c.line)
  }

  /** The cursor invariant: run `realIndex` covers `index0` (or ends exactly at
      it, which only the end of the line may do), the remainder counts the
      pixels left in that run, and the cursor has not passed the region's end. */
  predicate Inv<V>(c: Cursor<V>)
  {
    && Framed(c)
    && 0 <= c.realIndex < |c.line|
    && Start(c.line, c.realIndex) <= c.index0 <= Start(c.line, c.realIndex + 1)
    && c.segmentRemainder == Start(c.line, c.realIndex + 1) - c.index0
    && (c.segmentRemainder > 0 || c.index0 == c.endIndex0)
    && c.index0 <= c.endIndex0
  }

  /** Same line and same region bounds: what a step along the line keeps. */
  ghost predicate SameLine<V>(c: Cursor<V>, d: Cursor<V>)
  {
    c.line == d.line && c.beginIndex0 == d.beginIndex0 && c.endIndex0 == d.endIndex0
  }

  /** True when the cursor is one past the last column of the region. */
  predicate IsAtEndOfLine<V>(c: Cursor<V>)
  {
    c.index0 == c.endIndex0
  }

  /** Jumps to the region's first column by loading the line's first run. The
      result is a consistent cursor exactly when the region starts at the
      line's first column. */
  function GoToBeginOfLine<V>(c: Cursor<V>): (r: Cursor<V>)
    requires |c.line| > 0
    ensures SameLine(r, c)
    ensures r.index0 == c.beginIndex0
    ensures r.realIndex == 0 && r.segmentRemainder == c.line[0].length
    ensures Framed(c) ==> (Inv(r) <==> c.beginIndex0 == 0)
    ensures Inv(r) && r.index0 < r.endIndex0 ==> r.line[r.realIndex].value == Decode(r.line)[r.beginIndex0]
  {
    var r := c.(index0 := c.beginIndex0, realIndex := 0, segmentRemainder := c.line[0].length);
    if Inv(r) && r.index0 < r.endIndex0 then
      DecodeAt(r.line, 0, r.index0);
      r
    else
      r
  }

  /** Jumps one past the region's last column by loading the line's last run
      with nothing left in it. The result is a consistent cursor exactly when
      the region ends at the line's full width. */
  function GoToEndOfLine<V>(c: Cursor<V>): (r: Cursor<V>)
    requires |c.line| > 0
    ensures SameLine(r, c)
    ensures IsAtEndOfLine(r)
    ensures r.realIndex == |c.line| - 1 && r.segmentRemainder == 0
    ensures Framed(c) ==> (Inv(r) <==> c.endIndex0 == Width(c.line))
  {
    c.(index0 := c.endIndex0, realIndex := |c.line| - 1, segmentRemainder := 0)
  }

  /** Prefix increment: one column forward, loading the next run only when the
      current one is used up and the region's end has not been reached. */
  function Next<V>(c: Cursor<V>): (r: Cursor<V>)
    requires Inv(c) && !IsAtEndOfLine(c)
    ensures Inv(r) && SameLine(r, c)
    ensures r.index0 == c.index0 + 1
    ensures r.realIndex == c.realIndex || r.realIndex == c.realIndex + 1
    ensures r.segmentRemainder == 0 ==> IsAtEndOfLine(r)
  {
    var stepped := c.(index0 := c.index0 + 1, segmentRemainder := c.segmentRemainder - 1);
    if stepped.segmentRemainder > 0 then
      stepped
    else if IsAtEndOfLine(stepped) then
      stepped
    else
      stepped.(realIndex := c.realIndex + 1, segmentRemainder := c.line[c.realIndex + 1].length)
  }

  /** Prefix decrement: one column back. Crossing into the previous run lands on
      that run's last pixel, which has exactly one pixel left in its run. */
  function Prev<V>(c: Cursor<V>): (r: Cursor<V>)
    requires Inv(c) && c.index0 > 0
    ensures Inv(r) && SameLine(r, c)
    ensures r.index0 == c.index0 - 1
    ensures r.realIndex == c.realIndex || r.realIndex == c.realIndex - 1
    ensures r.realIndex != c.realIndex ==> r.index0 == Start(r.line, r.realIndex + 1) - 1
  {
    var stepped := c.(index0 := c.index0 - 1, segmentRemainder := c.segmentRemainder + 1);
    if stepped.segmentRemainder <= c.line[c.realIndex].length then
      stepped
    else
      stepped.(realIndex := c.realIndex - 1, segmentRemainder := 1)
  }

  /** Places the cursor on `line` at column `col` of the region, locating the
      run that owns the column: the seek a cursor performs when it enters a line. */
  function SetIndex<V>(c: Cursor<V>, line: Line<V>, col: int): (r: Cursor<V>)
    requires WellFormed(line)
    requires 0 <= c.beginIndex0 <= col <= c.endIndex0 <= Width(line)
    requires col < Width(line)
    ensures Inv(r) && r.line == line && r.index0 == col
    ensures r.beginIndex0 == c.beginIndex0 && r.endIndex0 == c.endIndex0
    ensures col < |Decode(line)| && r.line[r.realIndex].value == Decode(line)[col]
  {
    var k := Locate(line, col);
    DecodeAt(line, k, col);
    c.(line := line, index0 := col, realIndex := k, segmentRemainder := Start(line, k + 1) - col)
  }

  /** What advancing the line enumerator produced: no line left in the region,
      or the next line of the region. */
  datatype LineAdvance<V> = Exhausted | Advanced(next: Line<V>)

  /** Moves to the next line of the region. On a fresh line the cursor is placed
      at the region's first column; once the region is exhausted only `index0`
      is reset, to mark the iterator as finished, and the run-relative part is
      left as it was. */
  function NextLine<V>(c: Cursor<V>, advance: LineAdvance<V>): (r: Cursor<V>)
    requires advance.Advanced? ==>
      && WellFormed(advance.next)
      && 0 <= c.beginIndex0 <= c.endIndex0 <= Width(advance.next)
      && c.beginIndex0 < Width(advance.next)
    ensures advance.Exhausted? ==>
      && SameLine(r, c) && r.index0 == c.beginIndex0
      && r.realIndex == c.realIndex && r.segmentRemainder == c.segmentRemainder
    ensures advance.Exhausted? && Inv(c) ==> (Inv(r) <==> c.index0 == c.beginIndex0)
    ensures advance.Advanced? ==>
      && Inv(r) && r.line == advance.next && r.index0 == c.beginIndex0
      && r.beginIndex0 == c.beginIndex0 && r.endIndex0 == c.endIndex0
    ensures advance.Advanced? ==>
      && c.beginIndex0 < |Decode(advance.next)|
      && r.line[r.realIndex].value == Decode(advance.next)[c.beginIndex0]
  {
    match advance
    case Advanced(next) => SetIndex(c, next, c.beginIndex0)
    case Exhausted => c.(index0 := c.beginIndex0)
  }

  /** Inside the region the cursor's run holds the pixel at its column: reading
      the run's value reads the decoded line. */
  lemma ValueIsDecoded<V>(c: Cursor<V>)
    requires Inv(c) && c.index0 < c.endIndex0
    ensures c.index0 < |Decode(c.line)|
    ensures c.line[c.realIndex].value == Decode(c.line)[c.index0]
  {
    DecodeAt(c.line, c.realIndex, c.index0);
  }

  /** Inside the region the column alone fixes the run-relative state: two
      consistent cursors on one line at one column agree on run and remainder. */
  lemma InvDeterminesRun<V>(c: Cursor<V>, d: Cursor<V>)
    requires Inv(c) && Inv(d) && c.line == d.line && c.index0 == d.index0
    requires c.index0 < c.endIndex0 && d.index0 < d.endIndex0
    ensures c.realIndex == d.realIndex && c.segmentRemainder == d.segmentRemainder
  {
    if c.realIndex < d.realIndex {
      StartStrictlyIncreasing(c.line, c.realIndex + 1, d.realIndex + 1);
      if c.realIndex + 1 < d.realIndex {
        StartStrictlyIncreasing(c.line, c.realIndex + 1, d.realIndex);
      }
    } else if d.realIndex < c.realIndex {
      StartStrictlyIncreasing(c.line, d.realIndex + 1, c.realIndex + 1);
      if d.realIndex + 1 < c.realIndex {
        StartStrictlyIncreasing(c.line, d.realIndex + 1, c.realIndex);
      }
    }
  }

  /** When the region spans the whole line, end of line is the state with the
      last run loaded and nothing left in it, and no other. */
  lemma AtEndOfFullLine<V>(c: Cursor<V>)
    requires Inv(c) && c.endIndex0 == Width(c.line)
    ensures IsAtEndOfLine(c) <==> (c.realIndex == |c.line| - 1 && c.segmentRemainder == 0)
  {
    if IsAtEndOfLine(c) && c.realIndex < |c.line| - 1 {
      StartStrictlyIncreasing(c.line, c.realIndex + 1, |c.line|);
    }
  }

  /** A step forward then a step back restores the exact cursor, including steps
      that cross a run boundary and steps that land on the end of the line. */
  lemma NextThenPrev<V>(c: Cursor<V>)
    requires Inv(c) && !IsAtEndOfLine(c)
    ensures Next(c).index0 > 0
    ensures Prev(Next(c)) == c
  {
  }

  /** A step back then a step forward restores the exact cursor whenever the
      cursor is inside the region. At the end of the line it restores the column
      and the invariant, and may describe the same column from the other side
      of a run boundary. */
  lemma PrevThenNext<V>(c: Cursor<V>)
    requires Inv(c) && c.index0 > 0
    ensures !IsAtEndOfLine(Prev(c))
    ensures Inv(Next(Prev(c))) && Next(Prev(c)).index0 == c.index0
    ensures !IsAtEndOfLine(c) ==> Next(Prev(c)) == c
  {
  }

  /** On a region starting at the line's first column, going to the begin of the
      line is the general seek to that column, done without a search. */
  lemma GoToBeginOfLineIsSeek<V>(c: Cursor<V>)
    requires Framed(c) && c.beginIndex0 == 0 && c.beginIndex0 < c.endIndex0
    ensures GoToBeginOfLine(c) == SetIndex(c, c.line, c.beginIndex0)
  {
  }
}
