/**
 Whole-line walks built from the cursor's steps: forward from the begin of the
 line until the end-of-line predicate holds, and backward from the end of the line
 down to the region's first column. Each walk reads the current run's value at
 every column, and the pixels read are the decoded line, clipped to the region.
 */
module Traversal {
  import opened RunLength
  import opened ScanlineCursor

  /** Steps forward from a consistent cursor until the end of the line, reading
      one pixel per column; returns the pixels read and the cursor at the end. */
  method ReadToEndOfLine<V>(c: Cursor<V>) returns (pixels: seq<V>, last: Cursor<V>)
    requires Inv(c)
    ensures pixels == Decode(c.line)[c.index0..c.endIndex0]
    ensures Inv(last) && SameLine(last, c) && IsAtEndOfLine(last)
  {
    pixels := [];
    last := c;
    while !IsAtEndOfLine(last)
      invariant Inv(last) && SameLine(last, c)
      invariant c.index0 <= last.index0
      invariant pixels == Decode(c.line)[c.index0..last.index0]
      decreases last.endIndex0 - last.index0
    {
      ValueIsDecoded(last);
      pixels := pixels + [last.line[last.realIndex].value];
      last := Next(last);
    }
  }

  /** Walks a line whose region starts at the line's first column, from the
      begin of the line to its end: exactly `endIndex0 - beginIndex0` pixels,
      the decoded line over the region. */
  method ForwardLine<V>(c: Cursor<V>) returns (pixels: seq<V>)
    requires Framed(c) && c.beginIndex0 == 0
    ensures |pixels| == c.endIndex0 - c.beginIndex0
    ensures pixels == Decode(c.line)[c.beginIndex0..c.endIndex0]
  {
    var first := GoToBeginOfLine(c);
    var atEnd;
    pixels, atEnd := ReadToEndOfLine(first);
  }

  /** Walks a region that starts anywhere on the line, entering it by the
      general seek at the region's first column; the walk stops on the end of
      the line. */
  method ForwardClippedLine<V>(c: Cursor<V>) returns (pixels: seq<V>, last: Cursor<V>)
    requires Framed(c) && c.beginIndex0 < Width(c.line)
    ensures |pixels| == c.endIndex0 - c.beginIndex0
    ensures pixels == Decode(c.line)[c.beginIndex0..c.endIndex0]
    ensures Inv(last) && SameLine(last, c) && IsAtEndOfLine(last)
  {
    var first := SetIndex(c, c.line, c.beginIndex0);
    pixels, last := ReadToEndOfLine(first);
  }

  /** Walks a line whose region ends at the line's full width backward, from the
      end of the line down to the region's first column: the decoded region,
      last column first. */
  method BackwardLine<V>(c: Cursor<V>) returns (pixels: seq<V>)
    requires Framed(c) && c.endIndex0 == Width(c.line)
    ensures |pixels| == c.endIndex0 - c.beginIndex0
    ensures forall i :: 0 <= i < |pixels| ==> pixels[i] == Decode(c.line)[c.endIndex0 - 1 - i]
  {
    var it := GoToEndOfLine(c);
    pixels := [];
    while it.index0 > c.beginIndex0
      invariant Inv(it) && SameLine(it, c)
      invariant c.beginIndex0 <= it.index0
      invariant |pixels| == c.endIndex0 - it.index0
      invariant forall i :: 0 <= i < |pixels| ==> pixels[i] == Decode(c.line)[c.endIndex0 - 1 - i]
      decreases it.index0
    {
      it := Prev(it);
      ValueIsDecoded(it);
      pixels := pixels + [it.line[it.realIndex].value];
    }
  }

  /** On a region that ends at the line's full width, wherever it starts, the
      backward walk from the end of the line reads the same pixels as the
      forward walk from the region's first column, in reverse order. */
  method ForwardAndBackward<V>(c: Cursor<V>) returns (forward: seq<V>, backward: seq<V>)
    requires Framed(c) && c.beginIndex0 < Width(c.line) && c.endIndex0 == Width(c.line)
    ensures |forward| == |backward| == c.endIndex0 - c.beginIndex0
    ensures forall i :: 0 <= i < |backward| ==> backward[i] == forward[|forward| - 1 - i]
  {
    var atEnd;
    forward, atEnd := ForwardClippedLine(c);
    backward := BackwardLine(c);
  }
}
