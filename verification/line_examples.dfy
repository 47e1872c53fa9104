/**
 Concrete lines pinning the cursor's behaviour to specific values: a line of
 three runs, a region clipped inside a single run, and the two situations in
 which a jump does not leave a consistent cursor.
 */
module LineExamples {
  import opened RunLength
  import opened ScanlineCursor
  import opened Traversal

  /** Runs (3, A), (2, B), (4, C): a line nine pixels wide. */
  function ThreeRuns(): Line<char>
  {
    [Run(3, 'A'), Run(2, 'B'), Run(4, 'C')]
  }

  /** The run starts of the three-run line: columns 0, 3, 5 and its width 9. */
  lemma ThreeRunStarts()
    ensures Start(ThreeRuns(), 1) == 3 && Start(ThreeRuns(), 2) == 5 && Width(ThreeRuns()) == 9
  {
  }

  /** The three-run line decodes to A A A B B C C C C. */
  lemma ThreeRunDecode()
    ensures Decode(ThreeRuns()) == "AAABBCCCC"
  {
  }

  /** A forward walk over the whole three-run line reads A A A B B C C C C. */
  method ThreeRunForward() returns (pixels: seq<char>)
    ensures pixels == "AAABBCCCC"
  {
    ThreeRunStarts();
    ThreeRunDecode();
    pixels := ForwardLine(Cursor(ThreeRuns(), 0, 0, 9, 0, 0));
  }

  /** Any consistent cursor at column 3 of the three-run line, the first B, has
      run 1 loaded with two pixels left in it. */
  lemma ThreeRunColumnThree(c: Cursor<char>)
    requires Inv(c) && c.line == ThreeRuns() && c.index0 == 3 < c.endIndex0
    ensures c.realIndex == 1 && c.segmentRemainder == 2
  {
  }

  /** A region [3, 7) inside a single run (10, X): the clipped walk reads X four
      times and stops at column 7. */
  method ClippedSingleRun() returns (pixels: seq<char>, last: Cursor<char>)
    ensures pixels == "XXXX"
    ensures IsAtEndOfLine(last) && last.index0 == 7
  {
    pixels, last := ForwardClippedLine(Cursor([Run(10, 'X')], 0, 3, 7, 0, 0));
  }

  /** Going to the begin of the line on a region that starts at column 3 of the
      three-run line loads run 0 and so reads A, where the pixel at column 3 is B. */
  lemma GoToBeginOfLineNeedsLineStart()
    ensures
      var c := GoToBeginOfLine(Cursor(ThreeRuns(), 5, 3, 9, 1, 1));
      && !Inv(c)
      && c.index0 == 3
      && c.line[c.realIndex].value == 'A'
      && Decode(ThreeRuns())[3] == 'B'
  {
  }

  /** Once the region is exhausted, a cursor left at the end of a line has its
      column reset but keeps an empty remainder: not a consistent cursor. */
  lemma ExhaustedNextLineIsSentinel()
    ensures
      var atEnd := GoToEndOfLine(Cursor([Run(2, 'A')], 0, 0, 2, 0, 2));
      && Inv(atEnd)
      && !Inv(NextLine(atEnd, Exhausted))
      && NextLine(atEnd, Exhausted).index0 == 0
  {
    var line := [Run(2, 'A')];
    assert Start(line, 1) == 2;
    var atEnd := GoToEndOfLine(Cursor(line, 0, 0, 2, 0, 2));
    assert atEnd == Cursor(line, 2, 0, 2, 0, 0);
    assert NextLine(atEnd, Exhausted) == Cursor(line, 0, 0, 2, 0, 0);
  }
}
