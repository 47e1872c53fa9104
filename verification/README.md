# Scanline cursor over a run-length-encoded image line

This project models the scanline iterator of ITK's `RLEImage`: the
`ImageScanlineConstIterator` specialisation that walks one run-length-encoded
line of an image pixel by pixel without expanding it. A line is an ordered
sequence of runs `(length, value)`. The iterator keeps its position twice:

- as an absolute column, `m_Index0`, inside the region's columns
  `[m_BeginIndex0, m_EndIndex0)`;
- as a run-relative pair: the current run `m_RealIndex`, and
  `m_SegmentRemainder`, the number of pixels from the current column up to the
  end of that run.

The model is functional. `Cursor` is an immutable value holding the line and
these five integers. `GoToBeginOfLine`, `GoToEndOfLine`, `Next` (prefix `++`),
`Prev` (prefix `--`) and `NextLine` are pure transition functions on it.
`IsAtEndOfLine` is a pure predicate. Every transition is checked against one
invariant, `ScanlineCursor.Inv`:

- the line is well formed and the region's columns lie inside it;
- `0 <= realIndex < |line|`;
- run `realIndex` covers `index0`, or ends exactly at it, and the remainder
  equals the start of the next run minus `index0`;
- the remainder is 0 only at the end of the line;
- `index0 <= endIndex0`.

`RunLength.Decode` expands a line into its pixels. It is the reference meaning
against which the cursor is proved correct: the value of the current run is the
decoded pixel at the current column, and whole walks read the decoded region.

Modules:

- `RunLength` (`run_length.dfy`) holds runs, lines, run starts, decoding and
  the lookup of the run that owns a column.
- `ScanlineCursor` (`scanline_cursor.dfy`) holds the cursor, its invariant,
  the operations of the iterator and the lemmas about single steps.
- `Traversal` (`traversal.dfy`) holds forward and backward walks over a
  line, built from the steps.
- `LineExamples` (`line_examples.dfy`) holds concrete lines that pin the
  behaviour to specific values.

Points where the model settles a question about the code:

- The backward crossing sets `m_RealIndex--` and `m_SegmentRemainder = 1`.
  This can look asymmetric with the forward crossing, which loads the full
  length of the next run. It is not. The only column at which
  `--` leaves a run is that run's first column. The column it moves to is the
  last pixel of the previous run, whose remainder is exactly 1. So `++`
  followed by `--` restores the exact triple from every consistent state that
  is not at the end of the line (`NextThenPrev`).
- `--` followed by `++` is exact everywhere inside the region. At the end of
  the line, when `m_EndIndex0` falls on a run boundary, it may give the other
  consistent description of that column: the run before the boundary with
  remainder 0, instead of the run after it with its full length
  (`PrevThenNext`).
- `GoToBeginOfLine` always loads run 0, and `GoToEndOfLine` always loads the
  last run. So each gives a consistent cursor exactly when the region begins
  at column 0, and exactly when it ends at the line's full width. Their
  contracts state both directions of these equivalences.
- `NextLine` leaves `m_BeginIndex0` and `m_EndIndex0` unchanged. The code does
  not recompute them per line, and the model follows the code.
- On an exhausted region, `NextLine` only resets `m_Index0`. The result is a
  sentinel, not a fresh cursor. It is consistent exactly when the cursor
  already stood on the region's first column.

## Model

| member | source | states |
|---|---|---|
| ScanlineCursor.GoToBeginOfLine | include/itkRLEImageScanlineConstIterator.h:96-103 | the cursor moves to `beginIndex0` with run 0 loaded and remainder equal to run 0's length, whatever the region, and the line and bounds are kept; on a framed line the result satisfies the invariant if and only if the region starts at column 0; when it does, the loaded run's value is the decoded pixel at `beginIndex0` |
| ScanlineCursor.GoToEndOfLine | include/itkRLEImageScanlineConstIterator.h:105-112 | the result is at end of line with the last run loaded and remainder 0; on a framed line it satisfies the invariant if and only if `endIndex0` is the line's full width (the sum of the run lengths) |
| ScanlineCursor.AtEndOfFullLine | include/itkRLEImageScanlineConstIterator.h:114-119 | when the region spans the whole line, the end-of-line predicate holds exactly when the last run is loaded with remainder 0 |
| ScanlineCursor.Next | include/itkRLEImageScanlineConstIterator.h:136-161 | from a consistent cursor that is not at end of line, `++` advances the column by exactly 1 and the run index by 0 or 1; it re-establishes the invariant, keeps line and bounds, and a remainder of 0 occurs only at end of line |
| ScanlineCursor.Prev | include/itkRLEImageScanlineConstIterator.h:163-179 | from a consistent cursor at a column greater than 0, `--` lowers the column by exactly 1 and the run index by 0 or 1, and preserves the invariant; after a crossing the new column is the last pixel of the previous run |
| ScanlineCursor.NextLine | include/itkRLEImageScanlineConstIterator.h:121-134 | with an exhausted region only `index0` is reset to `beginIndex0`, and the result is consistent if and only if the cursor already stood there; with a next line, the cursor is consistent at `beginIndex0` on that line and reads its decoded pixel there |
| ScanlineCursor.SetIndex | include/itkRLEImageScanlineConstIterator.h:125-129 | the seek that enters a line places a consistent cursor at the requested column, and the loaded run's value is the decoded pixel there |
| ScanlineCursor.ValueIsDecoded | include/itkRLEImageScanlineConstIterator.h:143-179 | inside the region, the value of run `realIndex` is the decoded pixel at `index0` |
| ScanlineCursor.InvDeterminesRun | include/itkRLEImageScanlineConstIterator.h:143-179 | inside the region, the column alone fixes the run index and the remainder of every consistent cursor |
| ScanlineCursor.NextThenPrev | include/itkRLEImageScanlineConstIterator.h:143-179 | `++` then `--` restores the exact cursor from any consistent state that is not at end of line, including run crossings and landing on end of line |
| ScanlineCursor.PrevThenNext | include/itkRLEImageScanlineConstIterator.h:143-179 | `--` then `++` restores the exact cursor inside the region; at end of line it restores the column and the invariant |
| ScanlineCursor.GoToBeginOfLineIsSeek | include/itkRLEImageScanlineConstIterator.h:97-103 | on a region that starts at column 0, going to the begin of the line equals the general seek to that column |
| Traversal.ReadToEndOfLine | include/itkRLEImageScanlineConstIterator.h:143-160 | repeated `++` from a consistent cursor until the end-of-line predicate holds reads the decoded line from the start column up to `endIndex0` |
| Traversal.ForwardLine | include/itkRLEImageScanlineConstIterator.h:97-160 | from `GoToBeginOfLine` on a region starting at column 0, the forward walk reads exactly `endIndex0 - beginIndex0` pixels, equal to the decoded line over `[beginIndex0, endIndex0)` |
| Traversal.ForwardClippedLine | include/itkRLEImageScanlineConstIterator.h:122-160 | entering the line by the seek at `beginIndex0`, the forward walk reads the decoded region for any region start below the width, and stops on a consistent cursor at the end of the line |
| Traversal.BackwardLine | include/itkRLEImageScanlineConstIterator.h:106-179 | from `GoToEndOfLine` on a region ending at the full width, repeated `--` down to `beginIndex0` reads the decoded region, last column first |
| Traversal.ForwardAndBackward | include/itkRLEImageScanlineConstIterator.h:97-179 | on a region ending at the line's full width, wherever it starts, the backward walk from `GoToEndOfLine` reads the forward walk's pixels in reverse order, and both read `endIndex0 - beginIndex0` pixels |
| LineExamples.ThreeRunForward | include/itkRLEImageScanlineConstIterator.h:97-160 | the forward walk over runs (3, A), (2, B), (4, C) reads A A A B B C C C C |
| LineExamples.ThreeRunColumnThree | include/itkRLEImageScanlineConstIterator.h:143-160 | on that line, every consistent cursor at column 3 has run 1 loaded with remainder 2 |
| LineExamples.ClippedSingleRun | include/itkRLEImageScanlineConstIterator.h:115-160 | on one run (10, X) clipped to columns [3, 7), the walk reads X four times and stops at column 7, where the end-of-line predicate holds |
| LineExamples.GoToBeginOfLineNeedsLineStart | include/itkRLEImageScanlineConstIterator.h:97-103 | on a region starting at column 3 of the three-run line, going to the begin of the line reads A where the pixel is B |
| LineExamples.ExhaustedNextLineIsSentinel | include/itkRLEImageScanlineConstIterator.h:130-133 | a consistent cursor at end of line becomes inconsistent when an exhausted region resets its column |

## Left out

- The constructors, cast constructors and deduction guides (lines 64-94 and
  182-191) are type plumbing and carry no behaviour.
- The superclass's `SetIndexInternal` and the line enumerator `m_BI` are not
  part of this model. `SetIndex` replaces the seek by a reference lookup,
  `RunLength.Locate`, that finds the run owning a column. The enumerator is
  reduced to its outcome, passed to `NextLine` as `LineAdvance`: either the
  region is exhausted, or here is the next line.
- ScanlineCursor.SetIndex: the seek is required only for a column below the
  line's full width. The lookup is not defined at the width itself.
- ScanlineCursor.NextLine: entering a next line asks for a region start below
  that line's full width, for the same reason.
- The multi-dimensional geometry is left out. This covers index, offset and
  region types, physical coordinates, and the line position along the slower
  axes. Columns are offsets into the line.
- `itkOverrideGetNameOfClassMacro` is run-time type information and is left
  out.
- ScanlineCursor.Next: the debug assertion `!IsAtEndOfLine()` is modelled as
  a precondition, not as a run-time check. The precondition also asks for the
  invariant, the implicit contract of a valid iterator. Outside it the code
  may read past the run array, or may silently read the wrong run: after
  `GoToBeginOfLine` on a region starting past column 0 it stays inside the
  array but reads run 0 where the pixel belongs to a later run
  (`LineExamples.GoToBeginOfLineNeedsLineStart`).
- ScanlineCursor.Prev: the code states no precondition for `--`. The model
  asks for the invariant and a column greater than 0, so that `m_RealIndex`
  cannot fall below run 0.
- Pixel values are a type parameter, and no arithmetic is done on them.
  Run lengths, columns and run indices are unbounded integers. Unsigned
  wrap-around of `CounterType` or of the run index cannot occur under the
  preconditions, so it is not modelled.
- Reading the current value (`Get`) belongs to the superclass. The model reads
  `line[realIndex].value` directly.
