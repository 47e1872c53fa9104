/**
 A run-length-encoded scanline: an ordered sequence of runs, each covering
 `length` consecutive pixels that share one `value`. The line is never
 expanded during traversal; `Decode` is the reference meaning of a line,
 against which the scanline cursor is proved correct.
 */
module RunLength {

  /** `length` consecutive pixels sharing `value`; the length plays the role
      of the image's counter type and is unbounded here. */
  datatype Run<V> = Run(length: nat, value: V)

  /** One stored scanline, covering the full buffered width of its row. */
  type Line<V> = seq<Run<V>>

  /** A stored line has at least one run and no empty run. */
  predicate WellFormed<V>(line: Line<V>)
  {
    && |line| > 0
    && forall i :: 0 <= i < |line| ==> line[i].length > 0
  }

  /** The column at which run `k` starts: the total length of the first `k` runs.
      `Start(line, k + 1)` is the column one past the last pixel of run `k`. */
  function Start<V>(line: Line<V>, k: nat): nat
    requires k <= |line|
  {
    if k == 0 then 0 else Start(line, k - 1) + line[k - 1].length
  }

  /** The full buffered width of a line: the sum of all its run lengths. */
  function Width<V>(line: Line<V>): nat
  {
    Start(line, |line|)
  }

  /** The pixels a line stands for: each run expanded in place, so that there is
      exactly one pixel per column of the line's full width. */
  function Decode<V>(line: Line<V>): (pixels: seq<V>)
    ensures |pixels| == Width(line)
  {
    if |line| == 0 then
      []
    else
      StartTail(line, |line|);
      seq(line[0].length, _ => line[0].value) + Decode(line[1..])
  }

  /** Run starts seen from the second run: dropping the first run shifts every
      start left by that run's length. */
  lemma {:induction false} StartTail<V>(line: Line<V>, k: nat)
    requires 1 <= k <= |line|
    ensures Start(line, k) == line[0].length + Start(line[1..], k - 1)
  {
    if k > 1 {
      StartTail(line, k - 1);
    }
  }

  /** With no empty run, later runs start strictly later. */
  lemma {:induction false} StartStrictlyIncreasing<V>(line: Line<V>, j: nat, k: nat)
    requires WellFormed(line)
    requires j < k <= |line|
    ensures Start(line, j) < Start(line, k)
  {
    if j < k - 1 {
      StartStrictlyIncreasing(line, j, k - 1);
    }
  }

  /** Every column covered by run `k` decodes to that run's value. */
  lemma {:induction false} DecodeAt<V>(line: Line<V>, k: nat, i: int)
    requires k < |line|
    requires Start(line, k) <= i < Start(line, k + 1)
    ensures i < |Decode(line)| && Decode(line)[i] == line[k].value
  {
    if k > 0 {
      StartTail(line, k);
      StartTail(line, k + 1);
      DecodeAt(line[1..], k - 1, i - line[0].length);
    }
  }

  /** The run owning column `col`: the lookup a cursor performs when it is placed
      at an arbitrary column (a reference definition; cursors stepping along the
      line never call it). */
  function Locate<V>(line: Line<V>, col: nat): (k: nat)
    requires col < Width(line)
    ensures k < |line|
    ensures Start(line, k) <= col < Start(line, k + 1)
  {
    StartTail(line, |line|);
    if col < line[0].length then
      0
    else
      var k := 1 + Locate(line[1..], col - line[0].length);
      StartTail(line, k);
      StartTail(line, k + 1);
      k
  }
}
