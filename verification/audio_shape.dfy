/** Channel layout and length bookkeeping of the audio buffers the scripts
    move around (numpy arrays in the source). Sample values are abstract
    reals; only shapes, lengths and per-frame means are modelled. */
module AudioShape {
  import opened Results

  /** A numpy audio array: one-dimensional, or a matrix of `width` channels
      with one row per frame. */
  datatype Buffer = Flat(samples: seq<real>) | Grid(rows: seq<seq<real>>, width: nat)

  /** Every row of a matrix has the same number of channels. */
  predicate WellShaped(b: Buffer)
  {
    b.Grid? ==> forall i :: 0 <= i < |b.rows| ==> |b.rows[i]| == b.width
  }

  /** Python's `len()` of the array: its number of samples or frames. */
  function Len(b: Buffer): nat
  {
    match b
    case Flat(s) => |s|
    case Grid(rows, _) => |rows|
  }

  /** `len(shape) > 1 and shape[1] == 2`: a two-channel matrix. */
  predicate IsStereo(b: Buffer)
  {
    b.Grid? && b.width == 2
  }

  /** Frames whose every row holds exactly two channels. */
  predicate TwoChannels(rows: seq<seq<real>>)
  {
    forall i :: 0 <= i < |rows| ==> |rows[i]| == 2
  }

  /** `np.mean(samples, axis=1)` on two-channel frames. */
  function MeanOfChannels(rows: seq<seq<real>>): (m: seq<real>)
    requires TwoChannels(rows)
    ensures |m| == |rows|
  {
    seq(|rows|, i requires 0 <= i < |rows| => (rows[i][0] + rows[i][1]) / 2.0)
  }

  /** Channel `j` of frame `i` sits at `i * w + j` of the flat samples `s`. */
  predicate CellAt(s: seq<real>, rows: seq<seq<real>>, w: nat, i: int, j: int)
  {
    0 <= i < |rows| && 0 <= j < |rows[i]| && 0 <= i * w + j < |s| && s[i * w + j] == rows[i][j]
  }

  /** `samples.flatten()`: the rows laid end to end, in row-major order. */
  function Flatten(b: Buffer): (s: seq<real>)
    requires WellShaped(b)
    ensures b.Flat? ==> s == b.samples
    ensures b.Grid? ==> |s| == |b.rows| * b.width
    ensures b.Grid? ==> forall i, j :: 0 <= i < |b.rows| && 0 <= j < b.width ==> CellAt(s, b.rows, b.width, i, j)
  {
    match b
    case Flat(s) => s
    case Grid(rows, w) =>
      FlattenRowsContents(rows, w);
      FlattenRows(rows, w)
  }

  function FlattenRows(rows: seq<seq<real>>, w: nat): (s: seq<real>)
    requires forall i :: 0 <= i < |rows| ==> |rows[i]| == w
    ensures |s| == |rows| * w
  {
    if |rows| == 0 then [] else rows[0] + FlattenRows(rows[1..], w)
  }

  /** Every channel of every frame is where row-major order puts it. */
  lemma FlattenRowsContents(rows: seq<seq<real>>, w: nat)
    requires forall k :: 0 <= k < |rows| ==> |rows[k]| == w
    ensures forall i, j :: 0 <= i < |rows| && 0 <= j < w ==> CellAt(FlattenRows(rows, w), rows, w, i, j)
  {
    forall i, j | 0 <= i < |rows| && 0 <= j < w
      ensures CellAt(FlattenRows(rows, w), rows, w, i, j)
    {
      FlattenRowsAt(rows, w, i, j);
    }
  }

  /** Channel `j` of frame `i` lands at `i * w + j` of the flattened rows. */
  lemma {:induction false} FlattenRowsAt(rows: seq<seq<real>>, w: nat, i: nat, j: nat)
    requires forall k :: 0 <= k < |rows| ==> |rows[k]| == w
    requires i < |rows| && j < w
    ensures CellAt(FlattenRows(rows, w), rows, w, i, j)
    decreases i
  {
    if i > 0 {
      RowIndex(i, j, w, |rows|);
      assert rows[1..][i - 1] == rows[i];
      FlattenRowsAt(rows[1..], w, i - 1, j);
    }
  }

  /** Index arithmetic of a row after the first: it lies one row further on. */
  lemma RowIndex(i: nat, j: nat, w: nat, n: nat)
    requires 1 <= i < n && j < w
    ensures i * w + j == w + ((i - 1) * w + j)
    ensures (i - 1) * w + j < (n - 1) * w
  {
    MulSucc(i - 1, w);
    MulAdd(i - 1, n - i, w);
    MulSucc(n - i - 1, w);
  }

  lemma MulSucc(k: nat, w: nat)
    ensures (k + 1) * w == k * w + w
  {
  }

  lemma MulAdd(a: nat, b: nat, w: nat)
    ensures (a + b) * w == a * w + b * w
  {
  }

  /** main.py's fold before sending: a two-channel chunk becomes the per-frame
      mean of its channels; anything else is flattened. */
  function MonoForStream(b: Buffer): (m: seq<real>)
    requires WellShaped(b)
    ensures IsStereo(b) ==> |m| == Len(b) && forall i :: 0 <= i < |m| ==> m[i] == (b.rows[i][0] + b.rows[i][1]) / 2.0
    ensures !IsStereo(b) ==> m == Flatten(b)
  {
    if IsStereo(b) then MeanOfChannels(b.rows) else Flatten(b)
  }

  /** The recording fold of quiz_voice.py and quiz_simple.py: a two-channel
      recording becomes per-frame means; any other shape is left as it is. */
  function MonoForRecording(b: Buffer): (m: Buffer)
    requires WellShaped(b)
    ensures Len(m) == Len(b) && WellShaped(m)
    ensures IsStereo(b) ==> m.Flat? && forall i :: 0 <= i < |m.samples| ==> m.samples[i] == (b.rows[i][0] + b.rows[i][1]) / 2.0
    ensures !IsStereo(b) ==> m == b
  {
    if IsStereo(b) then Flat(MeanOfChannels(b.rows)) else b
  }

  /** `np.column_stack([x, x])`: each mono sample played on both channels. */
  function Duplicate(xs: seq<real>): (rows: seq<seq<real>>)
    ensures |rows| == |xs|
    ensures TwoChannels(rows)
    ensures forall i :: 0 <= i < |xs| ==> rows[i][0] == xs[i] && rows[i][1] == xs[i]
  {
    seq(|xs|, i requires 0 <= i < |xs| => [xs[i], xs[i]])
  }

  /** Folding a duplicated signal back to mono returns the signal. */
  lemma MeanOfDuplicate(xs: seq<real>)
    ensures MeanOfChannels(Duplicate(xs)) == xs
  {
  }

  /** `int(n * to_rate / from_rate)`: the length the resampler is asked for.
      A zero source rate divides by zero, which the source raises. */
  function TargetLength(n: nat, fromRate: nat, toRate: nat): (r: Option<nat>)
    ensures r.None? <==> fromRate == 0
    ensures r.Some? ==> r.value * fromRate <= n * toRate < (r.value + 1) * fromRate
  {
    if fromRate == 0 then None else Some(n * toRate / fromRate)
  }

  /** The resampler is asked for at least one sample exactly when the
      buffer spans at least one sample period of the target rate. */
  lemma TargetLengthPositive(n: nat, fromRate: nat, toRate: nat)
    requires fromRate > 0
    ensures TargetLength(n, fromRate, toRate).value > 0 <==> n * toRate >= fromRate
  {
    var m := TargetLength(n, fromRate, toRate).value;
    assert m * fromRate <= n * toRate < (m + 1) * fromRate;
    assert (m + 1) * fromRate == m * fromRate + fromRate;
    assert m > 0 ==> m * fromRate >= fromRate;
    assert m == 0 ==> m * fromRate == 0;
  }

  /** Equal rates ask for the length the buffer already has, so skipping the
      resampler when the rates agree changes no length. */
  lemma TargetLengthSameRate(n: nat, rate: nat)
    requires rate > 0
    ensures TargetLength(n, rate, rate) == Some(n)
  {
    var m := TargetLength(n, rate, rate).value;
    MulLeMonotone(m, n, rate);
    MulLtMonotone(n, m + 1, rate);
  }

  /** Going to another rate and back never lengthens a buffer, and loses
      fewer than `(r1 + r2) / r2` samples. */
  lemma TargetLengthRoundTrip(n: nat, r1: nat, r2: nat)
    requires r1 > 0 && r2 > 0
    ensures var m := TargetLength(n, r1, r2).value;
            var back := TargetLength(m, r2, r1).value;
            back <= n && (n - back) * r2 < r1 + r2
  {
    var m := TargetLength(n, r1, r2).value;
    var back := TargetLength(m, r2, r1).value;
    assert back * r2 <= m * r1 <= n * r2;
    MulLeMonotone(back, n, r2);
    assert m * r1 > n * r2 - r1;
    assert back * r2 > m * r1 - r2;
    assert (n - back) * r2 == n * r2 - back * r2;
  }

  lemma MulLeMonotone(a: nat, b: nat, k: nat)
    requires k > 0 && a * k <= b * k
    ensures a <= b
  {
    assert a * k - b * k == (a - b) * k;
  }

  lemma MulLtMonotone(a: nat, b: nat, k: nat)
    requires a * k < b * k
    ensures a < b
  {
    assert b * k - a * k == (b - a) * k;
  }

  /** The truncating length does not round-trip within one sample: five
      samples at 48 kHz ask for one at 16 kHz, which asks for three back. */
  lemma TruncationLosesMoreThanOne()
    ensures TargetLength(5, 48000, 16000) == Some(1)
    ensures TargetLength(1, 16000, 48000) == Some(3)
  {
  }
}
