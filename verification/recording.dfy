/** `record_audio` of quiz_voice.py and quiz_simple.py: keep the non-empty
    chunks the device hands out, concatenate them, fold stereo to mono. */
module Recording {
  import opened Results
  import opened AudioShape

  /** `np.concatenate` refuses arrays whose shapes beyond the first axis differ. */
  datatype ShapeError = ShapeMismatch

  /** The chunks the polling loop keeps: those that are not None and not empty, in order. */
  function Collected(polls: seq<Option<Buffer>>): (kept: seq<Buffer>)
    ensures |kept| <= |polls|
    ensures forall i :: 0 <= i < |kept| ==> Len(kept[i]) > 0
    ensures (forall i :: 0 <= i < |polls| ==> polls[i].None? || Len(polls[i].value) == 0) <==> kept == []
    ensures (forall i :: 0 <= i < |polls| && polls[i].Some? ==> WellShaped(polls[i].value))
            ==> forall i :: 0 <= i < |kept| ==> WellShaped(kept[i])
  {
    if |polls| == 0 then []
    else
      var rest := Collected(polls[1..]);
      assert forall i :: 1 <= i < |polls| ==> polls[i] == polls[1..][i - 1];
      if polls[0].Some? && Len(polls[0].value) > 0 then [polls[0].value] + rest else rest
  }

  /** A single poll is kept exactly when it brought a non-empty chunk. */
  lemma CollectedOne(p: Option<Buffer>)
    ensures Collected([p]) == if p.Some? && Len(p.value) > 0 then [p.value] else []
  {
    assert [p][1..] == [];
  }

  /** Polling is compositional: the chunks kept over two stretches of polls
      are those kept over the first followed by those kept over the second. */
  lemma {:induction false} CollectedAppend(a: seq<Option<Buffer>>, b: seq<Option<Buffer>>)
    ensures Collected(a + b) == Collected(a) + Collected(b)
    decreases |a|
  {
    if |a| == 0 {
      assert a + b == b;
    } else {
      assert (a + b)[0] == a[0];
      assert (a + b)[1..] == a[1..] + b;
      CollectedAppend(a[1..], b);
    }
  }

  /** Total number of samples or frames of a list of chunks. */
  function TotalLen(chunks: seq<Buffer>): nat
  {
    if |chunks| == 0 then 0 else Len(chunks[0]) + TotalLen(chunks[1..])
  }

  /** Two arrays can be concatenated along the first axis. */
  predicate SameShape(a: Buffer, b: Buffer)
  {
    (a.Flat? && b.Flat?) || (a.Grid? && b.Grid? && a.width == b.width)
  }

  /** Entry `j` along the first axis: one sample, or one row of channels. */
  function Frame(b: Buffer, j: nat): seq<real>
    requires j < Len(b)
  {
    match b
    case Flat(s) => [s[j]]
    case Grid(rows, _) => rows[j]
  }

  /** `np.concatenate([a, b], axis=0)`: the entries of `a` followed by those of `b`. */
  function Append(a: Buffer, b: Buffer): (r: Result<Buffer, ShapeError>)
    requires WellShaped(a) && WellShaped(b)
    ensures r.Ok? <==> SameShape(a, b)
    ensures r.Ok? ==> WellShaped(r.value) && SameShape(a, r.value) && Len(r.value) == Len(a) + Len(b)
    ensures r.Ok? ==> forall j :: 0 <= j < Len(a) ==> Frame(r.value, j) == Frame(a, j)
    ensures r.Ok? ==> forall j :: 0 <= j < Len(b) ==> Frame(r.value, Len(a) + j) == Frame(b, j)
  {
    match (a, b)
    case (Flat(x), Flat(y)) => Ok(Flat(x + y))
    case (Grid(x, w), Grid(y, w')) =>
      if w == w' then
        assert forall i :: 0 <= i < |x + y| ==> (x + y)[i] == if i < |x| then x[i] else y[i - |x|];
        Ok(Grid(x + y, w))
      else Err(ShapeMismatch)
    case _ => Err(ShapeMismatch)
  }

  /** `np.concatenate(chunks, axis=0)` of a non-empty list. */
  function Concatenate(chunks: seq<Buffer>): (r: Result<Buffer, ShapeError>)
    requires |chunks| > 0
    requires forall i :: 0 <= i < |chunks| ==> WellShaped(chunks[i])
    ensures r.Ok? <==> forall i :: 0 <= i < |chunks| ==> SameShape(chunks[0], chunks[i])
    ensures r.Ok? ==> WellShaped(r.value) && SameShape(chunks[0], r.value) && Len(r.value) == TotalLen(chunks)
  {
    if |chunks| == 1 then Ok(chunks[0])
    else
      var rest := Concatenate(chunks[1..]);
      assert forall i :: 1 <= i < |chunks| ==> chunks[i] == chunks[1..][i - 1];
      match rest
      case Err(e) => Err(e)
      case Ok(tail) => Append(chunks[0], tail)
  }

  /** What the concatenation holds: entry `k` of chunk `i` sits at the total
      length of the chunks before it, plus `k`. */
  lemma {:induction false} ConcatenateContents(chunks: seq<Buffer>, i: nat, k: nat)
    requires |chunks| > 0
    requires forall j :: 0 <= j < |chunks| ==> WellShaped(chunks[j])
    requires Concatenate(chunks).Ok?
    requires i < |chunks| && k < Len(chunks[i])
    ensures TotalLen(chunks[..i]) + k < Len(Concatenate(chunks).value)
    ensures Frame(Concatenate(chunks).value, TotalLen(chunks[..i]) + k) == Frame(chunks[i], k)
    decreases i
  {
    if |chunks| == 1 {
      assert chunks[..i] == [];
    } else {
      var rest := chunks[1..];
      assert forall j :: 1 <= j < |chunks| ==> chunks[j] == rest[j - 1];
      var tail := Concatenate(rest).value;
      assert Concatenate(chunks) == Append(chunks[0], tail);
      if i == 0 {
        assert chunks[..i] == [];
      } else {
        assert chunks[..i][1..] == rest[..i - 1];
        assert TotalLen(chunks[..i]) == Len(chunks[0]) + TotalLen(rest[..i - 1]);
        ConcatenateContents(rest, i - 1, k);
      }
    }
  }

  /** The whole of `record_audio` after the polling loop: nothing kept gives
      None; otherwise the kept chunks, concatenated and folded to mono. */
  function Record(polls: seq<Option<Buffer>>): (r: Result<Option<Buffer>, ShapeError>)
    requires forall i :: 0 <= i < |polls| ==> polls[i].Some? ==> WellShaped(polls[i].value)
    ensures r == Ok(None) <==> Collected(polls) == []
    ensures Collected(polls) != [] ==>
              (r.Ok? <==> forall i :: 0 <= i < |Collected(polls)| ==> SameShape(Collected(polls)[0], Collected(polls)[i]))
    ensures r.Ok? && r.value.Some? ==>
              Collected(polls) != [] && Concatenate(Collected(polls)).Ok?
              && r.value.value == MonoForRecording(Concatenate(Collected(polls)).value)
    ensures r.Ok? && r.value.Some? ==> Len(r.value.value) == TotalLen(Collected(polls)) > 0
  {
    var kept := Collected(polls);
    if kept == [] then Ok(None)
    else
      match Concatenate(kept)
      case Err(e) => Err(e)
      case Ok(all) => Ok(Some(MonoForRecording(all)))
  }
}
