/** The audio loops of main.py's live chat bridge: the microphone-to-model
    loop and the model-to-speaker loop. Device calls, the network session and
    scipy's resampler are parameters. */
module Streaming {
  import opened Results
  import opened AudioShape
  import opened Pcm

  /** The rate the model expects outbound audio at. */
  const WireInRate: nat := 16000
  /** The rate the model's audio comes back at. */
  const WireOutRate: nat := 24000

  /** scipy's `resample(x, num)`: its values are not modelled, only that it
      returns the number of samples asked for. Asked for none, it raises
      (its inverse FFT refuses zero points); `Convert` models that case. */
  type Resampler = (seq<real>, nat) -> seq<real>

  ghost predicate ExactLength(resample: Resampler)
  {
    forall x, n :: n > 0 ==> |resample(x, n)| == n
  }

  /** A buffer of `n` samples can be brought from one rate to the other:
      nothing to do when the rates agree, otherwise the source rate must be
      non-zero and the target length `n * to / from` positive. */
  predicate Resamplable(n: nat, fromRate: nat, toRate: nat)
  {
    fromRate == toRate || (fromRate > 0 && n * toRate >= fromRate)
  }

  /** Rate conversion as both loops do it: untouched when the rates agree,
      otherwise resampled to `int(len * to / from)` samples; a zero source
      rate or a zero target length raises. */
  function Convert(xs: seq<real>, fromRate: nat, toRate: nat, resample: Resampler): (r: Option<seq<real>>)
    requires ExactLength(resample)
    ensures fromRate == toRate ==> r == Some(xs)
    ensures r.Some? <==> Resamplable(|xs|, fromRate, toRate)
    ensures r.Some? && fromRate > 0 ==> TargetLength(|xs|, fromRate, toRate) == Some(|r.value|)
  {
    if fromRate == toRate && fromRate > 0 then
      TargetLengthSameRate(|xs|, fromRate);
      Some(xs)
    else if fromRate == toRate then Some(xs)
    else
      match TargetLength(|xs|, fromRate, toRate)
      case None => None
      case Some(n) =>
        TargetLengthPositive(|xs|, fromRate, toRate);
        if n == 0 then None else Some(resample(xs, n))
  }

  /** `(x * 32767).astype(np.int16)` applied sample by sample; the cast itself
      is a parameter. */
  function Quantized(xs: seq<real>, quantize: real -> Int16): (ys: seq<Int16>)
    ensures |ys| == |xs|
  {
    seq(|xs|, i requires 0 <= i < |xs| => quantize(xs[i]))
  }

  /** What one iteration of `capture_and_send_audio` does with a poll. */
  datatype Upload =
    | Idle                        // nothing polled: sleep and poll again
    | Sent(payload: seq<Byte>)    // one PCM blob handed to the session
    | Dropped                     // an exception was caught and logged

  /** One iteration of `capture_and_send_audio`: an empty poll sends nothing;
      otherwise the chunk is folded to mono, brought to 16 kHz and sent as
      16-bit PCM, two bytes per sample. A zero device rate or a zero target
      length raises inside the `try`, and the chunk is dropped. */
  function AudioUpStep(poll: Option<Buffer>, deviceRate: nat, resample: Resampler, quantize: real -> Int16): (u: Upload)
    requires ExactLength(resample)
    requires poll.Some? ==> WellShaped(poll.value)
    ensures u.Idle? <==> poll.None? || Len(poll.value) == 0
    ensures u.Dropped? <==> !u.Idle? && !Resamplable(|MonoForStream(poll.value)|, deviceRate, WireInRate)
    ensures !u.Idle? && deviceRate == 0 ==> u.Dropped?
    ensures u.Sent? ==> var mono := MonoForStream(poll.value);
                        |u.payload| == 2 * (if deviceRate == WireInRate then |mono| else |mono| * WireInRate / deviceRate)
    ensures u.Sent? && deviceRate == WireInRate ==>
              Decode(u.payload) == Ok(Quantized(MonoForStream(poll.value), quantize))
  {
    if poll.None? || Len(poll.value) == 0 then Idle
    else
      var mono := MonoForStream(poll.value);
      match Convert(mono, deviceRate, WireInRate, resample)
      case None => Dropped
      case Some(wire) =>
        var samples := Quantized(wire, quantize);
        DecodeEncode(samples);
        Sent(Encode(samples))
  }

  /** Every polled chunk is a well-formed array. */
  predicate WellPolled(polls: seq<Option<Buffer>>)
  {
    forall i :: 0 <= i < |polls| ==> polls[i].Some? ==> WellShaped(polls[i].value)
  }

  /** The audio-up loop over a run of polls: the blobs it sends, in order. */
  function AudioUpRun(polls: seq<Option<Buffer>>, deviceRate: nat, resample: Resampler, quantize: real -> Int16): (sent: seq<seq<Byte>>)
    requires ExactLength(resample)
    requires WellPolled(polls)
    ensures |sent| <= |polls|
    ensures deviceRate == 0 ==> sent == []
    ensures deviceRate == WireInRate ==> |sent| == NonEmptyPolls(polls)
  {
    if |polls| == 0 then []
    else
      assert forall i :: 1 <= i < |polls| ==> polls[1..][i - 1] == polls[i];
      var rest := AudioUpRun(polls[1..], deviceRate, resample, quantize);
      match AudioUpStep(polls[0], deviceRate, resample, quantize)
      case Sent(p) => [p] + rest
      case _ => rest
  }

  /** How many polls brought a non-empty chunk. */
  function NonEmptyPolls(polls: seq<Option<Buffer>>): nat
  {
    if |polls| == 0 then 0
    else (if polls[0].Some? && Len(polls[0].value) > 0 then 1 else 0) + NonEmptyPolls(polls[1..])
  }

  /** A single poll sends exactly what one iteration sends. */
  lemma AudioUpRunOne(poll: Option<Buffer>, deviceRate: nat, resample: Resampler, quantize: real -> Int16)
    requires ExactLength(resample)
    requires poll.Some? ==> WellShaped(poll.value)
    ensures AudioUpRun([poll], deviceRate, resample, quantize)
            == match AudioUpStep(poll, deviceRate, resample, quantize)
               case Sent(p) => [p]
               case _ => []
  {
    assert [poll][1..] == [];
  }

  /** The loop is compositional: two stretches of polls send the blobs of the
      first stretch, then those of the second, none lost or reordered. */
  lemma {:induction false} AudioUpRunAppend(a: seq<Option<Buffer>>, b: seq<Option<Buffer>>, deviceRate: nat, resample: Resampler, quantize: real -> Int16)
    requires ExactLength(resample)
    requires WellPolled(a) && WellPolled(b)
    ensures WellPolled(a + b)
    ensures AudioUpRun(a + b, deviceRate, resample, quantize)
            == AudioUpRun(a, deviceRate, resample, quantize) + AudioUpRun(b, deviceRate, resample, quantize)
    decreases |a|
  {
    assert forall i :: 0 <= i < |a + b| ==> (a + b)[i] == if i < |a| then a[i] else b[i - |a|];
    if |a| == 0 {
      assert a + b == b;
    } else {
      assert (a + b)[1..] == a[1..] + b;
      assert WellPolled(a[1..]) by {
        assert forall i :: 1 <= i < |a| ==> a[1..][i - 1] == a[i];
      }
      AudioUpRunAppend(a[1..], b, deviceRate, resample, quantize);
    }
  }

  /** What `receive_and_play_audio` does with one inline audio part. */
  datatype Playback =
    | Silent                            // empty data: skipped
    | Play(frames: seq<seq<real>>)      // pushed to the speaker
    | Broken                            // `frombuffer` or the resampler raised: the `receive()` iteration ends

  /** The parts that make the receive loop raise: an odd number of bytes, or
      samples that cannot be brought to the speaker's rate. */
  predicate Breaks(data: seq<Byte>, outRate: nat)
  {
    |data| % 2 == 1 || (|data| > 0 && !Resamplable(|data| / 2, WireOutRate, outRate))
  }

  /** One inline audio part: 16-bit PCM at 24 kHz becomes samples, is brought
      to the speaker's rate and played on both channels. */
  function AudioDownStep(data: seq<Byte>, outRate: nat, resample: Resampler, dequantize: Int16 -> real): (p: Playback)
    requires ExactLength(resample)
    ensures p.Silent? <==> |data| == 0
    ensures p.Broken? <==> Breaks(data, outRate)
    ensures |data| % 2 == 1 ==> p.Broken?
    ensures p.Play? ==> TwoChannels(p.frames) && forall i :: 0 <= i < |p.frames| ==> p.frames[i][0] == p.frames[i][1]
    ensures p.Play? ==> |p.frames| == if outRate == WireOutRate then |data| / 2 else |data| / 2 * outRate / WireOutRate
    ensures p.Play? && outRate == WireOutRate ==>
              forall i :: 0 <= i < |p.frames| ==> p.frames[i][0] == dequantize(DecodeSample(data[2 * i], data[2 * i + 1]))
  {
    if |data| == 0 then Silent
    else
      match Decode(data)
      case Err(_) => Broken
      case Ok(samples) =>
        var mono := seq(|samples|, i requires 0 <= i < |samples| => dequantize(samples[i]));
        match Convert(mono, WireOutRate, outRate, resample)
        case None => Broken
        case Some(out) => Play(Duplicate(out))
  }

  /** What one `receive()` iteration of the loop played, and whether a raising part cut it short. */
  datatype TurnPlayback = TurnPlayback(pushed: seq<seq<seq<real>>>, aborted: bool)

  /** Every part that plays is two-channel. */
  predicate AllStereo(ps: seq<Playback>)
  {
    forall i :: 0 <= i < |ps| ==> ps[i].Play? ==> TwoChannels(ps[i].frames)
  }

  /** How many of the steps played something. */
  function Plays(ps: seq<Playback>): nat
  {
    if |ps| == 0 then 0 else (if ps[0].Play? then 1 else 0) + Plays(ps[1..])
  }

  /** The turn loop over the outcomes of its parts: frames are pushed in
      order, silent parts are skipped, and the first broken part ends the turn. */
  function Gather(ps: seq<Playback>): (t: TurnPlayback)
    requires AllStereo(ps)
    ensures |t.pushed| <= |ps|
    ensures t.aborted <==> exists i :: 0 <= i < |ps| && ps[i].Broken?
    ensures !t.aborted ==> |t.pushed| == Plays(ps)
    ensures forall k :: 0 <= k < |t.pushed| ==> TwoChannels(t.pushed[k])
  {
    if |ps| == 0 then TurnPlayback([], false)
    else
      assert forall i :: 1 <= i < |ps| ==> ps[1..][i - 1] == ps[i];
      match ps[0]
      case Broken => TurnPlayback([], true)
      case Silent => Gather(ps[1..])
      case Play(frames) =>
        var rest := Gather(ps[1..]);
        TurnPlayback([frames] + rest.pushed, rest.aborted)
  }

  /** The turn loop is compositional: after an abort nothing more is played;
      otherwise the second stretch's pushes follow the first's. */
  lemma {:induction false} GatherAppend(p: seq<Playback>, q: seq<Playback>)
    requires AllStereo(p) && AllStereo(q)
    ensures AllStereo(p + q)
    ensures Gather(p + q) == if Gather(p).aborted then Gather(p) else TurnPlayback(Gather(p).pushed + Gather(q).pushed, Gather(q).aborted)
    decreases |p|
  {
    assert forall i :: 0 <= i < |p + q| ==> (p + q)[i] == if i < |p| then p[i] else q[i - |p|];
    if |p| == 0 {
      assert p + q == q;
    } else {
      assert (p + q)[1..] == p[1..] + q;
      assert AllStereo(p[1..]) by {
        assert forall i :: 1 <= i < |p| ==> p[1..][i - 1] == p[i];
      }
      GatherAppend(p[1..], q);
      match p[0]
      case Broken =>
      case Silent =>
      case Play(frames) =>
        var r := Gather(p[1..]);
        assert ([frames] + r.pushed) + Gather(q).pushed == [frames] + (r.pushed + Gather(q).pushed);
    }
  }

  /** The outcome of each inline audio part of a turn, taken on its own. */
  function Steps(parts: seq<seq<Byte>>, outRate: nat, resample: Resampler, dequantize: Int16 -> real): (ps: seq<Playback>)
    requires ExactLength(resample)
    ensures |ps| == |parts| && AllStereo(ps)
    ensures forall i :: 0 <= i < |parts| ==> ps[i] == AudioDownStep(parts[i], outRate, resample, dequantize)
  {
    seq(|parts|, i requires 0 <= i < |parts| => AudioDownStep(parts[i], outRate, resample, dequantize))
  }

  /** Without a raising part, every non-empty part plays. */
  lemma {:induction false} PlaysNonEmpty(parts: seq<seq<Byte>>, outRate: nat, resample: Resampler, dequantize: Int16 -> real)
    requires ExactLength(resample)
    requires forall i :: 0 <= i < |parts| ==> !Breaks(parts[i], outRate)
    ensures Plays(Steps(parts, outRate, resample, dequantize)) == NonEmptyParts(parts)
    decreases |parts|
  {
    if |parts| > 0 {
      var ps := Steps(parts, outRate, resample, dequantize);
      assert ps[1..] == Steps(parts[1..], outRate, resample, dequantize);
      assert forall i :: 1 <= i < |parts| ==> parts[1..][i - 1] == parts[i];
      PlaysNonEmpty(parts[1..], outRate, resample, dequantize);
    }
  }

  /** The inline audio parts delivered by one `receive()` iteration, played
      in order until one raises. The exception ends that iteration; what the
      session delivers to the next `receive()` is outside the model. */
  function PlayTurn(parts: seq<seq<Byte>>, outRate: nat, resample: Resampler, dequantize: Int16 -> real): (t: TurnPlayback)
    requires ExactLength(resample)
    ensures |t.pushed| <= |parts|
    ensures t.aborted <==> exists i :: 0 <= i < |parts| && Breaks(parts[i], outRate)
    ensures !t.aborted ==> |t.pushed| == NonEmptyParts(parts)
    ensures forall k :: 0 <= k < |t.pushed| ==> TwoChannels(t.pushed[k])
  {
    var ps := Steps(parts, outRate, resample, dequantize);
    var t := Gather(ps);
    if t.aborted then t
    else
      PlaysNonEmpty(parts, outRate, resample, dequantize);
      t
  }

  /** How many parts carried any data. */
  function NonEmptyParts(parts: seq<seq<Byte>>): nat
  {
    if |parts| == 0 then 0 else (if |parts[0]| > 0 then 1 else 0) + NonEmptyParts(parts[1..])
  }

  /** A single part plays exactly what one step of the loop plays. */
  lemma PlayTurnOne(part: seq<Byte>, outRate: nat, resample: Resampler, dequantize: Int16 -> real)
    requires ExactLength(resample)
    ensures PlayTurn([part], outRate, resample, dequantize)
            == match AudioDownStep(part, outRate, resample, dequantize)
               case Broken => TurnPlayback([], true)
               case Silent => TurnPlayback([], false)
               case Play(frames) => TurnPlayback([frames], false)
  {
    var ps := Steps([part], outRate, resample, dequantize);
    assert ps[1..] == [];
  }

  /** The receive loop is compositional over the parts of a turn. */
  lemma PlayTurnAppend(a: seq<seq<Byte>>, b: seq<seq<Byte>>, outRate: nat, resample: Resampler, dequantize: Int16 -> real)
    requires ExactLength(resample)
    ensures var ta := PlayTurn(a, outRate, resample, dequantize);
            var tb := PlayTurn(b, outRate, resample, dequantize);
            PlayTurn(a + b, outRate, resample, dequantize)
            == if ta.aborted then ta else TurnPlayback(ta.pushed + tb.pushed, tb.aborted)
  {
    var sa := Steps(a, outRate, resample, dequantize);
    var sb := Steps(b, outRate, resample, dequantize);
    assert Steps(a + b, outRate, resample, dequantize) == sa + sb;
    GatherAppend(sa, sb);
  }

  /** A turn cut short by its first raising part has played exactly the
      parts before it. */
  lemma AbortKeepsPrefix(parts: seq<seq<Byte>>, i: nat, outRate: nat, resample: Resampler, dequantize: Int16 -> real)
    requires ExactLength(resample)
    requires i < |parts| && Breaks(parts[i], outRate)
    requires forall j :: 0 <= j < i ==> !Breaks(parts[j], outRate)
    ensures PlayTurn(parts, outRate, resample, dequantize).aborted
    ensures PlayTurn(parts, outRate, resample, dequantize).pushed == PlayTurn(parts[..i], outRate, resample, dequantize).pushed
  {
    var head, tail := parts[..i], parts[i..];
    assert parts == head + tail;
    assert forall j :: 0 <= j < |head| ==> head[j] == parts[j];
    assert tail[0] == parts[i];
    PlayTurnAppend(head, tail, outRate, resample, dequantize);
    var tt := PlayTurn(tail, outRate, resample, dequantize);
    assert tt == TurnPlayback([], true);
    assert PlayTurn(head, outRate, resample, dequantize).pushed + [] == PlayTurn(head, outRate, resample, dequantize).pushed;
  }

  /** Folding what the speaker is given back to mono gives the converted
      signal: both channels carry the same sample. */
  lemma PlayedChannelsAgree(data: seq<Byte>, resample: Resampler, dequantize: Int16 -> real)
    requires ExactLength(resample)
    requires |data| > 0 && |data| % 2 == 0
    ensures var p := AudioDownStep(data, WireOutRate, resample, dequantize);
            p.Play? && MeanOfChannels(p.frames) == seq(|data| / 2, i requires 0 <= i < |data| / 2 => dequantize(DecodeSample(data[2 * i], data[2 * i + 1])))
  {
    var samples := Decode(data).value;
    var mono := seq(|samples|, i requires 0 <= i < |samples| => dequantize(samples[i]));
    MeanOfDuplicate(mono);
  }
}
