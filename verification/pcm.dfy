/** 16-bit PCM on the wire: `astype(np.int16).tobytes()` outbound and
    `np.frombuffer(data, dtype=np.int16)` inbound in main.py, both in
    little-endian byte order. */
module Pcm {
  import opened Results

  type Byte = b: int | 0 <= b < 256
  type Int16 = v: int | -32768 <= v < 32768

  /** `frombuffer` refuses a buffer whose length is not a whole number of samples. */
  datatype DecodeError = OddLength

  /** One sample as two bytes, low byte first, two's complement. */
  function EncodeSample(v: Int16): (bs: seq<Byte>)
    ensures |bs| == 2
  {
    var u := if v < 0 then v + 65536 else v;
    [u % 256, u / 256]
  }

  /** The sample two bytes (low byte first) stand for. */
  function DecodeSample(lo: Byte, hi: Byte): Int16
  {
    var u := lo + 256 * hi;
    if u >= 32768 then u - 65536 else u
  }

  lemma SampleRoundTrip(v: Int16)
    ensures DecodeSample(EncodeSample(v)[0], EncodeSample(v)[1]) == v
  {
  }

  lemma BytesRoundTrip(lo: Byte, hi: Byte)
    ensures EncodeSample(DecodeSample(lo, hi)) == [lo, hi]
  {
  }

  /** The byte string of a sequence of samples: two bytes per sample, in order. */
  function Encode(xs: seq<Int16>): (bs: seq<Byte>)
    ensures |bs| == 2 * |xs|
    ensures forall i :: 0 <= i < |xs| ==> bs[2 * i..2 * i + 2] == EncodeSample(xs[i])
  {
    if |xs| == 0 then []
    else
      var rest := Encode(xs[1..]);
      var bs := EncodeSample(xs[0]) + rest;
      assert forall i :: 1 <= i < |xs| ==> bs[2 * i..2 * i + 2] == rest[2 * (i - 1)..2 * (i - 1) + 2];
      bs
  }

  /** Decoding an even-length byte string, two bytes per sample. */
  function DecodeEven(bs: seq<Byte>): (xs: seq<Int16>)
    requires |bs| % 2 == 0
    ensures |xs| == |bs| / 2
  {
    seq(|bs| / 2, i requires 0 <= i < |bs| / 2 => DecodeSample(bs[2 * i], bs[2 * i + 1]))
  }

  /** `np.frombuffer(data, dtype=np.int16)`: `n` bytes are `n / 2` samples,
      and an odd `n` is an error. */
  function Decode(bs: seq<Byte>): (r: Result<seq<Int16>, DecodeError>)
    ensures r.Ok? <==> |bs| % 2 == 0
    ensures r.Ok? ==> |r.value| == |bs| / 2
  {
    if |bs| % 2 != 0 then Err(OddLength) else Ok(DecodeEven(bs))
  }

  /** What is sent decodes back to the samples it came from. */
  lemma {:induction false} DecodeEncode(xs: seq<Int16>)
    ensures Decode(Encode(xs)) == Ok(xs)
  {
    var bs := Encode(xs);
    var ys := DecodeEven(bs);
    forall i | 0 <= i < |xs|
      ensures ys[i] == xs[i]
    {
      assert bs[2 * i..2 * i + 2] == EncodeSample(xs[i]);
      assert bs[2 * i] == EncodeSample(xs[i])[0] && bs[2 * i + 1] == EncodeSample(xs[i])[1];
      SampleRoundTrip(xs[i]);
    }
    assert ys == xs;
  }

  /** Decoding peels off the first two bytes as the first sample. */
  lemma DecodeEvenFront(bs: seq<Byte>)
    requires |bs| >= 2 && |bs| % 2 == 0
    ensures DecodeEven(bs) == [DecodeSample(bs[0], bs[1])] + DecodeEven(bs[2..])
  {
    var xs := DecodeEven(bs);
    var tail := DecodeEven(bs[2..]);
    assert forall i :: 1 <= i < |xs| ==> tail[i - 1] == xs[i];
  }

  /** Encoding a sample in front puts its two bytes in front. */
  lemma EncodeFront(x: Int16, xs: seq<Int16>)
    ensures Encode([x] + xs) == EncodeSample(x) + Encode(xs)
  {
    assert ([x] + xs)[1..] == xs;
  }

  /** Every even-length byte string is the encoding of what it decodes to. */
  lemma {:induction false} EncodeDecode(bs: seq<Byte>)
    requires |bs| % 2 == 0
    ensures Decode(bs).Ok? && Encode(Decode(bs).value) == bs
    decreases |bs|
  {
    if |bs| > 0 {
      var x := DecodeSample(bs[0], bs[1]);
      var tail := DecodeEven(bs[2..]);
      calc {
        Encode(DecodeEven(bs));
        == { DecodeEvenFront(bs); }
        Encode([x] + tail);
        == { EncodeFront(x, tail); }
        EncodeSample(x) + Encode(tail);
        == { EncodeDecode(bs[2..]); BytesRoundTrip(bs[0], bs[1]); }
        [bs[0], bs[1]] + bs[2..];
        == { assert bs == [bs[0], bs[1]] + bs[2..]; }
        bs;
      }
    }
  }
}
