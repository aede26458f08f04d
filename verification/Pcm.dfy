/** Mono 16-bit little-endian PCM and the integer arithmetic on its samples. */
module Pcm {
  import opened Common

  const SAMPLE_WIDTH := 2
  const FRAME_SIZE := 320
  const FRAME_BYTES := 640
  const SAMPLE_RATE := 16000

  predicate IsSample(v: int) {
    -32768 <= v <= 32767
  }

  predicate AllSamples(s: seq<int>) {
    forall i :: 0 <= i < |s| ==> IsSample(s[i])
  }

  function Sample(lo: byte, hi: byte): (v: int)
    ensures IsSample(v)
  {
    var v := lo + 256 * hi;
    if v >= 32768 then v - 65536 else v
  }

  function LowByte(v: int): byte {
    v % 256
  }

  function HighByte(v: int): byte {
    v % 65536 / 256
  }

  /** `struct.unpack("<nh", ...)` on an even number of bytes. */
  function Decode(bs: Bytes): (s: seq<int>)
    ensures |s| == |bs| / 2
  {
    seq(|bs| / 2, i requires 0 <= i < |bs| / 2 => Sample(bs[2 * i], bs[2 * i + 1]))
  }

  /** `struct.pack("<nh", ...)`. */
  function Encode(s: seq<int>): (bs: Bytes)
    ensures |bs| == 2 * |s|
  {
    seq(2 * |s|, j requires 0 <= j < 2 * |s| => if j % 2 == 0 then LowByte(s[j / 2]) else HighByte(s[j / 2]))
  }

  /** Little-endian two's complement: the sample is the 16-bit value whose low byte
      comes first. */
  lemma LittleEndian(bs: Bytes, i: nat)
    requires 2 * i + 1 < |bs|
    ensures -32768 <= Decode(bs)[i] <= 32767
    ensures var low: int, high: int := bs[2 * i], bs[2 * i + 1];
            (Decode(bs)[i] - (low + 256 * high)) % 65536 == 0
  {
    var low: int, high: int := bs[2 * i], bs[2 * i + 1];
    assert Decode(bs)[i] == low + 256 * high || Decode(bs)[i] == low + 256 * high - 65536;
  }

  lemma SampleBytes(v: int)
    requires IsSample(v)
    ensures Sample(LowByte(v), HighByte(v)) == v
  {
    var w := if v < 0 then v + 65536 else v;
    assert v % 65536 == w && v % 256 == w % 256;
    DivIs(w, w / 256, w % 256, 256);
  }

  lemma BytesSample(lo: byte, hi: byte)
    ensures LowByte(Sample(lo, hi)) == lo && HighByte(Sample(lo, hi)) == hi
  {
    var w: int := lo + 256 * hi;
    DivIs(w, hi, lo, 256);
    DivIs(w, 0, w, 65536);
    DivIs(w - 65536, hi - 256, lo, 256);
    DivIs(w - 65536, -1, w, 65536);
  }

  lemma DecodeEncode(s: seq<int>)
    requires AllSamples(s)
    ensures Decode(Encode(s)) == s
  {
    forall i | 0 <= i < |s| ensures Decode(Encode(s))[i] == s[i] {
      DecodeEncodeAt(s, i);
    }
  }

  lemma DecodeEncodeAt(s: seq<int>, i: nat)
    requires i < |s| && IsSample(s[i])
    ensures Decode(Encode(s))[i] == s[i]
  {
    var bs := Encode(s);
    assert (2 * i) / 2 == i && (2 * i + 1) / 2 == i;
    assert bs[2 * i] == LowByte(s[i]);
    assert bs[2 * i + 1] == HighByte(s[i]);
    SampleBytes(s[i]);
  }

  lemma EncodeDecode(bs: Bytes)
    requires |bs| % 2 == 0
    ensures Encode(Decode(bs)) == bs
  {
    forall j | 0 <= j < |bs| ensures Encode(Decode(bs))[j] == bs[j] {
      BytesSample(bs[2 * (j / 2)], bs[2 * (j / 2) + 1]);
    }
  }

  /** Padding with silence, or cutting, to an exact length. */
  function Fit(pcm: Bytes, length: nat): Bytes {
    if |pcm| < length then pcm + seq(length - |pcm|, _ => 0)
    else if |pcm| > length then pcm[..length]
    else pcm
  }

  lemma FitIs(pcm: Bytes, length: nat)
    ensures |Fit(pcm, length)| == length
    ensures forall i :: 0 <= i < length ==> Fit(pcm, length)[i] == if i < |pcm| then pcm[i] else 0
  {
  }

  /** Division that truncates toward zero: Python's `int(a / b)`. */
  function Trunc(a: int, b: int): int
    requires b > 0
  {
    if a >= 0 then a / b else -((-a) / b)
  }

  /** The truncated quotient is the nearest whole number on the side of zero. */
  lemma TruncTowardZero(a: int, b: int)
    requires b > 0
    ensures a >= 0 ==> Trunc(a, b) >= 0 && 0 <= a - Trunc(a, b) * b < b
    ensures a < 0 ==> Trunc(a, b) <= 0 && 0 <= Trunc(a, b) * b - a < b
  {
    var size := if a >= 0 then a else -a;
    var q := size / b;
    assert size == q * b + size % b;
    assert (-q) * b == -(q * b);
    DivBetween(size, b, 0, size) by { MulLe(1, b, size); }
  }

  lemma MulLe(a: int, b: int, t: int)
    requires a <= b && t >= 0
    ensures a * t <= b * t
  {
  }

  /** Quotients respect integer bounds. */
  lemma DivBetween(a: int, t: int, lo: int, hi: int)
    requires t > 0 && lo * t <= a <= hi * t
    ensures lo <= a / t <= hi
  {
    var q := a / t;
    assert a == q * t + a % t;
    assert (q + 1) * t == q * t + t;
    if q < lo { MulLe(q + 1, lo, t); }
    if q > hi {
      assert (hi + 1) * t == hi * t + t;
      MulLe(hi + 1, q, t);
    }
  }

  lemma DivBelow(a: int, t: int, h: int)
    requires t > 0 && a < h * t
    ensures a / t < h
  {
    assert a == a / t * t + a % t;
    if a / t >= h { MulLe(h, a / t, t); }
  }

  lemma DivIs(a: int, q: int, r: int, t: int)
    requires t > 0 && 0 <= r < t && a == q * t + r
    ensures a / t == q && a % t == r
  {
    var q' := a / t;
    assert a == q' * t + a % t;
    assert (q + 1) * t == q * t + t && (q' + 1) * t == q' * t + t;
    if q' < q { MulLe(q' + 1, q, t); }
    if q' > q { MulLe(q + 1, q', t); }
  }

  /** A truncated quotient stays between integer bounds of the quotient. */
  lemma TruncBetween(a: int, b: int, lo: int, hi: int)
    requires b > 0 && lo * b <= a <= hi * b
    ensures lo <= Trunc(a, b) <= hi
  {
    if a >= 0 {
      DivBetween(a, b, lo, hi);
    } else {
      assert (-hi) * b == -(hi * b) && (-lo) * b == -(lo * b);
      DivBetween(-a, b, -hi, -lo);
    }
  }

  function Clamp(v: int): int {
    if v > 32767 then 32767 else if v < -32768 then -32768 else v
  }

  /** The clamp is the nearest 16-bit value. */
  lemma ClampIs(v: int)
    ensures -32768 <= Clamp(v) <= 32767
    ensures -32768 <= v <= 32767 ==> Clamp(v) == v
    ensures v > 32767 ==> Clamp(v) == 32767
    ensures v < -32768 ==> Clamp(v) == -32768
  {
  }
}
