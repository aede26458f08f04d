/** The client's streaming linear resampler. Positions are exact rationals: the
    model keeps the numerator over the target rate, where the program keeps a
    float. */
module Resampler {
  import opened Common
  import opened Pcm

  datatype State = State(samples: seq<int>, position: nat)

  const FRESH := State([], 0)

  /** Linear interpolation at `p / t`, holding the last sample at the end. */
  function Read(samples: seq<int>, p: nat, t: int): int
    requires t > 0 && samples != []
  {
    var left := p / t;
    if left >= |samples| - 1 then samples[|samples| - 1]
    else Trunc(samples[left] * (t - p % t) + samples[left + 1] * (p % t), t)
  }

  function Reads(samples: seq<int>, p: nat, s: nat, t: int, n: nat): (out: seq<int>)
    requires t > 0 && samples != []
    ensures |out| == n
  {
    seq(n, i requires 0 <= i < n => Clamp(Read(samples, p + i * s, t)))
  }

  function Max0(x: int): nat {
    if x < 0 then 0 else x
  }

  /** What is left when everything but one sample before the next read is dropped. */
  function Retain(samples: seq<int>, position: nat, t: int): State
    requires t > 0
  {
    var drop := Max0(position / t - 1);
    State(if drop <= |samples| then samples[drop..] else [], Max0(position - drop * t))
  }

  /** One chunk of decoded samples in, `n` samples out. */
  function ProcessChunk(st: State, input: seq<int>, n: nat, s: nat, t: int): (State, seq<int>)
    requires t > 0
  {
    if input == [] || n == 0 then (st, [])
    else
      var samples := st.samples + input;
      (Retain(samples, st.position + n * s, t), Reads(samples, st.position, s, t, n))
  }

  class PcmResampler {
    const source: nat
    const target: nat
    var samples: seq<int>
    var position: nat

    constructor (source: nat, target: nat)
      requires target > 0
      ensures this.source == source && this.target == target && Now() == FRESH
    {
      this.source, this.target, samples, position := source, target, [], 0;
    }

    ghost function Now(): State
      reads this
    {
      State(samples, position)
    }

    method Process(pcm: Bytes, outputSamples: int) returns (result: Bytes)
      requires target > 0
      modifies this
      ensures source == target ==> result == pcm && Now() == old(Now())
      ensures source != target && (|pcm| < 2 || outputSamples <= 0) ==> result == [] && Now() == old(Now())
      ensures source != target && |pcm| >= 2 && outputSamples > 0 ==> |result| == 2 * outputSamples
      ensures source != target ==>
        (Now(), result) ==
          var (st, out) := ProcessChunk(old(Now()), Decode(pcm), Max0(outputSamples), source, target);
          (st, Encode(out))
    {
      if source == target { return pcm; }
      var data := pcm;
      if |data| % SAMPLE_WIDTH != 0 {
        data := data[..|data| - 1];
      }
      assert Decode(data) == Decode(pcm);
      if data == [] || outputSamples <= 0 { return []; }
      samples := samples + Decode(data);
      var out := ReadAll(outputSamples);
      DropConsumed();
      result := Encode(out);
    }

    /** The samples that no later call reads are dropped. */
    method DropConsumed()
      requires target > 0
      modifies this`samples, this`position
      ensures Now() == Retain(old(samples), old(position), target)
    {
      var drop := if position / target - 1 > 0 then position / target - 1 else 0;
      if drop > 0 {
        samples := if drop <= |samples| then samples[drop..] else [];
        DropFits(position, target);
        position := position - drop * target;
      }
    }

    /** The output loop of a call. */
    method ReadAll(outputSamples: nat) returns (out: seq<int>)
      requires target > 0 && samples != []
      modifies this`position
      ensures position == old(position) + outputSamples * source
      ensures out == Reads(samples, old(position), source, target, outputSamples)
    {
      var start := position;
      out := [];
      var i := 0;
      while i < outputSamples
        invariant 0 <= i <= outputSamples
        invariant position == start + i * source
        invariant out == Reads(samples, start, source, target, i)
      {
        var value := ReadOne();
        out := out + [value];
        assert start + i * source + source == start + (i + 1) * source;
        position := position + source;
        i := i + 1;
      }
    }

    method ReadOne() returns (value: int)
      requires target > 0 && samples != []
      ensures value == Clamp(Read(samples, position, target))
    {
      var left := position / target;
      if left >= |samples| - 1 {
        value := samples[|samples| - 1];
      } else {
        var frac := position - left * target;
        assert position == left * target + position % target;
        value := Trunc(samples[left] * (target - frac) + samples[left + 1] * frac, target);
      }
      if value > 32767 { value := 32767; }
      else if value < -32768 { value := -32768; }
    }
  }

  lemma DropFits(position: nat, t: int)
    requires t > 0
    ensures Max0(position / t - 1) * t <= position
  {
  }

  /* ---------- what a read is ---------- */

  /** At a stored sample's own position a read gives that sample. */
  lemma ReadAtSample(samples: seq<int>, k: nat, t: int)
    requires t > 0 && k < |samples|
    ensures Read(samples, k * t, t) == samples[k]
  {
    DivIs(k * t, k, 0, t);
    if k < |samples| - 1 {
      assert samples[k] * (t - 0) + samples[k + 1] * 0 == samples[k] * t;
      WholeQuotient(samples[k], t);
    }
  }

  lemma WholeQuotient(x: int, t: int)
    requires t > 0
    ensures Trunc(x * t, t) == x
  {
    if x >= 0 {
      MulLe(0, x, t);
      DivIs(x * t, x, 0, t);
    } else {
      MulLe(x + 1, 0, t);
      assert -(x * t) == (-x) * t;
      DivIs((-x) * t, -x, 0, t);
    }
  }

  /** From the last sample on, a read holds it. */
  lemma ReadHolds(samples: seq<int>, p: nat, t: int)
    requires t > 0 && samples != [] && p >= (|samples| - 1) * t
    ensures Read(samples, p, t) == samples[|samples| - 1]
  {
    if p / t < |samples| - 1 {
      DivBetween(p, t, |samples| - 1, p);
    }
  }

  /** Between two samples `x` and `y`, at remainder `r` over `t`, a read is the
      weighted mean of the two, to less than one and on the side of zero. */
  lemma ReadBlends(samples: seq<int>, left: nat, r: nat, t: int)
    requires t > 0 && r < t && left + 1 < |samples|
    ensures var x, y, v := samples[left], samples[left + 1], Read(samples, left * t + r, t);
            var exact := x * (t - r) + y * r;
            if exact >= 0 then v >= 0 && 0 <= exact - v * t < t else v <= 0 && 0 <= v * t - exact < t
  {
    DivIs(left * t + r, left, r, t);
    TruncTowardZero(samples[left] * (t - r) + samples[left + 1] * r, t);
  }

  /** On a straight line a read whose value is whole is exact. */
  lemma ReadExactOnLine(samples: seq<int>, a: int, b: int, left: nat, r: nat, t: int, v: int)
    requires t > 0 && r < t && left + 1 < |samples|
    requires forall i :: 0 <= i < |samples| ==> samples[i] == a + b * i
    requires v * t == a * t + b * (left * t + r)
    ensures Read(samples, left * t + r, t) == v
  {
    DivIs(left * t + r, left, r, t);
    var x, y := samples[left], samples[left + 1];
    OnLine(a, b, left, r, t);
    assert x == a + b * left && y == a + b * (left + 1);
    WholeQuotient(v, t);
  }

  lemma OnLine(a: int, b: int, left: int, r: int, t: int)
    ensures (a + b * left) * (t - r) + (a + b * (left + 1)) * r == a * t + b * (left * t + r)
  {
    var x := a + b * left;
    assert b * (left + 1) == b * left + b;
    assert (x + b) * r == x * r + b * r;
    assert x * (t - r) == x * t - x * r;
    assert x * t == a * t + b * left * t;
    assert b * (left * t + r) == b * left * t + b * r;
  }

  /** Tripling the rate of two samples. */
  lemma TripledExample()
    ensures ProcessChunk(FRESH, [0, 300], 6, 16000, 48000).1 == [0, 100, 200, 300, 300, 300]
  {
    var chunk := [0, 300];
    assert [] + chunk == chunk;
    ThirdsOf(chunk);
    var out := Reads(chunk, 0, 16000, 48000, 6);
    assert out[0] == 0 && out[1] == 100 && out[2] == 200 && out[3] == 300 && out[4] == 300 && out[5] == 300;
    assert out == [0, 100, 200, 300, 300, 300];
  }

  lemma ThirdsOf(chunk: seq<int>)
    requires chunk == [0, 300]
    ensures Read(chunk, 0, 48000) == 0 && Read(chunk, 16000, 48000) == 100 && Read(chunk, 32000, 48000) == 200
    ensures Read(chunk, 48000, 48000) == Read(chunk, 64000, 48000) == Read(chunk, 80000, 48000) == 300
  {
    assert Read(chunk, 0, 48000) == 0;
    assert Read(chunk, 16000, 48000) == 100;
    assert Read(chunk, 32000, 48000) == 200;
    assert Read(chunk, 48000, 48000) == 300;
    assert Read(chunk, 64000, 48000) == 300;
    assert Read(chunk, 80000, 48000) == 300;
  }

  /* ---------- every output lies between its neighbours ---------- */

  lemma ReadBetween(samples: seq<int>, p: nat, t: int, lo: int, hi: int)
    requires t > 0 && samples != []
    requires var left := p / t;
             if left >= |samples| - 1 then lo <= samples[|samples| - 1] <= hi
             else lo <= samples[left] <= hi && lo <= samples[left + 1] <= hi
    ensures lo <= Read(samples, p, t) <= hi
  {
    var left, r := p / t, p % t;
    if left < |samples| - 1 {
      Blend(samples[left], samples[left + 1], r, t, lo, hi);
      TruncBetween(samples[left] * (t - r) + samples[left + 1] * r, t, lo, hi);
    }
  }

  lemma Blend(x: int, y: int, r: int, t: int, lo: int, hi: int)
    requires 0 <= r < t && lo <= x <= hi && lo <= y <= hi
    ensures lo * t <= x * (t - r) + y * r <= hi * t
  {
    assert lo * (t - r) <= x * (t - r) <= hi * (t - r);
    assert lo * r <= y * r <= hi * r;
    assert lo * (t - r) + lo * r == lo * t;
    assert hi * (t - r) + hi * r == hi * t;
  }

  /** So on 16-bit input the clamp never fires. */
  lemma ClampNeverFires(samples: seq<int>, p: nat, t: int)
    requires t > 0 && samples != [] && AllSamples(samples)
    ensures Clamp(Read(samples, p, t)) == Read(samples, p, t)
  {
    ReadBetween(samples, p, t, -32768, 32767);
  }

  /* ---------- streaming ---------- */

  /** Dropping `d` samples from the front and moving back by `d` reads the same. */
  lemma ReadShift(whole: seq<int>, d: nat, p: nat, t: int)
    requires t > 0 && d < |whole|
    ensures Read(whole[d..], p, t) == Read(whole, p + d * t, t)
  {
    DivShift(p, d, t);
    var tail, left := whole[d..], p / t;
    if left < |tail| - 1 {
      assert tail[left] == whole[left + d] && tail[left + 1] == whole[left + d + 1];
    }
  }

  lemma DivShift(p: int, d: int, t: int)
    requires t > 0
    ensures (p + d * t) / t == p / t + d && (p + d * t) % t == p % t
  {
    var q, r := p / t, p % t;
    assert p == q * t + r;
    assert p + d * t == (q + d) * t + r;
    DivIs(p + d * t, q + d, r, t);
  }

  /** One call: the samples handed in and the number asked for. */
  datatype Call = Call(chunk: seq<int>, count: nat)

  /** All samples handed in, in order. */
  function Joined(calls: seq<Call>): seq<int> {
    if calls == [] then [] else Joined(calls[..|calls| - 1]) + calls[|calls| - 1].chunk
  }

  /** How many samples the calls ask for. */
  function Asked(calls: seq<Call>): nat {
    if calls == [] then 0 else Asked(calls[..|calls| - 1]) + calls[|calls| - 1].count
  }

  /** The state after the calls, and all their outputs one after another. */
  function Stream(calls: seq<Call>, s: nat, t: int): (State, seq<int>)
    requires t > 0
  {
    if calls == [] then (FRESH, [])
    else
      var (st, out) := Stream(calls[..|calls| - 1], s, t);
      var (st', more) := ProcessChunk(st, calls[|calls| - 1].chunk, calls[|calls| - 1].count, s, t);
      (st', out + more)
  }

  /** Matched sizes: `n` output samples last as long as `m` input samples. */
  predicate Matched(m: nat, n: nat, s: nat, t: int) {
    m > 0 && n > 0 && t > 0 && n * s == m * t
  }

  /** Every call is matched by itself; their sizes may differ. */
  predicate AllMatched(calls: seq<Call>, s: nat, t: int) {
    forall i :: 0 <= i < |calls| ==> Matched(|calls[i].chunk|, calls[i].count, s, t) && AllSamples(calls[i].chunk)
  }

  /** Output and input last equally long over the whole stream. */
  lemma {:induction false} JoinedLasts(calls: seq<Call>, s: nat, t: int)
    requires AllMatched(calls, s, t)
    ensures Asked(calls) * s == |Joined(calls)| * t && AllSamples(Joined(calls))
    ensures calls != [] ==> Joined(calls) != []
  {
    if calls != [] {
      var pre, last := calls[..|calls| - 1], calls[|calls| - 1];
      JoinedLasts(pre, s, t);
      Distributes(Asked(pre), last.count, s);
      Distributes(|Joined(pre)|, |last.chunk|, t);
    }
  }

  lemma Distributes(a: int, b: int, c: int)
    ensures (a + b) * c == a * c + b * c
  {
  }

  /** The resampler's state once `before` has gone through it. */
  function Retained(before: seq<int>, t: nat): State {
    if before == [] then FRESH else State(before[|before| - 1..], t)
  }

  /** A call whose first output is number `made` reads the stream so far at
      `k * source / target` for each of its outputs `k`. */
  ghost predicate CallReads(out: seq<int>, whole: seq<int>, made: nat, s: nat, t: int) {
    t > 0 && whole != [] && forall i :: 0 <= i < |out| ==> out[i] == Read(whole, At(made, i, s), t)
  }

  function At(made: nat, i: nat, s: nat): nat {
    (made + i) * s
  }

  /** The first call, and every later one, ends with one retained sample and
      position 1, and reads the stream so far at the right places. */
  lemma OneCall(before: seq<int>, call: Call, made: nat, s: nat, t: nat)
    requires Matched(|call.chunk|, call.count, s, t) && made * s == |before| * t
    requires AllSamples(before) && AllSamples(call.chunk)
    ensures var (st', out) := ProcessChunk(Retained(before, t), call.chunk, call.count, s, t);
            && st' == Retained(before + call.chunk, t)
            && |out| == call.count && CallReads(out, before + call.chunk, made, s, t)
  {
    var d := Dropped(before, call.chunk, t);
    var st, whole := Retained(before, t), before + call.chunk;
    RetainsOne(whole, d, st.position, |before|, call, s, t);
    OutputsRead(whole, d, st.position, call.count, made, s, t);
  }

  /** How many samples of the stream so far the retained state has dropped. */
  lemma Dropped(before: seq<int>, chunk: seq<int>, t: nat) returns (d: nat)
    requires chunk != []
    ensures var st := Retained(before, t);
            && d < |before + chunk| && st.samples + chunk == (before + chunk)[d..]
            && st.position + d * t == |before| * t && (d == 0 || st.position == t)
  {
    if before == [] {
      d := 0;
    } else {
      d := |before| - 1;
      Distributes(d, 1, t);
    }
  }

  lemma OutputsRead(whole: seq<int>, d: nat, p: nat, n: nat, made: nat, s: nat, t: int)
    requires t > 0 && d < |whole| && AllSamples(whole) && p + d * t == made * s
    ensures CallReads(Reads(whole[d..], p, s, t, n), whole, made, s, t)
  {
    var out := Reads(whole[d..], p, s, t, n);
    forall i | 0 <= i < n ensures out[i] == Read(whole, At(made, i, s), t) {
      MulLe(0, i, s);
      ClampNeverFires(whole[d..], p + i * s, t);
      ReadShift(whole, d, p + i * s, t);
      Distributes(made, i, s);
    }
  }

  lemma RetainsOne(whole: seq<int>, d: nat, p: nat, before: nat, call: Call, s: nat, t: int)
    requires Matched(|call.chunk|, call.count, s, t) && |whole| == before + |call.chunk| && d < |whole|
    requires p + d * t == before * t && (d == 0 || p == t)
    ensures Retain(whole[d..], p + call.count * s, t) == State(whole[|whole| - 1..], t)
  {
    var local := |whole| - d;
    Distributes(local, d, t);
    Distributes(before, |call.chunk|, t);
    Distributes(local - 1, 1, t);
    assert p + call.count * s == local * t;
    DivIs(local * t, local, 0, t);
    assert whole[d..][local - 1..] == whole[|whole| - 1..];
  }

  /** No drift and bounded memory: after any number of matched calls exactly one
      sample is retained, at position 1, and exactly the asked samples are out. */
  lemma {:induction false} StreamRetains(calls: seq<Call>, s: nat, t: nat)
    requires t > 0 && AllMatched(calls, s, t)
    ensures Stream(calls, s, t).0 == Retained(Joined(calls), t)
    ensures |Stream(calls, s, t).1| == Asked(calls)
  {
    if calls != [] {
      var pre := calls[..|calls| - 1];
      StreamRetains(pre, s, t);
      JoinedLasts(pre, s, t);
      OneCall(Joined(pre), calls[|calls| - 1], Asked(pre), s, t);
    }
  }

  /** What the last call adds. */
  lemma LastCall(calls: seq<Call>, s: nat, t: nat)
    requires t > 0 && calls != [] && AllMatched(calls, s, t)
    ensures var made, out := Asked(calls[..|calls| - 1]), Stream(calls, s, t).1;
            && |out| == made + calls[|calls| - 1].count
            && out[..made] == Stream(calls[..|calls| - 1], s, t).1
            && CallReads(out[made..], Joined(calls), made, s, t)
  {
    var pre := calls[..|calls| - 1];
    StreamRetains(pre, s, t);
    JoinedLasts(pre, s, t);
    OneCall(Joined(pre), calls[|calls| - 1], Asked(pre), s, t);
  }

  /** Output number `made + i` reads `whole` at its own position. */
  ghost predicate ReadsAt(out: seq<int>, whole: seq<int>, made: nat, i: nat, s: nat, t: int) {
    t > 0 && whole != [] && made + i < |out| && out[made + i] == Read(whole, At(made, i, s), t)
  }

  lemma ReadsAtGrows(part: seq<int>, out: seq<int>, whole: seq<int>, made: nat, i: nat, s: nat, t: int)
    requires ReadsAt(part, whole, made, i, s, t) && |part| <= |out| && out[..|part|] == part
    ensures ReadsAt(out, whole, made, i, s, t)
  {
    assert out[..|part|][made + i] == out[made + i];
  }

  lemma ReadsAtLast(out: seq<int>, whole: seq<int>, made: nat, i: nat, s: nat, t: int)
    requires made + i < |out| && CallReads(out[made..], whole, made, s, t)
    ensures ReadsAt(out, whole, made, i, s, t)
  {
    assert out[made..][i] == out[made + i];
  }

  /** Output `i` of call `j`, number `Asked(calls[..j]) + i` of the stream, reads
      what has been handed in up to that call. */
  lemma {:induction false} StreamReads(calls: seq<Call>, s: nat, t: nat, j: nat, i: nat)
    requires t > 0 && AllMatched(calls, s, t) && j < |calls| && i < calls[j].count
    ensures ReadsAt(Stream(calls, s, t).1, Joined(calls[..j + 1]), Asked(calls[..j]), i, s, t)
    decreases |calls|
  {
    if j < |calls| - 1 {
      StreamReads(calls[..|calls| - 1], s, t, j, i);
      StillReads(calls, s, t, j, i);
    } else {
      LastCall(calls, s, t);
      assert calls[..j + 1] == calls;
      ReadsAtLast(Stream(calls, s, t).1, Joined(calls), Asked(calls[..j]), i, s, t);
    }
  }

  /** Another call leaves what was read before it. */
  lemma StillReads(calls: seq<Call>, s: nat, t: nat, j: nat, i: nat)
    requires t > 0 && AllMatched(calls, s, t) && j < |calls| - 1
    requires var pre := calls[..|calls| - 1];
             ReadsAt(Stream(pre, s, t).1, Joined(pre[..j + 1]), Asked(pre[..j]), i, s, t)
    ensures ReadsAt(Stream(calls, s, t).1, Joined(calls[..j + 1]), Asked(calls[..j]), i, s, t)
  {
    var pre := calls[..|calls| - 1];
    LastCall(calls, s, t);
    assert pre[..j] == calls[..j] && pre[..j + 1] == calls[..j + 1];
    StreamRetains(pre, s, t);
    ReadsAtGrows(Stream(pre, s, t).1, Stream(calls, s, t).1, Joined(calls[..j + 1]), Asked(calls[..j]), i, s, t);
  }

  /** The stream itself, read anywhere before its last sample, does not depend on
      what comes later; at the last sample of a chunk the resampler holds it. */
  lemma PrefixRead(soFar: seq<int>, later: seq<int>, p: nat, t: int)
    requires t > 0 && soFar != [] && p / t <= |soFar| - 1
    ensures Read(soFar, p, t) ==
      if p / t == |soFar| - 1 then (soFar + later)[p / t] else Read(soFar + later, p, t)
  {
  }

  lemma {:induction false} JoinedSplit(calls: seq<Call>, k: nat)
    requires k <= |calls|
    ensures Joined(calls[..k]) <= Joined(calls)
    decreases |calls|
  {
    if k == |calls| {
      assert calls[..k] == calls;
    } else {
      var pre := calls[..|calls| - 1];
      JoinedSplit(pre, k);
      assert pre[..k] == calls[..k];
    }
  }

  lemma Positive(a: nat, b: nat)
    requires a * b > 0
    ensures b > 0
  {
  }

  /** Where an output reads, against the end of its call's chunk. */
  lemma ReadPosition(soFar: nat, made: nat, n: nat, s: nat, t: int, i: nat)
    requires t > 0 && i < n && soFar > 0 && (made + n) * s == soFar * t
    ensures At(made, i, s) / t <= soFar - 1
    ensures s > t ==> At(made, i, s) / t < soFar - 1
  {
    var g := At(made, i, s);
    MulLe(1, soFar, t);
    Positive(made + n, s);
    MulLe(made + i + 1, made + n, s);
    Distributes(made + i, 1, s);
    Distributes(soFar - 1, 1, t);
    DivBelow(g, t, soFar);
    if s > t { DivBelow(g, t, soFar - 1); }
  }

  /** Output `made + i` of a call whose chunk ends at sample `end` of the whole
      stream: interpolation at its own position, or the chunk's last sample held. */
  ghost predicate Interpolates(out: seq<int>, whole: seq<int>, end: nat, made: nat, i: nat, s: nat, t: int) {
    && t > 0 && made + i < |out|
    && var k, g := made + i, At(made, i, s);
       && g / t < |whole|
       && out[k] == (if g / t == end - 1 then whole[g / t] else Read(whole, g, t))
       && (s > t ==> out[k] == Read(whole, g, t))
  }

  /** Streaming against one shot, for calls of any matched sizes: output `k` is
      linear interpolation of the whole stream at `k * source / target`; exactly so
      when down-sampling, and when up-sampling except that past the last sample of
      a chunk that sample is held. */
  lemma StreamingRefinesOneShot(calls: seq<Call>, s: nat, t: nat, j: nat, i: nat)
    requires t > 0 && AllMatched(calls, s, t) && j < |calls| && i < calls[j].count
    ensures Interpolates(Stream(calls, s, t).1, Joined(calls), |Joined(calls[..j + 1])|, Asked(calls[..j]), i, s, t)
  {
    StreamReads(calls, s, t, j, i);
    LastsUpTo(calls, s, t, j);
    JoinedSplit(calls, j + 1);
    var made := Asked(calls[..j]);
    HeldOrRead(Stream(calls, s, t).1, Joined(calls), Joined(calls[..j + 1]), made, calls[j].count, i, s, t);
  }

  lemma LastsUpTo(calls: seq<Call>, s: nat, t: int, j: nat)
    requires AllMatched(calls, s, t) && j < |calls|
    ensures (Asked(calls[..j]) + calls[j].count) * s == |Joined(calls[..j + 1])| * t
  {
    JoinedLasts(calls[..j + 1], s, t);
    assert calls[..j + 1][..j] == calls[..j];
  }

  lemma HeldOrRead(out: seq<int>, whole: seq<int>, soFar: seq<int>, made: nat, n: nat, i: nat, s: nat, t: int)
    requires ReadsAt(out, soFar, made, i, s, t) && soFar <= whole && i < n && (made + n) * s == |soFar| * t
    ensures Interpolates(out, whole, |soFar|, made, i, s, t)
  {
    ReadPosition(|soFar|, made, n, s, t, i);
    assert whole == soFar + whole[|soFar|..];
    PrefixRead(soFar, whole[|soFar|..], At(made, i, s), t);
  }

  /** Which call makes output `k`. */
  lemma {:induction false} MadeBy(calls: seq<Call>, k: nat) returns (j: nat, i: nat)
    requires k < Asked(calls)
    ensures j < |calls| && i < calls[j].count && k == Asked(calls[..j]) + i
  {
    var pre := calls[..|calls| - 1];
    if k < Asked(pre) {
      j, i := MadeBy(pre, k);
      assert pre[..j] == calls[..j];
    } else {
      j, i := |calls| - 1, k - Asked(pre);
    }
  }

  lemma OneOutput(calls: seq<Call>, s: nat, t: nat, k: nat)
    requires t > 0 && s > t && AllMatched(calls, s, t) && k < Asked(calls)
    ensures k < |Stream(calls, s, t).1| && Joined(calls) != []
    ensures Stream(calls, s, t).1[k] == Read(Joined(calls), At(0, k, s), t)
  {
    var j, i := MadeBy(calls, k);
    StreamingRefinesOneShot(calls, s, t, j, i);
    assert At(Asked(calls[..j]), i, s) == At(0, k, s);
  }

  /** Down-sampling call by call gives the very samples of down-sampling the whole
      stream in one call, however the stream was cut. */
  lemma DownSamplingIsOneShot(calls: seq<Call>, s: nat, t: nat)
    requires t > 0 && s > t && AllMatched(calls, s, t)
    ensures Stream(calls, s, t).1 == ProcessChunk(FRESH, Joined(calls), Asked(calls), s, t).1
  {
    var out, shot := Stream(calls, s, t).1, ProcessChunk(FRESH, Joined(calls), Asked(calls), s, t).1;
    StreamRetains(calls, s, t);
    JoinedLasts(calls, s, t);
    if Asked(calls) > 0 {
      forall k | 0 <= k < Asked(calls) ensures |shot| == Asked(calls) && out[k] == shot[k] {
        OneOutput(calls, s, t, k);
        OneShot(Joined(calls), Asked(calls), s, t, k);
      }
      OneShot(Joined(calls), Asked(calls), s, t, 0);
    }
  }

  lemma OneShot(whole: seq<int>, count: nat, s: nat, t: nat, k: nat)
    requires t > 0 && whole != [] && AllSamples(whole) && k < count
    ensures |ProcessChunk(FRESH, whole, count, s, t).1| == count
    ensures ProcessChunk(FRESH, whole, count, s, t).1[k] == Read(whole, At(0, k, s), t)
  {
    assert [] + whole == whole;
    ClampNeverFires(whole, At(0, k, s), t);
  }

  /* ---------- packet sizes ---------- */

  const FRAME_DURATION_MS := 20

  function FramesPerPacket(rate: nat): nat {
    var frames := rate * FRAME_DURATION_MS / 1000;
    if frames < 1 then 1 else frames
  }

  /** As many whole frames as last 20 ms, and at least one. */
  lemma FramesPerPacketIs(rate: nat)
    ensures var n := FramesPerPacket(rate);
            n >= 1 && (rate >= 50 ==> 50 * n <= rate < 50 * (n + 1)) && (rate < 50 ==> n == 1)
  {
    assert rate * 20 / 1000 == rate / 50;
  }

  /** A device's packets match the network's exactly when its rate is a multiple
      of 50: both for capture down to the network rate and for playback from it. */
  lemma PacketsMatchExactly(rate: nat)
    requires rate > 0
    ensures Matched(FramesPerPacket(rate), FRAME_SIZE, rate, SAMPLE_RATE) <==> rate % 50 == 0
    ensures Matched(FRAME_SIZE, FramesPerPacket(rate), SAMPLE_RATE, rate) <==> rate % 50 == 0
  {
    var q, r := rate / 50, rate % 50;
    assert rate * FRAME_DURATION_MS / 1000 == q by {
      assert rate * 20 == 1000 * q + 20 * r;
    }
    assert 320 * rate == 16000 * q + 320 * r;
  }
}
