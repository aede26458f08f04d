/** The server's audio mixer: bounded jitter buffers drained one frame per tick,
    and the average of everyone else's frames for each listener. */
module AudioMixer {
  import opened Common
  import opened Pcm

  const JITTER_FRAMES := 10

  /** `buffers` are the jitter buffers by user id, oldest frame first. */
  datatype Mixer = Mixer(buffers: map<int, seq<Bytes>>, usernames: map<int, string>)

  const EMPTY_MIXER := Mixer(map[], map[])

  /** Appending to a `deque(maxlen=10)`: a full one drops its oldest entry. */
  function Push(q: seq<Bytes>, frame: Bytes): seq<Bytes> {
    if |q| < JITTER_FRAMES then q + [frame] else (q + [frame])[|q| + 1 - JITTER_FRAMES..]
  }

  function BufferOf(m: Mixer, u: int): seq<Bytes> {
    if u in m.buffers then m.buffers[u] else []
  }

  function Add(m: Mixer, u: int, name: string): Mixer {
    if u in m.buffers then m else Mixer(m.buffers[u := []], m.usernames[u := name])
  }

  function Remove(m: Mixer, u: int): Mixer {
    Mixer(m.buffers - {u}, m.usernames - {u})
  }

  /** A frame that did not decode from base64 is ignored. */
  function Feed(m: Mixer, u: int, pcm: Option<Bytes>): Mixer {
    if pcm.None? then m
    else m.(buffers := m.buffers[u := Push(BufferOf(m, u), Fit(pcm.value, FRAME_BYTES))])
  }

  /** The frames a tick pulls: one from each non-empty buffer. */
  function Pulled(m: Mixer): map<int, Bytes> {
    map u | u in m.buffers && m.buffers[u] != [] :: m.buffers[u][0]
  }

  function AfterTick(m: Mixer): Mixer {
    m.(buffers := map u | u in m.buffers :: if m.buffers[u] == [] then [] else m.buffers[u][1..])
  }

  /* ---------- mixing ---------- */

  function Total(frames: seq<Bytes>, i: nat): int
    requires i < FRAME_SIZE && forall f :: f in frames ==> |f| == FRAME_BYTES
  {
    if frames == [] then 0
    else
      assert forall f :: f in frames[..|frames| - 1] ==> f in frames;
      Total(frames[..|frames| - 1], i) + Decode(frames[|frames| - 1])[i]
  }

  /** Frames of the wrong length cannot be unpacked and are skipped. */
  function WellSized(frames: seq<Bytes>): (r: seq<Bytes>)
    ensures forall f :: f in r ==> |f| == FRAME_BYTES
  {
    if frames == [] then []
    else
      var last := frames[|frames| - 1];
      WellSized(frames[..|frames| - 1]) + if |last| == FRAME_BYTES then [last] else []
  }

  function Averages(valid: seq<Bytes>): (r: seq<int>)
    requires valid != [] && forall f :: f in valid ==> |f| == FRAME_BYTES
    ensures |r| == FRAME_SIZE
  {
    seq(FRAME_SIZE, i requires 0 <= i < FRAME_SIZE => Clamp(Trunc(Total(valid, i), |valid|)))
  }

  function Silence(): Bytes {
    seq(FRAME_BYTES, _ => 0)
  }

  function MixFrames(frames: seq<Bytes>): Bytes {
    if |frames| == 1 then frames[0]
    else
      var valid := WellSized(frames);
      if valid == [] then Silence() else Encode(Averages(valid))
  }

  /** Everyone's pulled frame except the listener's, by ascending user id. */
  function Others(pulled: map<int, Bytes>, listener: int): seq<Bytes> {
    FramesOf(pulled - {listener}, Sorted((pulled - {listener}).Keys))
  }

  function FramesOf(pulled: map<int, Bytes>, users: seq<int>): seq<Bytes> {
    if users == [] then []
    else FramesOf(pulled, users[..|users| - 1]) +
         if users[|users| - 1] in pulled then [pulled[users[|users| - 1]]] else []
  }

  /** The frame for one listener, if anyone else was heard. */
  function MixFor(pulled: map<int, Bytes>, listener: int): Option<Bytes> {
    if Others(pulled, listener) == [] then None else Some(MixFrames(Others(pulled, listener)))
  }

  function Ear(pulled: map<int, Bytes>): int -> Option<Bytes> {
    u => MixFor(pulled, u)
  }

  function Given(frame: int -> Option<Bytes>, listeners: set<int>): map<int, Bytes> {
    map u | u in listeners && frame(u).Some? :: frame(u).value
  }

  function MixesOf(pulled: map<int, Bytes>, listeners: set<int>): map<int, Bytes> {
    Given(Ear(pulled), listeners)
  }

  /** What one tick sends to the given listeners. */
  function Mixes(m: Mixer, listeners: set<int>): map<int, Bytes> {
    MixesOf(Pulled(m), listeners)
  }

  /* ---------- the mixer object ---------- */

  class AudioMixerState {
    var buffers: map<int, seq<Bytes>>
    var usernames: map<int, string>

    constructor ()
      ensures Now() == EMPTY_MIXER
    {
      buffers, usernames := map[], map[];
    }

    ghost function Now(): Mixer
      reads this
    {
      Mixer(buffers, usernames)
    }

    method AddParticipant(u: int, name: string)
      modifies this
      ensures Now() == Add(old(Now()), u, name)
    {
      if u !in buffers {
        buffers := buffers[u := []];
        usernames := usernames[u := name];
      }
    }

    method RemoveParticipant(u: int)
      modifies this
      ensures Now() == Remove(old(Now()), u)
    {
      buffers := buffers - {u};
      usernames := usernames - {u};
    }

    /** The normalised frame also goes to speech recognition. */
    method FeedAudio(u: int, decoded: Option<Bytes>) returns (toStt: Option<Bytes>)
      modifies this
      ensures Now() == Feed(old(Now()), u, decoded)
      ensures toStt == if decoded.None? then None else Some(Fit(decoded.value, FRAME_BYTES))
    {
      if decoded.None? { return None; }
      var pcm := decoded.value;
      if |pcm| < FRAME_BYTES {
        pcm := pcm + seq(FRAME_BYTES - |pcm|, _ => 0);
      } else if |pcm| > FRAME_BYTES {
        pcm := pcm[..FRAME_BYTES];
      }
      if u !in buffers {
        buffers := buffers[u := []];
      }
      var buf := buffers[u] + [pcm];
      if |buf| > JITTER_FRAMES {
        buf := buf[|buf| - JITTER_FRAMES..];
      }
      buffers := buffers[u := buf];
      assert pcm == Fit(decoded.value, FRAME_BYTES);
      assert buf == Push(BufferOf(old(Now()), u), pcm);
      assert buffers == old(buffers)[u := buf];
      toStt := Some(pcm);
    }

    method PullFrames() returns (pulled: map<int, Bytes>)
      modifies this
      ensures pulled == Pulled(old(Now())) && Now() == AfterTick(old(Now()))
    {
      pulled := map[];
      var todo := buffers.Keys;
      while todo != {}
        invariant todo <= buffers.Keys == old(buffers).Keys
        invariant usernames == old(usernames)
        invariant pulled == map u | u in old(buffers) && u !in todo && old(buffers)[u] != [] :: old(buffers)[u][0]
        invariant forall u :: u in buffers ==>
          buffers[u] == if u in todo || old(buffers)[u] == [] then old(buffers)[u] else old(buffers)[u][1..]
        decreases todo
      {
        Inhabited(todo);
        var u :| u in todo;
        todo := todo - {u};
        if buffers[u] != [] {
          pulled := pulled[u := buffers[u][0]];
          buffers := buffers[u := buffers[u][1..]];
        }
      }
      forall u ensures u in pulled <==> u in Pulled(old(Now())) {
        assert u in pulled <==> u in old(buffers) && old(buffers)[u] != [];
      }
      forall u | u in buffers
        ensures u in AfterTick(old(Now())).buffers && buffers[u] == AfterTick(old(Now())).buffers[u]
      {
      }
      assert buffers.Keys == AfterTick(old(Now())).buffers.Keys;
      assert buffers == AfterTick(old(Now())).buffers;
    }

    /** One tick: the frame sent to each listener who has anyone to hear. */
    method MixTick(listeners: set<int>) returns (sent: map<int, Bytes>)
      modifies this
      ensures Now() == AfterTick(old(Now())) && sent == Mixes(old(Now()), listeners)
    {
      var pulled := PullFrames();
      sent := SendMixes(pulled, listeners);
    }
  }

  method SendMixes(pulled: map<int, Bytes>, listeners: set<int>) returns (sent: map<int, Bytes>)
    ensures sent == MixesOf(pulled, listeners)
  {
    sent := map[];
    var todo := listeners;
    while todo != {}
      invariant todo <= listeners
      invariant sent == MixesOf(pulled, listeners - todo)
      decreases todo
    {
      Inhabited(todo);
      var u :| u in todo;
      MixesStep(pulled, listeners, todo, u);
      todo := todo - {u};
      var others := Others(pulled, u);
      if others != [] {
        var mixed := MixBytes(others);
        sent := sent[u := mixed];
      }
    }
    assert listeners - {} == listeners;
  }

  lemma MixesStep(pulled: map<int, Bytes>, listeners: set<int>, todo: set<int>, u: int)
    requires u in todo && todo <= listeners
    ensures MixesOf(pulled, listeners - (todo - {u})) ==
      if Others(pulled, u) == [] then MixesOf(pulled, listeners - todo)
      else MixesOf(pulled, listeners - todo)[u := MixFrames(Others(pulled, u))]
  {
    assert listeners - (todo - {u}) == (listeners - todo) + {u};
    OneMoreListener(Ear(pulled), listeners - todo, u);
  }

  lemma OneMoreListener(frame: int -> Option<Bytes>, served: set<int>, u: int)
    ensures Given(frame, served + {u}) ==
      if frame(u).None? then Given(frame, served) else Given(frame, served)[u := frame(u).value]
  {
  }

  /** Adding the samples of one frame into the accumulator. */
  method Accumulate(mixed: array<int>, samples: seq<int>)
    requires mixed.Length == FRAME_SIZE && |samples| == FRAME_SIZE
    modifies mixed
    ensures forall i :: 0 <= i < FRAME_SIZE ==> mixed[i] == old(mixed[i]) + samples[i]
  {
    var i := 0;
    while i < FRAME_SIZE
      invariant 0 <= i <= FRAME_SIZE
      invariant forall k :: 0 <= k < i ==> mixed[k] == old(mixed[k]) + samples[k]
      invariant forall k :: i <= k < FRAME_SIZE ==> mixed[k] == old(mixed[k])
    {
      mixed[i] := mixed[i] + samples[i];
      i := i + 1;
    }
  }

  /** `_mix_frames`: sum, average, clip. */
  method MixBytes(frames: seq<Bytes>) returns (result: Bytes)
    ensures result == MixFrames(frames)
  {
    if |frames| == 1 { return frames[0]; }
    var mixed := new int[FRAME_SIZE](_ => 0);
    var valid := SumFrames(frames, mixed);
    if valid == 0 { return Silence(); }
    ghost var sums := mixed[..];
    AverageInPlace(mixed, valid);
    assert forall i :: 0 <= i < FRAME_SIZE ==> mixed[i] == Clamp(Trunc(sums[i], valid));
    assert mixed[..] == Averages(WellSized(frames));
    result := Encode(mixed[..]);
  }

  /** The summing loop; `valid` counts the frames that could be unpacked. */
  method SumFrames(frames: seq<Bytes>, mixed: array<int>) returns (valid: nat)
    requires mixed.Length == FRAME_SIZE && forall i :: 0 <= i < FRAME_SIZE ==> mixed[i] == 0
    modifies mixed
    ensures valid == |WellSized(frames)|
    ensures SumsTo(mixed[..], WellSized(frames))
  {
    valid := 0;
    ghost var added: seq<Bytes> := [];
    var k := 0;
    while k < |frames|
      invariant 0 <= k <= |frames|
      invariant added == WellSized(frames[..k])
      invariant valid == |added| && Framed(added) && SumsTo(mixed[..], added)
    {
      WellSizedStep(frames, k);
      if |frames[k]| == FRAME_BYTES {
        valid := valid + 1;
        AddFrame(mixed, frames[k], added);
        added := added + [frames[k]];
      }
      k := k + 1;
    }
    assert frames[..|frames|] == frames;
  }

  /** One turn of it. */
  method AddFrame(mixed: array<int>, frame: Bytes, ghost before: seq<Bytes>)
    requires mixed.Length == FRAME_SIZE && |frame| == FRAME_BYTES && Framed(before) && SumsTo(mixed[..], before)
    modifies mixed
    ensures SumsTo(mixed[..], before + [frame])
  {
    ghost var sums := mixed[..];
    Accumulate(mixed, Decode(frame));
    SumsStep(sums, mixed[..], before, frame);
  }

  ghost predicate SumsTo(sums: seq<int>, frames: seq<Bytes>)
    requires forall f :: f in frames ==> |f| == FRAME_BYTES
  {
    |sums| == FRAME_SIZE && forall i :: 0 <= i < FRAME_SIZE ==> sums[i] == Total(frames, i)
  }

  lemma SumsStep(sums: seq<int>, sums': seq<int>, frames: seq<Bytes>, frame: Bytes)
    requires |frame| == FRAME_BYTES && forall f :: f in frames ==> |f| == FRAME_BYTES
    requires SumsTo(sums, frames) && |sums'| == FRAME_SIZE
    requires forall i :: 0 <= i < FRAME_SIZE ==> sums'[i] == sums[i] + Decode(frame)[i]
    ensures SumsTo(sums', frames + [frame])
  {
    assert (frames + [frame])[..|frames|] == frames;
  }

  lemma WellSizedStep(frames: seq<Bytes>, k: nat)
    requires k < |frames|
    ensures WellSized(frames[..k + 1]) ==
      if |frames[k]| == FRAME_BYTES then WellSized(frames[..k]) + [frames[k]] else WellSized(frames[..k])
  {
    assert frames[..k + 1][..k] == frames[..k];
  }

  /** The averaging and clipping loops. */
  method AverageInPlace(mixed: array<int>, count: int)
    requires mixed.Length == FRAME_SIZE && count > 0
    modifies mixed
    ensures forall i :: 0 <= i < FRAME_SIZE ==> mixed[i] == Clamp(Trunc(old(mixed[i]), count))
  {
    var i := 0;
    while i < FRAME_SIZE
      invariant 0 <= i <= FRAME_SIZE
      invariant forall k :: 0 <= k < i ==> mixed[k] == Trunc(old(mixed[k]), count)
      invariant forall k :: i <= k < FRAME_SIZE ==> mixed[k] == old(mixed[k])
    {
      mixed[i] := Trunc(mixed[i], count);
      i := i + 1;
    }
    i := 0;
    while i < FRAME_SIZE
      invariant 0 <= i <= FRAME_SIZE
      invariant forall k :: 0 <= k < i ==> mixed[k] == Clamp(Trunc(old(mixed[k]), count))
      invariant forall k :: i <= k < FRAME_SIZE ==> mixed[k] == Trunc(old(mixed[k]), count)
    {
      if mixed[i] > 32767 {
        mixed[i] := 32767;
      } else if mixed[i] < -32768 {
        mixed[i] := -32768;
      }
      i := i + 1;
    }
  }

  /* ---------- what a mix contains ---------- */

  predicate Framed(frames: seq<Bytes>) {
    forall f :: f in frames ==> |f| == FRAME_BYTES
  }

  /** No normalised frame is skipped. */
  lemma {:induction false} NoFrameSkipped(frames: seq<Bytes>)
    requires Framed(frames)
    ensures WellSized(frames) == frames
  {
    if frames != [] {
      var before := frames[..|frames| - 1];
      assert forall f :: f in before ==> f in frames;
      NoFrameSkipped(before);
    }
  }

  lemma OneMore(a: int, n: int)
    ensures a * (n + 1) == a * n + a
  {
  }

  lemma {:induction false} TotalBetween(frames: seq<Bytes>, i: nat, lo: int, hi: int)
    requires i < FRAME_SIZE && Framed(frames)
    requires forall f :: f in frames ==> lo <= Decode(f)[i] <= hi
    ensures lo * |frames| <= Total(frames, i) <= hi * |frames|
  {
    if frames != [] {
      var before := frames[..|frames| - 1];
      assert forall f :: f in before ==> f in frames;
      TotalBetween(before, i, lo, hi);
      OneMore(lo, |before|);
      OneMore(hi, |before|);
    }
  }

  lemma SampleAt(frame: Bytes, i: nat)
    requires |frame| == FRAME_BYTES && i < FRAME_SIZE
    ensures IsSample(Decode(frame)[i])
  {
  }

  /** A mean of samples is a sample, so clipping never changes one. */
  lemma MeanIsSample(frames: seq<Bytes>, i: nat)
    requires i < FRAME_SIZE && Framed(frames) && frames != []
    ensures IsSample(Trunc(Total(frames, i), |frames|))
  {
    forall f | f in frames ensures -32768 <= Decode(f)[i] <= 32767 { SampleAt(f, i); }
    TotalBetween(frames, i, -32768, 32767);
    TruncBetween(Total(frames, i), |frames|, -32768, 32767);
  }

  /** The general path on a single frame gives that frame back: the shortcut is sound. */
  lemma ShortcutAgrees(frame: Bytes)
    requires |frame| == FRAME_BYTES
    ensures Encode(Averages([frame])) == frame == MixFrames([frame])
  {
    forall i | 0 <= i < FRAME_SIZE ensures Averages([frame])[i] == Decode(frame)[i] {
      assert [frame][..0] == [];
      assert Total([frame], i) == Decode(frame)[i];
      SampleAt(frame, i);
    }
    assert Averages([frame]) == Decode(frame);
    EncodeDecode(frame);
  }

  /** Every output sample is the truncated mean of all the frames' samples. */
  lemma MixIsMean(frames: seq<Bytes>, i: nat)
    requires frames != [] && Framed(frames) && i < FRAME_SIZE
    ensures |MixFrames(frames)| == FRAME_BYTES
    ensures Decode(MixFrames(frames))[i] == Trunc(Total(frames, i), |frames|)
  {
    NoFrameSkipped(frames);
    if |frames| == 1 {
      ShortcutAgrees(frames[0]);
      assert frames == [frames[0]];
    }
    MeanIsSample(frames, i);
    DecodeEncodeAt(Averages(frames), i);
  }

  /** ... and so lies between any bounds on the mixed samples. */
  lemma MixBetween(frames: seq<Bytes>, i: nat, lo: int, hi: int)
    requires frames != [] && Framed(frames) && i < FRAME_SIZE
    requires forall f :: f in frames ==> lo <= Decode(f)[i] <= hi
    ensures |MixFrames(frames)| == FRAME_BYTES && lo <= Decode(MixFrames(frames))[i] <= hi
  {
    MixIsMean(frames, i);
    TotalBetween(frames, i, lo, hi);
    TruncBetween(Total(frames, i), |frames|, lo, hi);
  }

  /* ---------- the order of the frames ---------- */

  function Gain(frame: Bytes, i: nat): int
    requires i < FRAME_SIZE
  {
    if |frame| == FRAME_BYTES then Decode(frame)[i] else 0
  }

  /** The sum of what all frames add to a sample, and how many of them count. */
  function Gains(frames: seq<Bytes>, i: nat): int
    requires i < FRAME_SIZE
  {
    if frames == [] then 0 else Gains(frames[..|frames| - 1], i) + Gain(frames[|frames| - 1], i)
  }

  function Counting(frames: seq<Bytes>): nat {
    if frames == [] then 0
    else Counting(frames[..|frames| - 1]) + if |frames[|frames| - 1]| == FRAME_BYTES then 1 else 0
  }

  lemma {:induction false} GainsAreTotals(frames: seq<Bytes>, i: nat)
    requires i < FRAME_SIZE
    ensures Total(WellSized(frames), i) == Gains(frames, i) && |WellSized(frames)| == Counting(frames)
  {
    if frames != [] {
      var before, last := WellSized(frames[..|frames| - 1]), frames[|frames| - 1];
      GainsAreTotals(frames[..|frames| - 1], i);
      if |last| == FRAME_BYTES {
        assert WellSized(frames) == before + [last];
        assert (before + [last])[..|before|] == before;
      } else {
        assert WellSized(frames) == before;
      }
    }
  }

  lemma OneMoreFrame(frames: seq<Bytes>, last: Bytes, i: nat)
    requires i < FRAME_SIZE
    ensures Gains(frames + [last], i) == Gains(frames, i) + Gain(last, i)
    ensures Counting(frames + [last]) == Counting(frames) + if |last| == FRAME_BYTES then 1 else 0
  {
    assert (frames + [last])[..|frames|] == frames;
  }

  lemma {:induction false} WithoutOne(head: seq<Bytes>, frame: Bytes, tail: seq<Bytes>, i: nat)
    requires i < FRAME_SIZE
    ensures Gains(head + [frame] + tail, i) == Gains(head + tail, i) + Gain(frame, i)
    ensures Counting(head + [frame] + tail) == Counting(head + tail) + if |frame| == FRAME_BYTES then 1 else 0
    decreases |tail|
  {
    if tail == [] {
      assert head + [frame] + [] == head + [frame] && head + [] == head;
      OneMoreFrame(head, frame, i);
    } else {
      var rest, last := tail[..|tail| - 1], tail[|tail| - 1];
      assert head + [frame] + tail == (head + [frame] + rest) + [last] && head + tail == (head + rest) + [last];
      WithoutOne(head, frame, rest, i);
      OneMoreFrame(head + [frame] + rest, last, i);
      OneMoreFrame(head + rest, last, i);
    }
  }

  lemma RemoveAt(s: seq<Bytes>, j: nat)
    requires j < |s|
    ensures multiset(s[..j] + s[j + 1..]) == multiset(s) - multiset{s[j]}
  {
    assert s == s[..j] + [s[j]] + s[j + 1..];
    assert multiset(s) == multiset(s[..j] + s[j + 1..]) + multiset{s[j]};
  }

  lemma SameRest(a: seq<Bytes>, b: seq<Bytes>, j: nat)
    requires a != [] && j < |b| && b[j] == a[|a| - 1] && multiset(a) == multiset(b)
    ensures multiset(a[..|a| - 1]) == multiset(b[..j] + b[j + 1..])
  {
    RemoveAt(b, j);
    RemoveAt(a, |a| - 1);
    assert a[..|a| - 1] + a[|a|..] == a[..|a| - 1];
  }

  lemma {:induction false} SameGains(a: seq<Bytes>, b: seq<Bytes>, i: nat)
    requires i < FRAME_SIZE && multiset(a) == multiset(b)
    ensures Gains(a, i) == Gains(b, i) && Counting(a) == Counting(b)
  {
    if a == [] {
      assert |b| == |multiset(b)| == 0;
    } else {
      var n := |a| - 1;
      assert a[n] in multiset(b);
      var j :| 0 <= j < |b| && b[j] == a[n];
      SameRest(a, b, j);
      assert b == b[..j] + [b[j]] + b[j + 1..];
      WithoutOne(b[..j], b[j], b[j + 1..], i);
      SameGains(a[..n], b[..j] + b[j + 1..], i);
    }
  }

  lemma SameTotals(a: seq<Bytes>, b: seq<Bytes>, i: nat)
    requires i < FRAME_SIZE && multiset(a) == multiset(b)
    ensures Total(WellSized(a), i) == Total(WellSized(b), i) && |WellSized(a)| == |WellSized(b)|
  {
    SameGains(a, b, i);
    GainsAreTotals(a, i);
    GainsAreTotals(b, i);
  }

  /** The mix does not depend on the order the speakers are visited in. */
  lemma MixOrder(a: seq<Bytes>, b: seq<Bytes>)
    requires multiset(a) == multiset(b)
    ensures MixFrames(a) == MixFrames(b)
  {
    assert |a| == |multiset(a)| == |multiset(b)| == |b|;
    if |a| == 1 {
      assert a == [a[0]] && b == [b[0]];
      assert a[0] in multiset(b);
    } else {
      SameTotals(a, b, 0);
      if WellSized(a) != [] {
        forall i | 0 <= i < FRAME_SIZE ensures Averages(WellSized(a))[i] == Averages(WellSized(b))[i] {
          SameTotals(a, b, i);
        }
        assert Averages(WellSized(a)) == Averages(WellSized(b));
      }
    }
  }

  /* ---------- what each listener hears ---------- */

  ghost predicate Bounded(m: Mixer) {
    forall u :: u in m.buffers ==> |m.buffers[u]| <= JITTER_FRAMES && Framed(m.buffers[u])
  }

  ghost predicate Speaks(m: Mixer, u: int) {
    u in m.buffers && m.buffers[u] != []
  }

  lemma {:induction false} FramesOfHas(pulled: map<int, Bytes>, users: seq<int>, f: Bytes)
    ensures f in FramesOf(pulled, users) <==> exists u :: u in users && u in pulled && pulled[u] == f
  {
    if users != [] {
      var last := users[|users| - 1];
      FramesOfHas(pulled, users[..|users| - 1], f);
      assert users == users[..|users| - 1] + [last];
    }
  }

  lemma OthersHas(m: Mixer, listener: int, f: Bytes)
    ensures f in Others(Pulled(m), listener) <==>
      exists v :: v != listener && Speaks(m, v) && m.buffers[v][0] == f
  {
    var rest := Pulled(m) - {listener};
    FramesOfHas(rest, Sorted(rest.Keys), f);
    if v :| v != listener && Speaks(m, v) && m.buffers[v][0] == f {
      assert v in rest && rest[v] == f && v in Sorted(rest.Keys);
    }
  }

  /** Exactly the listeners with some other speaker are sent a frame. */
  lemma HeardWhenOthersSpeak(m: Mixer, listeners: set<int>, u: int)
    ensures u in Mixes(m, listeners) <==> u in listeners && exists v :: v != u && Speaks(m, v)
  {
    var others := Others(Pulled(m), u);
    if others != [] {
      OthersHas(m, u, others[0]);
    }
    if v :| v != u && Speaks(m, v) {
      OthersHas(m, u, m.buffers[v][0]);
    }
  }

  /** The users other than the listener with a frame waiting. */
  ghost function Speakers(m: Mixer, listener: int): set<int> {
    set v | v in m.buffers && v != listener && m.buffers[v] != []
  }

  /** Sample `i` of the frame a user has waiting longest. */
  ghost function Voice(m: Mixer, i: nat): int -> int
    requires i < FRAME_SIZE
  {
    v => if v in m.buffers && m.buffers[v] != [] && |m.buffers[v][0]| == FRAME_BYTES
         then Decode(m.buffers[v][0])[i] else 0
  }

  function Elements(users: seq<int>): set<int> {
    set v | v in users
  }

  lemma TotalGrows(frames: seq<Bytes>, frame: Bytes, i: nat)
    requires Framed(frames) && |frame| == FRAME_BYTES && i < FRAME_SIZE
    ensures Framed(frames + [frame])
    ensures Total(frames + [frame], i) == Total(frames, i) + Decode(frame)[i]
  {
    assert (frames + [frame])[..|frames|] == frames;
  }

  /** What `pulled` holds for the users is the frame each has waiting longest. */
  ghost predicate Heads(m: Mixer, pulled: map<int, Bytes>, users: seq<int>) {
    forall v :: v in users ==> v in pulled && Speaks(m, v) && pulled[v] == m.buffers[v][0] && |pulled[v]| == FRAME_BYTES
  }

  /** Listed once each, users contribute once each. */
  lemma {:induction false} FramesOfSum(m: Mixer, pulled: map<int, Bytes>, users: seq<int>, i: nat)
    requires i < FRAME_SIZE && Ascending(users) && Heads(m, pulled, users)
    ensures Framed(FramesOf(pulled, users)) && |FramesOf(pulled, users)| == |Elements(users)|
    ensures Total(FramesOf(pulled, users), i) == SetSum(Elements(users), Voice(m, i))
  {
    if users == [] {
      assert Elements(users) == {};
    } else {
      var pre, last := users[..|users| - 1], users[|users| - 1];
      HeadsSplit(m, pulled, users);
      FramesOfSum(m, pulled, pre, i);
      ElementsSplit(users);
      OneMoreVoice(m, FramesOf(pulled, pre), Elements(pre), last, i);
      assert FramesOf(pulled, users) == FramesOf(pulled, pre) + [pulled[last]];
    }
  }

  lemma OneMoreVoice(m: Mixer, frames: seq<Bytes>, users: set<int>, v: int, i: nat)
    requires i < FRAME_SIZE && Framed(frames) && v !in users
    requires v in m.buffers && Speaks(m, v) && |m.buffers[v][0]| == FRAME_BYTES
    requires |frames| == |users| && Total(frames, i) == SetSum(users, Voice(m, i))
    ensures var frames' := frames + [m.buffers[v][0]];
            && Framed(frames') && |frames'| == |users + {v}|
            && Total(frames', i) == SetSum(users + {v}, Voice(m, i))
  {
    SetSumGrows(users, v, Voice(m, i));
    TotalGrows(frames, m.buffers[v][0], i);
    assert Voice(m, i)(v) == Decode(m.buffers[v][0])[i];
  }

  lemma HeadsSplit(m: Mixer, pulled: map<int, Bytes>, users: seq<int>)
    requires Ascending(users) && Heads(m, pulled, users) && users != []
    ensures var pre, last := users[..|users| - 1], users[|users| - 1];
            && Ascending(pre) && Heads(m, pulled, pre)
            && last in pulled && Speaks(m, last) && pulled[last] == m.buffers[last][0] && |pulled[last]| == FRAME_BYTES
  {
    assert users[|users| - 1] in users;
    assert forall v :: v in users[..|users| - 1] ==> v in users;
  }

  lemma ElementsSplit(users: seq<int>)
    requires Ascending(users) && users != []
    ensures var pre, last := users[..|users| - 1], users[|users| - 1];
            last !in Elements(pre) && Elements(users) == Elements(pre) + {last}
  {
    LastApart(users);
    assert users[|users| - 1] in users;
  }

  /** Each other speaker counts exactly once in a listener's mix, and nobody else. */
  lemma OthersCountOnce(m: Mixer, u: int, i: nat)
    requires Bounded(m) && i < FRAME_SIZE
    ensures Framed(Others(Pulled(m), u)) && |Others(Pulled(m), u)| == |Speakers(m, u)|
    ensures Total(Others(Pulled(m), u), i) == SetSum(Speakers(m, u), Voice(m, i))
  {
    var pulled := Pulled(m) - {u};
    var users := Sorted(pulled.Keys);
    PulledHeads(m, u);
    FramesOfSum(m, pulled, users, i);
    ListedSpeakers(m, u);
  }

  lemma PulledHeads(m: Mixer, u: int)
    requires Bounded(m)
    ensures var pulled := Pulled(m) - {u}; Heads(m, pulled, Sorted(pulled.Keys))
  {
    var pulled := Pulled(m) - {u};
    forall v | v in Sorted(pulled.Keys)
      ensures v in pulled && Speaks(m, v) && pulled[v] == m.buffers[v][0] && |pulled[v]| == FRAME_BYTES
    {
      assert v in pulled.Keys && m.buffers[v][0] in m.buffers[v];
    }
  }

  lemma ListedSpeakers(m: Mixer, u: int)
    ensures Elements(Sorted((Pulled(m) - {u}).Keys)) == Speakers(m, u)
  {
    var keys := (Pulled(m) - {u}).Keys;
    forall v ensures v in Elements(Sorted(keys)) <==> v in Speakers(m, u) {
      assert v in Sorted(keys) <==> v in keys;
    }
  }

  /** A full frame whose sample `i` is the sum of the other speakers' samples over
      their number, truncated toward zero. */
  ghost predicate IsMean(out: Bytes, m: Mixer, u: int, i: nat)
    requires i < FRAME_SIZE
  {
    && |out| == 640 && Speakers(m, u) != {}
    && Decode(out)[i] == Trunc(SetSum(Speakers(m, u), Voice(m, i)), |Speakers(m, u)|)
  }

  /** What a listener is sent: one full frame whose samples are the truncated
      mean of the other speakers', each counted once, inside any bounds those
      samples share. */
  lemma MixMinus(m: Mixer, listeners: set<int>, u: int, i: nat, lo: int, hi: int)
    requires Bounded(m) && u in Mixes(m, listeners) && i < FRAME_SIZE
    requires forall v :: v != u && Speaks(m, v) ==> lo <= Decode(m.buffers[v][0])[i] <= hi
    ensures IsMean(Mixes(m, listeners)[u], m, u, i)
    ensures lo <= Decode(Mixes(m, listeners)[u])[i] <= hi
  {
    var others := Others(Pulled(m), u);
    OthersCountOnce(m, u, i);
    forall f | f in others ensures lo <= Decode(f)[i] <= hi {
      OthersHas(m, u, f);
      var v :| v != u && Speaks(m, v) && m.buffers[v][0] == f;
    }
    MixIsMean(others, i);
    MixBetween(others, i, lo, hi);
  }

  /** Speakers 1 and 2 with samples 300 and 0: listener 3 hears 150. */
  lemma TwoSpeakersExample(m: Mixer, i: nat)
    requires Bounded(m) && i < FRAME_SIZE && 3 in Mixes(m, {3}) && Speakers(m, 3) == {1, 2}
    requires Voice(m, i)(1) == 300 && Voice(m, i)(2) == 0
    ensures var out := Mixes(m, {3})[3]; |out| == FRAME_BYTES && Decode(out)[i] == 150
  {
    FrameHeard(m, {3}, 3, i);
    TwoVoices(Voice(m, i));
    assert |{1, 2}| == 2 && Trunc(300, 2) == 150;
  }

  lemma TwoVoices(f: int -> int)
    ensures SetSum({1, 2}, f) == f(1) + f(2)
  {
    SetSumGrows({}, 1, f);
    SetSumGrows({1}, 2, f);
    assert {} + {1} == {1} && {1} + {2} == {1, 2};
  }

  /** The mean without asking for bounds: every sample is a 16-bit value anyway. */
  lemma FrameHeard(m: Mixer, listeners: set<int>, u: int, i: nat)
    requires Bounded(m) && u in Mixes(m, listeners) && i < FRAME_SIZE
    ensures IsMean(Mixes(m, listeners)[u], m, u, i)
  {
    SpeakersBounded(m, u, i);
    MixMinus(m, listeners, u, i, -32768, 32767);
  }

  /** A listener's own frames never reach the mix sent to them. */
  lemma OwnVoiceUnheard(m: Mixer, m': Mixer, listeners: set<int>, u: int)
    requires m.buffers - {u} == m'.buffers - {u} && u in listeners
    ensures u in Mixes(m, listeners) <==> u in Mixes(m', listeners)
    ensures u in Mixes(m, listeners) ==> Mixes(m, listeners)[u] == Mixes(m', listeners)[u]
  {
    var p, p' := Pulled(m) - {u}, Pulled(m') - {u};
    forall v ensures v in p <==> v in p'
      ensures v in p ==> p[v] == p'[v]
    {
      assert v in m.buffers - {u} <==> v in m'.buffers - {u};
      if v in m.buffers - {u} { assert (m.buffers - {u})[v] == (m'.buffers - {u})[v]; }
    }
    assert p == p';
  }

  /* ---------- runs ---------- */

  datatype Op = Joined(user: int, name: string) | Left(user: int) | Spoke(user: int, pcm: Option<Bytes>) | Tick

  /** What became of a frame that left its jitter buffer. */
  datatype Fate = Mixed(frame: Bytes) | Overflowed(frame: Bytes) | Abandoned(frame: Bytes)

  ghost function Step(m: Mixer, op: Op): Mixer {
    match op
    case Joined(u, name) => Add(m, u, name)
    case Left(u) => Remove(m, u)
    case Spoke(u, pcm) => Feed(m, u, pcm)
    case Tick => AfterTick(m)
  }

  ghost function Run(ops: seq<Op>): Mixer {
    if ops == [] then EMPTY_MIXER else Step(Run(ops[..|ops| - 1]), ops[|ops| - 1])
  }

  /** The frames a user fed over a run, in order. */
  ghost function Fed(ops: seq<Op>, u: int): seq<Bytes> {
    if ops == [] then []
    else
      var op := ops[|ops| - 1];
      Fed(ops[..|ops| - 1], u) +
      if op.Spoke? && op.user == u && op.pcm.Some? then [Fit(op.pcm.value, FRAME_BYTES)] else []
  }

  /** The frames one step takes out of a user's buffer, and why. */
  ghost function Lost(m: Mixer, op: Op, u: int): seq<Fate> {
    match op
    case Joined(_, _) => []
    case Left(v) => if v == u then Each(BufferOf(m, u)) else []
    case Spoke(v, pcm) =>
      if v == u && pcm.Some? && |BufferOf(m, u)| == JITTER_FRAMES then [Overflowed(BufferOf(m, u)[0])] else []
    case Tick => if u in Pulled(m) then [Mixed(Pulled(m)[u])] else []
  }

  ghost function Each(q: seq<Bytes>): (r: seq<Fate>)
    ensures |r| == |q| && forall i :: 0 <= i < |q| ==> r[i] == Abandoned(q[i])
  {
    seq(|q|, i requires 0 <= i < |q| => Abandoned(q[i]))
  }

  ghost function Fates(ops: seq<Op>, u: int): seq<Fate> {
    if ops == [] then []
    else Fates(ops[..|ops| - 1], u) + Lost(Run(ops[..|ops| - 1]), ops[|ops| - 1], u)
  }

  ghost function Frames(fates: seq<Fate>): (r: seq<Bytes>)
    ensures |r| == |fates| && forall i :: 0 <= i < |r| ==> r[i] == fates[i].frame
  {
    seq(|fates|, i requires 0 <= i < |fates| => fates[i].frame)
  }

  /** A decoded frame joins the end of its user's buffer, cut or padded to 640
      bytes; only when ten are waiting is the oldest dropped. Nobody else's buffer
      changes. */
  lemma FeedIs(m: Mixer, u: int, pcm: Bytes, v: int)
    requires |BufferOf(m, u)| <= 10
    ensures |Fit(pcm, FRAME_BYTES)| == 640
    ensures BufferOf(Feed(m, u, Some(pcm)), u) ==
      (if |BufferOf(m, u)| < 10 then BufferOf(m, u) else BufferOf(m, u)[1..]) + [Fit(pcm, FRAME_BYTES)]
    ensures v != u ==> BufferOf(Feed(m, u, Some(pcm)), v) == BufferOf(m, v)
    ensures Feed(m, u, None) == m && Feed(m, u, Some(pcm)).usernames == m.usernames
  {
    FitIs(pcm, FRAME_BYTES);
  }

  /** Registering, and leaving. */
  lemma ParticipantsAre(m: Mixer, u: int, name: string, v: int)
    ensures var m' := Add(m, u, name);
            && u in m'.buffers && BufferOf(m', v) == BufferOf(m, v)
            && (u !in m.buffers ==> u in m'.usernames && m'.usernames[u] == name)
            && (u in m.buffers ==> m' == m)
            && (v != u ==> (v in m'.usernames <==> v in m.usernames))
    ensures var m' := Remove(m, u);
            && u !in m'.buffers && u !in m'.usernames && (v != u ==> BufferOf(m', v) == BufferOf(m, v))
            && (v != u ==> (v in m'.buffers <==> v in m.buffers) && (v in m'.usernames <==> v in m.usernames))
  {
  }

  lemma StepBounded(m: Mixer, op: Op)
    requires Bounded(m)
    ensures Bounded(Step(m, op))
  {
    var m' := Step(m, op);
    forall u | u in m'.buffers ensures |m'.buffers[u]| <= JITTER_FRAMES && Framed(m'.buffers[u]) {
      assert u in m.buffers ==> Framed(m.buffers[u]) && |m.buffers[u]| <= JITTER_FRAMES;
      if op.Spoke? && op.pcm.Some? { FitIs(op.pcm.value, FRAME_BYTES); }
    }
  }

  /** Every reachable buffer holds at most ten frames, each of 640 bytes. */
  lemma {:induction false} BuffersStayBounded(ops: seq<Op>)
    ensures Bounded(Run(ops))
    ensures forall u :: u in Run(ops).buffers ==> |Run(ops).buffers[u]| <= 10
    ensures forall u, f :: u in Run(ops).buffers && f in Run(ops).buffers[u] ==> |f| == 640
  {
    if ops != [] {
      BuffersStayBounded(ops[..|ops| - 1]);
      StepBounded(Run(ops[..|ops| - 1]), ops[|ops| - 1]);
    }
  }

  lemma StepConserves(m: Mixer, op: Op, u: int)
    requires Bounded(m)
    ensures BufferOf(m, u)
            + (if op.Spoke? && op.user == u && op.pcm.Some? then [Fit(op.pcm.value, FRAME_BYTES)] else []) ==
            Frames(Lost(m, op, u)) + BufferOf(Step(m, op), u)
  {
    assert |BufferOf(m, u)| <= JITTER_FRAMES;
  }

  lemma Carry(fed: seq<Bytes>, fates: seq<Fate>, queue: seq<Bytes>, lost: seq<Fate>, queue': seq<Bytes>,
              incoming: seq<Bytes>)
    requires fed == Frames(fates) + queue && queue + incoming == Frames(lost) + queue'
    ensures fed + incoming == Frames(fates + lost) + queue'
  {
    assert Frames(fates + lost) == Frames(fates) + Frames(lost);
    assert fed + incoming == Frames(fates) + (queue + incoming);
    assert Frames(fates) + (Frames(lost) + queue') == Frames(fates) + Frames(lost) + queue';
  }

  /** Jitter conservation: whatever happens in a run, the frames a user fed are,
      in order, those already mixed, dropped by overflow or abandoned on leaving,
      followed by those still buffered. */
  lemma {:induction false} EveryFrameAccounted(ops: seq<Op>, u: int)
    ensures Fed(ops, u) == Frames(Fates(ops, u)) + BufferOf(Run(ops), u)
    ensures |BufferOf(Run(ops), u)| <= JITTER_FRAMES
  {
    BuffersStayBounded(ops);
    if ops != [] {
      var before, op := ops[..|ops| - 1], ops[|ops| - 1];
      BuffersStayBounded(before);
      EveryFrameAccounted(before, u);
      StepConserves(Run(before), op, u);
      Carry(Fed(before, u), Fates(before, u), BufferOf(Run(before), u), Lost(Run(before), op, u),
            BufferOf(Run(ops), u), Fed(ops, u)[|Fed(before, u)|..]);
    }
  }

  /** Every frame sent to a listener anywhere in a run is a full frame and a
      mean of what the others fed. */
  lemma RunMixes(ops: seq<Op>, listeners: set<int>, u: int, i: nat)
    requires i < FRAME_SIZE && u in Mixes(Run(ops), listeners)
    ensures IsMean(Mixes(Run(ops), listeners)[u], Run(ops), u, i)
  {
    BuffersStayBounded(ops);
    FrameHeard(Run(ops), listeners, u, i);
  }

  lemma SpeakersBounded(m: Mixer, u: int, i: nat)
    requires Bounded(m) && i < FRAME_SIZE
    ensures forall v :: v != u && Speaks(m, v) ==> |m.buffers[v][0]| == FRAME_BYTES
    ensures forall v :: v != u && Speaks(m, v) ==> -32768 <= Decode(m.buffers[v][0])[i] <= 32767
  {
    forall v | v != u && Speaks(m, v)
      ensures |m.buffers[v][0]| == FRAME_BYTES && -32768 <= Decode(m.buffers[v][0])[i] <= 32767
    {
      assert m.buffers[v][0] in m.buffers[v];
      SampleAt(m.buffers[v][0], i);
    }
  }
}
