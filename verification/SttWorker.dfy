/** The speech-to-text front end: frames accumulated per speaker and handed over
    in three-second chunks. */
module SttWorker {
  import opened Common
  import opened Pcm

  const FRAMES_PER_CHUNK := 150

  /** One transcription job handed to the worker pool. */
  datatype Job = Job(user: int, name: string, frames: seq<Bytes>)

  datatype Stt = Stt(active: bool, buffers: map<int, seq<Bytes>>, names: map<int, string>)

  function BufferOf(s: Stt, u: int): seq<Bytes> {
    if u in s.buffers then s.buffers[u] else []
  }

  function NameOf(s: Stt, u: int, name: string): string {
    if u in s.names then s.names[u] else name
  }

  function Feed(s: Stt, u: int, name: string, frame: Bytes): Stt {
    if !s.active then s
    else
      var buf := BufferOf(s, u) + [frame];
      Stt(true,
          s.buffers[u := if |buf| >= FRAMES_PER_CHUNK then [] else buf],
          if u in s.buffers then s.names else s.names[u := name])
  }

  function Submitted(s: Stt, u: int, name: string, frame: Bytes): Option<Job> {
    if s.active && |BufferOf(s, u)| + 1 >= FRAMES_PER_CHUNK
    then Some(Job(u, NameOf(Feed(s, u, name, frame), u, name), BufferOf(s, u) + [frame]))
    else None
  }

  function Remove(s: Stt, u: int): Stt {
    s.(buffers := s.buffers - {u}, names := s.names - {u})
  }

  class STTManager {
    var enabled: bool
    var running: bool
    var buffers: map<int, seq<Bytes>>
    var names: map<int, string>

    constructor (on: bool)
      ensures Now() == Stt(on, map[], map[])
    {
      enabled, running, buffers, names := on, true, map[], map[];
    }

    ghost function Now(): Stt
      reads this
    {
      Stt(enabled && running, buffers, names)
    }

    method FeedAudio(u: int, name: string, frame: Bytes) returns (job: Option<Job>)
      modifies this
      ensures Now() == Feed(old(Now()), u, name, frame)
      ensures job == Submitted(old(Now()), u, name, frame)
    {
      if !enabled || !running { return None; }
      if u !in buffers {
        buffers := buffers[u := []];
        names := names[u := name];
      }
      job := None;
      buffers := buffers[u := buffers[u] + [frame]];
      if |buffers[u]| >= FRAMES_PER_CHUNK {
        job := Some(Job(u, if u in names then names[u] else name, buffers[u]));
        buffers := buffers[u := []];
      }
      assert buffers == Feed(old(Now()), u, name, frame).buffers;
    }

    method RemoveSpeaker(u: int)
      modifies this
      ensures Now() == Remove(old(Now()), u)
    {
      buffers := buffers - {u};
      names := names - {u};
    }

    method Stop()
      modifies this
      ensures Now() == old(Now()).(active := false)
    {
      running, enabled := false, false;
    }
  }

  /* ---------- runs ---------- */

  datatype Op = Spoke(user: int, name: string, frame: Bytes) | Removed(user: int) | Stopped

  ghost function Run(on: bool, ops: seq<Op>): Stt {
    if ops == [] then Stt(on, map[], map[])
    else
      var s := Run(on, ops[..|ops| - 1]);
      match ops[|ops| - 1]
      case Spoke(u, name, frame) => Feed(s, u, name, frame)
      case Removed(u) => Remove(s, u)
      case Stopped => s.(active := false)
  }

  /** What a speaker has fed a working manager since last removed. */
  ghost function Fed(on: bool, ops: seq<Op>, u: int): seq<Bytes> {
    if ops == [] then []
    else
      var before, op := ops[..|ops| - 1], ops[|ops| - 1];
      if op == Removed(u) then []
      else Fed(on, before, u) + if op.Spoke? && op.user == u && Run(on, before).active then [op.frame] else []
  }

  /** The jobs submitted for a speaker since last removed. */
  ghost function Jobs(on: bool, ops: seq<Op>, u: int): seq<Job> {
    if ops == [] then []
    else
      var before, op := ops[..|ops| - 1], ops[|ops| - 1];
      if op == Removed(u) then []
      else Jobs(on, before, u) +
           if op.Spoke? && op.user == u && Submitted(Run(on, before), u, op.name, op.frame).Some?
           then [Submitted(Run(on, before), u, op.name, op.frame).value] else []
  }

  /** `jobs` and `rest` cut `fed` into consecutive chunks of 150 frames. */
  ghost predicate Chunked(jobs: seq<Job>, rest: seq<Bytes>, fed: seq<Bytes>, u: int) {
    && |rest| < FRAMES_PER_CHUNK
    && |fed| == FRAMES_PER_CHUNK * |jobs| + |rest|
    && fed[FRAMES_PER_CHUNK * |jobs|..] == rest
    && forall k :: 0 <= k < |jobs| ==> ChunkIs(jobs[k], fed, k, u)
  }

  ghost predicate ChunkIs(job: Job, fed: seq<Bytes>, k: nat, u: int) {
    && job.user == u
    && FRAMES_PER_CHUNK * (k + 1) <= |fed|
    && job.frames == fed[FRAMES_PER_CHUNK * k..FRAMES_PER_CHUNK * (k + 1)]
  }

  lemma ChunkedStep(jobs: seq<Job>, rest: seq<Bytes>, fed: seq<Bytes>, u: int, name: string, frame: Bytes)
    requires Chunked(jobs, rest, fed, u)
    ensures |rest| + 1 < FRAMES_PER_CHUNK ==> Chunked(jobs, rest + [frame], fed + [frame], u)
    ensures |rest| + 1 == FRAMES_PER_CHUNK ==> Chunked(jobs + [Job(u, name, rest + [frame])], [], fed + [frame], u)
  {
    var more := fed + [frame];
    var n := FRAMES_PER_CHUNK * |jobs|;
    assert more[n..] == rest + [frame];
    forall k | 0 <= k < |jobs| ensures ChunkIs(jobs[k], more, k, u) {
      assert ChunkIs(jobs[k], fed, k, u);
      var from, upTo := FRAMES_PER_CHUNK * k, FRAMES_PER_CHUNK * (k + 1);
      assert more[from..upTo] == fed[from..upTo];
    }
    if |rest| + 1 == FRAMES_PER_CHUNK {
      assert more[n..n + FRAMES_PER_CHUNK] == rest + [frame];
      assert ChunkIs(Job(u, name, rest + [frame]), more, |jobs|, u);
    }
  }

  lemma Untouched(on: bool, ops: seq<Op>, u: int)
    requires ops != []
    requires var op := ops[|ops| - 1]; !(op.Spoke? && op.user == u && Run(on, ops[..|ops| - 1]).active)
    ensures var before := ops[..|ops| - 1];
            if ops[|ops| - 1] == Removed(u)
            then Jobs(on, ops, u) == [] && BufferOf(Run(on, ops), u) == [] && Fed(on, ops, u) == []
            else Jobs(on, ops, u) == Jobs(on, before, u) && BufferOf(Run(on, ops), u) == BufferOf(Run(on, before), u)
                 && Fed(on, ops, u) == Fed(on, before, u)
  {
  }

  /** In every reachable state the jobs submitted for a speaker are exactly the
      consecutive 150-frame chunks of what that speaker fed, and the buffer is
      the remainder: nothing is lost, repeated, reordered or mixed up between
      speakers. */
  lemma {:induction false} JobsCutTheStream(on: bool, ops: seq<Op>, u: int)
    ensures Chunked(Jobs(on, ops, u), BufferOf(Run(on, ops), u), Fed(on, ops, u), u)
  {
    if ops != [] {
      var before, op := ops[..|ops| - 1], ops[|ops| - 1];
      JobsCutTheStream(on, before, u);
      var s := Run(on, before);
      if op.Spoke? && op.user == u && s.active {
        var name := NameOf(Run(on, ops), u, op.name);
        ChunkedStep(Jobs(on, before, u), BufferOf(s, u), Fed(on, before, u), u, name, op.frame);
        assert |BufferOf(s, u)| < FRAMES_PER_CHUNK;
      } else {
        Untouched(on, ops, u);
      }
    }
  }

  /** So the `k`-th job is frames 150k to 150k + 149, and as many jobs have been
      submitted as whole chunks were fed. */
  lemma JobsAre(on: bool, ops: seq<Op>, u: int, k: nat)
    requires k < |Jobs(on, ops, u)|
    ensures |Jobs(on, ops, u)| == |Fed(on, ops, u)| / 150
    ensures 150 * k + 150 <= |Fed(on, ops, u)|
    ensures Jobs(on, ops, u)[k].frames == Fed(on, ops, u)[150 * k..150 * k + 150]
  {
    JobsCutTheStream(on, ops, u);
    assert ChunkIs(Jobs(on, ops, u)[k], Fed(on, ops, u), k, u);
  }

  /** Once stopped, and without a recognizer, frames are ignored. */
  lemma {:induction false} ActiveUntilStopped(on: bool, ops: seq<Op>)
    ensures Run(on, ops).active <==> on && Stopped !in ops
  {
    if ops != [] {
      ActiveUntilStopped(on, ops[..|ops| - 1]);
      assert ops == ops[..|ops| - 1] + [ops[|ops| - 1]];
    }
  }

  /** The name a speaker's first frame came with since last removed. */
  ghost function Called(on: bool, ops: seq<Op>, u: int): Option<string> {
    if ops == [] then None
    else
      var before, op := ops[..|ops| - 1], ops[|ops| - 1];
      if op == Removed(u) then None
      else if op.Spoke? && op.user == u && Run(on, before).active && Called(on, before, u).None? then Some(op.name)
      else Called(on, before, u)
  }

  /** Every job carries that name. */
  lemma {:induction false} JobsCarryTheName(on: bool, ops: seq<Op>, u: int)
    ensures var s, name := Run(on, ops), Called(on, ops, u);
            && (u in s.buffers <==> name.Some?) && (u in s.names <==> name.Some?)
            && (name.Some? ==> s.names[u] == name.value)
    ensures forall k :: 0 <= k < |Jobs(on, ops, u)| ==> Some(Jobs(on, ops, u)[k].name) == Called(on, ops, u)
  {
    if ops != [] {
      JobsCarryTheName(on, ops[..|ops| - 1], u);
    }
  }

  ghost function Audio(frames: seq<Bytes>): Bytes {
    if frames == [] then [] else Audio(frames[..|frames| - 1]) + frames[|frames| - 1]
  }

  lemma {:induction false} AudioLength(frames: seq<Bytes>)
    requires forall f :: f in frames ==> |f| == FRAME_BYTES
    ensures |Audio(frames)| == FRAME_BYTES * |frames|
  {
    if frames != [] {
      assert forall f :: f in frames[..|frames| - 1] ==> f in frames;
      AudioLength(frames[..|frames| - 1]);
    }
  }

  /** With normalised frames every job is exactly three seconds of audio. */
  lemma JobsAreThreeSeconds(on: bool, ops: seq<Op>, u: int, k: nat)
    requires k < |Jobs(on, ops, u)|
    requires forall f :: f in Fed(on, ops, u) ==> |f| == 640
    ensures |Audio(Jobs(on, ops, u)[k].frames)| == 96000
  {
    JobsCutTheStream(on, ops, u);
    var job := Jobs(on, ops, u)[k];
    assert ChunkIs(job, Fed(on, ops, u), k, u);
    assert forall f :: f in job.frames ==> f in Fed(on, ops, u);
    AudioLength(job.frames);
  }
}
