/** AudioInjector: plays a raw audio resource into the client as if it came
    from the microphone, in a loop. The job's loop is traced as a sequence of
    steps (the stream opened, a chunk sent, a 100 ms delay, the stream closed);
    `Iterate` is the specification of that loop and the lemmas below state
    what it promises: chunk bounds, pacing, one pass per reading of the file,
    and endless repetition of the same passes. */
module Injector {
  import opened Wrappers
  import Base64
  import LiveClient
  import Frames
  import Coroutines
  import Seqs

  type Byte = Base64.Byte

  /** 100 ms of 16 kHz, 16-bit mono PCM. */
  const ChunkSize := 3200
  const ThrottleMs := 100

  datatype Step =
    | StreamOpened
    | Chunk(bytes: seq<Byte>)
    | Delay(ms: nat)
    | StreamClosed

  function Min(a: int, b: int): int
  {
    if a <= b then a else b
  }

  /** The number of bytes one read delivers at `pos`: a full buffer, or what is left. */
  function ReadLength(size: nat, pos: nat): (n: nat)
    requires pos < size
    ensures 1 <= n <= ChunkSize && pos + n <= size
    ensures n < ChunkSize ==> pos + n == size
  {
    Min(ChunkSize, size - pos)
  }

  /** `k` iterations of the job's loop, reading `data` from `pos` on: at the
      end of the stream it is closed and reopened (no delay), otherwise the
      bytes read are sent and the loop waits 100 ms. */
  function Iterate(data: seq<Byte>, pos: nat, k: nat): seq<Step>
    requires pos <= |data|
    decreases k
  {
    if k == 0 then []
    else if pos == |data| then [StreamClosed, StreamOpened] + Iterate(data, 0, k - 1)
    else
      var n := ReadLength(|data|, pos);
      [Chunk(data[pos..pos + n]), Delay(ThrottleMs)] + Iterate(data, pos + n, k - 1)
  }

  /** The read position after `k` iterations. */
  function Position(data: seq<Byte>, pos: nat, k: nat): (p: nat)
    requires pos <= |data|
    ensures p <= |data|
    decreases k
  {
    if k == 0 then pos
    else if pos == |data| then Position(data, 0, k - 1)
    else Position(data, pos + ReadLength(|data|, pos), k - 1)
  }

  /** A single iteration: the reopen at the end of the stream, otherwise one
      read of as many bytes as fit and remain, then the delay. */
  lemma OneIteration(data: seq<Byte>, pos: nat)
    requires pos <= |data|
    ensures pos == |data| ==> Iterate(data, pos, 1) == [StreamClosed, StreamOpened] && Position(data, pos, 1) == 0
    ensures pos < |data| ==>
      var n := ReadLength(|data|, pos);
      Iterate(data, pos, 1) == [Chunk(data[pos..pos + n]), Delay(ThrottleMs)] && Position(data, pos, 1) == pos + n
  {
    if pos == |data| {
      assert Iterate(data, 0, 0) == [];
    } else {
      var n := ReadLength(|data|, pos);
      assert Iterate(data, pos + n, 0) == [];
    }
  }

  /** The whole life of one job: open, `k` iterations, and the close of the
      finally block. */
  function RunTrace(data: seq<Byte>, k: nat): seq<Step>
  {
    [StreamOpened] + Iterate(data, 0, k) + [StreamClosed]
  }

  /** The chunks handed to sendAudioData, in order. */
  function Chunks(trace: seq<Step>): seq<seq<Byte>>
    decreases |trace|
  {
    if trace == [] then []
    else (if trace[0].Chunk? then [trace[0].bytes] else []) + Chunks(trace[1..])
  }

  function Flatten(chunks: seq<seq<Byte>>): seq<Byte>
    decreases |chunks|
  {
    if chunks == [] then [] else chunks[0] + Flatten(chunks[1..])
  }

  function Repeat(s: seq<Step>, m: nat): seq<Step>
    decreases m
  {
    if m == 0 then [] else s + Repeat(s, m - 1)
  }

  /** The number of reads that take the stream from `pos` to its end. */
  function ReadsToEnd(size: nat, pos: nat): nat
    requires pos <= size
    decreases size - pos
  {
    if pos == size then 0 else 1 + ReadsToEnd(size, pos + ReadLength(size, pos))
  }

  /** The iterations of one pass over the file: its reads, then the reopen. */
  function PassLength(size: nat): nat
  {
    ReadsToEnd(size, 0) + 1
  }

  function Pass(data: seq<Byte>): seq<Step>
  {
    Iterate(data, 0, PassLength(|data|))
  }

  /** The pacing of the loop: every chunk holds 1 to 3200 bytes and is followed
      by exactly one 100 ms delay; a delay only ever follows a chunk; a close is
      followed at once by the reopen, and a reopen only follows a close. */
  predicate Paced(r: seq<Step>)
  {
    && (forall i | 0 <= i < |r| && r[i].Chunk? ::
          1 <= |r[i].bytes| <= ChunkSize && i + 1 < |r| && r[i + 1] == Delay(ThrottleMs))
    && (forall i | 0 <= i < |r| && r[i].Delay? :: 0 < i && r[i - 1].Chunk?)
    && (forall i | 0 <= i < |r| && r[i].StreamClosed? :: i + 1 < |r| && r[i + 1].StreamOpened?)
    && (forall i | 0 <= i < |r| && r[i].StreamOpened? :: 0 < i && r[i - 1].StreamClosed?)
  }

  lemma PacedPrepend(head: seq<Step>, rest: seq<Step>)
    requires Paced(head) && Paced(rest)
    ensures Paced(head + rest)
  {
    var r := head + rest;
    forall i | 0 <= i < |r| && r[i].Delay? ensures 0 < i && r[i - 1].Chunk? {
      if i < |head| {
        assert r[i] == head[i] && r[i - 1] == head[i - 1];
      } else {
        assert r[i] == rest[i - |head|];
        assert r[i - 1] == rest[i - |head| - 1];
      }
    }
    forall i | 0 <= i < |r| && r[i].StreamOpened? ensures 0 < i && r[i - 1].StreamClosed? {
      if i < |head| {
        assert r[i] == head[i] && r[i - 1] == head[i - 1];
      } else {
        assert r[i] == rest[i - |head|];
        assert r[i - 1] == rest[i - |head| - 1];
      }
    }
    forall i | 0 <= i < |r| && r[i].Chunk?
      ensures 1 <= |r[i].bytes| <= ChunkSize && i + 1 < |r| && r[i + 1] == Delay(ThrottleMs)
    {
      if i < |head| {
        assert r[i] == head[i] && r[i + 1] == head[i + 1];
      } else {
        assert r[i] == rest[i - |head|];
        assert r[i + 1] == rest[i - |head| + 1];
      }
    }
    forall i | 0 <= i < |r| && r[i].StreamClosed? ensures i + 1 < |r| && r[i + 1].StreamOpened? {
      if i < |head| {
        assert r[i] == head[i] && r[i + 1] == head[i + 1];
      } else {
        assert r[i] == rest[i - |head|];
        assert r[i + 1] == rest[i - |head| + 1];
      }
    }
  }

  /** One send of a chunk of 1 to 3200 bytes is paced on its own. */
  lemma PacedSend(c: seq<Byte>)
    requires 1 <= |c| <= ChunkSize
    ensures Paced([Chunk(c), Delay(ThrottleMs)])
  {
    var send := [Chunk(c), Delay(ThrottleMs)];
    assert forall i | 0 <= i < 2 :: send[i] == (if i == 0 then Chunk(c) else Delay(ThrottleMs));
  }

  /** The reopen is paced on its own. */
  lemma PacedReopen()
    ensures Paced([StreamClosed, StreamOpened])
  {
    var reopen := [StreamClosed, StreamOpened];
    assert forall i | 0 <= i < 2 :: reopen[i] == (if i == 0 then StreamClosed else StreamOpened);
  }

  /** Chunk bounds and throttle: every trace of the loop is paced. */
  lemma {:induction false} IteratePaced(data: seq<Byte>, pos: nat, k: nat)
    requires pos <= |data|
    ensures Paced(Iterate(data, pos, k))
    decreases k
  {
    if k == 0 {
    } else if pos == |data| {
      IteratePaced(data, 0, k - 1);
      PacedReopen();
      PacedPrepend([StreamClosed, StreamOpened], Iterate(data, 0, k - 1));
    } else {
      var n := ReadLength(|data|, pos);
      IteratePaced(data, pos + n, k - 1);
      PacedSend(data[pos..pos + n]);
      PacedPrepend([Chunk(data[pos..pos + n]), Delay(ThrottleMs)], Iterate(data, pos + n, k - 1));
    }
  }

  lemma {:induction false} ChunksAppend(a: seq<Step>, b: seq<Step>)
    ensures Chunks(a + b) == Chunks(a) + Chunks(b)
    decreases |a|
  {
    if a == [] {
      assert a + b == b;
    } else {
      assert (a + b)[0] == a[0] && (a + b)[1..] == a[1..] + b;
      ChunksAppend(a[1..], b);
    }
  }

  lemma {:induction false} FlattenAppend(a: seq<seq<Byte>>, b: seq<seq<Byte>>)
    ensures Flatten(a + b) == Flatten(a) + Flatten(b)
    decreases |a|
  {
    if a == [] {
      assert a + b == b;
    } else {
      assert (a + b)[0] == a[0] && (a + b)[1..] == a[1..] + b;
      FlattenAppend(a[1..], b);
    }
  }

  /** Running `a` iterations and then `b` more is running `a + b` iterations. */
  lemma {:induction false} IterateSplit(data: seq<Byte>, pos: nat, a: nat, b: nat)
    requires pos <= |data|
    ensures Iterate(data, pos, a + b) == Iterate(data, pos, a) + Iterate(data, Position(data, pos, a), b)
    decreases a
  {
    if a > 0 {
      var next := if pos == |data| then 0 else pos + ReadLength(|data|, pos);
      var head := if pos == |data| then [StreamClosed, StreamOpened]
        else [Chunk(data[pos..pos + ReadLength(|data|, pos)]), Delay(ThrottleMs)];
      IterateSplit(data, next, a - 1, b);
      assert Iterate(data, pos, a) == head + Iterate(data, next, a - 1);
      assert Iterate(data, pos, a + b) == head + Iterate(data, next, (a - 1) + b);
      Seqs.AppendAssoc(head, Iterate(data, next, a - 1), Iterate(data, Position(data, next, a - 1), b));
    }
  }

  /** Reading from `pos` as many times as there are reads left reaches the end. */
  lemma {:induction false} ReachesEnd(data: seq<Byte>, pos: nat)
    requires pos <= |data|
    ensures Position(data, pos, ReadsToEnd(|data|, pos)) == |data|
    decreases |data| - pos
  {
    if pos == |data| {
      assert ReadsToEnd(|data|, pos) == 0;
    } else {
      ReachesEnd(data, pos + ReadLength(|data|, pos));
    }
  }

  /** At the end of the stream, one iteration closes and reopens it. */
  lemma ReopenStep(data: seq<Byte>)
    ensures Iterate(data, |data|, 1) == [StreamClosed, StreamOpened]
  {
    assert Iterate(data, 0, 0) == [];
  }

  /** Reading from `pos` to the end of the stream sends exactly the bytes from
      `pos` on, in order, and stops at the end. */
  lemma {:induction false} ReadToEnd(data: seq<Byte>, pos: nat)
    requires pos <= |data|
    ensures Flatten(Chunks(Iterate(data, pos, ReadsToEnd(|data|, pos)))) == data[pos..]
    decreases |data| - pos
  {
    if pos == |data| {
      assert ReadsToEnd(|data|, pos) == 0;
    } else {
      var n := ReadLength(|data|, pos);
      var c := data[pos..pos + n];
      ReadToEnd(data, pos + n);
      var rest := Iterate(data, pos + n, ReadsToEnd(|data|, pos + n));
      assert Iterate(data, pos, ReadsToEnd(|data|, pos)) == [Chunk(c), Delay(ThrottleMs)] + rest;
      ChunksAppend([Chunk(c), Delay(ThrottleMs)], rest);
      assert Chunks([Chunk(c), Delay(ThrottleMs)]) == [c];
      assert Flatten([c] + Chunks(rest)) == c + Flatten(Chunks(rest));
      Seqs.SuffixSplit(data, pos, pos + n);
    }
  }

  /** One pass ends where it began, at the start of the file. */
  lemma PassReturns(data: seq<Byte>)
    ensures Position(data, 0, PassLength(|data|)) == 0
  {
    ReachesEnd(data, 0);
    PositionSplit(data, 0, ReadsToEnd(|data|, 0), 1);
  }

  /** One pass is the file's reads followed by the reopen. */
  lemma PassShape(data: seq<Byte>)
    ensures Pass(data) == Iterate(data, 0, ReadsToEnd(|data|, 0)) + [StreamClosed, StreamOpened]
  {
    var count := ReadsToEnd(|data|, 0);
    ReachesEnd(data, 0);
    IterateSplit(data, 0, count, 1);
    ReopenStep(data);
  }

  /** One pass sends the file's bytes exactly once, in order. */
  lemma OnePass(data: seq<Byte>)
    ensures Flatten(Chunks(Pass(data))) == data
  {
    var front := Iterate(data, 0, ReadsToEnd(|data|, 0));
    PassShape(data);
    ReadToEnd(data, 0);
    ChunksAppend(front, [StreamClosed, StreamOpened]);
    ReopenChunks();
    assert Chunks(front) + [] == Chunks(front);
    assert data[0..] == data;
  }

  lemma {:induction false} PositionSplit(data: seq<Byte>, pos: nat, a: nat, b: nat)
    requires pos <= |data|
    ensures Position(data, pos, a + b) == Position(data, Position(data, pos, a), b)
    decreases a
  {
    if a == 0 {
    } else if pos == |data| {
      PositionSplit(data, 0, a - 1, b);
      assert a + b - 1 == (a - 1) + b;
    } else {
      PositionSplit(data, pos + ReadLength(|data|, pos), a - 1, b);
      assert a + b - 1 == (a - 1) + b;
    }
  }

  /** The loop repeats the same pass forever: after `m` whole passes it is
      where it started. */
  lemma {:induction false} Periodic(data: seq<Byte>, m: nat, r: nat)
    ensures Iterate(data, 0, m * PassLength(|data|) + r) == Repeat(Pass(data), m) + Iterate(data, 0, r)
    decreases m
  {
    if m > 0 {
      var p := PassLength(|data|);
      assert m * p + r == p + ((m - 1) * p + r);
      PassReturns(data);
      IterateSplit(data, 0, p, (m - 1) * p + r);
      Periodic(data, m - 1, r);
      Seqs.AppendAssoc(Pass(data), Repeat(Pass(data), m - 1), Iterate(data, 0, r));
    }
  }

  /** An empty resource is reopened again and again and never yields a chunk. */
  lemma {:induction false} EmptyResource(k: nat)
    ensures Chunks(Iterate([], 0, k)) == []
    decreases k
  {
    if k > 0 {
      EmptyResource(k - 1);
      ChunksAppend([StreamClosed, StreamOpened], Iterate([], 0, k - 1));
    }
  }

  /** The pass of a file of two chunks: the full chunk, the rest, the reopen. */
  lemma TwoChunkPass(data: seq<Byte>)
    requires ChunkSize < |data| <= 2 * ChunkSize
    ensures Pass(data) == [Chunk(data[..ChunkSize]), Delay(ThrottleMs), Chunk(data[ChunkSize..]), Delay(ThrottleMs), StreamClosed, StreamOpened]
  {
    TwoChunkLength(|data|);
    assert ReadLength(|data|, 0) == ChunkSize;
    assert ReadLength(|data|, ChunkSize) == |data| - ChunkSize;
    assert data[ChunkSize..ChunkSize + (|data| - ChunkSize)] == data[ChunkSize..];
    assert data[0..ChunkSize] == data[..ChunkSize];
    assert Iterate(data, |data|, 1) == [StreamClosed, StreamOpened];
    assert Iterate(data, ChunkSize, 2) == [Chunk(data[ChunkSize..]), Delay(ThrottleMs)] + [StreamClosed, StreamOpened];
  }

  /** A file of two chunks, C1 (full) and C2 (short or full), is sent as
      C1, C2, C1, C2 over the first six iterations. */
  lemma TwoChunkLoop(data: seq<Byte>)
    requires ChunkSize < |data| <= 2 * ChunkSize
    ensures Chunks(Iterate(data, 0, 6))
      == [data[..ChunkSize], data[ChunkSize..], data[..ChunkSize], data[ChunkSize..]]
  {
    var c1, c2 := data[..ChunkSize], data[ChunkSize..];
    var pass := Pass(data);
    TwoChunkLength(|data|);
    TwoPasses(data);
    TwoChunkPass(data);
    PassChunks(c1, c2);
    ChunksAppend(pass, pass);
  }

  /** Two passes' worth of iterations are two passes. */
  lemma TwoPasses(data: seq<Byte>)
    ensures Iterate(data, 0, 2 * PassLength(|data|)) == Pass(data) + Pass(data)
  {
    PassReturns(data);
    Returning(data, PassLength(|data|));
  }

  /** Iterations that come back to the start repeat themselves. */
  lemma Returning(data: seq<Byte>, p: nat)
    requires Position(data, 0, p) == 0
    ensures Iterate(data, 0, 2 * p) == Iterate(data, 0, p) + Iterate(data, 0, p)
  {
    assert 2 * p == p + p;
    IterateSplit(data, 0, p, p);
  }

  /** A file of more than one and at most two chunks takes three iterations a pass. */
  lemma TwoChunkLength(size: nat)
    requires ChunkSize < size <= 2 * ChunkSize
    ensures PassLength(size) == 3
  {
    assert ReadLength(size, 0) == ChunkSize;
    assert ReadLength(size, ChunkSize) == size - ChunkSize;
    assert ReadsToEnd(size, size) == 0;
    assert ReadsToEnd(size, ChunkSize) == 1;
  }

  /** A send step contributes its chunk; a reopen contributes none. */
  lemma SendChunks(c: seq<Byte>)
    ensures Chunks([Chunk(c), Delay(ThrottleMs)]) == [c]
  {
    var t := [Chunk(c), Delay(ThrottleMs)];
    assert t[1..][1..] == [];
    assert Chunks(t[1..]) == [];
  }

  lemma ReopenChunks()
    ensures Chunks([StreamClosed, StreamOpened]) == []
  {
    var t := [StreamClosed, StreamOpened];
    assert t[1..][1..] == [];
    assert Chunks(t[1..]) == [];
  }

  lemma PassChunks(c1: seq<Byte>, c2: seq<Byte>)
    ensures Chunks([Chunk(c1), Delay(ThrottleMs), Chunk(c2), Delay(ThrottleMs), StreamClosed, StreamOpened]) == [c1, c2]
  {
    var t := [Chunk(c1), Delay(ThrottleMs), Chunk(c2), Delay(ThrottleMs), StreamClosed, StreamOpened];
    assert t == [Chunk(c1), Delay(ThrottleMs)] + ([Chunk(c2), Delay(ThrottleMs)] + [StreamClosed, StreamOpened]);
    SendChunks(c1);
    SendChunks(c2);
    ReopenChunks();
    ChunksAppend([Chunk(c2), Delay(ThrottleMs)], [StreamClosed, StreamOpened]);
    ChunksAppend([Chunk(c1), Delay(ThrottleMs)], [Chunk(c2), Delay(ThrottleMs)] + [StreamClosed, StreamOpened]);
  }

  lemma StartChunks()
    ensures Chunks([StreamOpened]) == []
  {
    assert [StreamOpened][1..] == [];
  }

  /** The final close adds no chunk. */
  lemma CloseChunks(trace: seq<Step>)
    ensures Chunks(trace + [StreamClosed]) == Chunks(trace)
  {
    ChunksAppend(trace, [StreamClosed]);
    assert [StreamClosed][1..] == [];
  }

  /** One more iteration appends, to the trace of a job after `i` iterations,
      the trace of a single iteration from where the loop stands. */
  lemma TraceStep(data: seq<Byte>, i: nat, steps: seq<Step>)
    requires steps == Iterate(data, Position(data, 0, i), 1)
    ensures ([StreamOpened] + Iterate(data, 0, i)) + steps == [StreamOpened] + Iterate(data, 0, i + 1)
    ensures Position(data, 0, i + 1) == Position(data, Position(data, 0, i), 1)
  {
    IterateSplit(data, 0, i, 1);
    PositionSplit(data, 0, i, 1);
    Seqs.AppendAssoc([StreamOpened], Iterate(data, 0, i), steps);
  }

  /** The socket operations a trace causes on `ws`: one audio frame sent per
      chunk, in order, and nothing without a socket. */
  function AudioLog(ws: Option<LiveClient.Handle>, trace: seq<Step>): seq<LiveClient.Effect>
    decreases |trace|
  {
    if trace == [] then []
    else
      var sent := if trace[0].Chunk? && ws.Some? then [LiveClient.Sent(ws.value, Frames.AudioFrame(trace[0].bytes))] else [];
      sent + AudioLog(ws, trace[1..])
  }

  lemma {:induction false} AudioLogAppend(ws: Option<LiveClient.Handle>, a: seq<Step>, b: seq<Step>)
    ensures AudioLog(ws, a + b) == AudioLog(ws, a) + AudioLog(ws, b)
    decreases |a|
  {
    if a == [] {
      assert a + b == b;
    } else {
      assert (a + b)[0] == a[0] && (a + b)[1..] == a[1..] + b;
      AudioLogAppend(ws, a[1..], b);
    }
  }

  /** The client's log grows with the operations of each new part of the trace. */
  lemma AudioLogStep(log0: seq<LiveClient.Effect>, log1: seq<LiveClient.Effect>, log2: seq<LiveClient.Effect>,
                     ws: Option<LiveClient.Handle>, done: seq<Step>, steps: seq<Step>)
    requires log1 == log0 + AudioLog(ws, done)
    requires log2 == log1 + AudioLog(ws, steps)
    ensures log2 == log0 + AudioLog(ws, done + steps)
  {
    AudioLogAppend(ws, done, steps);
    Seqs.AppendAssoc(log0, AudioLog(ws, done), AudioLog(ws, steps));
  }

  /** A send step is one audio frame sent; a reopen or the final close is no operation. */
  lemma StepLogs(ws: Option<LiveClient.Handle>, chunk: seq<Byte>, trace: seq<Step>)
    ensures AudioLog(ws, [Chunk(chunk), Delay(ThrottleMs)]) == LiveClient.SendsOn(ws, [Frames.AudioFrame(chunk)])
    ensures AudioLog(ws, [StreamClosed, StreamOpened]) == []
    ensures AudioLog(ws, trace + [StreamClosed]) == AudioLog(ws, trace)
  {
    var send := [Chunk(chunk), Delay(ThrottleMs)];
    assert send[1..][1..] == [];
    var reopen := [StreamClosed, StreamOpened];
    assert reopen[1..][1..] == [];
    AudioLogAppend(ws, trace, [StreamClosed]);
    assert [StreamClosed][1..] == [];
    assert AudioLog(ws, trace) + [] == AudioLog(ws, trace);
  }

  /** The operations of a trace are the sends of the audio frames of its chunks. */
  lemma {:induction false} AudioLogSends(ws: Option<LiveClient.Handle>, trace: seq<Step>)
    ensures AudioLog(ws, trace) == LiveClient.SendsOn(ws, LiveClient.AudioFrames(Chunks(trace)))
    decreases |trace|
  {
    if trace != [] {
      AudioLogSends(ws, trace[1..]);
      var head := if trace[0].Chunk? then [trace[0].bytes] else [];
      assert Chunks(trace) == head + Chunks(trace[1..]);
      LiveClient.AudioSendsConcat(ws, head, Chunks(trace[1..]));
      if trace[0].Chunk? && ws.Some? {
        assert LiveClient.AudioFrames(head) == [Frames.AudioFrame(trace[0].bytes)];
      }
    }
  }

  /** The stream openRawResource returns: the resource's bytes and a read position. */
  class ResourceStream {
    const data: seq<Byte>
    var pos: nat
    var closed: bool

    constructor(data: seq<Byte>)
      ensures this.data == data && pos == 0 && !closed
    {
      this.data := data;
      pos := 0;
      closed := false;
    }

    /** InputStream.read(buffer): 0 for an empty buffer, -1 at the end of the
        stream, otherwise the number of bytes copied into the front of the
        buffer, as many as fit and remain; the rest of the buffer is untouched. */
    method Read(buffer: array<Byte>) returns (n: int)
      requires !closed && pos <= |data|
      modifies this, buffer
      ensures !closed && pos <= |data|
      ensures buffer.Length == 0 ==> n == 0 && pos == old(pos) && buffer[..] == old(buffer[..])
      ensures buffer.Length > 0 && old(pos) == |data| ==> n == -1 && pos == old(pos) && buffer[..] == old(buffer[..])
      ensures buffer.Length > 0 && old(pos) < |data| ==>
        && n == Min(buffer.Length, |data| - old(pos))
        && pos == old(pos) + n
        && buffer[..n] == data[old(pos)..pos]
        && buffer[n..] == old(buffer[n..])
    {
      if buffer.Length == 0 {
        return 0;
      }
      if pos == |data| {
        return -1;
      }
      n := Min(buffer.Length, |data| - pos);
      forall k | 0 <= k < n {
        buffer[k] := data[pos + k];
      }
      pos := pos + n;
    }

    method Close()
      modifies this
      ensures closed && pos == old(pos)
    {
      closed := true;
    }
  }

  class AudioInjector {
    const client: LiveClient.GeminiLiveClient
    /** The application's raw resources by id; openRawResource of an id that
        is not here throws. */
    const resources: map<int, seq<Byte>>
    var injectionJob: Coroutines.Job?

    constructor(client: LiveClient.GeminiLiveClient, resources: map<int, seq<Byte>>)
      ensures this.client == client && this.resources == resources && injectionJob == null
    {
      this.client := client;
      this.resources := resources;
      injectionJob := null;
    }

    /** stopInjection(): the job, if any, is cancelled and forgotten; with no
        job it changes nothing, so a second call is harmless. */
    method StopInjection()
      modifies this, injectionJob
      ensures injectionJob == null
      ensures old(injectionJob) != null ==> !old(injectionJob).active
    {
      if injectionJob != null {
        injectionJob.Cancel();
      }
      injectionJob := null;
    }

    /** startInjection(resourceId): stops the previous job first, so at most
        one job is ever tracked, then launches a new one. Its body is
        `RunInjection`. */
    method StartInjection(resourceId: int) returns (job: Coroutines.Job)
      modifies this, injectionJob
      ensures old(injectionJob) != null ==> !old(injectionJob).active
      ensures fresh(job) && job.active && injectionJob == job
    {
      StopInjection();
      job := new Coroutines.Job();
      injectionJob := job;
    }

    /** The body of the injection job, for a job that saw isActive hold
        `iterations` times before it was cancelled. A missing resource throws
        at the first open: the exception is caught and nothing is sent. */
    method RunInjection(resourceId: int, iterations: nat) returns (trace: seq<Step>)
      requires client.Valid()
      modifies client`log
      ensures client.Valid()
      ensures resourceId !in resources ==> trace == []
      ensures resourceId in resources ==> trace == RunTrace(resources[resourceId], iterations)
      ensures client.log == old(client.log) + LiveClient.SendsOn(client.webSocket, LiveClient.AudioFrames(Chunks(trace)))
    {
      if resourceId !in resources {
        trace := [];
        assert LiveClient.AudioFrames(Chunks(trace)) == [];
        return;
      }
      trace := Inject(resources[resourceId], iterations);
      AudioLogSends(client.webSocket, trace);
    }

    /** Open the resource, run the loop `iterations` times, and close the
        stream on the way out (the finally block). */
    method Inject(data: seq<Byte>, iterations: nat) returns (trace: seq<Step>)
      requires client.Valid()
      modifies client`log
      ensures client.Valid()
      ensures trace == RunTrace(data, iterations)
      ensures client.log == old(client.log) + AudioLog(client.webSocket, trace)
    {
      ghost var log0 := client.log;
      var stream := new ResourceStream(data);
      trace := [StreamOpened];
      var buffer := new Byte[ChunkSize];
      var i := 0;
      while i < iterations
        invariant 0 <= i <= iterations
        invariant fresh(stream) && fresh(buffer) && buffer.Length == ChunkSize
        invariant stream.data == data && !stream.closed && stream.pos == Position(data, 0, i)
        invariant trace == [StreamOpened] + Iterate(data, 0, i)
        invariant client.log == log0 + AudioLog(client.webSocket, trace)
        invariant client.Valid()
      {
        stream, trace := LoopOnce(data, stream, buffer, i, trace, log0);
        i := i + 1;
      }
      stream.Close();
      StepLogs(client.webSocket, [], trace);
      trace := trace + [StreamClosed];
    }

    /** The `i`-th iteration of the job's loop: read; at the end of the
        stream close it and open the resource again; otherwise send the bytes
        read (the buffer itself when full, an exact-length copy when short),
        then delay. The steps are appended to the trace so far, `done`. */
    method LoopOnce(data: seq<Byte>, stream: ResourceStream, buffer: array<Byte>, ghost i: nat,
                    done: seq<Step>, ghost log0: seq<LiveClient.Effect>)
      returns (next: ResourceStream, trace: seq<Step>)
      requires buffer.Length == ChunkSize && stream.data == data && !stream.closed
      requires stream.pos == Position(data, 0, i)
      requires done == [StreamOpened] + Iterate(data, 0, i)
      requires client.log == log0 + AudioLog(client.webSocket, done)
      requires client.Valid()
      modifies client`log, stream, buffer
      ensures client.Valid()
      ensures next == stream || fresh(next)
      ensures next.data == data && !next.closed && next.pos == Position(data, 0, i + 1)
      ensures trace == [StreamOpened] + Iterate(data, 0, i + 1)
      ensures client.log == log0 + AudioLog(client.webSocket, trace)
    {
      var pos := stream.pos;
      OneIteration(data, pos);
      var steps;
      var bytesRead := stream.Read(buffer);
      if bytesRead == -1 {
        stream.Close();
        next := new ResourceStream(data);
        steps := [StreamClosed, StreamOpened];
        StepLogs(client.webSocket, [], []);
      } else {
        next := stream;
        var chunk := if bytesRead == ChunkSize then buffer[..] else buffer[..bytesRead];
        assert chunk == data[pos..pos + ReadLength(|data|, pos)];
        client.SendAudioData(chunk);
        steps := [Chunk(chunk), Delay(ThrottleMs)];
        StepLogs(client.webSocket, chunk, []);
      }
      TraceStep(data, i, steps);
      AudioLogStep(log0, old(client.log), client.log, client.webSocket, done, steps);
      trace := done + steps;
    }
  }
}
