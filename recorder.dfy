/** AudioRecorder: captures the microphone and forwards it to the client.
    The recording job is a loop over hardware reads into one reused 3200-byte
    buffer; the results of those reads are an input sequence. */
module Recorder {
  import opened Wrappers
  import Base64
  import LiveClient
  import Coroutines
  import Seqs

  type Byte = Base64.Byte

  const SampleRate := 16000
  /** The buffer of the recording job: 100 ms of 16-bit mono PCM. */
  const BufferBytes := 3200
  /** AudioRecord.ERROR_INVALID_OPERATION: a read on a record that is not initialised. */
  const ErrorInvalidOperation := -3
  /** The result that `audioRecord?.read(...) ?: -1` gives without a record. */
  const NoRecord := -1

  /** What the AudioRecord constructor does with the requested configuration:
      throw, give a record that failed to initialise, or give a working one. */
  datatype DeviceOutcome = Rejected | Uninitialized | Initialized

  /** The result of one hardware read: a byte count (negative for an error
      code) and, for a positive count, the bytes written to the buffer. */
  datatype HwRead = HwRead(count: int, samples: seq<Byte>)

  /** What the driver guarantees: never more than the requested 3200 bytes,
      and exactly `count` bytes when the count is positive. */
  predicate WellFormed(r: HwRead)
  {
    r.count <= BufferBytes && (r.count > 0 ==> |r.samples| == r.count)
  }

  /** The chunks the job forwards for a sequence of read results: the bytes of every
      read with a positive count, in order; 0 and error codes forward nothing. */
  function Forwarded(results: seq<HwRead>): (r: seq<seq<Byte>>)
    ensures |r| <= |results|
    decreases |results|
  {
    if results == [] then []
    else
      var last := results[|results| - 1];
      Forwarded(results[..|results| - 1]) + (if last.count > 0 then [last.samples] else [])
  }

  /** The number of reads with a positive count. */
  function PositiveReads(results: seq<HwRead>): nat
    decreases |results|
  {
    if results == [] then 0
    else PositiveReads(results[..|results| - 1]) + (if results[|results| - 1].count > 0 then 1 else 0)
  }

  /** One chunk is forwarded per positive read, and no other. */
  lemma {:induction false} ForwardedCount(results: seq<HwRead>)
    ensures |Forwarded(results)| == PositiveReads(results)
    decreases |results|
  {
    if results != [] {
      ForwardedCount(results[..|results| - 1]);
    }
  }

  /** With a driver that keeps its promises, every forwarded chunk holds
      between 1 and 3200 bytes: never an empty frame, never more than the
      buffer. */
  lemma {:induction false} ForwardedSizes(results: seq<HwRead>)
    requires forall k | 0 <= k < |results| :: WellFormed(results[k])
    ensures forall k | 0 <= k < |Forwarded(results)| :: 1 <= |Forwarded(results)[k]| <= BufferBytes
    decreases |results|
  {
    if results != [] {
      var front, last := results[..|results| - 1], results[|results| - 1];
      ForwardedSizes(front);
      assert WellFormed(last);
      var tail := if last.count > 0 then [last.samples] else [];
      assert Forwarded(results) == Forwarded(front) + tail;
    }
  }

  /** Reads that never return a positive count forward nothing. */
  lemma {:induction false} NothingForwarded(results: seq<HwRead>)
    requires forall k | 0 <= k < |results| :: results[k].count <= 0
    ensures Forwarded(results) == []
    decreases |results|
  {
    if results != [] {
      NothingForwarded(results[..|results| - 1]);
    }
  }

  /** The forwarded chunks of two runs of reads are those of each part in turn. */
  lemma {:induction false} ForwardedAppend(a: seq<HwRead>, b: seq<HwRead>)
    ensures Forwarded(a + b) == Forwarded(a) + Forwarded(b)
    decreases |b|
  {
    if b == [] {
      assert a + b == a;
    } else {
      var front := b[..|b| - 1];
      assert (a + b)[..|a + b| - 1] == a + front;
      assert (a + b)[|a + b| - 1] == b[|b| - 1];
      ForwardedAppend(a, front);
    }
  }

  /** One more read forwards its bytes after those of the reads before it. */
  lemma ForwardedStep(results: seq<HwRead>, i: nat)
    requires i < |results|
    ensures Forwarded(results[..i + 1])
      == Forwarded(results[..i]) + (if results[i].count > 0 then [results[i].samples] else [])
  {
    var prefix := results[..i + 1];
    assert prefix[..|prefix| - 1] == results[..i] && prefix[|prefix| - 1] == results[i];
  }

  /** What the job forwards: nothing at all unless the record is live. */
  function Recorded(live: bool, results: seq<HwRead>): seq<seq<Byte>>
  {
    if live then Forwarded(results) else []
  }

  /** The chunks forwarded after one more read, whether or not the record is live. */
  lemma ForwardedLiveStep(live: bool, results: seq<HwRead>, i: nat, chunks: seq<seq<Byte>>, now: seq<seq<Byte>>)
    requires i < |results|
    requires chunks == Recorded(live, results[..i])
    requires now == (if live && results[i].count > 0 then [results[i].samples] else [])
    ensures chunks + now == Recorded(live, results[..i + 1])
  {
    if live {
      ForwardedStep(results, i);
    } else {
      assert chunks + now == [];
    }
  }

  /** The audio frames in the client's log grow with the forwarded chunks. */
  lemma ForwardLogStep(log0: seq<LiveClient.Effect>, log1: seq<LiveClient.Effect>, log2: seq<LiveClient.Effect>,
                       ws: Option<LiveClient.Handle>, chunks: seq<seq<Byte>>, now: seq<seq<Byte>>)
    requires log1 == log0 + LiveClient.SendsOn(ws, LiveClient.AudioFrames(chunks))
    requires log2 == log1 + LiveClient.SendsOn(ws, LiveClient.AudioFrames(now))
    ensures log2 == log0 + LiveClient.SendsOn(ws, LiveClient.AudioFrames(chunks + now))
  {
    LiveClient.AudioSendsConcat(ws, chunks, now);
    Seqs.AppendAssoc(log0, LiveClient.SendsOn(ws, LiveClient.AudioFrames(chunks)), LiveClient.SendsOn(ws, LiveClient.AudioFrames(now)));
  }

  class AudioRecord {
    /** state == STATE_INITIALIZED. */
    var initialized: bool
    var recording: bool
    var released: bool

    constructor(initialized: bool)
      ensures this.initialized == initialized && !recording && !released
    {
      this.initialized := initialized;
      recording := false;
      released := false;
    }

    method StartRecording()
      requires initialized
      modifies this
      ensures initialized && recording && released == old(released)
    {
      recording := true;
    }

    /** stop(): throws IllegalStateException (reported as `threw`) on a record
        that is not initialised, and then changes nothing. */
    method Stop() returns (threw: bool)
      modifies this
      ensures threw == !old(initialized)
      ensures initialized == old(initialized) && released == old(released)
      ensures recording == (if threw then old(recording) else false)
    {
      if !initialized {
        return true;
      }
      recording := false;
      return false;
    }

    /** release(): frees the native record, which is no longer initialised. */
    method Release()
      modifies this
      ensures released && !recording && !initialized
    {
      released := true;
      recording := false;
      initialized := false;
    }

    /** read(buffer, 0, buffer.size): on an initialised record, the driver's
        count, with its bytes at the front of the buffer; otherwise
        ERROR_INVALID_OPERATION and the buffer untouched. */
    method Read(buffer: array<Byte>, hw: HwRead) returns (n: int)
      requires WellFormed(hw) && hw.count <= buffer.Length
      modifies buffer
      ensures n == (if initialized then hw.count else ErrorInvalidOperation)
      ensures n > 0 ==> buffer[..n] == hw.samples && buffer[n..] == old(buffer[n..])
      ensures n <= 0 ==> buffer[..] == old(buffer[..])
    {
      if !initialized {
        return ErrorInvalidOperation;
      }
      n := hw.count;
      if n > 0 {
        forall k | 0 <= k < n {
          buffer[k] := hw.samples[k];
        }
        assert buffer[..n] == hw.samples;
      }
    }
  }

  class AudioRecorder {
    const client: LiveClient.GeminiLiveClient
    var recordingJob: Coroutines.Job?
    var audioRecord: AudioRecord?

    constructor(client: LiveClient.GeminiLiveClient)
      ensures this.client == client && recordingJob == null && audioRecord == null
    {
      this.client := client;
      recordingJob := null;
      audioRecord := null;
    }

    /** stopRecording(): cancels the job, stops the record and releases it,
        and whatever happens clears both fields. A stop that throws (the
        record never initialised) skips the release; the exception is caught.
        With both fields null it does nothing, so a second call is harmless. */
    method StopRecording()
      modifies this, recordingJob, audioRecord
      ensures recordingJob == null && audioRecord == null
      ensures old(recordingJob) != null ==> !old(recordingJob).active
      ensures old(audioRecord) != null && old(audioRecord.initialized) ==>
        old(audioRecord).released && !old(audioRecord).recording
      ensures old(audioRecord) != null && !old(audioRecord.initialized) ==>
        old(audioRecord).released == old(audioRecord.released)
        && old(audioRecord).recording == old(audioRecord.recording)
        && !old(audioRecord).initialized
    {
      if recordingJob != null {
        recordingJob.Cancel();
      }
      if audioRecord != null {
        var threw := audioRecord.Stop();
        if !threw {
          audioRecord.Release();
        }
      }
      audioRecord := null;
      recordingJob := null;
    }

    /** stopRecording with the release in a `finally`: a stop that throws
        still releases the record, so every record it drops is released. */
    method StopRecordingReleasing()
      modifies this, recordingJob, audioRecord
      ensures recordingJob == null && audioRecord == null
      ensures old(recordingJob) != null ==> !old(recordingJob).active
      ensures old(audioRecord) != null ==> old(audioRecord).released && !old(audioRecord).recording
    {
      if recordingJob != null {
        recordingJob.Cancel();
      }
      if audioRecord != null {
        var threw := audioRecord.Stop();
        audioRecord.Release();
      }
      audioRecord := null;
      recordingJob := null;
    }

    /** startRecording(): always stops first, discarding the previous record
        and job. A rejected configuration throws (caught): nothing is kept. A
        record that fails to initialise is kept but neither started nor given
        a job. A working record is started and a new job launched, whose body
        is `RunRecording`. */
    method StartRecording(device: DeviceOutcome)
      modifies this, recordingJob, audioRecord
      ensures old(recordingJob) != null ==> !old(recordingJob).active
      ensures old(audioRecord) != null && old(audioRecord.initialized) ==> old(audioRecord).released
      ensures device == Rejected ==> audioRecord == null && recordingJob == null
      ensures device == Uninitialized ==>
        audioRecord != null && fresh(audioRecord) && !audioRecord.initialized && !audioRecord.recording
        && !audioRecord.released
        && recordingJob == null
      ensures device == Initialized ==>
        audioRecord != null && fresh(audioRecord) && audioRecord.initialized && audioRecord.recording
        && !audioRecord.released
        && recordingJob != null && fresh(recordingJob) && recordingJob.active
    {
      StopRecording();
      match device
      case Rejected =>
        return;
      case Uninitialized =>
        audioRecord := new AudioRecord(false);
        return;
      case Initialized =>
        var record := new AudioRecord(true);
        audioRecord := record;
        record.StartRecording();
        recordingJob := new Coroutines.Job();
    }

    /** The body of the recording job, for a job that made one read per
        element of `results` before it was cancelled: every positive count is
        forwarded as a copy of exactly that many bytes; 0, error codes and a
        missing record (read as -1) forward nothing and the loop goes on. */
    method RunRecording(results: seq<HwRead>)
      requires forall k | 0 <= k < |results| :: WellFormed(results[k])
      requires client.Valid()
      modifies client`log
      ensures client.Valid()
      ensures client.log == old(client.log) + LiveClient.SendsOn(client.webSocket,
        LiveClient.AudioFrames(Recorded(audioRecord != null && audioRecord.initialized, results)))
    {
      var buffer := new Byte[BufferBytes];
      ReadLoop(buffer, results);
    }

    /** The loop of the recording job, one read per element of `results`. */
    method ReadLoop(buffer: array<Byte>, results: seq<HwRead>)
      requires forall k | 0 <= k < |results| :: WellFormed(results[k])
      requires buffer.Length == BufferBytes
      requires client.Valid()
      modifies client`log, buffer
      ensures client.Valid()
      ensures client.log == old(client.log) + LiveClient.SendsOn(client.webSocket,
        LiveClient.AudioFrames(Recorded(audioRecord != null && audioRecord.initialized, results)))
    {
      ghost var live := audioRecord != null && audioRecord.initialized;
      ghost var log0 := client.log;
      var i := 0;
      while i < |results|
        invariant 0 <= i <= |results|
        invariant client.log == log0 + LiveClient.SendsOn(client.webSocket, LiveClient.AudioFrames(Recorded(live, results[..i])))
        invariant client.Valid()
      {
        ReadStep(buffer, results, i, live, log0);
        i := i + 1;
      }
      assert results[..i] == results;
    }

    /** One turn of the loop, with what it adds to the client's log. */
    method ReadStep(buffer: array<Byte>, results: seq<HwRead>, i: nat, ghost live: bool, ghost log0: seq<LiveClient.Effect>)
      requires i < |results| && WellFormed(results[i]) && buffer.Length == BufferBytes
      requires live == (audioRecord != null && audioRecord.initialized)
      requires client.log == log0 + LiveClient.SendsOn(client.webSocket, LiveClient.AudioFrames(Recorded(live, results[..i])))
      requires client.Valid()
      modifies client`log, buffer
      ensures client.Valid()
      ensures client.log == log0 + LiveClient.SendsOn(client.webSocket, LiveClient.AudioFrames(Recorded(live, results[..i + 1])))
    {
      var now := if live && results[i].count > 0 then [results[i].samples] else [];
      ReadOnce(buffer, results[i]);
      ForwardLogStep(log0, old(client.log), client.log, client.webSocket, Recorded(live, results[..i]), now);
      ForwardedLiveStep(live, results, i, Recorded(live, results[..i]), now);
    }

    /** One iteration of the job's loop: read into the buffer, and forward an
        exact-length copy of what a positive read delivered. */
    method ReadOnce(buffer: array<Byte>, hw: HwRead)
      requires WellFormed(hw) && buffer.Length == BufferBytes
      requires client.Valid()
      modifies client`log, buffer
      ensures client.Valid()
      ensures client.log == old(client.log) + LiveClient.SendsOn(client.webSocket,
        LiveClient.AudioFrames(if audioRecord != null && audioRecord.initialized && hw.count > 0 then [hw.samples] else []))
    {
      var read := NoRecord;
      if audioRecord != null {
        read := audioRecord.Read(buffer, hw);
      }
      if read > 0 {
        client.SendAudioData(buffer[..read]);
      }
    }
  }

  /** A record that did not initialise, then stopRecording: stop() throws,
      the release is skipped, and the recorder drops the record unreleased. */
  method UninitializedRecordLeaks(client: LiveClient.GeminiLiveClient) returns (recorder: AudioRecorder, record: AudioRecord)
    ensures recorder.audioRecord == null
    ensures !record.initialized && !record.released
  {
    recorder := new AudioRecorder(client);
    recorder.StartRecording(Uninitialized);
    record := recorder.audioRecord;
    recorder.StopRecording();
  }
}
