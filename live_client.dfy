/** GeminiLiveClient: the WebSocket client of the Live API. The socket is an
    opaque handle. What the client does to sockets (opening one, sending a
    frame on it, closing it) is recorded in order in a socket log, and the
    callbacks it makes on its GeminiListener in order in an event log. The
    OkHttp listener callbacks (onOpen, onMessage, onClosing, onFailure) are
    methods that the environment calls in some order. */
module LiveClient {
  import opened Wrappers
  import opened Json
  import opened GeminiEvents
  import Frames
  import Inbound
  import Base64
  import Seqs

  const LiveModelId := "models/gemini-2.0-flash-exp"
  const Host := "generativelanguage.googleapis.com"
  const WsUrl := "wss://" + Host + "/ws/google.ai.generativelanguage.v1alpha.GenerativeService.BidiGenerateContent"

  /** The normal-closure status code the client closes with. */
  const NormalClosure := 1000
  const UserDisconnected := "User disconnected"
  const UnknownError := "Unknown Error"

  /** The handshake URL, with the API key as a query parameter. */
  function Url(apiKey: string): string
  {
    WsUrl + "?key=" + apiKey
  }

  /** A WebSocket the client opened; handles are numbered in opening order. */
  datatype Handle = Handle(id: nat)

  /** One operation on a socket. */
  datatype Effect =
    | Opened(socket: Handle, url: string)
    | Sent(socket: Handle, frame: Json)
    | Closed(socket: Handle, code: int, reason: Option<string>)

  /** `webSocket?.send(frame)` for each frame in turn: nothing at all when the
      handle is null. */
  function SendsOn(ws: Option<Handle>, frames: seq<Json>): (r: seq<Effect>)
    ensures ws.None? ==> r == []
    ensures ws.Some? ==> |r| == |frames|
    decreases |frames|
  {
    if ws.None? || frames == [] then [] else [Sent(ws.value, frames[0])] + SendsOn(ws, frames[1..])
  }

  /** The audio frames of a sequence of PCM chunks. */
  function AudioFrames(chunks: seq<seq<Base64.Byte>>): (r: seq<Json>)
    ensures |r| == |chunks|
    decreases |chunks|
  {
    if chunks == [] then [] else [Frames.AudioFrame(chunks[0])] + AudioFrames(chunks[1..])
  }

  /** The two frames onOpen sends: the setup, then the instruction turn. */
  function OpenFrames(): seq<Json>
  {
    [Frames.SetupFrame(LiveModelId), Frames.PromptFrame(Frames.SystemPrompt)]
  }

  /** With a handle, the k-th effect sends the k-th frame on it. */
  lemma {:induction false} SendsOnElements(h: Handle, frames: seq<Json>)
    ensures forall k | 0 <= k < |frames| :: SendsOn(Some(h), frames)[k] == Sent(h, frames[k])
    decreases |frames|
  {
    if frames != [] {
      SendsOnElements(h, frames[1..]);
    }
  }

  lemma {:induction false} AudioFramesElements(chunks: seq<seq<Base64.Byte>>)
    ensures forall k | 0 <= k < |chunks| :: AudioFrames(chunks)[k] == Frames.AudioFrame(chunks[k])
    decreases |chunks|
  {
    if chunks != [] {
      AudioFramesElements(chunks[1..]);
    }
  }

  lemma {:induction false} SendsOnAppend(ws: Option<Handle>, a: seq<Json>, b: seq<Json>)
    ensures SendsOn(ws, a + b) == SendsOn(ws, a) + SendsOn(ws, b)
    decreases |a|
  {
    if ws.Some? && a != [] {
      assert (a + b)[0] == a[0] && (a + b)[1..] == a[1..] + b;
      SendsOnAppend(ws, a[1..], b);
    } else if a == [] {
      assert a + b == b;
    }
  }

  /** The log of handleMessage's loop after one more well-formed part. */
  lemma DispatchLogStep(parse: Inbound.Parser, render: Inbound.Renderer, parts: seq<Json>, i: nat,
                        events0: seq<Event>, events1: seq<Event>, events2: seq<Event>)
    requires i < |parts| && parts[i].JObject?
    requires forall j | 0 <= j < i :: parts[j].JObject?
    requires events1 == events0 + Inbound.EventsFor(parse, render, Inbound.DispatchedTexts(render, parts[..i]))
    requires events2 == events1 + Inbound.PartEvents(parse, render, parts[i])
    ensures forall j | 0 <= j < i + 1 :: parts[j].JObject?
    ensures events2 == events0 + Inbound.EventsFor(parse, render, Inbound.DispatchedTexts(render, parts[..i + 1]))
  {
    Inbound.DispatchStep(parse, render, parts, i);
  }

  lemma {:induction false} AudioFramesAppend(a: seq<seq<Base64.Byte>>, b: seq<seq<Base64.Byte>>)
    ensures AudioFrames(a + b) == AudioFrames(a) + AudioFrames(b)
    decreases |a|
  {
    if a == [] {
      assert a + b == b;
    } else {
      assert (a + b)[0] == a[0] && (a + b)[1..] == a[1..] + b;
      AudioFramesAppend(a[1..], b);
    }
  }

  /** Sending one more chunk adds its frame after those of the earlier chunks. */
  lemma AudioSendsAppend(ws: Option<Handle>, chunks: seq<seq<Base64.Byte>>, chunk: seq<Base64.Byte>)
    ensures SendsOn(ws, AudioFrames(chunks + [chunk]))
      == SendsOn(ws, AudioFrames(chunks)) + SendsOn(ws, [Frames.AudioFrame(chunk)])
  {
    AudioFramesAppend(chunks, [chunk]);
    SendsOnAppend(ws, AudioFrames(chunks), AudioFrames([chunk]));
  }

  /** The frames of two runs of chunks, one after the other. */
  lemma AudioSendsConcat(ws: Option<Handle>, a: seq<seq<Base64.Byte>>, b: seq<seq<Base64.Byte>>)
    ensures SendsOn(ws, AudioFrames(a + b)) == SendsOn(ws, AudioFrames(a)) + SendsOn(ws, AudioFrames(b))
  {
    AudioFramesAppend(a, b);
    SendsOnAppend(ws, AudioFrames(a), AudioFrames(b));
  }

  /** The sockets opened to `url` in a log. */
  function OpenedTo(log: seq<Effect>, url: string): set<Handle>
    decreases |log|
  {
    if log == [] then {}
    else
      var last := log[|log| - 1];
      OpenedTo(log[..|log| - 1], url) + (if last.Opened? && last.url == url then {last.socket} else {})
  }

  /** Every frame in the log went out on a socket opened to `url` earlier in the log. */
  predicate SentOnOpened(log: seq<Effect>, url: string)
    decreases |log|
  {
    log == []
    || (var last := log[|log| - 1];
        SentOnOpened(log[..|log| - 1], url) && (last.Sent? ==> last.socket in OpenedTo(log[..|log| - 1], url)))
  }

  /** OpenedTo collects exactly the handles of the Opened entries. */
  lemma {:induction false} OpenedToMeans(log: seq<Effect>, url: string, h: Handle)
    ensures h in OpenedTo(log, url) <==> Opened(h, url) in log
    decreases |log|
  {
    if log != [] {
      var front := log[..|log| - 1];
      OpenedToMeans(front, url, h);
      assert log == front + [log[|log| - 1]];
    }
  }

  /** What SentOnOpened promises, entry by entry: each Sent entry has the
      Opened entry of its socket before it. */
  lemma {:induction false} SentOnOpenedMeans(log: seq<Effect>, url: string, i: nat)
    requires SentOnOpened(log, url)
    requires i < |log| && log[i].Sent?
    ensures Opened(log[i].socket, url) in log[..i]
    decreases |log|
  {
    var front := log[..|log| - 1];
    if i == |log| - 1 {
      OpenedToMeans(front, url, log[i].socket);
      assert front == log[..i];
    } else {
      assert front[i] == log[i];
      SentOnOpenedMeans(front, url, i);
      assert front[..i] == log[..i];
    }
  }

  /** Appending entries that send only on sockets already opened keeps every
      send after its open, and keeps every opened socket opened. */
  lemma {:induction false} ExtendLog(log: seq<Effect>, more: seq<Effect>, url: string)
    requires SentOnOpened(log, url)
    requires forall k | 0 <= k < |more| && more[k].Sent? :: more[k].socket in OpenedTo(log, url)
    ensures SentOnOpened(log + more, url)
    ensures OpenedTo(log, url) <= OpenedTo(log + more, url)
    decreases |more|
  {
    if more == [] {
      assert log + more == log;
    } else {
      var front := more[..|more| - 1];
      ExtendLog(log, front, url);
      assert (log + more)[..|log + more| - 1] == log + front;
      assert (log + more)[|log + more| - 1] == more[|more| - 1];
    }
  }

  /** The client's invariant over its socket state: frames only go out on
      sockets opened to `url`, after their opening; the current handle is one
      of those; every opened handle is numbered below `count`, so a new
      handle is never one used before. */
  ghost predicate ValidState(log: seq<Effect>, ws: Option<Handle>, count: nat, url: string)
  {
    && SentOnOpened(log, url)
    && (ws.Some? ==> ws.value in OpenedTo(log, url))
    && (forall e | e in log && e.Opened? :: e.socket.id < count)
  }

  /** Sending any frames on the current handle keeps the invariant. */
  lemma SendsKeepValid(log: seq<Effect>, ws: Option<Handle>, count: nat, url: string, frames: seq<Json>)
    requires ValidState(log, ws, count, url)
    ensures ValidState(log + SendsOn(ws, frames), ws, count, url)
  {
    var more := SendsOn(ws, frames);
    if ws.None? {
      assert log + more == log;
    } else {
      SendsOnElements(ws.value, frames);
      ExtendLog(log, more, url);
    }
  }

  /** On open, the setup frame asks for LIVE_MODEL_ID with text responses, and
      the instruction frame is one complete user turn carrying the system prompt. */
  lemma OpenFramesRead(h: Handle)
    ensures var effects := SendsOn(Some(h), OpenFrames());
      && |effects| == 2
      && effects[0].Sent? && effects[0].socket == h
      && Frames.ReadOutbound(effects[0].frame) == Some(Frames.Setup(LiveModelId, [Frames.TextModality]))
      && effects[1].Sent? && effects[1].socket == h
      && Frames.ReadOutbound(effects[1].frame) == Some(Frames.ClientTurn(Frames.UserRole, Frames.SystemPrompt, true))
  {
    Frames.ReadSetupFrame(LiveModelId);
    Frames.ReadPromptFrame(Frames.SystemPrompt);
  }

  /** With a socket, every audio chunk goes out as one frame on it, in order,
      and the frame carries exactly the chunk's bytes. */
  lemma AudioSendsRead(h: Handle, chunks: seq<seq<Base64.Byte>>)
    ensures var effects := SendsOn(Some(h), AudioFrames(chunks));
      && |effects| == |chunks|
      && forall k | 0 <= k < |effects| ::
           effects[k].Sent? && effects[k].socket == h
           && Frames.ReadOutbound(effects[k].frame) == Some(Frames.Media(Frames.AudioMime, chunks[k]))
  {
    var effects := SendsOn(Some(h), AudioFrames(chunks));
    SendsOnElements(h, AudioFrames(chunks));
    AudioFramesElements(chunks);
    forall k | 0 <= k < |effects|
      ensures Frames.ReadOutbound(effects[k].frame) == Some(Frames.Media(Frames.AudioMime, chunks[k]))
    {
      Frames.ReadAudioFrame(chunks[k]);
    }
  }

  /** A frame that reads as a media chunk: what sendAudioData sends. */
  predicate IsAudio(frame: Json)
  {
    var r := Frames.ReadOutbound(frame);
    r.Some? && r.value.Media?
  }

  /** The setup frame has gone out on socket `h` in `log`. */
  predicate SetupSent(log: seq<Effect>, h: Handle)
  {
    Sent(h, Frames.SetupFrame(LiveModelId)) in log
  }

  /** The protocol's order on each socket: every audio frame has the setup
      frame before it on the same socket. */
  predicate SetupBeforeAudio(log: seq<Effect>)
  {
    forall i | 0 <= i < |log| && log[i].Sent? && IsAudio(log[i].frame) :: SetupSent(log[..i], log[i].socket)
  }

  /** Appending entries whose audio frames all go out on sockets that already
      had their setup keeps the order. */
  lemma ExtendSetupFirst(log: seq<Effect>, more: seq<Effect>)
    requires SetupBeforeAudio(log)
    requires forall k | 0 <= k < |more| && more[k].Sent? && IsAudio(more[k].frame) :: SetupSent(log, more[k].socket)
    ensures SetupBeforeAudio(log + more)
  {
    var all := log + more;
    forall i | 0 <= i < |all| && all[i].Sent? && IsAudio(all[i].frame)
      ensures SetupSent(all[..i], all[i].socket)
    {
      if i < |log| {
        assert all[..i] == log[..i] && all[i] == log[i];
      } else {
        var k := i - |log|;
        assert all[i] == more[k];
        assert all[..i] == log + more[..k];
      }
    }
  }

  /** The open frames are no audio, and they put the setup on the socket. */
  lemma OpenKeepsSetupFirst(log: seq<Effect>, ws: Option<Handle>)
    requires SetupBeforeAudio(log)
    ensures SetupBeforeAudio(log + SendsOn(ws, OpenFrames()))
    ensures ws.Some? ==> SetupSent(log + SendsOn(ws, OpenFrames()), ws.value)
  {
    Frames.ReadSetupFrame(LiveModelId);
    Frames.ReadPromptFrame(Frames.SystemPrompt);
    var more := SendsOn(ws, OpenFrames());
    if ws.Some? {
      SendsOnElements(ws.value, OpenFrames());
      assert more[0] == Sent(ws.value, Frames.SetupFrame(LiveModelId));
      assert (log + more)[|log|] == more[0];
    }
    ExtendSetupFirst(log, more);
  }

  /** The stamps of `n` callbacks made one after the other while the socket
      log held `at` entries. */
  function Stamps(at: nat, n: nat): seq<nat>
  {
    seq(n, _ => at)
  }

  /** Callbacks made in two runs at the same point of the socket log carry
      the stamps of one run of them all. */
  lemma StampsAppend(at: nat, n: nat, m: nat)
    ensures Stamps(at, n) + Stamps(at, m) == Stamps(at, n + m)
  {
    assert forall k | 0 <= k < n + m :: (Stamps(at, n) + Stamps(at, m))[k] == at;
  }

  /** Two runs of callbacks at the same point of the socket log. */
  lemma StampsStep(stamps0: seq<nat>, stamps1: seq<nat>, stamps2: seq<nat>, at: nat, n: nat, m: nat)
    requires stamps1 == stamps0 + Stamps(at, n)
    requires stamps2 == stamps1 + Stamps(at, m)
    ensures stamps2 == stamps0 + Stamps(at, n + m)
  {
    StampsAppend(at, n, m);
    Seqs.AppendAssoc(stamps0, Stamps(at, n), Stamps(at, m));
  }

  /** The stepwise cleaning of parseRiskAnalysis: trim, drop a leading
      "```json", then drop a trailing "```". */
  method CleanText(text: string) returns (clean: string)
    ensures clean == Inbound.CleanJson(text)
  {
    clean := Inbound.Trim(text);
    if Inbound.JsonFence <= clean {
      clean := clean[|Inbound.JsonFence|..];
    }
    if Inbound.EndsWith(clean, Inbound.Fence) {
      clean := clean[..|clean| - |Inbound.Fence|];
    }
  }

  class GeminiLiveClient {
    const apiKey: string
    /** The JSON parser the client uses (the JSONObject(String) constructor). */
    const parse: Inbound.Parser
    /** The text org.json gives for a non-string value read as a string. */
    const render: Inbound.Renderer
    /** The only "connected" gate: set by connect, cleared only by disconnect. */
    var webSocket: Option<Handle>
    /** The number of sockets opened so far. */
    var socketsOpened: nat
    /** Every socket operation so far, in order. */
    var log: seq<Effect>
    /** Every listener callback so far, in order. */
    var events: seq<Event>
    /** For each callback, the number of socket operations made before it:
        this places every callback in the socket log's timeline. */
    var stamps: seq<nat>

    /** Frames only go out on sockets this client opened, to its own URL; the
        current handle is one of those; handles are never reused. */
    ghost predicate Valid()
      reads this`log, this`webSocket, this`socketsOpened
    {
      ValidState(log, webSocket, socketsOpened, Url(apiKey))
    }

    constructor(apiKey: string, parse: Inbound.Parser, render: Inbound.Renderer)
      ensures Valid()
      ensures this.apiKey == apiKey && this.parse == parse && this.render == render
      ensures webSocket.None? && log == [] && events == [] && stamps == []
    {
      this.apiKey := apiKey;
      this.parse := parse;
      this.render := render;
      webSocket := None;
      socketsOpened := 0;
      log := [];
      events := [];
      stamps := [];
    }

    /** connect(): opens a new socket and makes it current, without looking at
        (or closing) the one held before. */
    method Connect() returns (h: Handle)
      requires Valid()
      modifies this`log, this`webSocket, this`socketsOpened
      ensures Valid()
      ensures Opened(h, Url(apiKey)) !in old(log)
      ensures webSocket == Some(h) && socketsOpened == old(socketsOpened) + 1
      ensures log == old(log) + [Opened(h, Url(apiKey))]
      ensures SetupBeforeAudio(old(log)) ==> SetupBeforeAudio(log)
    {
      h := Handle(socketsOpened);
      log := log + [Opened(h, Url(apiKey))];
      socketsOpened := socketsOpened + 1;
      webSocket := Some(h);
      ExtendLog(old(log), [Opened(h, Url(apiKey))], Url(apiKey));
      assert log[..|log| - 1] == old(log);
      if SetupBeforeAudio(old(log)) {
        ExtendSetupFirst(old(log), [Opened(h, Url(apiKey))]);
      }
    }

    /** `webSocket?.send(frame)`. */
    method Send(frame: Json)
      requires Valid()
      modifies this`log
      ensures Valid()
      ensures log == old(log) + SendsOn(webSocket, [frame])
    {
      if webSocket.Some? {
        log := log + [Sent(webSocket.value, frame)];
      }
      SendsKeepValid(old(log), webSocket, socketsOpened, Url(apiKey), [frame]);
    }

    /** Listener calls, one per event, in order, each stamped with the
        current length of the socket log. */
    method Emit(more: seq<Event>)
      modifies this`events, this`stamps
      ensures events == old(events) + more
      ensures stamps == old(stamps) + Stamps(|log|, |more|)
    {
      events := events + more;
      stamps := stamps + Stamps(|log|, |more|);
    }

    /** sendSystemPrompt(). */
    method SendSystemPrompt()
      requires Valid()
      modifies this`log
      ensures Valid()
      ensures log == old(log) + SendsOn(webSocket, [Frames.PromptFrame(Frames.SystemPrompt)])
    {
      Send(Frames.PromptFrame(Frames.SystemPrompt));
    }

    /** sendSetupMessage(): the setup frame, then the instruction turn. */
    method SendSetupMessage()
      requires Valid()
      modifies this`log
      ensures Valid()
      ensures log == old(log) + SendsOn(webSocket, OpenFrames())
    {
      Send(Frames.SetupFrame(LiveModelId));
      SendSystemPrompt();
      SendsOnAppend(webSocket, [Frames.SetupFrame(LiveModelId)], [Frames.PromptFrame(Frames.SystemPrompt)]);
    }

    /** onOpen: both frames go out on the current handle (not the callback's
        socket argument), and only then does onConnected fire: its stamp
        counts both sends. */
    method OnOpen(socket: Handle)
      requires Valid()
      modifies this`log, this`events, this`stamps
      ensures Valid()
      ensures log == old(log) + SendsOn(webSocket, OpenFrames())
      ensures events == old(events) + [OnConnected]
      ensures stamps == old(stamps) + [|log|]
      ensures webSocket.Some? ==> stamps[|stamps| - 1] == |old(log)| + 2
      ensures SetupBeforeAudio(old(log)) ==> SetupBeforeAudio(log)
    {
      SendSetupMessage();
      if SetupBeforeAudio(old(log)) {
        OpenKeepsSetupFirst(old(log), webSocket);
      }
      Emit([OnConnected]);
    }

    /** onClosing: closes the callback's socket with 1000 and no reason, then
        onDisconnect; the handle is kept. */
    method OnClosing(socket: Handle, code: int, reason: string)
      requires Valid()
      modifies this`log, this`events, this`stamps
      ensures Valid()
      ensures log == old(log) + [Closed(socket, NormalClosure, None)]
      ensures events == old(events) + [OnDisconnect]
      ensures stamps == old(stamps) + [|log|]
      ensures SetupBeforeAudio(old(log)) ==> SetupBeforeAudio(log)
    {
      ExtendLog(log, [Closed(socket, NormalClosure, None)], Url(apiKey));
      if SetupBeforeAudio(log) {
        ExtendSetupFirst(log, [Closed(socket, NormalClosure, None)]);
      }
      log := log + [Closed(socket, NormalClosure, None)];
      Emit([OnDisconnect]);
    }

    /** onFailure: onError with the throwable's message, or "Unknown Error"
        when it has none, then onDisconnect; the handle is kept. */
    method OnFailure(socket: Handle, message: Option<string>)
      modifies this`events, this`stamps
      ensures events == old(events) + [OnError(message.GetOr(UnknownError)), OnDisconnect]
      ensures stamps == old(stamps) + [|log|, |log|]
    {
      Emit([OnError(message.GetOr(UnknownError)), OnDisconnect]);
    }

    /** disconnect(): closes the current socket, if any, and clears the handle. */
    method Disconnect()
      requires Valid()
      modifies this`log, this`webSocket
      ensures Valid()
      ensures webSocket.None?
      ensures log == old(log) + (if old(webSocket).Some? then [Closed(old(webSocket).value, NormalClosure, Some(UserDisconnected))] else [])
      ensures SetupBeforeAudio(old(log)) ==> SetupBeforeAudio(log)
    {
      if webSocket.Some? {
        ExtendLog(log, [Closed(webSocket.value, NormalClosure, Some(UserDisconnected))], Url(apiKey));
        if SetupBeforeAudio(log) {
          ExtendSetupFirst(log, [Closed(webSocket.value, NormalClosure, Some(UserDisconnected))]);
        }
        log := log + [Closed(webSocket.value, NormalClosure, Some(UserDisconnected))];
      }
      webSocket := None;
    }

    /** sendAudioData(pcm): nothing without a handle; otherwise one
        realtime_input frame carrying the Base64 of the chunk. */
    method SendAudioData(pcm: seq<Base64.Byte>)
      requires Valid()
      modifies this`log
      ensures Valid()
      ensures log == old(log) + SendsOn(webSocket, [Frames.AudioFrame(pcm)])
    {
      if webSocket.None? {
        return;
      }
      Send(Frames.AudioFrame(pcm));
    }

    /** sendAudioData gated on the socket being open, not merely assigned:
        nothing goes out until onOpen has sent the setup on the current
        socket. This keeps the setup before every audio frame. */
    method SendAudioDataWhenOpen(pcm: seq<Base64.Byte>)
      requires Valid()
      modifies this`log
      ensures Valid()
      ensures log == old(log) +
        (if webSocket.Some? && SetupSent(old(log), webSocket.value) then SendsOn(webSocket, [Frames.AudioFrame(pcm)]) else [])
      ensures SetupBeforeAudio(old(log)) ==> SetupBeforeAudio(log)
    {
      if webSocket.None? || !SetupSent(log, webSocket.value) {
        assert log == old(log) + [];
        return;
      }
      Send(Frames.AudioFrame(pcm));
      if SetupBeforeAudio(old(log)) {
        ExtendSetupFirst(old(log), [Sent(webSocket.value, Frames.AudioFrame(pcm))]);
      }
    }

    /** parseRiskAnalysis(text): one onRiskAnalysis when the cleaned text parses
        as an object, nothing otherwise. */
    method ParseRiskAnalysis(text: string)
      modifies this`events, this`stamps
      ensures events == old(events) + Inbound.AnalysisEvents(parse, render, text)
      ensures stamps == old(stamps) + Stamps(|log|, |Inbound.AnalysisEvents(parse, render, text)|)
    {
      var clean := CleanText(text);
      var analysis := parse(clean);
      if analysis.Some? && analysis.value.JObject? {
        var o := analysis.value.fields;
        var risk := Inbound.OptInt(o, "risk_level", Inbound.DefaultRisk);
        var reason := Inbound.OptString(render, o, "reason", Inbound.DefaultReason);
        Emit([OnRiskAnalysis(risk, reason)]);
      } else {
        assert Stamps(|log|, 0) == [];
      }
    }

    /** handleMessage(text): dispatches server_content.model_turn.parts when
        the message has them, and nothing otherwise (a missing member, or a
        getJSONObject/getJSONArray that throws, ends it silently). */
    method HandleMessage(text: string)
      modifies this`events, this`stamps
      ensures events == old(events) + Inbound.MessageEvents(parse, render, text)
      ensures stamps == old(stamps) + Stamps(|log|, |Inbound.MessageEvents(parse, render, text)|)
    {
      var found := Inbound.ModelTurnParts(parse, text);
      if found.Some? {
        DispatchParts(found.value);
      } else {
        assert Stamps(|log|, 0) == [];
      }
    }

    /** The loop of handleMessage: parses the text of each part in order; the
        first part that is not an object throws, which ends the loop. */
    method DispatchParts(parts: seq<Json>)
      modifies this`events, this`stamps
      ensures events == old(events) + Inbound.EventsFor(parse, render, Inbound.DispatchedTexts(render, parts))
      ensures stamps == old(stamps) + Stamps(|log|, |Inbound.EventsFor(parse, render, Inbound.DispatchedTexts(render, parts))|)
    {
      var i := 0;
      assert Stamps(|log|, 0) == [];
      while i < |parts| && parts[i].JObject?
        invariant 0 <= i <= |parts|
        invariant forall j | 0 <= j < i :: parts[j].JObject?
        invariant DispatchedUpTo(old(events), old(stamps), parts, i)
      {
        DispatchNext(parts, i, old(events), old(stamps));
        i := i + 1;
      }
      Inbound.DispatchedTextsEnd(render, parts, i);
    }

    /** The callbacks of the first `i` parts have been made after `events0`,
        all at the current point of the socket log. */
    ghost predicate DispatchedUpTo(events0: seq<Event>, stamps0: seq<nat>, parts: seq<Json>, i: nat)
      requires i <= |parts|
      reads this`events, this`stamps, this`log
    {
      var more := Inbound.EventsFor(parse, render, Inbound.DispatchedTexts(render, parts[..i]));
      events == events0 + more && stamps == stamps0 + Stamps(|log|, |more|)
    }

    /** The `i`-th turn of handleMessage's loop, for a part that is an object. */
    method DispatchNext(parts: seq<Json>, i: nat, ghost events0: seq<Event>, ghost stamps0: seq<nat>)
      requires i < |parts| && parts[i].JObject?
      requires forall j | 0 <= j < i :: parts[j].JObject?
      requires DispatchedUpTo(events0, stamps0, parts, i)
      modifies this`events, this`stamps
      ensures forall j | 0 <= j < i + 1 :: parts[j].JObject?
      ensures DispatchedUpTo(events0, stamps0, parts, i + 1)
    {
      DispatchPart(parts[i]);
      DispatchLogStep(parse, render, parts, i, events0, old(events), events);
      StampsStep(stamps0, old(stamps), stamps, |log|, |old(events)| - |events0|, |events| - |old(events)|);
    }

    /** One iteration of handleMessage's loop, for a part that is an object:
        parseRiskAnalysis of its text, if it has one. */
    method DispatchPart(part: Json)
      requires part.JObject?
      modifies this`events, this`stamps
      ensures events == old(events) + Inbound.PartEvents(parse, render, part)
      ensures stamps == old(stamps) + Stamps(|log|, |Inbound.PartEvents(parse, render, part)|)
    {
      if "text" in part.fields {
        ParseRiskAnalysis(Inbound.AsString(render, part.fields["text"]));
      } else {
        assert Stamps(|log|, 0) == [];
      }
    }

    /** onMessage: hands the text to handleMessage. */
    method OnMessage(socket: Handle, text: string)
      modifies this`events, this`stamps
      ensures events == old(events) + Inbound.MessageEvents(parse, render, text)
      ensures stamps == old(stamps) + Stamps(|log|, |Inbound.MessageEvents(parse, render, text)|)
    {
      HandleMessage(text);
    }
  }

  /** A log whose first frame on a socket is audio breaks the order, whatever follows. */
  lemma AudioFirstBreaksOrder(h: Handle, url: string, pcm: seq<Base64.Byte>, rest: seq<Effect>)
    ensures !SetupBeforeAudio([Opened(h, url), Sent(h, Frames.AudioFrame(pcm))] + rest)
  {
    var log := [Opened(h, url), Sent(h, Frames.AudioFrame(pcm))] + rest;
    Frames.ReadAudioFrame(pcm);
    assert log[1] == Sent(h, Frames.AudioFrame(pcm));
    assert log[..1] == [Opened(h, url)];
  }

  /** connect() stores the handle before the socket is open, and
      sendAudioData checks only that handle: an audio chunk sent between
      connect and onOpen goes out on the socket ahead of the setup frame. */
  method AudioBeforeSetup(apiKey: string, parse: Inbound.Parser, render: Inbound.Renderer, pcm: seq<Base64.Byte>)
    returns (c: GeminiLiveClient, h: Handle)
    ensures c.log == [Opened(h, Url(apiKey)), Sent(h, Frames.AudioFrame(pcm))] + SendsOn(Some(h), OpenFrames())
    ensures !SetupBeforeAudio(c.log)
  {
    c := new GeminiLiveClient(apiKey, parse, render);
    h := c.Connect();
    assert c.log == [Opened(h, Url(apiKey))];
    c.SendAudioData(pcm);
    assert SendsOn(Some(h), [Frames.AudioFrame(pcm)]) == [Sent(h, Frames.AudioFrame(pcm))];
    assert c.log == [Opened(h, Url(apiKey)), Sent(h, Frames.AudioFrame(pcm))];
    c.OnOpen(h);
    AudioFirstBreaksOrder(h, Url(apiKey), pcm, SendsOn(Some(h), OpenFrames()));
  }
}
