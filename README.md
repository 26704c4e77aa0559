# Sentinel: the Live API client and its audio producers

Sentinel is an Android fraud-call monitor. It streams call audio to Google's
Gemini Live API over a WebSocket and shows the risk verdicts the model sends
back. This project models the three classes that do that work:

- `GeminiLiveClient` (module `LiveClient`, with `Frames`, `Base64`, `Inbound`):
  - the nullable socket handle, which is the client's only "connected" gate;
  - the frames the client sends: setup, system prompt, audio;
  - the Base64 encoding of the audio (section 4 of RFC 4648, no line breaks),
    with a strict decoder;
  - the inbound path: `handleMessage` unwraps `server_content.model_turn.parts`,
    then `parseRiskAnalysis` trims, removes the markdown fence, parses, and
    reports a verdict with its defaults.
- `AudioInjector` (module `Injector`): the job that loops a raw audio
  resource into the client. It reads chunks of at most 3200 bytes, sends each
  one, waits 100 ms, and reopens the resource at the end of the stream.
- `AudioRecorder` (module `Recorder`): the job that forwards microphone reads
  with a positive count, and the start/stop lifecycle of the record and the job.

Other modelling choices:

- The client is a class with two logs: every socket operation in order, and
  every listener callback in order. Each callback also carries a stamp: the
  number of socket operations made before it. The stamps place the two logs
  on one timeline, so a contract can say that a frame went out before a
  callback fired.
- The OkHttp callbacks are methods the environment calls.
- A coroutine job is a flag that `cancel` clears (module `Coroutines`).
- The job bodies are methods that run for a given number of loop iterations,
  or over a given sequence of hardware read results.
- Each loop is proved against a specification function: `Iterate` for the
  injector, `Forwarded` for the recorder, `EventsFor` over `DispatchedTexts`
  for the dispatch. The properties the source promises are lemmas about
  those functions.
- JSON values are a tree (module `Json`). The JSON parser is a parameter of
  the client: a total function that gives the JSON value the text holds, or
  `None` when the text is not well-formed JSON. `JSONObject(String)` also
  throws on a well-formed value that is not an object. The model reads such
  a value as `Some` of a non-object, which the inbound path then rejects.

## Model

| member | source | states |
|---|---|---|
| Base64.EncodeChar | app/src/main/java/com/example/sentinel/logic/GeminiLiveClient.kt:81 | every sextet maps to a character of the alphabet, never to the pad |
| Base64.DecodeChar | app/src/main/java/com/example/sentinel/logic/GeminiLiveClient.kt:81 | the index read back from an alphabet character encodes to that same character |
| Base64.DecodeEncodeChar | app/src/main/java/com/example/sentinel/logic/GeminiLiveClient.kt:81 | decoding the character of a sextet gives the sextet back |
| Base64.Encode | app/src/main/java/com/example/sentinel/logic/GeminiLiveClient.kt:81 | defines Base64.encodeToString(NO_WRAP): each group of three bytes becomes four alphabet characters, and a final group of one or two bytes is padded with "==" or "=" |
| Base64.Decode | app/src/main/java/com/example/sentinel/logic/GeminiLiveClient.kt:81 | defines the strict decoder that is the partner of Encode: groups of four alphabet characters, padding only in the last group, and None for any other text |
| Base64.EncodeLength | app/src/main/java/com/example/sentinel/logic/GeminiLiveClient.kt:81 | the encoding of n bytes has 4·⌈n/3⌉ characters |
| Base64.EncodeAlphabet | app/src/main/java/com/example/sentinel/logic/GeminiLiveClient.kt:81 | an encoding holds only alphabet characters and '=', '=' only in its last two positions, so there is never a line break (NO_WRAP) |
| Base64.DecodeLength | app/src/main/java/com/example/sentinel/logic/GeminiLiveClient.kt:81 | only a text whose length is a multiple of four decodes |
| Base64.TripleRoundTrip | app/src/main/java/com/example/sentinel/logic/GeminiLiveClient.kt:81 | a full quantum is made of alphabet characters and decodes to its three bytes |
| Base64.PairRoundTrip | app/src/main/java/com/example/sentinel/logic/GeminiLiveClient.kt:81 | a final quantum of two bytes (one pad) decodes to those two bytes |
| Base64.SingleRoundTrip | app/src/main/java/com/example/sentinel/logic/GeminiLiveClient.kt:81 | a final quantum of one byte (two pads) decodes to that byte |
| Base64.DecodeEncode | app/src/main/java/com/example/sentinel/logic/GeminiLiveClient.kt:81 | decoding the encoding of any bytes gives those bytes back |
| Base64.FinalInverse | app/src/main/java/com/example/sentinel/logic/GeminiLiveClient.kt:81 | a last quantum that decodes re-encodes to itself, pad bits included |
| Base64.EncodeDecode | app/src/main/java/com/example/sentinel/logic/GeminiLiveClient.kt:81 | the strict decoder accepts only encoder output: a text that decodes to some bytes is exactly their encoding |
| Frames.SetupFrame | app/src/main/java/com/example/sentinel/logic/GeminiLiveClient.kt:134-152 | defines the setup frame: {"setup": {"model": the model id, "generation_config": {"response_modalities": ["TEXT"]}}} |
| Frames.PromptFrame | app/src/main/java/com/example/sentinel/logic/GeminiLiveClient.kt:158-179 | defines the instruction frame: {"client_content": {"turns": [{"parts": [{"text": the prompt}], "role": "user"}], "turn_complete": true}} |
| Frames.AudioFrame | app/src/main/java/com/example/sentinel/logic/GeminiLiveClient.kt:119-131 | defines the audio frame: {"realtime_input": {"media_chunks": [{"mime_type": "audio/pcm;rate=16000", "data": the Base64 of the PCM bytes}]}} |
| Frames.ReadSetupFrame | app/src/main/java/com/example/sentinel/logic/GeminiLiveClient.kt:134-152 | the setup frame reads back as a setup for the given model with response modalities ["TEXT"] |
| Frames.ReadPromptFrame | app/src/main/java/com/example/sentinel/logic/GeminiLiveClient.kt:158-179 | the prompt frame reads back as one complete turn, role "user", carrying the text |
| Frames.ReadAudioFrame | app/src/main/java/com/example/sentinel/logic/GeminiLiveClient.kt:119-131 | the audio frame reads back as one media chunk with mime "audio/pcm;rate=16000" whose Base64 data decodes to exactly the input bytes |
| Inbound.TrimStartSpec | app/src/main/java/com/example/sentinel/logic/GeminiLiveClient.kt:210 | dropping leading whitespace leaves a suffix of the input, removes only whitespace, and leaves no leading whitespace |
| Inbound.TrimEndSpec | app/src/main/java/com/example/sentinel/logic/GeminiLiveClient.kt:210 | dropping trailing whitespace leaves a prefix, removes only whitespace, and leaves no trailing whitespace |
| Inbound.TrimSurrounded | app/src/main/java/com/example/sentinel/logic/GeminiLiveClient.kt:210 | trimming text with whitespace on both sides gives back exactly the text between |
| Inbound.StripOpener | app/src/main/java/com/example/sentinel/logic/GeminiLiveClient.kt:211-213 | with a leading "```json" the result is what follows it; otherwise the text is unchanged |
| Inbound.StripCloser | app/src/main/java/com/example/sentinel/logic/GeminiLiveClient.kt:214-216 | with a trailing "```" the result is what precedes it; otherwise the text is unchanged |
| Inbound.CleanJson | app/src/main/java/com/example/sentinel/logic/GeminiLiveClient.kt:210-216 | defines the cleaning: trim, then drop a leading "```json", then drop a trailing "```", with no second trim |
| Inbound.CleanJsonShape | app/src/main/java/com/example/sentinel/logic/GeminiLiveClient.kt:210-216 | the cleaned text is a contiguous slice of the trimmed text, missing at most the 7 opener characters at the front and the 3 closer characters at the back |
| Inbound.CleanJsonUnmarked | app/src/main/java/com/example/sentinel/logic/GeminiLiveClient.kt:210-216 | trimmed text with neither marker comes out of cleaning unchanged |
| Inbound.CleanJsonKeepsBareOpener | app/src/main/java/com/example/sentinel/logic/GeminiLiveClient.kt:211-213 | a bare "```" opener is not stripped: the cleaned text is still a prefix of the trimmed text |
| Inbound.CleanJsonFenced | app/src/main/java/com/example/sentinel/logic/GeminiLiveClient.kt:210-216 | whitespace, "```json", body, "```", whitespace cleans to exactly the body |
| Inbound.CleanJsonPlain | app/src/main/java/com/example/sentinel/logic/GeminiLiveClient.kt:210-216 | unmarked text surrounded by whitespace cleans to the text itself |
| Inbound.FencedLikeUnfenced | app/src/main/java/com/example/sentinel/logic/GeminiLiveClient.kt:210-216 | a fenced object and the same object unfenced reach the parser differing only by the whitespace inside the fence |
| LiveClient.CleanText | app/src/main/java/com/example/sentinel/logic/GeminiLiveClient.kt:210-216 | the stepwise reassignment of cleanJson computes the cleaning function |
| Inbound.IntValue | app/src/main/java/com/example/sentinel/logic/GeminiLiveClient.kt:220 | optInt's result is always a 32-bit Int, and equals the member's value when that fits |
| Inbound.Analyse | app/src/main/java/com/example/sentinel/logic/GeminiLiveClient.kt:218-227 | defines the verdict: a cleaned text that parses to an object gives optInt("risk_level", 0) and optString("reason", "Scanning..."); anything else, the caught exception, gives none |
| Inbound.AnalysisOfObject | app/src/main/java/com/example/sentinel/logic/GeminiLiveClient.kt:218-223 | text that cleans to a JSON object gives exactly one onRiskAnalysis, with risk 0 when "risk_level" is missing or not a number (a numeric string included: see "## Left out"), the optInt value of a number (the number itself when it fits an Int), reason "Scanning..." when "reason" is missing, and otherwise the reason's optString text (the string itself for a string) |
| Inbound.AnalysisOfNonObject | app/src/main/java/com/example/sentinel/logic/GeminiLiveClient.kt:224-227 | text that does not clean to a JSON object gives no callback at all: neither onRiskAnalysis nor onError |
| Inbound.FenceKeepsVerdict | app/src/main/java/com/example/sentinel/logic/GeminiLiveClient.kt:209-223 | a fenced object gives the same callbacks as the bare object |
| Inbound.FencedVerdictScenario | app/src/main/java/com/example/sentinel/logic/GeminiLiveClient.kt:208-223 | a fenced {"risk_level": 92, "reason": "Threat detected"} is reported as risk 92 with that reason |
| Inbound.PartialTextScenario | app/src/main/java/com/example/sentinel/logic/GeminiLiveClient.kt:224-227 | partial text that does not parse reports nothing |
| Inbound.MissingLevelScenario | app/src/main/java/com/example/sentinel/logic/GeminiLiveClient.kt:218-223 | an object without "risk_level" is reported with risk 0 |
| Inbound.TextOf | app/src/main/java/com/example/sentinel/logic/GeminiLiveClient.kt:196-197 | a part yields at most one text |
| Inbound.DispatchedTexts | app/src/main/java/com/example/sentinel/logic/GeminiLiveClient.kt:194-200 | at most one text per part is dispatched |
| Inbound.EventsFor | app/src/main/java/com/example/sentinel/logic/GeminiLiveClient.kt:194-200 | at most one callback per dispatched text |
| Inbound.EventsForOnlyRisk | app/src/main/java/com/example/sentinel/logic/GeminiLiveClient.kt:194-205 | the inbound path reports only onRiskAnalysis, never onError |
| Inbound.EventsForAppend | app/src/main/java/com/example/sentinel/logic/GeminiLiveClient.kt:194-200 | texts are analysed one after the other: the callbacks for two runs of texts are the two runs' callbacks concatenated |
| Inbound.DispatchedTextsAppend | app/src/main/java/com/example/sentinel/logic/GeminiLiveClient.kt:194-200 | parts are visited in array order: one more well-formed part adds its text at the end |
| Inbound.DispatchedTextsEnd | app/src/main/java/com/example/sentinel/logic/GeminiLiveClient.kt:194-205 | where the loop stops, at the first malformed part or at the end, the dispatched texts are those of the parts before that point |
| Inbound.DispatchedTextsStopAtFault | app/src/main/java/com/example/sentinel/logic/GeminiLiveClient.kt:194-205 | a part that is not an object ends the loop, and the parts before it have already been dispatched |
| Inbound.DispatchStep | app/src/main/java/com/example/sentinel/logic/GeminiLiveClient.kt:194-200 | one more well-formed part adds exactly that part's callbacks at the end |
| Inbound.ModelTurnParts | app/src/main/java/com/example/sentinel/logic/GeminiLiveClient.kt:184-192 | defines the unwrapping: the parts array of server_content.model_turn, or none when the text is not an object, a member is missing, or a getJSONObject/getJSONArray would throw |
| Inbound.MessageEvents | app/src/main/java/com/example/sentinel/logic/GeminiLiveClient.kt:182-206 | defines handleMessage's callbacks: the analyses of the texts the loop dispatches, or none when the message has no parts |
| Inbound.MessageWithoutModelTurn | app/src/main/java/com/example/sentinel/logic/GeminiLiveClient.kt:188-190 | a message object without server_content, or whose server_content has no model_turn, reports nothing |
| Inbound.MessageEventsInOrder | app/src/main/java/com/example/sentinel/logic/GeminiLiveClient.kt:182-206 | a message's callbacks are the analyses of the texts of the parts before the first malformed part, or of all parts when none is malformed, in order |
| LiveClient.SendsOn | app/src/main/java/com/example/sentinel/logic/GeminiLiveClient.kt:131 | with a null handle nothing is sent; otherwise one send per frame |
| LiveClient.SendsOnElements | app/src/main/java/com/example/sentinel/logic/GeminiLiveClient.kt:131 | with a handle, the k-th send carries the k-th frame on that handle |
| LiveClient.OpenedToMeans | app/src/main/java/com/example/sentinel/logic/GeminiLiveClient.kt:45 | a handle counts as opened exactly when the log holds its opening |
| LiveClient.SentOnOpenedMeans | app/src/main/java/com/example/sentinel/logic/GeminiLiveClient.kt:45 | under the client invariant every send has the opening of its socket earlier in the log |
| LiveClient.ExtendLog | app/src/main/java/com/example/sentinel/logic/GeminiLiveClient.kt:131 | appending sends on already opened sockets keeps every send after its opening |
| LiveClient.SendsKeepValid | app/src/main/java/com/example/sentinel/logic/GeminiLiveClient.kt:131 | sending any frames on the current handle keeps the client invariant |
| LiveClient.StampsAppend | app/src/main/java/com/example/sentinel/logic/GeminiLiveClient.kt:46-66 | proof helper for the stamp bookkeeping: stamps of n callbacks then m callbacks at one log length are the stamps of n + m callbacks |
| LiveClient.StampsStep | app/src/main/java/com/example/sentinel/logic/GeminiLiveClient.kt:194-200 | proof helper for the stamp bookkeeping: two rounds of callbacks at one log length extend the stamps as one round |
| LiveClient.ExtendSetupFirst | app/src/main/java/com/example/sentinel/logic/GeminiLiveClient.kt:46-50 | appending entries whose audio frames go out on sockets that already had their setup keeps every audio frame after its socket's setup |
| LiveClient.OpenKeepsSetupFirst | app/src/main/java/com/example/sentinel/logic/GeminiLiveClient.kt:46-50 | the frames onOpen sends keep the setup-before-audio order and put the setup on the socket |
| LiveClient.AudioFirstBreaksOrder | app/src/main/java/com/example/sentinel/logic/GeminiLiveClient.kt:78-79 | a log whose first frame on a socket is audio breaks the setup-before-audio order |
| LiveClient.AudioBeforeSetup | app/src/main/java/com/example/sentinel/logic/GeminiLiveClient.kt:45-50 | connect, then an audio send, then onOpen: the audio frame goes out ahead of the setup frame, and the order is broken |
| LiveClient.DispatchLogStep | app/src/main/java/com/example/sentinel/logic/GeminiLiveClient.kt:194-200 | proof helper for the dispatch loop: the event log after i + 1 parts is the log before plus the callbacks of the first i + 1 parts |
| LiveClient.OpenFramesRead | app/src/main/java/com/example/sentinel/logic/GeminiLiveClient.kt:134-179 | on open exactly two frames go out on the socket: the setup for LIVE_MODEL_ID with ["TEXT"], then the complete "user" turn with the system prompt |
| LiveClient.AudioSendsRead | app/src/main/java/com/example/sentinel/logic/GeminiLiveClient.kt:119-131 | with a handle, each audio chunk goes out as one frame in order, and the frame reads back as exactly that chunk |
| LiveClient.GeminiLiveClient.constructor | app/src/main/java/com/example/sentinel/logic/GeminiLiveClient.kt:14-29 | a new client has no handle and empty logs, and satisfies the invariant |
| LiveClient.GeminiLiveClient.Connect | app/src/main/java/com/example/sentinel/logic/GeminiLiveClient.kt:38-45 | with no state check, opens a new socket to the key's URL and stores its handle before any open callback; keeps the setup-before-audio order |
| LiveClient.GeminiLiveClient.SendSetupMessage | app/src/main/java/com/example/sentinel/logic/GeminiLiveClient.kt:134-156 | sends the setup frame, then the system prompt frame, on the current handle; keeps the client invariant |
| LiveClient.GeminiLiveClient.SendSystemPrompt | app/src/main/java/com/example/sentinel/logic/GeminiLiveClient.kt:158-180 | sends the prompt frame on the current handle, or nothing without one; keeps the client invariant |
| LiveClient.GeminiLiveClient.OnOpen | app/src/main/java/com/example/sentinel/logic/GeminiLiveClient.kt:46-50 | appends the setup and prompt frames to the socket log, then fires onConnected once; with a handle, onConnected's stamp is the old log length plus 2, so both frames went out before it; keeps the setup-before-audio order |
| LiveClient.GeminiLiveClient.OnMessage | app/src/main/java/com/example/sentinel/logic/GeminiLiveClient.kt:52-54 | the callbacks are those of handleMessage for the text, stamped at the current log length |
| LiveClient.GeminiLiveClient.OnClosing | app/src/main/java/com/example/sentinel/logic/GeminiLiveClient.kt:56-60 | closes the socket with 1000, then fires onDisconnect stamped after the close; the handle is kept; keeps the setup-before-audio order |
| LiveClient.GeminiLiveClient.OnFailure | app/src/main/java/com/example/sentinel/logic/GeminiLiveClient.kt:62-66 | fires onError with the message (or "Unknown Error") then onDisconnect, both stamped at the current log length; the handle is kept |
| LiveClient.GeminiLiveClient.Disconnect | app/src/main/java/com/example/sentinel/logic/GeminiLiveClient.kt:70-73 | closes the current socket, if any, with 1000 "User disconnected" and clears the handle, so later audio sends are no-ops; keeps the setup-before-audio order |
| LiveClient.GeminiLiveClient.SendAudioData | app/src/main/java/com/example/sentinel/logic/GeminiLiveClient.kt:78-131 | with a null handle sends nothing; otherwise sends exactly one audio frame of the input; keeps the client invariant |
| LiveClient.GeminiLiveClient.HandleMessage | app/src/main/java/com/example/sentinel/logic/GeminiLiveClient.kt:182-206 | appends exactly the callbacks of the message's dispatch specification, stamped at the current log length |
| LiveClient.GeminiLiveClient.DispatchParts | app/src/main/java/com/example/sentinel/logic/GeminiLiveClient.kt:194-200 | the loop over the parts appends the callbacks of the texts it dispatches, in order, stopping at a malformed part; every callback is stamped at the current log length |
| LiveClient.GeminiLiveClient.DispatchNext | app/src/main/java/com/example/sentinel/logic/GeminiLiveClient.kt:194-200 | one turn of the loop on a well-formed part extends the callbacks and their stamps to one more part |
| LiveClient.GeminiLiveClient.SendAudioDataWhenOpen | app/src/main/java/com/example/sentinel/logic/GeminiLiveClient.kt:78-131 | sends one audio frame only when the setup has gone out on the current socket, and otherwise nothing; keeps the setup-before-audio order |
| LiveClient.GeminiLiveClient.DispatchPart | app/src/main/java/com/example/sentinel/logic/GeminiLiveClient.kt:195-199 | a part with "text" has that text analysed; a part without it reports nothing |
| LiveClient.GeminiLiveClient.ParseRiskAnalysis | app/src/main/java/com/example/sentinel/logic/GeminiLiveClient.kt:208-228 | appends exactly the callbacks of the analysis of the text, stamped at the current log length |
| Coroutines.Job.constructor | app/src/main/java/com/example/sentinel/logic/AudioInjector.kt:25 | a launched job is active |
| Coroutines.Job.Cancel | app/src/main/java/com/example/sentinel/logic/AudioInjector.kt:70 | a cancelled job is no longer active |
| Injector.ReadLength | app/src/main/java/com/example/sentinel/logic/AudioInjector.kt:31-36 | a read takes 1 to 3200 bytes and stays inside the resource, and a short read happens only at its end |
| Injector.Position | app/src/main/java/com/example/sentinel/logic/AudioInjector.kt:36-40 | the read position never passes the end of the resource |
| Injector.Iterate | app/src/main/java/com/example/sentinel/logic/AudioInjector.kt:35-58 | defines k turns of the loop from a read position: at the end of the resource, a close and a reopen; otherwise a chunk of the next read's length and a 100 ms delay |
| Injector.OneIteration | app/src/main/java/com/example/sentinel/logic/AudioInjector.kt:35-58 | one iteration at the end of the stream closes and reopens it (back to position 0); otherwise it sends the next bytes and delays |
| Injector.IteratePaced | app/src/main/java/com/example/sentinel/logic/AudioInjector.kt:36-58 | every chunk has 1..3200 bytes and is followed by exactly one 100 ms delay; delays follow only chunks; a close is followed at once by the reopen, with no delay |
| Injector.IterateSplit | app/src/main/java/com/example/sentinel/logic/AudioInjector.kt:35-59 | a + b iterations are a iterations followed by b iterations from where they left off |
| Injector.ReachesEnd | app/src/main/java/com/example/sentinel/logic/AudioInjector.kt:36-37 | sequential reads reach the end of the resource |
| Injector.ReadToEnd | app/src/main/java/com/example/sentinel/logic/AudioInjector.kt:36-49 | the chunks sent from a position to the end concatenate to the rest of the resource |
| Injector.ReopenStep | app/src/main/java/com/example/sentinel/logic/AudioInjector.kt:37-41 | reading -1 sends nothing: the stream is closed and reopened |
| Injector.PassReturns | app/src/main/java/com/example/sentinel/logic/AudioInjector.kt:37-41 | after one pass the loop reads again from the start |
| Injector.PassShape | app/src/main/java/com/example/sentinel/logic/AudioInjector.kt:35-58 | a pass is the reads to the end followed by the close and reopen |
| Injector.OnePass | app/src/main/java/com/example/sentinel/logic/AudioInjector.kt:36-49 | the chunks of one pass concatenate to the resource bytes |
| Injector.Periodic | app/src/main/java/com/example/sentinel/logic/AudioInjector.kt:35-59 | the loop repeats the same pass: m whole passes then r more iterations are m copies of the pass then the first r iterations |
| Injector.TwoPasses | app/src/main/java/com/example/sentinel/logic/AudioInjector.kt:35-59 | two passes' worth of iterations are the pass twice |
| Injector.EmptyResource | app/src/main/java/com/example/sentinel/logic/AudioInjector.kt:36-42 | an empty resource never yields a chunk |
| Injector.TwoChunkPass | app/src/main/java/com/example/sentinel/logic/AudioInjector.kt:36-58 | a resource of 3201..6400 bytes is sent as a full buffer, then the exact-length rest, each followed by a delay, then the reopen |
| Injector.TwoChunkLoop | app/src/main/java/com/example/sentinel/logic/AudioInjector.kt:35-59 | such a resource's chunks repeat C1, C2, C1, C2 |
| Injector.AudioLogSends | app/src/main/java/com/example/sentinel/logic/AudioInjector.kt:52 | the socket log a trace produces is one audio send per chunk of the trace, in order |
| Injector.ResourceStream.constructor | app/src/main/java/com/example/sentinel/logic/AudioInjector.kt:30 | a fresh stream reads from the start of the resource |
| Injector.ResourceStream.Read | app/src/main/java/com/example/sentinel/logic/AudioInjector.kt:36 | returns -1 at the end and leaves the buffer; otherwise copies as many bytes as fit and remain into the buffer's front and advances by that count |
| Injector.ResourceStream.Close | app/src/main/java/com/example/sentinel/logic/AudioInjector.kt:39 | the stream is closed |
| Injector.AudioInjector.constructor | app/src/main/java/com/example/sentinel/logic/AudioInjector.kt:13-19 | a new injector has no job |
| Injector.AudioInjector.StopInjection | app/src/main/java/com/example/sentinel/logic/AudioInjector.kt:69-73 | the previous job, if any, is cancelled and the field is null; with no job nothing changes, so a second call is harmless |
| Injector.AudioInjector.StartInjection | app/src/main/java/com/example/sentinel/logic/AudioInjector.kt:22-25 | the previous job is cancelled first, and the new active job is the only one tracked |
| Injector.AudioInjector.RunInjection | app/src/main/java/com/example/sentinel/logic/AudioInjector.kt:25-66 | a missing resource sends nothing; otherwise the run's trace is the specification's and the client sends exactly its chunks; the client invariant holds |
| Injector.AudioInjector.Inject | app/src/main/java/com/example/sentinel/logic/AudioInjector.kt:27-65 | the trace is the opening, the specified iterations, and the close of the finally block; the socket log gets that trace's sends |
| Injector.AudioInjector.LoopOnce | app/src/main/java/com/example/sentinel/logic/AudioInjector.kt:35-58 | one iteration of the loop, with the reused buffer and the reopened stream, performs exactly the next specified iteration |
| Recorder.Forwarded | app/src/main/java/com/example/sentinel/logic/AudioRecorder.kt:55-58 | at most one chunk per read |
| Recorder.ForwardedCount | app/src/main/java/com/example/sentinel/logic/AudioRecorder.kt:56-58 | exactly one chunk is forwarded per read with a positive count |
| Recorder.ForwardedSizes | app/src/main/java/com/example/sentinel/logic/AudioRecorder.kt:53-58 | every forwarded chunk has 1..3200 bytes |
| Recorder.NothingForwarded | app/src/main/java/com/example/sentinel/logic/AudioRecorder.kt:56 | reads of 0 or error codes forward nothing |
| Recorder.ForwardedAppend | app/src/main/java/com/example/sentinel/logic/AudioRecorder.kt:54-59 | reads are forwarded in order: the chunks of two runs of reads are the two runs' chunks concatenated |
| Recorder.AudioRecord.constructor | app/src/main/java/com/example/sentinel/logic/AudioRecorder.kt:36-42 | a new record is initialised or not as the device decides, and neither recording nor released |
| Recorder.AudioRecord.StartRecording | app/src/main/java/com/example/sentinel/logic/AudioRecorder.kt:49 | an initialised record is recording |
| Recorder.AudioRecord.Stop | app/src/main/java/com/example/sentinel/logic/AudioRecorder.kt:69 | throws on an uninitialised record and changes nothing; otherwise stops recording |
| Recorder.AudioRecord.Release | app/src/main/java/com/example/sentinel/logic/AudioRecorder.kt:70 | the record is released and no longer initialised |
| Recorder.AudioRecord.Read | app/src/main/java/com/example/sentinel/logic/AudioRecorder.kt:55 | an initialised record returns the driver's count with the bytes in front of the buffer; otherwise ERROR_INVALID_OPERATION |
| Recorder.AudioRecorder.constructor | app/src/main/java/com/example/sentinel/logic/AudioRecorder.kt:14-19 | a new recorder has neither record nor job |
| Recorder.AudioRecorder.StopRecording | app/src/main/java/com/example/sentinel/logic/AudioRecorder.kt:66-77 | both fields end up null even when stop throws; the job is cancelled; an initialised record is stopped and released; an uninitialised record is dropped unchanged and unreleased; with both null nothing happens |
| Recorder.AudioRecorder.StopRecordingReleasing | app/src/main/java/com/example/sentinel/logic/AudioRecorder.kt:66-77 | with the release in a finally, every record it drops ends up released and not recording, initialised or not |
| Recorder.AudioRecorder.StartRecording | app/src/main/java/com/example/sentinel/logic/AudioRecorder.kt:29-64 | always stops first; a rejected configuration keeps nothing; an uninitialised record is kept, not started, with no job; a working record is started with a new active job; a new record is unreleased |
| Recorder.UninitializedRecordLeaks | app/src/main/java/com/example/sentinel/logic/AudioRecorder.kt:29-77 | starting with a record that does not initialise and then stopping drops that record unreleased |
| Recorder.AudioRecorder.RunRecording | app/src/main/java/com/example/sentinel/logic/AudioRecorder.kt:52-60 | the client sends exactly the forwarded chunks, in order, and nothing without a working record; the client invariant holds |
| Recorder.AudioRecorder.ReadLoop | app/src/main/java/com/example/sentinel/logic/AudioRecorder.kt:54-59 | the loop over the reads sends exactly their forwarded chunks |
| Recorder.AudioRecorder.ReadStep | app/src/main/java/com/example/sentinel/logic/AudioRecorder.kt:55-58 | one more read extends the sends to the forwarded chunks of one more read |
| Recorder.AudioRecorder.ReadOnce | app/src/main/java/com/example/sentinel/logic/AudioRecorder.kt:55-58 | a read with a positive count on a working record sends one exact-length copy; any other read sends nothing |

## Left out

- OkHttp transport: the handshake, the zero read timeout, the close handshake and the threads the listener callbacks run on. The callbacks are methods called one at a time. The socket log and the callback log are tied together only by the stamps, which count the socket operations made before each callback.
- org.json internals: the text `toString()` produces for a frame, and the real parser. The parser is a parameter, and so is the text org.json gives for a non-string value read as a string.
- Inbound.IntValue: models optInt for integral numbers only. A JSON number here is an integer, so fractional numbers are not in the JSON model.
- Inbound.AnalysisOfObject: a string "risk_level", which optInt parses as a number (`"92"` gives 92), is read here as the fallback 0. `OptInt` returns the fallback for every member that is not a number, and the string-to-number coercion is not modelled.
- Kotlin strings are UTF-16 code units; here a string is a sequence of `char`, and whitespace is an explicit character set.
- android.util.Base64 is not called: the encoder of RFC 4648 is defined and proved here.
- Coroutines: launch, cancellation races and real time. A job is an active flag; a job body runs for a given number of loop iterations (injector) or a given sequence of reads (recorder); `delay(100)` is a step of the trace.
- Hardware and resources: `AudioRecord.getMinBufferSize` and the buffer size it gives, the microphone (its reads are an input sequence), and `openRawResource` (the resources are a map from id to bytes; a missing id throws and sends nothing).
- Injector.ResourceStream.Read: always fills the buffer as far as the resource allows, so only the last read is short. Java's `InputStream.read` may return fewer bytes at any point; the short-read-only-at-the-end results of ReadLength, OnePass and Periodic depend on this reading.
- I/O exceptions inside the injector loop other than a missing resource are not modelled.
- All `Log` calls.
- SentinelScreen.kt, MainActivity.kt and the build script are not part of this model.

## Findings

| source | as written | input that shows it | evidently intended | confidence | as-written member | corrected member |
|---|---|---|---|---|---|---|
| app/src/main/java/com/example/sentinel/logic/GeminiLiveClient.kt:45, app/src/main/java/com/example/sentinel/logic/GeminiLiveClient.kt:79, app/src/main/java/com/example/sentinel/MainActivity.kt:77, app/src/main/java/com/example/sentinel/MainActivity.kt:95 | `connect()` stores the handle as soon as the socket is requested; `sendAudioData` checks only that the handle is not null, so audio can go out before `onOpen` has sent the setup | `connect()`, then one `sendAudioData(pcm)` before the socket opens (startRecording runs after connect), then `onOpen`: the log is open, audio, setup, prompt | no audio frame on a socket before that socket's setup frame | medium, not executed | LiveClient.AudioBeforeSetup, LiveClient.AudioFirstBreaksOrder | LiveClient.GeminiLiveClient.SendAudioDataWhenOpen |
| app/src/main/java/com/example/sentinel/logic/AudioRecorder.kt:66-77 | `stop()` and `release()` share one `try`; `stop()` throws on a record that never initialised, so `release()` is skipped and the record is dropped | `startRecording()` where the `AudioRecord` comes back uninitialised, then `stopRecording()` | every dropped record is released (release in the `finally`) | medium, not executed | Recorder.UninitializedRecordLeaks | Recorder.AudioRecorder.StopRecordingReleasing |

The client and the producers keep the code as written: the recorder and the
injector call `SendAudioData` and `StartRecording` calls `StopRecording`.
The corrected members are alternatives whose properties are proved above.
