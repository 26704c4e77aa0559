/** The outbound frames of the Live API client: session setup, the initial
    instruction turn and one frame per audio chunk, built as JSON trees exactly
    as GeminiLiveClient.kt builds them with JSONObject.put. `ReadOutbound` is
    the receiving side's reading of a frame into the typed variant it stands
    for; the lemmas show that each builder produces the variant it intends. */
module Frames {
  import opened Wrappers
  import opened Json
  import Base64

  const AudioMime := "audio/pcm;rate=16000"
  const TextModality := "TEXT"
  const UserRole := "user"

  /** The fixed instruction sent as the first content turn. */
  const SystemPrompt := "You are Sentinel, a fraud defense system. Analyze the audio stream for: 1. Threatening tone. 2. Payment pressure. 3. Identity masking. Output ONLY a JSON object: {\"risk_level\": int, \"reason\":String}."

  /** {"setup": {"model": model, "generation_config": {"response_modalities": ["TEXT"]}}} */
  function SetupFrame(model: string): Json
  {
    JObject(map["setup" := JObject(map[
      "model" := JString(model),
      "generation_config" := JObject(map["response_modalities" := JArray([JString(TextModality)])])])])
  }

  /** {"client_content": {"turns": [{"parts": [{"text": text}], "role": "user"}], "turn_complete": true}} */
  function PromptFrame(text: string): Json
  {
    var part := JObject(map["text" := JString(text)]);
    var turn := JObject(map["parts" := JArray([part]), "role" := JString(UserRole)]);
    JObject(map["client_content" := JObject(map["turns" := JArray([turn]), "turn_complete" := JBool(true)])])
  }

  /** {"realtime_input": {"media_chunks": [{"mime_type": "audio/pcm;rate=16000", "data": base64}]}} */
  function AudioFrame(pcm: seq<Base64.Byte>): Json
  {
    var chunk := JObject(map["mime_type" := JString(AudioMime), "data" := JString(Base64.Encode(pcm))]);
    JObject(map["realtime_input" := JObject(map["media_chunks" := JArray([chunk])])])
  }

  /** The three kinds of outbound frame, as typed values. */
  datatype Outbound =
    | Setup(model: string, modalities: seq<string>)
    | ClientTurn(role: string, text: string, turnComplete: bool)
    | Media(mimeType: string, data: seq<Base64.Byte>)

  /** The strings of a JSON array of strings. */
  function Strings(items: seq<Json>): (r: Option<seq<string>>)
    ensures r.Some? ==> |r.value| == |items|
  {
    if items == [] then Some([])
    else if !items[0].JString? then None
    else match Strings(items[1..])
      case None => None
      case Some(rest) => Some([items[0].s] + rest)
  }

  /** The member `key` of `v` when `v` is an object with exactly the members `keys`. */
  function Member(v: Json, keys: set<string>, key: string): Option<Json>
  {
    if v.JObject? && v.fields.Keys == keys && key in keys then Some(v.fields[key]) else None
  }

  function ReadSetup(v: Json): Option<Outbound>
  {
    match (Member(v, {"model", "generation_config"}, "model"), Member(v, {"model", "generation_config"}, "generation_config"))
    case (Some(JString(model)), Some(config)) =>
      (match Member(config, {"response_modalities"}, "response_modalities")
       case Some(JArray(items)) =>
         (match Strings(items)
          case Some(modalities) => Some(Setup(model, modalities))
          case None => None)
       case _ => None)
    case _ => None
  }

  /** The one element of a JSON array of length one. */
  function Single(v: Option<Json>): Option<Json>
  {
    if v.Some? && v.value.JArray? && |v.value.items| == 1 then Some(v.value.items[0]) else None
  }

  function ReadClientContent(v: Json): Option<Outbound>
  {
    var turn := Single(Member(v, {"turns", "turn_complete"}, "turns"));
    var complete := Member(v, {"turns", "turn_complete"}, "turn_complete");
    if turn.None? || !(complete.Some? && complete.value.JBool?) then None
    else
      var part := Single(Member(turn.value, {"parts", "role"}, "parts"));
      var role := Member(turn.value, {"parts", "role"}, "role");
      if part.None? || !(role.Some? && role.value.JString?) then None
      else
        var text := Member(part.value, {"text"}, "text");
        if text.Some? && text.value.JString? then Some(ClientTurn(role.value.s, text.value.s, complete.value.b))
        else None
  }

  function ReadRealtimeInput(v: Json): Option<Outbound>
  {
    var chunk := Single(Member(v, {"media_chunks"}, "media_chunks"));
    if chunk.None? then None
    else
      var mime := Member(chunk.value, {"mime_type", "data"}, "mime_type");
      var data := Member(chunk.value, {"mime_type", "data"}, "data");
      if !(mime.Some? && mime.value.JString? && data.Some? && data.value.JString?) then None
      else match Base64.Decode(data.value.s)
        case Some(bytes) => Some(Media(mime.value.s, bytes))
        case None => None
  }

  /** How the service reads an outbound frame: a single top-level member names
      the frame kind; anything else is not a frame of this protocol. */
  function ReadOutbound(frame: Json): Option<Outbound>
  {
    if Member(frame, {"setup"}, "setup").Some? then ReadSetup(frame.fields["setup"])
    else if Member(frame, {"client_content"}, "client_content").Some? then ReadClientContent(frame.fields["client_content"])
    else if Member(frame, {"realtime_input"}, "realtime_input").Some? then ReadRealtimeInput(frame.fields["realtime_input"])
    else None
  }

  /** The setup frame asks for `model` and for text responses only. */
  lemma ReadSetupFrame(model: string)
    ensures ReadOutbound(SetupFrame(model)) == Some(Setup(model, [TextModality]))
  {
    var items := [JString(TextModality)];
    assert items[1..] == [] && Strings(items[1..]) == Some([]);
    assert [TextModality] + [] == [TextModality];
    assert Strings([JString(TextModality)]) == Some([TextModality]);
    assert ReadSetup(SetupFrame(model).fields["setup"]) == Some(Setup(model, [TextModality]));
  }

  /** The prompt frame is one complete user turn carrying `text`. */
  lemma ReadPromptFrame(text: string)
    ensures ReadOutbound(PromptFrame(text)) == Some(ClientTurn(UserRole, text, true))
  {
  }

  /** The audio frame carries the PCM mime type and a payload that decodes to
      exactly the chunk it was built from. */
  lemma ReadAudioFrame(pcm: seq<Base64.Byte>)
    ensures ReadOutbound(AudioFrame(pcm)) == Some(Media(AudioMime, pcm))
  {
    var data := Base64.Encode(pcm);
    var chunk := JObject(map["mime_type" := JString(AudioMime), "data" := JString(data)]);
    var input := JObject(map["media_chunks" := JArray([chunk])]);
    assert AudioFrame(pcm) == JObject(map["realtime_input" := input]);
    assert "realtime_input" != "setup" && "realtime_input" != "client_content";
    assert Member(AudioFrame(pcm), {"realtime_input"}, "realtime_input") == Some(input);
    assert Single(Member(input, {"media_chunks"}, "media_chunks")) == Some(chunk);
    assert "mime_type" != "data";
    assert Member(chunk, {"mime_type", "data"}, "mime_type") == Some(JString(AudioMime));
    assert Member(chunk, {"mime_type", "data"}, "data") == Some(JString(data));
    Base64.DecodeEncode(pcm);
    assert ReadRealtimeInput(input) == Some(Media(AudioMime, pcm));
  }
}
