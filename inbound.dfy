/** The inbound path of GeminiLiveClient: unwrapping server_content.model_turn.parts
    (handleMessage) and turning the text of one part into a risk verdict
    (parseRiskAnalysis). The JSON parser is a parameter: `parse(text)` is the
    JSON value the text holds, or None when it is not well-formed JSON.
    JSONObject(String) also throws on a well-formed value that is not an
    object; the model reads that as Some of a non-object, which `Analyse`
    and `ModelTurnParts` then reject. The text that org.json's toString()
    gives for numbers, arrays and objects is a parameter too (`render`). */
module Inbound {
  import opened Wrappers
  import opened Json
  import opened GeminiEvents
  import Seqs

  type Parser = string -> Option<Json>
  type Renderer = Json -> string

  // ------------------------------------------------------------------ trim

  /** Kotlin's Char.isWhitespace on the JVM: Character.isWhitespace or
      Character.isSpaceChar, i.e. the ASCII controls TAB..CR and FS..US plus the
      Unicode space, line and paragraph separators (the no-break spaces included). */
  predicate IsWhitespace(c: char)
  {
    ('\t' <= c <= '\r') || ('\U{1C}' <= c <= '\U{1F}') || c == ' '
    || c == '\U{A0}' || c == '\U{1680}' || ('\U{2000}' <= c <= '\U{200A}')
    || c == '\U{2028}' || c == '\U{2029}' || c == '\U{202F}' || c == '\U{205F}' || c == '\U{3000}'
  }

  predicate AllWhitespace(s: string)
  {
    forall k | 0 <= k < |s| :: IsWhitespace(s[k])
  }

  /** Drops the leading whitespace (see TrimStartSpec). */
  function TrimStart(s: string): string
    decreases |s|
  {
    if s != [] && IsWhitespace(s[0]) then TrimStart(s[1..]) else s
  }

  /** Drops the trailing whitespace (see TrimEndSpec). */
  function TrimEnd(s: string): string
    decreases |s|
  {
    if s != [] && IsWhitespace(s[|s| - 1]) then TrimEnd(s[..|s| - 1]) else s
  }

  /** TrimStart gives the suffix of `s` that starts at its first
      non-whitespace character: what it drops is all whitespace. */
  lemma {:induction false} TrimStartSpec(s: string)
    ensures var r := TrimStart(s);
      && |r| <= |s| && r == s[|s| - |r|..]
      && AllWhitespace(s[..|s| - |r|])
      && (r != [] ==> !IsWhitespace(r[0]))
    decreases |s|
  {
    if s != [] && IsWhitespace(s[0]) {
      var t := s[1..];
      TrimStartSpec(t);
      var r := TrimStart(t);
      assert s[|s| - |r|..] == t[|t| - |r|..];
      var dropped := s[..|s| - |r|];
      forall k | 0 <= k < |dropped| ensures IsWhitespace(dropped[k]) {
        if k > 0 {
          assert dropped[k] == t[..|t| - |r|][k - 1];
        }
      }
    }
  }

  /** TrimEnd gives the prefix of `s` that ends at its last non-whitespace
      character: what it drops is all whitespace. */
  lemma {:induction false} TrimEndSpec(s: string)
    ensures var r := TrimEnd(s);
      && |r| <= |s| && r == s[..|r|]
      && AllWhitespace(s[|r|..])
      && (r != [] ==> !IsWhitespace(r[|r| - 1]))
    decreases |s|
  {
    if s != [] && IsWhitespace(s[|s| - 1]) {
      var t := s[..|s| - 1];
      TrimEndSpec(t);
      var r := TrimEnd(t);
      assert r == s[..|r|];
      var dropped := s[|r|..];
      forall k | 0 <= k < |dropped| ensures IsWhitespace(dropped[k]) {
        if k < |dropped| - 1 {
          assert dropped[k] == t[|r|..][k];
        }
      }
    }
  }

  /** String.trim(). */
  function Trim(s: string): string
  {
    TrimEnd(TrimStart(s))
  }

  lemma {:induction false} TrimStartSkips(w: string, x: string)
    requires AllWhitespace(w) && (x != [] ==> !IsWhitespace(x[0]))
    ensures TrimStart(w + x) == x
    decreases |w|
  {
    if w == [] {
      assert w + x == x;
    } else {
      assert (w + x)[0] == w[0];
      assert (w + x)[1..] == w[1..] + x;
      TrimStartSkips(w[1..], x);
    }
  }

  lemma {:induction false} TrimEndSkips(x: string, w: string)
    requires AllWhitespace(w) && (x != [] ==> !IsWhitespace(x[|x| - 1]))
    ensures TrimEnd(x + w) == x
    decreases |w|
  {
    if w == [] {
      assert x + w == x;
    } else {
      assert (x + w)[|x + w| - 1] == w[|w| - 1];
      assert (x + w)[..|x + w| - 1] == x + w[..|w| - 1];
      TrimEndSkips(x, w[..|w| - 1]);
    }
  }

  /** Trimming removes exactly the surrounding whitespace of a text that
      starts and ends with something else. */
  lemma TrimSurrounded(w0: string, x: string, w1: string)
    requires AllWhitespace(w0) && AllWhitespace(w1)
    requires x != [] && !IsWhitespace(x[0]) && !IsWhitespace(x[|x| - 1])
    ensures Trim(w0 + x + w1) == x
  {
    assert w0 + x + w1 == w0 + (x + w1);
    TrimStartSkips(w0, x + w1);
    TrimEndSkips(x, w1);
  }

  // ------------------------------------------------------------------ fences

  const JsonFence := "```json"
  const Fence := "```"

  predicate EndsWith(t: string, suffix: string)
  {
    |suffix| <= |t| && t[|t| - |suffix|..] == suffix
  }

  /** Removes a leading "```json" (case-sensitive), if there is one. */
  function StripOpener(t: string): (r: string)
    ensures if JsonFence <= t then t == JsonFence + r else r == t
  {
    if JsonFence <= t then t[|JsonFence|..] else t
  }

  /** Removes a trailing "```", if there is one. */
  function StripCloser(t: string): (r: string)
    ensures if EndsWith(t, Fence) then t == r + Fence else r == t
  {
    if EndsWith(t, Fence) then t[..|t| - |Fence|] else t
  }

  /** The text parseRiskAnalysis hands to the JSON parser: the trimmed text
      without its "```json" opener and its "```" closer (see CleanJsonShape). */
  function CleanJson(text: string): string
  {
    StripCloser(StripOpener(Trim(text)))
  }

  /** Cleaning changes nothing but the markers: the result is the trimmed
      text with at most the seven characters of "```json" cut from the front
      and the three of "```" from the back. */
  lemma CleanJsonShape(text: string)
    ensures var t, r := Trim(text), CleanJson(text);
      var lead := if JsonFence <= t then |JsonFence| else 0;
      && lead + |r| <= |t|
      && r == t[lead..lead + |r|]
      && (|t| == lead + |r| || |t| == lead + |r| + |Fence|)
  {
    var t := Trim(text);
    var u := StripOpener(t);
    var lead := if JsonFence <= t then |JsonFence| else 0;
    assert u == t[lead..];
  }

  /** Text with neither marker comes out of cleaning as it was trimmed. */
  lemma CleanJsonUnmarked(text: string)
    requires !(JsonFence <= Trim(text)) && !EndsWith(Trim(text), Fence)
    ensures CleanJson(text) == Trim(text)
  {
  }

  /** A bare "```" opener (one not followed by "json") is kept: the cleaned
      text is a prefix of the trimmed one. */
  lemma CleanJsonKeepsBareOpener(text: string)
    requires Fence <= Trim(text) && !(JsonFence <= Trim(text))
    ensures CleanJson(text) <= Trim(text)
  {
  }

  lemma StripFences(body: string)
    ensures StripCloser(StripOpener(JsonFence + body + Fence)) == body
  {
    var x := JsonFence + body + Fence;
    assert x == JsonFence + (body + Fence);
    assert JsonFence <= x;
    assert StripOpener(x) == body + Fence;
    assert (body + Fence)[..|body|] == body;
  }

  /** A fenced body, with any whitespace around the fences, cleans to the body. */
  lemma CleanJsonFenced(w0: string, body: string, w1: string)
    requires AllWhitespace(w0) && AllWhitespace(w1)
    ensures CleanJson(w0 + JsonFence + body + Fence + w1) == body
  {
    var x := JsonFence + body + Fence;
    assert w0 + JsonFence + body + Fence + w1 == w0 + x + w1;
    assert x[0] == '`' && x[|x| - 1] == '`';
    TrimSurrounded(w0, x, w1);
    StripFences(body);
  }

  /** A trimmed text without markers cleans to itself, whatever whitespace
      surrounds it. */
  lemma CleanJsonPlain(w0: string, o: string, w1: string)
    requires AllWhitespace(w0) && AllWhitespace(w1)
    requires o != [] && !IsWhitespace(o[0]) && !IsWhitespace(o[|o| - 1])
    requires !(JsonFence <= o) && !EndsWith(o, Fence)
    ensures CleanJson(w0 + o + w1) == o
  {
    TrimSurrounded(w0, o, w1);
  }

  lemma CleanJsonBare(o: string)
    requires o != [] && !IsWhitespace(o[0]) && !IsWhitespace(o[|o| - 1])
    requires !(JsonFence <= o) && !EndsWith(o, Fence)
    ensures CleanJson(o) == o
  {
    assert [] + o + [] == o;
    CleanJsonPlain([], o, []);
  }

  /** A trimmed text without markers, and the same text fenced: cleaning gives
      the text itself, and the fenced one the text plus the whitespace that
      stood between it and the fences. */
  lemma FencedLikeUnfenced(w0: string, w1: string, o: string, w2: string, w3: string)
    requires AllWhitespace(w0) && AllWhitespace(w1) && AllWhitespace(w2) && AllWhitespace(w3)
    requires o != [] && !IsWhitespace(o[0]) && !IsWhitespace(o[|o| - 1])
    requires !(JsonFence <= o) && !EndsWith(o, Fence)
    ensures CleanJson(o) == o
    ensures CleanJson(w0 + o + w3) == o
    ensures CleanJson(w0 + JsonFence + w1 + o + w2 + Fence + w3) == w1 + o + w2
  {
    assert w0 + JsonFence + w1 + o + w2 + Fence + w3 == w0 + JsonFence + (w1 + o + w2) + Fence + w3;
    CleanJsonFenced(w0, w1 + o + w2, w3);
    CleanJsonPlain(w0, o, w3);
    CleanJsonBare(o);
  }

  // ------------------------------------------------------------------ verdict

  datatype Verdict = Verdict(riskScore: int, reason: string)

  const DefaultRisk := 0
  const DefaultReason := "Scanning..."

  const IntMin := -0x8000_0000
  const IntLimit := 0x8000_0000

  /** The Kotlin Int that optInt reads from an integral JSON number: org.json
      keeps a literal that fits 64 bits as Integer or Long and narrows a Long
      with intValue() (the low 32 bits); a larger literal is a Double, whose
      intValue() saturates. */
  function IntValue(n: int): (r: int)
    ensures IntMin <= r < IntLimit
    ensures IntMin <= n < IntLimit ==> r == n
  {
    if -0x8000_0000_0000_0000 <= n < 0x8000_0000_0000_0000 then
      var low := n % 0x1_0000_0000;
      if low >= IntLimit then low - 0x1_0000_0000 else low
    else if n < 0 then IntMin
    else IntLimit - 1
  }

  /** JSONObject.optInt(key, fallback), for integral numbers. optInt also
      parses a string member as a number; here any member that is not a
      number, a string included, gives the fallback. */
  function OptInt(o: map<string, Json>, key: string, fallback: int): int
  {
    if key in o && o[key].JNum? then IntValue(o[key].n) else fallback
  }

  /** The string org.json's JSON.toString gives for a member value (getString,
      optString): a string as it is, null as "null", booleans as "true" or
      "false", anything else as rendered. */
  function AsString(render: Renderer, v: Json): string
  {
    match v
    case JString(s) => s
    case JNull => "null"
    case JBool(b) => if b then "true" else "false"
    case _ => render(v)
  }

  /** JSONObject.optString(key, fallback). */
  function OptString(render: Renderer, o: map<string, Json>, key: string, fallback: string): string
  {
    if key in o then AsString(render, o[key]) else fallback
  }

  /** The verdict parseRiskAnalysis reports for one text, or None when the
      cleaned text is not a JSON object. */
  function Analyse(parse: Parser, render: Renderer, text: string): Option<Verdict>
  {
    match parse(CleanJson(text))
    case Some(JObject(o)) => Some(Verdict(OptInt(o, "risk_level", DefaultRisk), OptString(render, o, "reason", DefaultReason)))
    case _ => None
  }

  /** The callbacks parseRiskAnalysis makes for one text. */
  function AnalysisEvents(parse: Parser, render: Renderer, text: string): seq<Event>
  {
    match Analyse(parse, render, text)
    case Some(v) => [OnRiskAnalysis(v.riskScore, v.reason)]
    case None => []
  }

  /** A text that cleans to a JSON object gives exactly one onRiskAnalysis.
      Its risk is 0 when risk_level is absent or not a number (a numeric
      string included, which optInt itself would parse), the number
      itself when it fits an Int, and the number narrowed to an Int
      otherwise. Its reason is "Scanning..." when reason is absent, the string
      when it is one, and org.json's text for any other value. */
  lemma AnalysisOfObject(parse: Parser, render: Renderer, text: string, o: map<string, Json>)
    requires parse(CleanJson(text)) == Some(JObject(o))
    ensures |AnalysisEvents(parse, render, text)| == 1
    ensures var e := AnalysisEvents(parse, render, text)[0];
      && e.OnRiskAnalysis?
      && ("risk_level" !in o ==> e.riskScore == 0)
      && ("risk_level" in o && !o["risk_level"].JNum? ==> e.riskScore == 0)
      && ("risk_level" in o && o["risk_level"].JNum? ==> e.riskScore == IntValue(o["risk_level"].n))
      && ("risk_level" in o && o["risk_level"].JNum? && IntMin <= o["risk_level"].n < IntLimit ==> e.riskScore == o["risk_level"].n)
      && ("reason" !in o ==> e.reason == "Scanning...")
      && ("reason" in o ==> e.reason == AsString(render, o["reason"]))
      && ("reason" in o && o["reason"].JString? ==> e.reason == o["reason"].s)
  {
    var v := Verdict(OptInt(o, "risk_level", DefaultRisk), OptString(render, o, "reason", DefaultReason));
    assert Analyse(parse, render, text) == Some(v);
    assert AnalysisEvents(parse, render, text) == [OnRiskAnalysis(v.riskScore, v.reason)];
  }

  /** Partial or non-JSON text, or JSON that is not an object, gives no
      callback at all: neither onRiskAnalysis nor onError. */
  lemma AnalysisOfNonObject(parse: Parser, render: Renderer, text: string)
    requires !(parse(CleanJson(text)).Some? && parse(CleanJson(text)).value.JObject?)
    ensures AnalysisEvents(parse, render, text) == []
  {
    assert Analyse(parse, render, text) == None;
  }

  /** Fencing an object does not change its verdict, given a parser that
      ignores the whitespace around a value (section 2 of RFC 8259). */
  lemma FenceKeepsVerdict(parse: Parser, render: Renderer, w0: string, w1: string, o: string, w2: string, w3: string)
    requires AllWhitespace(w0) && AllWhitespace(w1) && AllWhitespace(w2) && AllWhitespace(w3)
    requires o != [] && !IsWhitespace(o[0]) && !IsWhitespace(o[|o| - 1])
    requires !(JsonFence <= o) && !EndsWith(o, Fence)
    requires parse(w1 + o + w2) == parse(o)
    ensures AnalysisEvents(parse, render, w0 + JsonFence + w1 + o + w2 + Fence + w3) == AnalysisEvents(parse, render, o)
  {
    FencedLikeUnfenced(w0, w1, o, w2, w3);
  }

  // ------------------------------------------------------------------ dispatch

  /** The array server_content.model_turn.parts of a message, or None when the
      message is not an object, lacks either member (nothing is dispatched) or
      one of getJSONObject/getJSONArray throws (the exception is swallowed). */
  function ModelTurnParts(parse: Parser, text: string): Option<seq<Json>>
  {
    match parse(text)
    case Some(JObject(msg)) =>
      if "server_content" in msg && msg["server_content"].JObject? then
        var content := msg["server_content"].fields;
        if "model_turn" in content && content["model_turn"].JObject? then
          var turn := content["model_turn"].fields;
          if "parts" in turn && turn["parts"].JArray? then Some(turn["parts"].items) else None
        else None
      else None
    case _ => None
  }

  /** The text of one part, if it has a "text" member. */
  function TextOf(render: Renderer, part: Json): (r: seq<string>)
    requires part.JObject?
    ensures |r| <= 1
  {
    if "text" in part.fields then [AsString(render, part.fields["text"])] else []
  }

  /** The texts handleMessage passes to parseRiskAnalysis, in array order; a
      part that is not an object throws and ends the loop. */
  function DispatchedTexts(render: Renderer, parts: seq<Json>): (r: seq<string>)
    ensures |r| <= |parts|
    decreases |parts|
  {
    if parts == [] then []
    else if !parts[0].JObject? then []
    else TextOf(render, parts[0]) + DispatchedTexts(render, parts[1..])
  }

  /** The callbacks for a sequence of texts, one analysis after the other:
      at most one per text. */
  function EventsFor(parse: Parser, render: Renderer, texts: seq<string>): (r: seq<Event>)
    ensures |r| <= |texts|
    decreases |texts|
  {
    if texts == [] then []
    else AnalysisEvents(parse, render, texts[0]) + EventsFor(parse, render, texts[1..])
  }

  /** Only onRiskAnalysis comes out of the analysis of model text: a bad
      part never reaches onError. */
  lemma {:induction false} EventsForOnlyRisk(parse: Parser, render: Renderer, texts: seq<string>)
    ensures forall k | 0 <= k < |EventsFor(parse, render, texts)| :: EventsFor(parse, render, texts)[k].OnRiskAnalysis?
    decreases |texts|
  {
    if texts != [] {
      EventsForOnlyRisk(parse, render, texts[1..]);
      var head := AnalysisEvents(parse, render, texts[0]);
      assert forall k | 0 <= k < |head| :: head[k].OnRiskAnalysis?;
    }
  }

  /** The callbacks handleMessage makes for one inbound message. */
  function MessageEvents(parse: Parser, render: Renderer, text: string): seq<Event>
  {
    match ModelTurnParts(parse, text)
    case None => []
    case Some(parts) => EventsFor(parse, render, DispatchedTexts(render, parts))
  }

  lemma {:induction false} EventsForAppend(parse: Parser, render: Renderer, a: seq<string>, b: seq<string>)
    ensures EventsFor(parse, render, a + b) == EventsFor(parse, render, a) + EventsFor(parse, render, b)
    decreases |a|
  {
    if a == [] {
      assert a + b == b;
    } else {
      var head := AnalysisEvents(parse, render, a[0]);
      assert (a + b)[0] == a[0] && (a + b)[1..] == a[1..] + b;
      EventsForAppend(parse, render, a[1..], b);
      Seqs.AppendAssoc(head, EventsFor(parse, render, a[1..]), EventsFor(parse, render, b));
    }
  }

  /** Parts are dispatched in order: appending a well-formed part appends its
      text, if it has one. */
  lemma {:induction false} DispatchedTextsAppend(render: Renderer, parts: seq<Json>, part: Json)
    requires forall k | 0 <= k < |parts| :: parts[k].JObject?
    requires part.JObject?
    ensures DispatchedTexts(render, parts + [part]) == DispatchedTexts(render, parts) + TextOf(render, part)
    decreases |parts|
  {
    if parts == [] {
      assert [part][1..] == [];
    } else {
      assert (parts + [part])[1..] == parts[1..] + [part];
      DispatchedTextsAppend(render, parts[1..], part);
    }
  }

  /** A malformed part ends the dispatch, but the parts before it have been
      dispatched already. */
  lemma {:induction false} DispatchedTextsStopAtFault(render: Renderer, parts: seq<Json>, k: nat)
    requires k < |parts| && !parts[k].JObject?
    requires forall j | 0 <= j < k :: parts[j].JObject?
    ensures DispatchedTexts(render, parts) == DispatchedTexts(render, parts[..k])
    decreases k
  {
    if k == 0 {
    } else {
      assert parts[..k][1..] == parts[1..][..k - 1];
      DispatchedTextsStopAtFault(render, parts[1..], k - 1);
    }
  }

  /** The loop ends at `k`: at the first part that is not an object, or at the end. */
  lemma DispatchedTextsEnd(render: Renderer, parts: seq<Json>, k: nat)
    requires k <= |parts| && (k < |parts| ==> !parts[k].JObject?)
    requires forall j | 0 <= j < k :: parts[j].JObject?
    ensures DispatchedTexts(render, parts) == DispatchedTexts(render, parts[..k])
  {
    if k < |parts| {
      DispatchedTextsStopAtFault(render, parts, k);
    } else {
      assert parts[..k] == parts;
    }
  }

  /** The callbacks for one well-formed part: the analysis of its text, if it has one. */
  function PartEvents(parse: Parser, render: Renderer, part: Json): seq<Event>
    requires part.JObject?
  {
    if "text" in part.fields then AnalysisEvents(parse, render, AsString(render, part.fields["text"])) else []
  }

  /** Dispatching one more well-formed part adds that part's callbacks at the end. */
  lemma DispatchStep(parse: Parser, render: Renderer, parts: seq<Json>, i: nat)
    requires i < |parts| && parts[i].JObject?
    requires forall j | 0 <= j < i :: parts[j].JObject?
    ensures EventsFor(parse, render, DispatchedTexts(render, parts[..i + 1]))
      == EventsFor(parse, render, DispatchedTexts(render, parts[..i])) + PartEvents(parse, render, parts[i])
  {
    var before := DispatchedTexts(render, parts[..i]);
    assert parts[..i + 1] == parts[..i] + [parts[i]];
    DispatchedTextsAppend(render, parts[..i], parts[i]);
    var t := TextOf(render, parts[i]);
    EventsForAppend(parse, render, before, t);
    assert EventsFor(parse, render, t) == PartEvents(parse, render, parts[i]) by {
      if "text" in parts[i].fields {
        assert t[1..] == [];
        assert EventsFor(parse, render, t) == AnalysisEvents(parse, render, t[0]) + [];
      }
    }
  }

  /** A message without server_content, or whose server_content has no
      model_turn, dispatches nothing. */
  lemma MessageWithoutModelTurn(parse: Parser, render: Renderer, text: string, msg: map<string, Json>)
    requires parse(text) == Some(JObject(msg))
    requires "server_content" !in msg
      || (msg["server_content"].JObject? && "model_turn" !in msg["server_content"].fields)
    ensures MessageEvents(parse, render, text) == []
  {
  }

  /** What handleMessage reports for a message: the analyses of the texts of
      the parts before the first malformed one (all of them when there is
      none, k == |parts|), concatenated in order. */
  lemma {:induction false} MessageEventsInOrder(parse: Parser, render: Renderer, text: string, k: nat)
    requires ModelTurnParts(parse, text).Some?
    requires var parts := ModelTurnParts(parse, text).value;
      k <= |parts| && (k < |parts| ==> !parts[k].JObject?) && forall j | 0 <= j < k :: parts[j].JObject?
    ensures var parts := ModelTurnParts(parse, text).value;
      MessageEvents(parse, render, text) == EventsFor(parse, render, DispatchedTexts(render, parts[..k]))
  {
    DispatchedTextsEnd(render, ModelTurnParts(parse, text).value, k);
  }

  // ------------------------------------------------------------------ scenarios

  /** A fenced verdict is reported with its own level and reason. */
  lemma FencedVerdictScenario(parse: Parser, render: Renderer)
    requires parse("\n{\"risk_level\": 92, \"reason\": \"Threat detected\"}\n")
      == Some(JObject(map["risk_level" := JNum(92), "reason" := JString("Threat detected")]))
    ensures AnalysisEvents(parse, render, JsonFence + "\n{\"risk_level\": 92, \"reason\": \"Threat detected\"}\n" + Fence)
      == [OnRiskAnalysis(92, "Threat detected")]
  {
    var body := "\n{\"risk_level\": 92, \"reason\": \"Threat detected\"}\n";
    CleanFenced(body);
    ThreatMembers(render);
    assert Analyse(parse, render, JsonFence + body + Fence) == Some(Verdict(92, "Threat detected"));
  }

  /** Cleaning a fence with nothing around it gives its body. */
  lemma CleanFenced(body: string)
    ensures CleanJson(JsonFence + body + Fence) == body
  {
    Seqs.AppendEmpty(JsonFence);
    Seqs.AppendEmpty(JsonFence + body + Fence);
    CleanJsonFenced([], body, []);
  }

  /** The members of the fenced verdict, as optInt and optString read them. */
  lemma ThreatMembers(render: Renderer)
    ensures var o := map["risk_level" := JNum(92), "reason" := JString("Threat detected")];
      && OptInt(o, "risk_level", DefaultRisk) == 92
      && OptString(render, o, "reason", DefaultReason) == "Threat detected"
  {
    var o := map["risk_level" := JNum(92), "reason" := JString("Threat detected")];
    assert |"risk_level"| != |"reason"|;
    assert "risk_level" in o && o["risk_level"] == JNum(92);
    assert IntValue(92) == 92;
    assert "reason" in o && o["reason"] == JString("Threat detected");
  }

  /** A partial text that does not parse is not reported. */
  lemma PartialTextScenario(parse: Parser, render: Renderer)
    requires parse("I think") == None
    ensures AnalysisEvents(parse, render, "I think") == []
  {
    var o := "I think";
    assert o[0] == 'I' && o[|o| - 1] == 'k';
    assert !(JsonFence <= o) by { assert o[0] != JsonFence[0]; }
    CleanJsonBare(o);
  }

  /** A verdict without risk_level is reported with level 0. */
  lemma MissingLevelScenario(parse: Parser, render: Renderer)
    requires parse("{\"reason\": \"calm conversation\"}") == Some(JObject(map["reason" := JString("calm conversation")]))
    ensures AnalysisEvents(parse, render, "{\"reason\": \"calm conversation\"}") == [OnRiskAnalysis(0, "calm conversation")]
  {
    var text := "{\"reason\": \"calm conversation\"}";
    assert text[0] == '{' && text[|text| - 1] == '}';
    assert !(JsonFence <= text) by { assert text[0] != JsonFence[0]; }
    CleanJsonBare(text);
    AnalysisOfObject(parse, render, text, map["reason" := JString("calm conversation")]);
  }
}
