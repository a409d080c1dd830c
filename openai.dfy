/** The backend's sentence analysis: the chat-completion request it sends,
    how it digs the reply text out of the decoded response, how it strips a
    Markdown code fence around that text, and the fixed answer it gives
    instead of failing. The HTTP call and the JSON decoder are inputs. */
module OpenAi {
  import opened Wrappers
  import opened Text
  import opened Json

  /** The characters Kotlin's `Char.isWhitespace` accepts (Java's
      `isWhitespace` together with `isSpaceChar`), which `String.trim`
      removes. */
  predicate KotlinWhitespace(c: char) {
    || c == '\t' || c == '\n' || c == '\U{B}' || c == '\U{C}' || c == '\r'
    || ('\U{1C}' <= c <= '\U{1F}') || c == ' ' || c == '\U{A0}' || c == '\U{1680}'
    || ('\U{2000}' <= c <= '\U{200A}') || c == '\U{2028}' || c == '\U{2029}'
    || c == '\U{202F}' || c == '\U{205F}' || c == '\U{3000}'
  }

  /** The analysis record: grammar notes, key phrases and a memory tip. */
  datatype AnalyzeResponse = AnalyzeResponse(grammar: string, phrases: seq<string>, memoryTip: string)

  // ---------------------------------------------------------------------
  // The request

  datatype Message = Message(role: string, content: string)

  /** The request body without its sampling temperature. */
  datatype ChatRequest = ChatRequest(model: string, messages: seq<Message>)

  const UserPrefix := "Analyze: \""

  /** The user message: the text in double quotes after `Analyze: `. */
  function UserContent(text: string): string {
    UserPrefix + text + "\""
  }

  /** The system prompt after `trimIndent` has removed the common
      twelve-space indentation and the blank first and last lines. */
  const SystemPrompt :=
    "You are an expert English tutor helping Chinese learners.\n"
    + "Analyze the given English sentence and return ONLY a valid JSON object with this exact structure:\n"
    + "{\n"
    + "  \"grammar\": \"Detailed grammar analysis in Chinese\",\n"
    + "  \"phrases\": [\"key phrase 1\", \"key phrase 2\"],\n"
    + "  \"memoryTip\": \"A creative mnemonic tip in Chinese\"\n"
    + "}\n"
    + "Do not include markdown formatting. Return only raw JSON."

  /** Reads the text back out of a user message. */
  function QuotedText(content: string): Option<string> {
    if StartsWith(content, UserPrefix) && |content| > |UserPrefix| && content[|content| - 1] == '"'
    then Some(content[|UserPrefix|..|content| - 1])
    else None
  }

  /** The request holds exactly two messages, the fixed system prompt first
      and then the user's text, which can be read back unchanged. */
  function Request(model: string, text: string): (r: ChatRequest)
    ensures r.model == model && |r.messages| == 2
    ensures r.messages[0] == Message("system", SystemPrompt)
    ensures r.messages[1].role == "user" && QuotedText(r.messages[1].content) == Some(text)
  {
    var c := UserContent(text);
    assert c[..|UserPrefix|] == UserPrefix;
    assert c[|UserPrefix|..|c| - 1] == text;
    ChatRequest(model, [Message("system", SystemPrompt), Message("user", c)])
  }

  /** Different texts give different requests. */
  lemma RequestInjective(model: string, a: string, b: string)
    requires Request(model, a) == Request(model, b)
    ensures a == b
  {
    assert QuotedText(Request(model, a).messages[1].content) == Some(a);
  }

  // ---------------------------------------------------------------------
  // The reply text

  const EmptyResponse := "Empty AI response"

  /** `v as? Map<*, *>` */
  function AsMap(v: Option<Json>): Option<map<string, Json>> {
    if v.Some? && v.value.Obj? then Some(v.value.fields) else None
  }

  /** `v as? List<*>` */
  function AsList(v: Option<Json>): Option<seq<Json>> {
    if v.Some? && v.value.Arr? then Some(v.value.items) else None
  }

  /** `v as? String` */
  function AsString(v: Option<Json>): Option<string> {
    if v.Some? && v.value.Str? then Some(v.value.s) else None
  }

  /** `m?.get(key)`: nothing for a missing map or key. */
  function Get(m: Option<map<string, Json>>, key: string): Option<Json> {
    if m.Some? && key in m.value then Some(m.value[key]) else None
  }

  /** `l?.firstOrNull()` */
  function FirstOrNull(l: Option<seq<Json>>): Option<Json> {
    if l.Some? && |l.value| > 0 then Some(l.value[0]) else None
  }

  /** The response carries `s` as the content of the message of its first
      choice, every link of the path having the expected type. */
  predicate ContentAt(response: map<string, Json>, s: string) {
    && "choices" in response
    && response["choices"].Arr?
    && |response["choices"].items| > 0
    && response["choices"].items[0].Obj?
    && "message" in response["choices"].items[0].fields
    && response["choices"].items[0].fields["message"].Obj?
    && "content" in response["choices"].items[0].fields["message"].fields
    && response["choices"].items[0].fields["message"].fields["content"] == Str(s)
  }

  /** The safe-cast chain down to the reply text; any missing or mistyped
      link ends in the `Empty AI response` failure. */
  function ExtractContent(response: map<string, Json>): (r: Result<string, string>)
    ensures forall s :: r == Ok(s) <==> ContentAt(response, s)
    ensures r.Err? ==> r.error == EmptyResponse
  {
    var choices := AsList(Get(Some(response), "choices"));
    var message := AsMap(Get(AsMap(FirstOrNull(choices)), "message"));
    var content := AsString(Get(message, "content"));
    if content.Some? then Ok(content.value) else Err(EmptyResponse)
  }

  // ---------------------------------------------------------------------
  // Fence stripping

  /** Trim, drop one leading "```json", then one leading "```", then one
      trailing "```", and trim again. */
  function StripFences(content: string): (r: string)
    ensures r != [] ==> !KotlinWhitespace(r[0]) && !KotlinWhitespace(r[|r| - 1])
  {
    var t := Trim(content, KotlinWhitespace);
    Trim(RemoveSuffix(RemovePrefix(RemovePrefix(t, "```json"), "```"), "```"), KotlinWhitespace)
  }

  lemma FenceJsonStartsWithFence(s: string)
    requires StartsWith(s, "```json")
    ensures StartsWith(s, "```")
  {
    assert s[..3] == s[..7][..3];
  }

  /** Text that neither starts nor ends with a fence is only trimmed. */
  lemma StripFencesWithoutFences(content: string)
    requires var t := Trim(content, KotlinWhitespace); !StartsWith(t, "```") && !EndsWith(t, "```")
    ensures StripFences(content) == Trim(content, KotlinWhitespace)
  {
    var t := Trim(content, KotlinWhitespace);
    if StartsWith(t, "```json") {
      FenceJsonStartsWithFence(t);
    }
    TrimTrimmed(t, KotlinWhitespace);
  }

  /** A trimmed reply wrapped in a "```json" fence comes back as it was. */
  lemma StripFencesRoundTrip(x: string)
    requires x != [] ==> !KotlinWhitespace(x[0]) && !KotlinWhitespace(x[|x| - 1])
    ensures StripFences("```json\n" + x + "\n```") == x
  {
    var s := "```json\n" + x + "\n```";
    FencedIsTrimmed(x);
    var t := Trim(s, KotlinWhitespace);
    assert t == s;
    OpeningFenceRemoved(x);
    var a := RemovePrefix(t, "```json");
    assert a == "\n" + x + "\n```";
    StartsWithMismatch(a, "```", 0);
    var b := RemovePrefix(a, "```");
    assert b == a;
    ClosingFenceRemoved(x);
    var c := RemoveSuffix(b, "```");
    assert c == "\n" + x + "\n";
    NewlinesTrimmed(x);
    assert Trim(c, KotlinWhitespace) == x;
  }

  lemma FencedIsTrimmed(x: string)
    ensures Trim("```json\n" + x + "\n```", KotlinWhitespace) == "```json\n" + x + "\n```"
  {
    var s := "```json\n" + x + "\n```";
    assert s[0] == '`' && s[|s| - 1] == '`';
    TrimTrimmed(s, KotlinWhitespace);
  }

  lemma OpeningFenceRemoved(x: string)
    ensures RemovePrefix("```json\n" + x + "\n```", "```json") == "\n" + x + "\n```"
  {
    var s := "```json\n" + x + "\n```";
    assert s[..7] == "```json";
    assert s[7..] == "\n" + x + "\n```";
  }

  lemma ClosingFenceRemoved(x: string)
    ensures RemoveSuffix("\n" + x + "\n```", "```") == "\n" + x + "\n"
  {
    var a := "\n" + x + "\n```";
    assert a[|a| - 3..] == "```";
    assert a[..|a| - 3] == "\n" + x + "\n";
  }

  lemma NewlinesTrimmed(x: string)
    requires x != [] ==> !KotlinWhitespace(x[0]) && !KotlinWhitespace(x[|x| - 1])
    ensures Trim("\n" + x + "\n", KotlinWhitespace) == x
  {
    assert "\n" + x + "\n" == ['\n'] + (x + ['\n']);
    TrimStartAfterSpace('\n', x + ['\n'], KotlinWhitespace);
    if x == [] {
      assert x + ['\n'] == ['\n'] + [];
      TrimStartAfterSpace('\n', [], KotlinWhitespace);
    } else {
      assert (x + ['\n'])[0] == x[0];
      assert TrimStart(x + ['\n'], KotlinWhitespace) == x + ['\n'];
      TrimEndBeforeSpace(x, '\n', KotlinWhitespace);
    }
  }

  /** Only one fence is removed at each end, so stripping twice can remove
      more than stripping once. */
  lemma StripFencesNotIdempotent(x: string)
    requires x != [] && !KotlinWhitespace(x[0]) && !KotlinWhitespace(x[|x| - 1])
    requires !StartsWith(x + "```", "json")
    ensures StripFences("```" + ("```" + x + "```") + "```") == "```" + x + "```"
    ensures StripFences("```" + x + "```") == x
    ensures StripFences(StripFences("```" + ("```" + x + "```") + "```")) != StripFences("```" + ("```" + x + "```") + "```")
  {
    var inner := "```" + x + "```";
    assert inner[0] == '`' && inner[|inner| - 1] == '`';
    assert (inner + "```")[0] == '`';
    StartsWithMismatch(inner + "```", "json", 0);
    StripOneFencePair(inner);
    StripOneFencePair(x);
    assert |x| < |inner|;
  }

  /** Around text without whitespace at its ends, exactly one fence pair is
      removed, unless the opening fence and the text read as "```json". */
  lemma StripOneFencePair(x: string)
    requires x != [] && !KotlinWhitespace(x[0]) && !KotlinWhitespace(x[|x| - 1])
    requires !StartsWith(x + "```", "json")
    ensures StripFences("```" + x + "```") == x
  {
    var s := "```" + x + "```";
    assert s[0] == '`' && s[|s| - 1] == '`';
    TrimTrimmed(s, KotlinWhitespace);
    assert s[..3] == "```" && s[3..] == x + "```";
    assert s[..7][3..] == (x + "```")[..4];
    assert !StartsWith(s, "```json");
    var a := x + "```";
    assert a[|a| - 3..] == "```" && a[..|a| - 3] == x;
    TrimTrimmed(x, KotlinWhitespace);
  }

  // ---------------------------------------------------------------------
  // The whole analysis

  /** What the HTTP call produced: an exception (its message may be null)
      or the decoded response map. */
  datatype AiCall = Threw(message: Option<string>) | Responded(response: map<string, Json>)

  /** What the JSON decoder makes of the stripped text. */
  datatype Decoded = Decoded(value: AnalyzeResponse) | DecodeFailed(message: Option<string>)

  const FailurePrefix := "AI\U{8C03}\U{7528}\U{5931}\U{8D25}: "
  const CheckConfig := "\U{8BF7}\U{68C0}\U{67E5}API\U{914D}\U{7F6E}"

  /** A nullable message as a string template prints it. */
  function Printed(message: Option<string>): string {
    if message.Some? then message.value else "null"
  }

  /** The answer given in place of an exception: recognisable as a
      fallback, and naming the exception's message after the prefix. */
  function Fallback(message: Option<string>): (r: AnalyzeResponse)
    ensures IsFallback(r)
    ensures r.grammar[|FailurePrefix|..] == Printed(message)
  {
    var r := AnalyzeResponse(FailurePrefix + Printed(message), ["error"], CheckConfig);
    assert r.grammar[..|FailurePrefix|] == FailurePrefix;
    r
  }

  predicate IsFallback(r: AnalyzeResponse) {
    StartsWith(r.grammar, FailurePrefix) && r.phrases == ["error"] && r.memoryTip == CheckConfig
  }

  /** `analyzeSentence` after the request: every exception on the way is
      caught and answered with the fallback. */
  function AnalyzeSentence(call: AiCall, decode: string -> Decoded): (r: AnalyzeResponse)
    ensures call.Threw? ==> r == Fallback(call.message)
  {
    match call
    case Threw(m) => Fallback(m)
    case Responded(response) =>
      match ExtractContent(response)
      case Err(e) => Fallback(Some(e))
      case Ok(content) =>
        match decode(StripFences(content))
        case Decoded(v) => v
        case DecodeFailed(m) => Fallback(m)
  }

  /** The analysis is the decoder's value for the stripped reply text when
      the call, the extraction and the decoding all succeed. */
  lemma AnalyzeSentenceDecodes(call: AiCall, decode: string -> Decoded, s: string)
    requires call.Responded? && ContentAt(call.response, s)
    requires decode(StripFences(s)).Decoded?
    ensures AnalyzeSentence(call, decode) == decode(StripFences(s)).value
  {
    assert ExtractContent(call.response) == Ok(s);
  }

  /** Whatever happens, the answer is either a decoded analysis of the
      reply text or a fallback. */
  lemma AnalyzeSentenceNeverFails(call: AiCall, decode: string -> Decoded)
    ensures var r := AnalyzeSentence(call, decode);
      IsFallback(r) || (call.Responded? && exists s :: ContentAt(call.response, s) && decode(StripFences(s)) == Decoded(r))
  {
    if call.Responded? && ExtractContent(call.response).Ok? {
      assert ContentAt(call.response, ExtractContent(call.response).value);
    }
  }

  /** A decoder failure on the stripped reply text gives the fallback naming
      the decoder's message. */
  lemma AnalyzeSentenceDecodeFails(call: AiCall, decode: string -> Decoded, s: string, m: Option<string>)
    requires call.Responded? && ContentAt(call.response, s)
    requires decode(StripFences(s)) == DecodeFailed(m)
    ensures AnalyzeSentence(call, decode) == Fallback(m)
  {
    assert ExtractContent(call.response) == Ok(s);
  }

  /** A response without reply text gives the fallback naming
      `Empty AI response`, whatever the decoder. */
  lemma AnalyzeSentenceWithoutContent(call: AiCall, decode: string -> Decoded)
    requires call.Responded? && forall s :: !ContentAt(call.response, s)
    ensures AnalyzeSentence(call, decode) == Fallback(Some(EmptyResponse))
  {
    assert ExtractContent(call.response).Err?;
  }
}
