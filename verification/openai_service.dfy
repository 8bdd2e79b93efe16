/**
 The recommendation path of the OpenAI service: how the chat reply's content is
 normalized to a string, how markdown code fences are removed, and when the parsed
 JSON is handed back as a recommendation. The OpenAI SDK call is a parameter
 (`ChatReply`), and so is `JSON.parse`.
 */
module OpenAiService {
  import opened Wrappers
  import opened JsStrings
  import opened Json

  /** `isConfigured`: `Boolean(apiKey)`, so an empty key counts as missing. */
  function IsConfigured(apiKey: Option<string>): (r: bool)
    ensures apiKey.None? ==> !r
    ensures apiKey == Some("") ==> !r
    ensures apiKey.Some? && |apiKey.value| > 0 ==> r
  {
    apiKey.Some? && apiKey.value != ""
  }

  // ---------------------------------------------------------------- normalizeMessageContent

  /** One element of an array content: a bare string, or an object whose `text` may hold any JSON value. */
  datatype Part = PartString(s: string) | PartObject(text: Option<Json>)

  /** The message's `content`: missing (`null`/`undefined`), a string, or an array of parts. */
  datatype Content = Absent | Text(s: string) | Parts(parts: seq<Part>)

  /** The string a part contributes: the string itself, the `text` when it is a string, "" otherwise. */
  function PartText(p: Part): string {
    match p
    case PartString(s) => s
    case PartObject(text) => if text.Some? && text.value.Str? then text.value.s else ""
  }

  /** `parts.map(PartText).join("")`. */
  function ConcatParts(parts: seq<Part>): string {
    if |parts| == 0 then "" else PartText(parts[0]) + ConcatParts(parts[1..])
  }

  /** Joining distributes over concatenation of the part lists. */
  lemma {:induction false} ConcatPartsAppend(a: seq<Part>, b: seq<Part>)
    ensures ConcatParts(a + b) == ConcatParts(a) + ConcatParts(b)
  {
    if |a| == 0 {
      assert a + b == b;
    } else {
      assert (a + b)[1..] == a[1..] + b;
      ConcatPartsAppend(a[1..], b);
    }
  }

  /** Parts that are not strings, and objects without a string `text`, contribute nothing to the join. */
  lemma ConcatPartsSkipsEmpty(a: seq<Part>, p: Part, b: seq<Part>)
    requires PartText(p) == ""
    ensures ConcatParts(a + [p] + b) == ConcatParts(a + b)
  {
    ConcatPartsAppend(a + [p], b);
    ConcatPartsAppend(a, [p]);
    ConcatPartsAppend(a, b);
    assert ConcatParts([p]) == PartText(p) + ConcatParts([]);
  }

  /**
   `normalizeMessageContent`: a trimmed string; "" for missing content and for an empty
   array; otherwise the trimmed string or the trimmed join of the parts' texts.
   */
  function NormalizeMessageContent(content: Content): (r: string)
    ensures r == "" || (!IsWhitespace(r[0]) && !IsWhitespace(r[|r| - 1]))
    ensures content.Absent? ==> r == ""
    ensures content.Text? ==> r == Trim(content.s)
    ensures content.Parts? ==> r == Trim(ConcatParts(content.parts))
  {
    match content
    case Absent => ""
    case Text(s) => TrimSpec(s); Trim(s)
    case Parts(parts) =>
      if |parts| > 0 then TrimSpec(ConcatParts(parts)); Trim(ConcatParts(parts)) else ""
  }

  /** Normalizing an already normalized string changes nothing. */
  lemma NormalizeIdempotent(content: Content)
    ensures NormalizeMessageContent(Text(NormalizeMessageContent(content))) == NormalizeMessageContent(content)
  {
    match content
    case Absent =>
    case Text(s) => TrimIdempotent(s);
    case Parts(parts) => TrimIdempotent(ConcatParts(parts));
  }

  // ---------------------------------------------------------------- code fences

  const JsonFence: string := "```json"

  /**
   The fence removal before parsing: content opening with "```json" loses every "```json"
   and then every "```" (each with one following line break); content opening with "```"
   loses every "```"; anything else is kept.
   */
  function StripFences(s: string): (r: string)
    ensures !(Fence <= s) ==> r == s
    ensures Fence <= s ==> NoOccurrence(r, Fence)
  {
    if JsonFence <= s then
      assert Fence <= s by { assert Fence == JsonFence[..3]; }
      var once := StripAll(s, JsonFence);
      StripFenceLeavesNoFence(once);
      StripAll(once, Fence)
    else if Fence <= s then
      StripFenceLeavesNoFence(s);
      StripAll(s, Fence)
    else s
  }

  /** The three backticks that close a block pass a "```json" scan untouched. */
  lemma ClosingFenceSurvivesJsonScan()
    ensures StripAll("\n```", JsonFence) == "\n```"
  {
    assert !(JsonFence <= "\n```");
    assert "\n```"[1..] == "```";
    assert !(JsonFence <= "```");
    assert "```"[1..] == "``";
    assert "``"[1..] == "`";
    assert "`"[1..] == "";
  }

  /** The closing line break and backticks lose their backticks in a "```" scan. */
  lemma ClosingFenceStripped()
    ensures StripAll("\n```", Fence) == "\n"
  {
    assert !(Fence <= "\n```");
    assert "\n```"[1..] == "```";
    assert Fence <= "```";
    assert "```"[3..] == "";
  }

  /** A pattern at the start of the text is removed with the line break after it. */
  lemma StripAllOpening(pat: string, t: string)
    requires |pat| > 0
    ensures StripAll(pat + "\n" + t, pat) == StripAll(t, pat)
  {
    var s := pat + "\n" + t;
    assert pat <= s;
    assert s[|pat|..] == "\n" + t;
    assert ("\n" + t)[1..] == t;
  }

  /** The body of a fenced block with no backtick in it, followed by the closing line. */
  lemma BlockBodyKept(b: string)
    requires '`' !in b
    ensures StripAll(b + "\n```", JsonFence) == b + "\n```"
    ensures StripAll(b + "\n```", Fence) == b + "\n"
  {
    ClosingFenceSurvivesJsonScan();
    ClosingFenceStripped();
    StripAllKeepsPlainPrefix(b, "\n```", JsonFence);
    StripAllKeepsPlainPrefix(b, "\n```", Fence);
  }

  /** A reply wrapped in a "```json" block, with no backtick inside, is unwrapped to its body and the closing line break. */
  lemma JsonBlockUnwrapped(b: string)
    requires '`' !in b
    ensures StripFences(JsonFence + "\n" + b + "\n```") == b + "\n"
  {
    var s := JsonFence + "\n" + b + "\n```";
    assert s == JsonFence + "\n" + (b + "\n```");
    StripAllOpening(JsonFence, b + "\n```");
    BlockBodyKept(b);
    assert JsonFence <= s;
  }

  /** The same for a bare "```" block. */
  lemma PlainBlockUnwrapped(b: string)
    requires '`' !in b
    ensures StripFences(Fence + "\n" + b + "\n```") == b + "\n"
  {
    var s := Fence + "\n" + b + "\n```";
    assert s == Fence + "\n" + (b + "\n```");
    StripAllOpening(Fence, b + "\n```");
    BlockBodyKept(b);
    assert !(JsonFence <= s) by {
      assert s[3] == '\n';
    }
    assert Fence <= s;
  }

  // ---------------------------------------------------------------- getCoinRecommendation

  /** What `getChatCompletions` yields: the SDK threw, the first choice had no message, or the message's content. */
  datatype ChatReply = Threw | NoMessage | Message(content: Content)

  /** `parsed.recommendation === "buy" || parsed.recommendation === "do not buy"`. */
  predicate IsRecommendation(v: Json) {
    && v.Object?
    && "recommendation" in v.fields
    && (v.fields["recommendation"] == Str("buy") || v.fields["recommendation"] == Str("do not buy"))
  }

  /**
   `getCoinRecommendation`: the parsed reply when the key is configured, the reply carries
   non-empty content, the de-fenced content parses, and its `recommendation` is "buy" or
   "do not buy"; `None` in every other case (missing key, SDK error, empty reply, parse error,
   other recommendation).
   */
  function GetCoinRecommendation(apiKey: Option<string>, reply: ChatReply, parse: string -> Option<Json>): (r: Option<Json>)
    ensures r.Some? ==> IsRecommendation(r.value)
    ensures r.Some? <==>
      && IsConfigured(apiKey)
      && reply.Message?
      && NormalizeMessageContent(reply.content) != ""
      && parse(StripFences(NormalizeMessageContent(reply.content))).Some?
      && IsRecommendation(parse(StripFences(NormalizeMessageContent(reply.content))).value)
    ensures r.Some? ==> r == parse(StripFences(NormalizeMessageContent(reply.content)))
  {
    if !IsConfigured(apiKey) then None
    else
      match reply
      case Threw => None
      case NoMessage => None
      case Message(content) =>
        var text := NormalizeMessageContent(content);
        if text == "" then None
        else
          match parse(StripFences(text))
          case None => None
          case Some(parsed) => if IsRecommendation(parsed) then Some(parsed) else None
  }

  /** The usual reply, a "```json" block around the JSON text, is parsed from the block's body. */
  lemma FencedReplyParsed(apiKey: Option<string>, b: string, parse: string -> Option<Json>)
    requires IsConfigured(apiKey) && '`' !in b
    ensures var r := GetCoinRecommendation(apiKey, Message(Text(JsonFence + "\n" + b + "\n```")), parse);
      && (r.Some? <==> parse(b + "\n").Some? && IsRecommendation(parse(b + "\n").value))
      && (r.Some? ==> r == parse(b + "\n"))
  {
    var s := JsonFence + "\n" + b + "\n```";
    TrimKeepsTrimmed(s);
    JsonBlockUnwrapped(b);
  }
}
