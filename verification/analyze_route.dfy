/**
 * The `POST /api/analyze-image` handler: checks the request for an image,
 * forwards it to the vision model, and turns the model's reply into
 * `{description, suggestedName, confidence}`.
 *
 * Reading the request body, the model call and `JSON.parse` are foreign
 * code: the request body and the model's reply arrive as values, and the
 * parser is a function parameter.
 */
module AnalyzeRoute {
  import opened Wrappers
  import opened JsStrings

  /** The analysis sent back to the page. */
  datatype AnalysisResult = AnalysisResult(description: string, suggestedName: string, confidence: real)

  /** The handler's HTTP response. */
  datatype Response =
    | Analysis(result: AnalysisResult)
    | BadRequest(error: string)
    | ServerError(error: string)
  {
    function Status(): int {
      match this
      case Analysis(_) => 200
      case BadRequest(_) => 400
      case ServerError(_) => 500
    }
  }

  /**
   * `await request.json()` then destructuring `base64Image`: the body may
   * fail to read, or give the field, with `None` for a missing or `null` one.
   */
  datatype RequestBody = Unreadable | Body(base64Image: Option<string>)

  /** The model's reply: the call threw, or `choices[0].message.content`, `None` when `null`. */
  datatype ModelReply = CallFailed | Reply(content: Option<string>)

  /** The request sent to the vision model. */
  datatype ModelRequest = ModelRequest(model: string, prompt: string, imageUrl: string, maxTokens: int)

  /**
   * What `JSON.parse` followed by the reads of `.description` and
   * `.filename` gives: text that is not JSON, the JSON `null` (whose field
   * read throws), or any other value with its two fields (`None` when
   * absent or `null`; values of other types are not modelled).
   */
  datatype ParseOutcome = NotJson | JsonNull | JsonValue(description: Option<string>, filename: Option<string>)

  /** What the handler answered and which request, if any, it sent to the model. */
  datatype Handled = Handled(response: Response, forwarded: Option<ModelRequest>)

  const NoImageError: string := "No image provided"
  const AnalyzeError: string := "Failed to analyze image"
  const DefaultDescription: string := "AI-generated description"
  const DefaultFilename: string := "ai-generated-filename"
  const ParsedConfidence: real := 0.9
  const DegradedConfidence: real := 0.8
  const VisionModel: string := "gpt-4o-mini"
  const MaxTokens: int := 150
  const Prompt: string := "Analyze this image and provide a descriptive filename (without extension). Respond in this JSON format: {\"filename\": \"descriptive-filename\", \"description\": \"Brief description of the image\"}"

  /** JavaScript truthiness of an optional string: present and non-empty. */
  predicate Truthy(s: Option<string>) {
    s.Some? && s.value != ""
  }

  /** `s || fallback` on an optional string. */
  function OrElse(s: Option<string>, fallback: string): (r: string)
    ensures Truthy(s) ==> r == s.value
    ensures !Truthy(s) ==> r == fallback
    ensures fallback != "" ==> r != ""
  {
    if Truthy(s) then s.value else fallback
  }

  /** The length of the whitespace run at the start of `s`. */
  function WhitespaceRun(s: string): (k: nat)
    ensures k <= |s|
    ensures AllWhitespace(s[..k])
    ensures k == |s| || !IsWhitespace(s[k])
    decreases |s|
  {
    if |s| > 0 && IsWhitespace(s[0]) then
      var k := 1 + WhitespaceRun(s[1..]);
      assert s[..k] == [s[0]] + s[1..][..k - 1];
      k
    else 0
  }

  /**
   * `s.replace(/```json\s*|\s*```/g, "")`, scanning left to right as the
   * regular expression engine does: at each position the first
   * alternative (```` ```json ```` and the whitespace after it) is tried
   * before the second (a whitespace run and ```` ``` ````); where neither
   * matches, one character is kept and the scan moves on.
   */
  function StripFences(s: string): (r: string)
    ensures |r| <= |s|
    decreases |s|
  {
    if |s| == 0 then ""
    else if StartsWith(s, "```json") then
      var rest := s[7..];
      StripFences(rest[WhitespaceRun(rest)..])
    else
      var w := WhitespaceRun(s);
      if StartsWith(s[w..], "```") then StripFences(s[w + 3..])
      else [s[0]] + StripFences(s[1..])
  }

  /** Neither fence can start at a character other than a backtick. */
  lemma {:induction false} NoFenceAt(s: string)
    requires |s| > 0 && s[0] != '`'
    ensures !StartsWith(s, "```json") && !StartsWith(s, "```")
  {
  }

  /** Text without backticks passes through the fence stripping unchanged. */
  lemma {:induction false} StripFencesNoBackticks(s: string)
    requires '`' !in s
    ensures StripFences(s) == s
    decreases |s|
  {
    if |s| > 0 {
      NoFenceAt(s);
      var w := WhitespaceRun(s);
      if w < |s| {
        NoFenceAt(s[w..]);
      }
      StripFencesNoBackticks(s[1..]);
      assert s == [s[0]] + s[1..];
    }
  }

  /**
   * The fence removal deletes only fence text and the whitespace next to
   * it: every character that is not a backtick, not whitespace and not a
   * letter of `json` occurs as often in the result as in the input.
   */
  lemma {:induction false} StripFencesKeeps(s: string, c: char)
    requires c != '`' && !IsWhitespace(c) && c !in "json"
    ensures multiset(StripFences(s))[c] == multiset(s)[c]
    decreases |s|
  {
    if |s| == 0 {
    } else if StartsWith(s, "```json") {
      var k := OpeningFenceStep(s, c);
      StripFencesKeeps(s[k..], c);
    } else if StartsWith(s[WhitespaceRun(s)..], "```") {
      var k := ClosingFenceStep(s, c);
      StripFencesKeeps(s[k..], c);
    } else {
      StripFencesKeeps(s[1..], c);
      KeptCharStep(s, c);
    }
  }

  /**
   * An opening fence at the front: the scan resumes after it and the
   * whitespace run that follows, and `c` occurs in neither.
   */
  lemma OpeningFenceStep(s: string, c: char) returns (k: nat)
    requires StartsWith(s, "```json")
    requires c != '`' && !IsWhitespace(c) && c !in "json"
    ensures 0 < k <= |s|
    ensures StripFences(s) == StripFences(s[k..])
    ensures multiset(s)[c] == multiset(s[k..])[c]
  {
    var rest := s[7..];
    var w := WhitespaceRun(rest);
    k := 7 + w;
    assert s[k..] == rest[w..];
    forall i | 0 <= i < k
      ensures s[i] != c
    {
      if i < 7 {
        assert s[i] == s[..7][i] == "```json"[i];
      } else {
        assert s[i] == rest[..w][i - 7];
      }
    }
    DropPrefixKeepsCount(s, k, c);
  }

  /**
   * A closing fence after a whitespace run: the scan resumes after the
   * fence, and `c` occurs neither in the run nor in the fence.
   */
  lemma ClosingFenceStep(s: string, c: char) returns (k: nat)
    requires |s| > 0 && !StartsWith(s, "```json")
    requires StartsWith(s[WhitespaceRun(s)..], "```")
    requires c != '`' && !IsWhitespace(c)
    ensures 0 < k <= |s|
    ensures StripFences(s) == StripFences(s[k..])
    ensures multiset(s)[c] == multiset(s[k..])[c]
  {
    var w := WhitespaceRun(s);
    k := w + 3;
    forall i | 0 <= i < k
      ensures s[i] != c
    {
      if i < w {
        assert s[i] == s[..w][i];
      } else {
        assert s[i] == s[w..][..3][i - w];
      }
    }
    DropPrefixKeepsCount(s, k, c);
  }

  /** No fence at the front: the first character is kept and the scan moves on by one. */
  lemma KeptCharStep(s: string, c: char)
    requires |s| > 0 && !StartsWith(s, "```json") && !StartsWith(s[WhitespaceRun(s)..], "```")
    requires multiset(StripFences(s[1..]))[c] == multiset(s[1..])[c]
    ensures multiset(StripFences(s))[c] == multiset(s)[c]
  {
    KeepsFirst(s);
    assert s == [s[0]] + s[1..];
    assert multiset(s) == multiset([s[0]]) + multiset(s[1..]);
  }

  /** Without a fence at the front, the first character is copied through. */
  lemma KeepsFirst(s: string)
    requires |s| > 0 && !StartsWith(s, "```json") && !StartsWith(s[WhitespaceRun(s)..], "```")
    ensures StripFences(s) == [s[0]] + StripFences(s[1..])
  {
  }

  /** Dropping a prefix in which `c` does not occur keeps the count of `c`. */
  lemma DropPrefixKeepsCount(s: string, k: nat, c: char)
    requires k <= |s|
    requires forall i :: 0 <= i < k ==> s[i] != c
    ensures multiset(s)[c] == multiset(s[k..])[c]
  {
    assert s == s[..k] + s[k..];
    assert c !in s[..k];
    assert multiset(s) == multiset(s[..k]) + multiset(s[k..]);
  }

  /**
   * Backtick-free text followed by a closing fence: the fence and the
   * whitespace run before it disappear.
   */
  lemma {:induction false} StripClosingFence(x: string)
    requires '`' !in x
    ensures StripFences(x + "```") == TrimEnd(x)
    decreases |x|
  {
    var s := x + "```";
    var w := WhitespaceRun(s);
    assert s[|x|] == '`';
    if w == |x| {
      // the whole of x is whitespace
      if |x| > 0 {
        NoFenceAt(s);
      }
      assert !StartsWith(s, "```json");
      assert s[w..] == "```";
      assert StartsWith(s[w..], "```");
      assert s[w + 3..] == "";
      assert StripFences(s) == StripFences("");
      assert AllWhitespace(x) by { assert s[..w] == x; }
    } else {
      assert w < |x|;
      assert s[w] == x[w];
      NoFenceAt(s[w..]);
      NoFenceAt(s);
      assert s[1..] == x[1..] + "```";
      StripClosingFence(x[1..]);
      TrimEndCons(x, w);
    }
  }

  /** End-trimming a string that has a non-whitespace character keeps its first character. */
  lemma {:induction false} TrimEndCons(x: string, w: nat)
    requires w < |x| && !IsWhitespace(x[w])
    ensures TrimEnd(x) == [x[0]] + TrimEnd(x[1..])
    decreases |x|
  {
    var last := x[|x| - 1];
    if IsWhitespace(last) {
      var x' := x[..|x| - 1];
      assert x'[w] == x[w];
      TrimEndCons(x', w);
      assert x[1..][..|x| - 2] == x'[1..];
      assert x[1..][|x| - 2] == last;
    } else if |x| > 1 {
      assert x[1..][|x| - 2] == last;
      assert [x[0]] + x[1..] == x;
    }
  }

  /**
   * The model's usual reply, a fenced JSON block: after the stripping and
   * the trim, exactly the trimmed block content remains.
   */
  lemma {:induction false} FencedReply(body: string)
    requires '`' !in body
    ensures Trim(StripFences("```json" + body + "```")) == Trim(body)
  {
    var s := "```json" + body + "```";
    assert StartsWith(s, "```json");
    assert s[7..] == body + "```";
    var w := WhitespaceRun(body + "```");
    assert w == WhitespaceRun(body) by { WhitespaceRunAppend(body, "```"); }
    assert (body + "```")[w..] == body[w..] + "```";
    assert TrimStart(body) == body[w..] by { TrimStartIsRun(body); }
    StripClosingFence(body[w..]);
    assert StripFences(s) == TrimEnd(TrimStart(body));
    TrimIdempotent(body);
  }

  lemma {:induction false} WhitespaceRunAppend(x: string, y: string)
    requires |y| > 0 && !IsWhitespace(y[0])
    ensures WhitespaceRun(x + y) == WhitespaceRun(x)
    decreases |x|
  {
    if |x| > 0 {
      assert (x + y)[0] == x[0];
      assert (x + y)[1..] == x[1..] + y;
      WhitespaceRunAppend(x[1..], y);
    } else {
      assert x + y == y;
    }
  }

  lemma {:induction false} TrimStartIsRun(x: string)
    ensures TrimStart(x) == x[WhitespaceRun(x)..]
    decreases |x|
  {
    if |x| > 0 && IsWhitespace(x[0]) {
      TrimStartIsRun(x[1..]);
      assert x[1..][WhitespaceRun(x[1..])..] == x[WhitespaceRun(x)..];
    }
  }

  /**
   * The text handed to `JSON.parse`: the reply, or `"{}"` when it is
   * missing or empty, with fences removed and trimmed.
   */
  function JsonText(content: Option<string>): (r: string)
    ensures !Truthy(content) ==> r == "{}"
    ensures Truthy(content) && '`' !in content.value ==> r == Trim(content.value)
    ensures Trim(r) == r
  {
    var raw := OrElse(content, "{}");
    var braces := "{}";
    assert braces[0] == '{' && braces[1] == '}';
    assert '`' !in braces;
    StripFencesNoBackticks(braces);
    TrimUnchanged(braces);
    assert '`' !in raw ==> StripFences(raw) == raw by {
      if '`' !in raw { StripFencesNoBackticks(raw); }
    }
    TrimIdempotent(StripFences(raw));
    Trim(StripFences(raw))
  }

  /**
   * The inner `try`: a parsed value gives its truthy fields or the
   * defaults at confidence 0.9; anything that throws falls back to the raw
   * reply as description, the default name and confidence 0.8.
   */
  function Normalize(content: Option<string>, parse: string -> ParseOutcome): (r: AnalysisResult)
    ensures r.description != "" && r.suggestedName != ""
    ensures r.confidence == ParsedConfidence <==> parse(JsonText(content)).JsonValue?
    ensures r.confidence == ParsedConfidence || r.confidence == DegradedConfidence
    ensures parse(JsonText(content)).JsonValue? ==>
      && (Truthy(parse(JsonText(content)).description) ==> r.description == parse(JsonText(content)).description.value)
      && (!Truthy(parse(JsonText(content)).description) ==> r.description == DefaultDescription)
      && (Truthy(parse(JsonText(content)).filename) ==> r.suggestedName == parse(JsonText(content)).filename.value)
      && (!Truthy(parse(JsonText(content)).filename) ==> r.suggestedName == DefaultFilename)
    ensures !parse(JsonText(content)).JsonValue? ==>
      && r.suggestedName == DefaultFilename
      && (Truthy(content) ==> r.description == content.value)
      && (!Truthy(content) ==> r.description == DefaultDescription)
  {
    match parse(JsonText(content))
    case JsonValue(description, filename) =>
      AnalysisResult(OrElse(description, DefaultDescription), OrElse(filename, DefaultFilename), ParsedConfidence)
    case _ =>
      AnalysisResult(OrElse(content, DefaultDescription), DefaultFilename, DegradedConfidence)
  }

  /** The request forwarded for an image. */
  function RequestFor(image: string): ModelRequest {
    ModelRequest(VisionModel, Prompt, image, MaxTokens)
  }

  /**
   * `POST`: a missing or empty image is answered with 400 before the model
   * is called; a failure to read the body or to call the model with 500;
   * every reply the model gives, parsable or not, with 200.
   */
  function Post(body: RequestBody, reply: ModelReply, parse: string -> ParseOutcome): (h: Handled)
    ensures body.Unreadable? ==> h == Handled(ServerError(AnalyzeError), None)
    ensures body.Body? && !Truthy(body.base64Image) ==> h == Handled(BadRequest(NoImageError), None)
    ensures body.Body? && Truthy(body.base64Image) ==>
      && h.forwarded == Some(ModelRequest("gpt-4o-mini", Prompt, body.base64Image.value, 150))
      && (reply.CallFailed? ==> h.response == ServerError(AnalyzeError))
      && (reply.Reply? ==> h.response.Analysis?)
    ensures h.response.Status() == 400 <==> body.Body? && !Truthy(body.base64Image)
    ensures h.response.Analysis? ==> h.response.result == Normalize(reply.content, parse)
  {
    match body
    case Unreadable => Handled(ServerError(AnalyzeError), None)
    case Body(image) =>
      if !Truthy(image) then Handled(BadRequest(NoImageError), None)
      else
        var request := RequestFor(image.value);
        match reply
        case CallFailed => Handled(ServerError(AnalyzeError), Some(request))
        case Reply(content) => Handled(Analysis(Normalize(content, parse)), Some(request))
  }

  /**
   * A missing or empty model reply is parsed as `"{}"`, which gives the
   * default description and name at confidence 0.9.
   */
  lemma EmptyReplyDefaults(content: Option<string>, parse: string -> ParseOutcome)
    requires !Truthy(content)
    requires parse("{}") == JsonValue(None, None)
    ensures Normalize(content, parse) == AnalysisResult(DefaultDescription, DefaultFilename, ParsedConfidence)
  {
  }

  /** The degraded answer is always rated below a parsed one. */
  lemma DegradedRatedLower(c1: Option<string>, c2: Option<string>, parse: string -> ParseOutcome)
    ensures parse(JsonText(c1)).JsonValue? && !parse(JsonText(c2)).JsonValue? ==>
      Normalize(c2, parse).confidence < Normalize(c1, parse).confidence
  {
  }
}
