/** The control logic of the backend's AI service layer: the retrying call
    to the image models, the extraction of the image and its description from
    a model response, the tolerant JSON reading of a text reply and the
    normalisation of a font recommendation. The model service itself is an
    abstract oracle: `respond(n)` is the outcome of the n-th call (from 0). */
module AiService {
  import opened Wrappers
  import opened PyStr
  import Config

  // ---------------------------------------------------------------------
  // Retrying image-model call
  // ---------------------------------------------------------------------

  const FallbackImageModel: string := "gemini-2.0-flash-exp-image-generation"

  /** The image models in the order they are tried: the configured one, then
      the fallback. */
  function ImageModels(configuredModel: string): seq<string> {
    [configuredModel, FallbackImageModel]
  }

  /** Without an environment override, the two image models are tried in this
      order. */
  lemma DefaultImageModels()
    ensures ImageModels(Config.DefaultImageModel)
         == ["gemini-2.5-flash-image", "gemini-2.0-flash-exp-image-generation"]
  {
  }

  /** Raw bytes of an inline attachment, which may be absent. */
  datatype Blob = Blob(data: Option<seq<bv8>>)

  /** One part of a candidate's content: inline data, text, or neither. */
  datatype Part = Part(inlineData: Option<Blob>, text: Option<string>)

  /** A model response: the content parts of each candidate, in order. */
  datatype Response = Response(candidates: seq<seq<Part>>)

  /** What one call to the model service did: answer, or raise an exception
      whose string form is `message`. */
  datatype CallOutcome = Answered(response: Response) | Raised(message: string)

  /** One call as made: the model, the 0-based attempt on that model, and the
      response modalities requested. */
  datatype Call = Call(model: string, attempt: nat, modalities: seq<string>)

  /** The exceptions that leave the service layer. `Propagated` is a model
      service exception re-raised unchanged. */
  datatype Error = Propagated(message: string) | ValueError(message: string) | IndexError

  const AllOverloadedMessage: string := "所有圖片生成模型都暫時過載，請稍後再試"
  const NoImageMessage: string := "Gemini 未回傳圖片，請稍後再試"

  /** An exception counts as an overload when its message contains "503", or
      its lower-cased message contains "overloaded" or "unavailable". */
  predicate IsOverloadMessage(message: string) {
    Contains(message, "503") || Contains(Lower(message), "overloaded")
    || Contains(Lower(message), "unavailable")
  }

  predicate IsOverload(outcome: CallOutcome) {
    outcome.Raised? && IsOverloadMessage(outcome.message)
  }

  /** `response_modalities or ["IMAGE", "TEXT"]`: a missing or empty list
      falls back to image plus text. */
  function EffectiveModalities(requested: Option<seq<string>>): (m: seq<string>)
    ensures requested.Some? && requested.value != [] ==> m == requested.value
    ensures requested.None? || requested.value == [] ==> m == ["IMAGE", "TEXT"]
  {
    if requested.Some? && requested.value != [] then requested.value else ["IMAGE", "TEXT"]
  }

  /** `range(max_retries)` is empty for a non-positive count. */
  function AttemptCount(maxRetries: int): nat {
    if maxRetries > 0 then maxRetries else 0
  }

  /** The calls planned for one model: attempts 0 .. retries - 1. */
  function Attempts(model: string, retries: nat, modalities: seq<string>): (calls: seq<Call>)
    ensures |calls| == retries
    ensures forall a :: 0 <= a < retries ==> calls[a] == Call(model, a, modalities)
  {
    seq(retries, a requires 0 <= a < retries => Call(model, a, modalities))
  }

  /** The full call plan: every attempt on the first model, then every
      attempt on the next, in model order. */
  function Schedule(models: seq<string>, retries: nat, modalities: seq<string>): seq<Call>
    decreases |models|
  {
    if models == [] then []
    else Schedule(models[..|models| - 1], retries, modalities)
         + Attempts(models[|models| - 1], retries, modalities)
  }

  /** The plan has exactly `retries` calls per model. */
  lemma {:induction false} ScheduleLength(models: seq<string>, retries: nat, modalities: seq<string>)
    ensures |Schedule(models, retries, modalities)| == |models| * retries
    decreases |models|
  {
    if models != [] {
      ScheduleLength(models[..|models| - 1], retries, modalities);
    }
  }

  /** The plan for the first models is the start of the plan for all. */
  lemma {:induction false} SchedulePrefix(models: seq<string>, m: nat, retries: nat, modalities: seq<string>)
    requires m <= |models|
    ensures Schedule(models[..m], retries, modalities) <= Schedule(models, retries, modalities)
    decreases |models| - m
  {
    if m < |models| {
      SchedulePrefix(models, m + 1, retries, modalities);
      assert models[..m + 1][..m] == models[..m];
    } else {
      assert models[..m] == models;
    }
  }

  /** Calls the image models in order, each up to `maxRetries` times. The
      first answer is returned at once; an exception that is not an overload
      is re-raised at once; after an overload on attempt i the caller waits
      (i + 1) * 3 seconds (recorded in `waits`) and tries again. When every
      planned call was overloaded the result is a ValueError. */
  method CallImageModelWithRetry(configuredModel: string, modalities: Option<seq<string>>,
                                 maxRetries: int, respond: nat -> CallOutcome)
    returns (result: Result<Response, Error>, calls: seq<Call>, waits: seq<int>)
    ensures calls <= Schedule(ImageModels(configuredModel), AttemptCount(maxRetries), EffectiveModalities(modalities))
    ensures forall n :: 0 <= n < |calls| - 1 ==> IsOverload(respond(n))
    ensures result.Ok? ==> calls != [] && respond(|calls| - 1) == Answered(result.value)
    ensures result.Err? ==> result.error.Propagated? || result.error == ValueError(AllOverloadedMessage)
    ensures result.Err? && result.error.Propagated? ==>
      calls != [] && respond(|calls| - 1) == Raised(result.error.message)
      && !IsOverloadMessage(result.error.message)
    ensures result.Err? && result.error.ValueError? ==>
      calls == Schedule(ImageModels(configuredModel), AttemptCount(maxRetries), EffectiveModalities(modalities))
      && forall n :: 0 <= n < |calls| ==> IsOverload(respond(n))
    ensures (forall n :: 0 <= n < 2 * AttemptCount(maxRetries) ==> IsOverload(respond(n))) ==>
      result == Err(ValueError(AllOverloadedMessage))
    ensures |waits| == (if result.Err? && result.error.ValueError? then |calls| else |calls| - 1)
    ensures forall k :: 0 <= k < |waits| ==> waits[k] == (calls[k].attempt + 1) * 3
  {
    var models := ImageModels(configuredModel);
    var mods := EffectiveModalities(modalities);
    var retries := AttemptCount(maxRetries);
    ghost var plan := Schedule(models, retries, mods);
    ScheduleLength(models, retries, mods);
    calls, waits := [], [];
    for m := 0 to |models|
      invariant calls == Schedule(models[..m], retries, mods)
      invariant forall n :: 0 <= n < |calls| ==> IsOverload(respond(n))
      invariant |waits| == |calls|
      invariant forall k :: 0 <= k < |waits| ==> waits[k] == (calls[k].attempt + 1) * 3
    {
      ghost var done := calls;
      ghost var block := Attempts(models[m], retries, mods);
      assert models[..m + 1][..m] == models[..m];
      assert Schedule(models[..m + 1], retries, mods) == done + block;
      SchedulePrefix(models, m + 1, retries, mods);
      for attempt := 0 to retries
        invariant calls == done + block[..attempt]
        invariant forall n :: 0 <= n < |calls| ==> IsOverload(respond(n))
        invariant |waits| == |calls|
        invariant forall k :: 0 <= k < |waits| ==> waits[k] == (calls[k].attempt + 1) * 3
      {
        var n := |calls|;
        calls := calls + [Call(models[m], attempt, mods)];
        assert calls == done + block[..attempt + 1];
        assert calls <= plan by {
          PrefixTransitive(calls, done + block, plan);
        }
        var outcome := respond(n);
        match outcome
        case Answered(response) =>
          result := Ok(response);
          return;
        case Raised(message) =>
          if IsOverloadMessage(message) {
            waits := waits + [(attempt + 1) * 3];
          } else {
            result := Err(Propagated(message));
            return;
          }
      }
      assert block[..retries] == block;
    }
    assert models[..|models|] == models;
    result := Err(ValueError(AllOverloadedMessage));
  }

  lemma PrefixTransitive<T>(a: seq<T>, b: seq<T>, c: seq<T>)
    requires a <= b && b <= c
    ensures a <= c
  {
  }

  /** When every call is overloaded, exactly (number of models) * max_retries
      calls are made: with the default of 3 retries, six. */
  lemma AllOverloadedCallCount(configuredModel: string, modalities: Option<seq<string>>, maxRetries: int,
                               calls: seq<Call>)
    requires calls == Schedule(ImageModels(configuredModel), AttemptCount(maxRetries), EffectiveModalities(modalities))
    ensures |calls| == 2 * AttemptCount(maxRetries)
  {
    ScheduleLength(ImageModels(configuredModel), AttemptCount(maxRetries), EffectiveModalities(modalities));
  }

  // ---------------------------------------------------------------------
  // Image and description extraction
  // ---------------------------------------------------------------------

  /** A part with text and no inline data: the only kind that sets the
      description. */
  predicate TextOnly(p: Part) {
    p.inlineData.None? && p.text.Some?
  }

  /** The image bytes after the loop: the data of the last part carrying
      inline data, or nothing when no part carries any. */
  function ImageBytes(parts: seq<Part>): Option<seq<bv8>>
    decreases |parts|
  {
    if parts == [] then None
    else if parts[|parts| - 1].inlineData.Some? then parts[|parts| - 1].inlineData.value.data
    else ImageBytes(parts[..|parts| - 1])
  }

  /** The description after the loop: the text of the last text-only part,
      or the empty string. */
  function Description(parts: seq<Part>): string
    decreases |parts|
  {
    if parts == [] then ""
    else if TextOnly(parts[|parts| - 1]) then parts[|parts| - 1].text.value
    else Description(parts[..|parts| - 1])
  }

  /** The image comes from the last part with inline data, whatever follows
      it; with no such part there is no image. */
  lemma {:induction false} ImageBytesIsLastInline(parts: seq<Part>)
    ensures (forall i :: 0 <= i < |parts| ==> parts[i].inlineData.None?) ==> ImageBytes(parts) == None
    ensures forall i :: (0 <= i < |parts| && parts[i].inlineData.Some?
                         && (forall j :: i < j < |parts| ==> parts[j].inlineData.None?))
                        ==> ImageBytes(parts) == parts[i].inlineData.value.data
    decreases |parts|
  {
    if parts != [] {
      var n := |parts| - 1;
      var init := parts[..n];
      ImageBytesIsLastInline(init);
      assert forall i :: 0 <= i < n ==> init[i] == parts[i];
      forall i | 0 <= i < |parts| && parts[i].inlineData.Some?
                 && (forall j :: i < j < |parts| ==> parts[j].inlineData.None?)
        ensures ImageBytes(parts) == parts[i].inlineData.value.data
      {
        if i < n {
          assert parts[n].inlineData.None?;
          assert ImageBytes(parts) == ImageBytes(init);
          assert init[i].inlineData.Some? && forall j :: i < j < n ==> init[j].inlineData.None?;
        }
      }
    }
  }

  /** The description comes from the last text-only part; parts carrying
      inline data never set it; with no text-only part it stays empty. */
  lemma {:induction false} DescriptionIsLastText(parts: seq<Part>)
    ensures (forall i :: 0 <= i < |parts| ==> !TextOnly(parts[i])) ==> Description(parts) == ""
    ensures forall i :: (0 <= i < |parts| && TextOnly(parts[i])
                         && (forall j :: i < j < |parts| ==> !TextOnly(parts[j])))
                        ==> Description(parts) == parts[i].text.value
    decreases |parts|
  {
    if parts != [] {
      var n := |parts| - 1;
      var init := parts[..n];
      DescriptionIsLastText(init);
      assert forall i :: 0 <= i < n ==> init[i] == parts[i];
      forall i | 0 <= i < |parts| && TextOnly(parts[i])
                 && (forall j :: i < j < |parts| ==> !TextOnly(parts[j]))
        ensures Description(parts) == parts[i].text.value
      {
        if i < n {
          assert !TextOnly(parts[n]);
          assert Description(parts) == Description(init);
          assert TextOnly(init[i]) && forall j :: i < j < n ==> !TextOnly(init[j]);
        }
      }
    }
  }

  /** The loop over the first candidate's parts: each part with inline data
      replaces the image, each text-only part replaces the description; no
      image at the end is a ValueError. */
  method ExtractImage(parts: seq<Part>) returns (result: Result<(seq<bv8>, string), Error>)
    ensures ImageBytes(parts).None? ==> result == Err(ValueError(NoImageMessage))
    ensures ImageBytes(parts).Some? ==> result == Ok((ImageBytes(parts).value, Description(parts)))
  {
    var imageBytes: Option<seq<bv8>> := None;
    var description := "";
    for i := 0 to |parts|
      invariant imageBytes == ImageBytes(parts[..i])
      invariant description == Description(parts[..i])
    {
      var part := parts[i];
      assert parts[..i + 1][..i] == parts[..i];
      if part.inlineData.Some? {
        imageBytes := part.inlineData.value.data;
      } else if part.text.Some? {
        description := part.text.value;
      }
    }
    assert parts[..|parts|] == parts;
    if imageBytes.None? {
      return Err(ValueError(NoImageMessage));
    }
    return Ok((imageBytes.value, description));
  }

  /** What the three image endpoints make of an answer: the parts of the
      first candidate (an IndexError when there is none), then extraction. */
  function ImageFromResponse(response: Response): (r: Result<(seq<bv8>, string), Error>)
    ensures response.candidates == [] ==> r == Err(IndexError)
    ensures response.candidates != [] && ImageBytes(response.candidates[0]).None? ==>
      r == Err(ValueError(NoImageMessage))
    ensures response.candidates != [] && ImageBytes(response.candidates[0]).Some? ==>
      r == Ok((ImageBytes(response.candidates[0]).value, Description(response.candidates[0])))
  {
    if response.candidates == [] then Err(IndexError)
    else
      var parts := response.candidates[0];
      match ImageBytes(parts)
      case None => Err(ValueError(NoImageMessage))
      case Some(bytes) => Ok((bytes, Description(parts)))
  }

  /** An image request as the three image endpoints make it: the retrying
      call with the default modalities and three attempts per model, then
      extraction from the answer. Exceptions from the retry pass through. */
  method RequestImage(configuredModel: string, respond: nat -> CallOutcome)
    returns (result: Result<(seq<bv8>, string), Error>, calls: seq<Call>, waits: seq<int>)
    ensures calls <= Schedule(ImageModels(configuredModel), 3, ["IMAGE", "TEXT"])
    ensures |calls| <= 6
    ensures forall n :: 0 <= n < |calls| - 1 ==> IsOverload(respond(n))
    ensures calls != [] && respond(|calls| - 1).Answered? ==>
      result == ImageFromResponse(respond(|calls| - 1).response)
    ensures !(calls != [] && respond(|calls| - 1).Answered?) ==>
      result.Err? && (result.error.Propagated? || result.error == ValueError(AllOverloadedMessage))
    ensures result.Err? && result.error.Propagated? ==>
      calls != [] && respond(|calls| - 1) == Raised(result.error.message)
      && !IsOverloadMessage(result.error.message)
    ensures result == Err(ValueError(AllOverloadedMessage)) ==>
      |calls| == 6 && forall n :: 0 <= n < |calls| ==> IsOverload(respond(n))
  {
    var answer;
    answer, calls, waits := CallImageModelWithRetry(configuredModel, None, 3, respond);
    ScheduleLength(ImageModels(configuredModel), 3, EffectiveModalities(None));
    match answer
    case Err(e) =>
      result := Err(e);
    case Ok(response) =>
      if response.candidates == [] {
        result := Err(IndexError);
      } else {
        result := ExtractImage(response.candidates[0]);
      }
  }

  // ---------------------------------------------------------------------
  // Tolerant JSON reading
  // ---------------------------------------------------------------------

  /** A reply read as JSON, or the whole original reply kept as raw text. */
  datatype Parsed<J> = Json(value: J) | RawText(text: string)

  /** `re.sub(r'^```(?:json)?\s*\n?', '', s)` on a string starting with three
      backticks: drops them, a following "json", and all whitespace after. */
  function StripOpeningFence(s: string): string
    requires StartsWith(s, "```")
  {
    var t := if StartsWith(s[3..], "json") then s[7..] else s[3..];
    LStrip(t)
  }

  /** Three backticks at `k` with only whitespace after them up to the end:
      where the closing-fence pattern `\n?```\s*$` finds its backticks. */
  predicate FenceAt(s: string, k: int) {
    0 <= k && k + 3 <= |s| && s[k] == '`' && s[k + 1] == '`' && s[k + 2] == '`'
    && forall i :: k + 3 <= i < |s| ==> IsSpace(s[i])
  }

  /** A string has at most one closing fence, and it ends where the trailing
      whitespace begins. */
  lemma FenceIsBeforeTrailingSpace(s: string, k: int)
    requires FenceAt(s, k)
    ensures |RStrip(s)| == k + 3
  {
    var m := |RStrip(s)|;
    if m < k + 3 {
      assert false;
    } else if m > k + 3 {
      assert false;
    }
  }

  /** Whether the closing pattern matches is decided by the stripped end of
      the string: it does exactly when that end is three backticks. */
  lemma ClosingFenceFacts(s: string)
    ensures EndsWith(RStrip(s), "```") ==> FenceAt(s, |RStrip(s)| - 3)
    ensures forall k :: FenceAt(s, k) ==> EndsWith(RStrip(s), "```") && k == |RStrip(s)| - 3
  {
    var body := RStrip(s);
    if EndsWith(body, "```") {
      var q := |body| - 3;
      assert body[q..][0] == body[q] == s[q];
      assert body[q..][1] == body[q + 1] == s[q + 1];
      assert body[q..][2] == body[q + 2] == s[q + 2];
      forall i | q + 3 <= i < |s| ensures IsSpace(s[i]) {
        assert s[i] == s[|body|..][i - |body|];
      }
    }
    forall k | FenceAt(s, k) ensures EndsWith(body, "```") && k == |body| - 3 {
      FenceIsBeforeTrailingSpace(s, k);
      assert body[k..] == s[k..k + 3];
    }
  }

  /** `re.sub(r'\n?```\s*$', '', s)`: when the string ends in three backticks
      and whitespace, cuts it before them, and before a newline just ahead of
      them too; otherwise leaves it unchanged. */
  function StripClosingFence(s: string): (r: string)
    ensures forall k :: FenceAt(s, k) ==>
      r == (if k > 0 && s[k - 1] == '\n' then s[..k - 1] else s[..k])
    ensures (forall k :: !FenceAt(s, k)) ==> r == s
  {
    ClosingFenceFacts(s);
    var body := RStrip(s);
    if EndsWith(body, "```") then
      var q := |body| - 3;
      if q > 0 && s[q - 1] == '\n' then s[..q - 1] else s[..q]
    else
      s
  }


  /** The text the parser sees first: the stripped reply, with code fences
      removed when it starts with three backticks. */
  function CleanReply(text: string): string {
    var cleaned := Strip(text);
    if StartsWith(cleaned, "```") then StripClosingFence(StripOpeningFence(cleaned)) else cleaned
  }

  /** The second try: from the first '{' to the last '}' inclusive (empty
      when the last '}' comes first); nothing when either brace is missing. */
  function BraceSpan(cleaned: string): (r: Option<string>)
    ensures r.None? <==> '{' !in cleaned || '}' !in cleaned
  {
    var start := Find(cleaned, '{');
    var end := RFind(cleaned, '}');
    if start != -1 && end != -1 then Some(Slice(cleaned, start, end + 1)) else None
  }

  /** The brace span runs from the first '{' to the last '}'. */
  lemma BraceSpanIsFirstToLast(cleaned: string, i: nat, j: nat)
    requires i < |cleaned| && cleaned[i] == '{' && '{' !in cleaned[..i]
    requires j < |cleaned| && cleaned[j] == '}' && '}' !in cleaned[j + 1..]
    ensures BraceSpan(cleaned) == Some(if i <= j then cleaned[i..j + 1] else [])
  {
    assert cleaned[i] in cleaned && cleaned[j] in cleaned;
    var start := Find(cleaned, '{');
    var end := RFind(cleaned, '}');
    FirstOccurrence(cleaned, '{', i, start);
    LastOccurrence(cleaned, '}', j, end);
    assert BraceSpan(cleaned) == Some(Slice(cleaned, i, j + 1));
    if j < i {
      assert Slice(cleaned, i, j + 1) == [];
    }
  }

  lemma FirstOccurrence(s: string, c: char, i: nat, k: nat)
    requires i < |s| && s[i] == c && c !in s[..i]
    requires k < |s| && s[k] == c && c !in s[..k]
    ensures i == k
  {
  }

  lemma LastOccurrence(s: string, c: char, j: nat, k: nat)
    requires j < |s| && s[j] == c && c !in s[j + 1..]
    requires k < |s| && s[k] == c && c !in s[k + 1..]
    ensures j == k
  {
  }

  /** Reads a model reply as JSON with the partial parser `parse`: the
      cleaned reply first, then its brace span, and otherwise the original
      reply as raw text. It never fails. */
  function ParseJsonResponse<J>(text: string, parse: string -> Option<J>): (r: Parsed<J>)
    ensures parse(CleanReply(text)).Some? ==> r == Json(parse(CleanReply(text)).value)
    ensures (parse(CleanReply(text)).None? && BraceSpan(CleanReply(text)).Some?
             && parse(BraceSpan(CleanReply(text)).value).Some?) ==>
            r == Json(parse(BraceSpan(CleanReply(text)).value).value)
    ensures r.RawText? <==> (parse(CleanReply(text)).None?
             && (BraceSpan(CleanReply(text)).None? || parse(BraceSpan(CleanReply(text)).value).None?))
    ensures r.RawText? ==> r.text == text
  {
    var cleaned := CleanReply(text);
    match parse(cleaned)
    case Some(v) => Json(v)
    case None =>
      match BraceSpan(cleaned)
      case Some(span) =>
        (match parse(span)
         case Some(v) => Json(v)
         case None => RawText(text))
      case None => RawText(text)
  }

  /** The reply a model gives when it wraps a JSON body in a fence. */
  function Fenced(body: string): string {
    "```json\n" + body + "\n```"
  }

  lemma FencedStrip(body: string)
    ensures Strip(Fenced(body)) == Fenced(body)
  {
    assert Fenced(body)[0] == '`';
    assert LStrip(Fenced(body)) == Fenced(body);
    assert Fenced(body)[|Fenced(body)| - 1] == '`';
  }

  lemma FencedShape(body: string)
    ensures StartsWith(Fenced(body), "```")
    ensures StartsWith(Fenced(body)[3..], "json")
    ensures Fenced(body)[7..] == "\n" + (body + "\n```")
  {
  }

  lemma LStripSpaceFirst(c: char, x: string)
    requires IsSpace(c)
    ensures LStrip([c] + x) == LStrip(x)
  {
    assert ([c] + x)[1..] == x;
  }

  /** The opening fence of a fenced body leaves the body and the closing
      fence (or just the closing fence, for an empty body). */
  lemma OpeningOfFenced(body: string)
    requires body == [] || !IsSpace(body[0])
    ensures StripOpeningFence(Fenced(body)) == (if body == [] then "```" else body + "\n```")
  {
    OpeningIsLStrip(body);
    if body == [] {
      OpeningOfEmptyFence();
    } else {
      OpeningOfBodyFence(body);
    }
  }

  lemma OpeningOfEmptyFence()
    ensures LStrip(['\n'] + ([] + "\n```")) == "```"
  {
    var fence: string := "```";
    assert ['\n'] + ([] + "\n```") == ['\n'] + (['\n'] + fence);
    LStripSpaceFirst('\n', ['\n'] + fence);
    LStripSpaceFirst('\n', fence);
    LStripNonSpaceFirst(fence);
  }

  lemma OpeningOfBodyFence(body: string)
    requires body != [] && !IsSpace(body[0])
    ensures LStrip(['\n'] + (body + "\n```")) == body + "\n```"
  {
    var rest := body + "\n```";
    LStripSpaceFirst('\n', rest);
    assert rest[0] == body[0];
    LStripNonSpaceFirst(rest);
  }

  lemma OpeningIsLStrip(body: string)
    ensures StripOpeningFence(Fenced(body)) == LStrip(['\n'] + (body + "\n```"))
  {
    FencedShape(body);
  }

  lemma LStripNonSpaceFirst(x: string)
    requires x != [] && !IsSpace(x[0])
    ensures LStrip(x) == x
  {
  }

  /** A body wrapped in a ```json fence, as models often answer, is read as
      the body itself, when the body does not start with whitespace. */
  lemma FencedReplyIsBody(body: string)
    requires body == [] || !IsSpace(body[0])
    ensures CleanReply(Fenced(body)) == body
  {
    FencedIsCleanedByBothFences(body);
    OpeningOfFenced(body);
    ClosingOfUnfenced(body);
  }

  lemma FencedIsCleanedByBothFences(body: string)
    ensures StartsWith(Fenced(body), "```")
    ensures CleanReply(Fenced(body)) == StripClosingFence(StripOpeningFence(Fenced(body)))
  {
    FencedStrip(body);
    FencedShape(body);
  }

  /** The closing fence comes off together with the newline before it. */
  lemma ClosingOfUnfenced(body: string)
    ensures StripClosingFence(if body == [] then "```" else body + "\n```") == body
  {
    var unfenced := if body == [] then "```" else body + "\n```";
    if body == [] {
      assert FenceAt(unfenced, 0);
    } else {
      assert FenceAt(unfenced, |body| + 1);
      assert unfenced[|body|] == '\n';
      assert unfenced[..|body|] == body;
    }
  }

  /** A fenced JSON body the parser accepts is what the reply reads as. */
  lemma FencedReplyParses<J>(body: string, parse: string -> Option<J>)
    requires body == [] || !IsSpace(body[0])
    requires parse(body).Some?
    ensures ParseJsonResponse(Fenced(body), parse) == Json(parse(body).value)
  {
    FencedReplyIsBody(body);
  }

  /** A reply without a fence that the parser accepts once stripped reads as
      that parse. */
  lemma PlainReplyParses<J>(text: string, parse: string -> Option<J>)
    requires !StartsWith(Strip(text), "```")
    requires parse(Strip(text)).Some?
    ensures ParseJsonResponse(text, parse) == Json(parse(Strip(text)).value)
  {
  }

  /** A JSON object surrounded by chatter is salvaged: when the whole text
      does not parse, the object between the first '{' and the last '}' is
      what the reply reads as. */
  lemma ChattyReplyParses<J>(text: string, pre: string, body: string, post: string,
                             parse: string -> Option<J>)
    requires CleanReply(text) == pre + body + post
    requires '{' !in pre && '}' !in post
    requires |body| >= 2 && body[0] == '{' && body[|body| - 1] == '}'
    requires parse(CleanReply(text)).None? && parse(body).Some?
    ensures ParseJsonResponse(text, parse) == Json(parse(body).value)
  {
    var c := pre + body + post;
    var i, j := |pre|, |pre| + |body| - 1;
    assert c[..i] == pre && c[i] == '{';
    assert c[j + 1..] == post && c[j] == '}';
    BraceSpanIsFirstToLast(c, i, j);
    assert c[i..j + 1] == body;
  }

  /** `i` is the index of the first '{' of `c`. */
  predicate FirstOpenAt(c: string, i: int) {
    0 <= i < |c| && c[i] == '{' && '{' !in c[..i]
  }

  /** `j` is the index of the last '}' of `c`. */
  predicate LastCloseAt(c: string, j: int) {
    0 <= j < |c| && c[j] == '}' && '}' !in c[j + 1..]
  }

  /** When the cleaned reply does not parse, and either it lacks a brace or
      the text from its first '{' to its last '}' does not parse either, the
      original reply is kept whole as raw text. */
  lemma UnparseableReplyKeptRaw<J>(text: string, parse: string -> Option<J>)
    requires parse(CleanReply(text)).None?
    requires forall i, j :: FirstOpenAt(CleanReply(text), i) && LastCloseAt(CleanReply(text), j) ==>
      parse(if i <= j then CleanReply(text)[i..j + 1] else []).None?
    ensures ParseJsonResponse(text, parse) == RawText(text)
  {
    SpanFails(CleanReply(text), parse);
  }

  /** When no span from the first '{' to the last '}' parses, the second try
      of the reader fails too. */
  lemma SpanFails<J>(c: string, parse: string -> Option<J>)
    requires forall i, j :: FirstOpenAt(c, i) && LastCloseAt(c, j) ==>
      parse(if i <= j then c[i..j + 1] else []).None?
    ensures BraceSpan(c).None? || parse(BraceSpan(c).value).None?
  {
    var start, end := Find(c, '{'), RFind(c, '}');
    if start != -1 && end != -1 {
      assert FirstOpenAt(c, start) && LastCloseAt(c, end);
      BraceSpanIsFirstToLast(c, start, end);
    }
  }

  // ---------------------------------------------------------------------
  // Font recommendation
  // ---------------------------------------------------------------------

  /** The key returned when the model names no known font. */
  const DefaultRecommendedFont: string := "noto_sans_bold"

  /** `reply.strip().lower()`. */
  function NormalizeReply(reply: string): string {
    Lower(Strip(reply))
  }

  /** The recommended font key: the normalised reply when it is a key of the
      font table, the fixed default otherwise. */
  function RecommendFont(reply: string): (key: string)
    ensures key in Config.FontKeys() || key == DefaultRecommendedFont
    ensures NormalizeReply(reply) in Config.FontKeys() ==> key == NormalizeReply(reply)
    ensures NormalizeReply(reply) !in Config.FontKeys() ==> key == DefaultRecommendedFont
  {
    var key := NormalizeReply(reply);
    if Config.LookupFont(key).None? then DefaultRecommendedFont else key
  }

  /** The default key is not itself a key of the font table, so a default
      recommendation never names a bundled font. */
  lemma DefaultRecommendationNotInTable()
    ensures DefaultRecommendedFont !in Config.FontKeys()
    ensures RecommendFont("") == DefaultRecommendedFont
  {
    assert Config.AvailableFonts[0].key != DefaultRecommendedFont;
    assert Config.AvailableFonts[1].key != DefaultRecommendedFont;
  }

  /** One line of the font list sent to the model. */
  function FontListLine(entry: Config.FontEntry): string {
    "- " + entry.key + ": " + entry.info.name + "（風格：" + entry.info.style
    + "，適合：" + entry.info.bestFor + "）"
  }

  function FontListLines(entries: seq<Config.FontEntry>): (lines: seq<string>)
    ensures |lines| == |entries|
    ensures forall i :: 0 <= i < |entries| ==> lines[i] == FontListLine(entries[i])
  {
    seq(|entries|, i requires 0 <= i < |entries| => FontListLine(entries[i]))
  }

  /** The font list: one line per table entry, in table order, joined by
      newlines. */
  function FontList(entries: seq<Config.FontEntry>): string {
    Join(FontListLines(entries), '\n')
  }

  predicate NoNewline(entry: Config.FontEntry) {
    '\n' !in entry.key && '\n' !in entry.info.name && '\n' !in entry.info.style
    && '\n' !in entry.info.bestFor
  }

  /** A line of the font list has no newline of its own and starts with
      "- " and the entry's key. */
  lemma FontListLineShape(entry: Config.FontEntry)
    requires NoNewline(entry)
    ensures '\n' !in FontListLine(entry)
    ensures StartsWith(FontListLine(entry), "- " + entry.key + ": ")
  {
    var head := "- " + entry.key + ": ";
    var tail := entry.info.name + "（風格：" + entry.info.style + "，適合：" + entry.info.bestFor + "）";
    assert FontListLine(entry) == head + tail;
    NoCharInConcat('\n', "- ", entry.key);
    NoCharInConcat('\n', "- " + entry.key, ": ");
    NoCharInConcat('\n', entry.info.name, "（風格：");
    NoCharInConcat('\n', entry.info.name + "（風格：", entry.info.style);
    NoCharInConcat('\n', entry.info.name + "（風格：" + entry.info.style, "，適合：");
    NoCharInConcat('\n', entry.info.name + "（風格：" + entry.info.style + "，適合：", entry.info.bestFor);
    NoCharInConcat('\n', entry.info.name + "（風格：" + entry.info.style + "，適合：" + entry.info.bestFor, "）");
    NoCharInConcat('\n', head, tail);
    assert (head + tail)[..|head|] == head;
  }

  lemma NoCharInConcat<T>(c: T, a: seq<T>, b: seq<T>)
    requires c !in a && c !in b
    ensures c !in a + b
  {
  }

  /** Reading the font list back line by line gives one line per entry, in
      table order, each starting with "- " and the entry's key. */
  lemma FontListLinesBack(entries: seq<Config.FontEntry>)
    requires |entries| >= 1
    requires forall i :: 0 <= i < |entries| ==> NoNewline(entries[i])
    ensures |Split(FontList(entries), '\n')| == |entries|
    ensures forall i :: 0 <= i < |entries| ==>
      Split(FontList(entries), '\n')[i] == FontListLine(entries[i])
      && StartsWith(Split(FontList(entries), '\n')[i], "- " + entries[i].key + ": ")
  {
    var lines := FontListLines(entries);
    forall i | 0 <= i < |lines| ensures '\n' !in lines[i] && StartsWith(lines[i], "- " + entries[i].key + ": ") {
      FontListLineShape(entries[i]);
    }
    SplitJoin(lines, '\n');
  }

  /** For the bundled font table: two lines, Noto Sans first. */
  lemma BundledFontListLines()
    ensures |Split(FontList(Config.AvailableFonts), '\n')| == 2
    ensures Split(FontList(Config.AvailableFonts), '\n')[0] == FontListLine(Config.AvailableFonts[0])
    ensures Split(FontList(Config.AvailableFonts), '\n')[1] == FontListLine(Config.AvailableFonts[1])
  {
    BundledFontsHaveNoNewline();
    FontListLinesBack(Config.AvailableFonts);
  }

  lemma BundledFontsHaveNoNewline()
    ensures forall i :: 0 <= i < |Config.AvailableFonts| ==> NoNewline(Config.AvailableFonts[i])
  {
    SansHasNoNewline();
    SerifHasNoNewline();
  }

  lemma SansHasNoNewline()
    ensures NoNewline(Config.AvailableFonts[0])
  {
    var e := Config.AvailableFonts[0];
    assert e.key == "noto_sans" && e.info.name == "Noto Sans TC";
    assert e.info.style == "現代、乾淨、專業";
    assert e.info.bestFor == "財商觀點、專業形象、清單體、長文";
  }

  lemma SerifHasNoNewline()
    ensures NoNewline(Config.AvailableFonts[1])
  {
    var e := Config.AvailableFonts[1];
    assert e.key == "noto_serif" && e.info.name == "Noto Serif TC";
    assert e.info.style == "典雅、文藝、有質感";
    assert e.info.bestFor == "金句、心靈雞湯、文青風、限動標語";
  }
}
