/** The analysis request: the image payload is cut out of the data URL, sent
    with a fixed instruction as one request of two parts, and the reply text is
    trimmed and parsed. The SDK call and `JSON.parse` are parameters: `generate`
    maps an attempt number and the request parts to what that call produced,
    `parse` is the partial parse function. Every failure becomes one fixed error message. */
module GeminiService {
  import opened Wrappers
  import JsString

  /** The MIME type declared for the image part, whatever the data URL says. */
  const ImageMimeType := "image/jpeg"

  /** The only error message the analysis ever raises. */
  const AnalysisFailedMessage := "Không thể phân tích hình ảnh. Vui lòng thử lại."

  /** A part of the request: the inline image (its `data` is `undefined` when
      the data URL has no comma), or the fixed instruction text. */
  datatype Part = InlineImage(mimeType: string, data: Option<string>) | Instruction

  /** What the one SDK call produced: it threw, or it answered with a reply
      whose `text` may be missing. */
  datatype CallOutcome = Threw | Responded(text: Option<string>)

  /** The SDK as seen by one invocation: `generate(n, parts)` is what the n-th
      call (counted from 0) with those parts would produce. A second call may
      answer differently from the first, so a retry would be visible. */
  type Sdk = (nat, seq<Part>) -> CallOutcome

  /** `base64ImageData.split(',')[1]`. */
  function ImagePayload(dataUrl: string): (payload: Option<string>)
    ensures payload.None? <==> ',' !in dataUrl
    ensures payload.Some? ==> ',' !in payload.value
  {
    var pieces := JsString.Split(dataUrl, ',');
    if |pieces| > 1 then Some(pieces[1]) else None
  }

  /** The payload is the text after the first comma, up to the next comma if any. */
  lemma PayloadFollowsFirstComma(dataUrl: string, i: nat)
    requires JsString.IndexOf(dataUrl, ',') == Some(i)
    ensures ImagePayload(dataUrl) == Some(JsString.UpTo(dataUrl[i + 1..], ','))
  {
    JsString.SecondPiece(dataUrl, ',', i);
  }

  /** A well-formed data URL `<header>,<payload>` (base64 has no comma) yields
      exactly its payload. */
  lemma PayloadOfDataUrl(header: string, payload: string)
    requires ',' !in header && ',' !in payload
    ensures ImagePayload(header + [','] + payload) == Some(payload)
  {
    var pieces := [header, payload];
    assert JsString.Join(pieces, ',') == header + [','] + payload;
    JsString.JoinSplit(pieces, ',');
  }

  /** The request parts `[imagePart, textPart]`. */
  function RequestParts(dataUrl: string): (parts: seq<Part>)
    ensures |parts| == 2
    ensures parts[0] == InlineImage(ImageMimeType, ImagePayload(dataUrl))
    ensures parts[1] == Instruction
  {
    [InlineImage(ImageMimeType, ImagePayload(dataUrl)), Instruction]
  }

  /** The header of the data URL plays no part in the request: two images with
      the same payload and any headers are sent identically, both declared as
      JPEG. */
  lemma RequestIgnoresHeader(header1: string, header2: string, payload: string)
    requires ',' !in header1 && ',' !in header2 && ',' !in payload
    ensures RequestParts(header1 + [','] + payload) == RequestParts(header2 + [','] + payload)
    ensures RequestParts(header1 + [','] + payload)[0] == InlineImage(ImageMimeType, Some(payload))
  {
    PayloadOfDataUrl(header1, payload);
    PayloadOfDataUrl(header2, payload);
  }

  /** `analyzeImageForSafety`: one call, reply text trimmed and parsed, the
      parsed value returned as it is (the cast to the result type checks
      nothing), every failure mapped to AnalysisFailedMessage. */
  function AnalyzeImageForSafety<V>(
    dataUrl: string, generate: Sdk, parse: string -> Option<V>): (r: Result<V, string>)
    ensures r.Failure? ==> r.error == AnalysisFailedMessage
    ensures r.Success? <==>
      var reply := generate(0, RequestParts(dataUrl));
      reply.Responded? && reply.text.Some? && parse(JsString.Trim(reply.text.value)).Some?
    ensures r.Success? ==> r.value == parse(JsString.Trim(generate(0, RequestParts(dataUrl)).text.value)).value
  {
    match generate(0, RequestParts(dataUrl))
    case Threw => Failure(AnalysisFailedMessage)
    case Responded(None) => Failure(AnalysisFailedMessage)
    case Responded(Some(text)) =>
      match parse(JsString.Trim(text))
      case None => Failure(AnalysisFailedMessage)
      case Some(value) => Success(value)
  }

  /** Exactly one call is made, with the request built from the image, and
      there is no retry: the outcome depends on the SDK only through the answer
      of the first call to that request, whatever later calls would answer. */
  lemma OneCallPerInvocation<V>(
    dataUrl: string, generate1: Sdk, generate2: Sdk,
    parse: string -> Option<V>)
    requires generate1(0, RequestParts(dataUrl)) == generate2(0, RequestParts(dataUrl))
    ensures AnalyzeImageForSafety(dataUrl, generate1, parse) == AnalyzeImageForSafety(dataUrl, generate2, parse)
  {
  }

  /** The reply is trimmed before parsing: whitespace around the reply text
      never changes the outcome. */
  lemma PaddedReplyAnalyzesAlike<V>(
    dataUrl: string, text: string, pre: string, post: string,
    generate1: Sdk, generate2: Sdk,
    parse: string -> Option<V>)
    requires JsString.AllWhitespace(pre) && JsString.AllWhitespace(post)
    requires generate1(0, RequestParts(dataUrl)) == Responded(Some(text))
    requires generate2(0, RequestParts(dataUrl)) == Responded(Some(pre + text + post))
    ensures AnalyzeImageForSafety(dataUrl, generate1, parse) == AnalyzeImageForSafety(dataUrl, generate2, parse)
  {
    JsString.TrimAbsorbsPadding(pre, text, post);
  }

  /** The error is opaque: any two failed analyses fail identically, whatever
      the image, the call or the parse did. */
  lemma FailuresAreIndistinguishable<V>(
    dataUrl1: string, generate1: Sdk, parse1: string -> Option<V>,
    dataUrl2: string, generate2: Sdk, parse2: string -> Option<V>)
    requires AnalyzeImageForSafety(dataUrl1, generate1, parse1).Failure?
    requires AnalyzeImageForSafety(dataUrl2, generate2, parse2).Failure?
    ensures AnalyzeImageForSafety(dataUrl1, generate1, parse1) == AnalyzeImageForSafety(dataUrl2, generate2, parse2)
  {
  }
}
