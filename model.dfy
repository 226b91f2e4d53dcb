/**
 * The values the scraper works on: its configuration, the two response
 * envelopes (the JSON shapes of internal/scrape/model.go and medium.go),
 * the HTTP request it builds, and the outside world it talks to.
 */
module Model {
  import opened Text

  /**
   * The scraper's configuration, read-only after start-up. Login and
   * password are byte strings because they are base64-encoded as `[]byte`.
   */
  datatype Config = Config(
    login: seq<byte>,
    password: seq<byte>,
    api: string,
    webSite: string,
    medium: string)

  /** One paragraph of a Medium article; an omitted `text` decodes as "". */
  datatype Paragraph = Paragraph(text: string)

  /** The `bodyModel` object of a Medium post. */
  datatype BodyModel = BodyModel(paragraphs: seq<Paragraph>)
  datatype PostContent = PostContent(subtitle: string, article: BodyModel)
  datatype PostValue = PostValue(id: string, title: string, content: PostContent)
  datatype Payload = Payload(value: PostValue)

  /** `{payload:{value:{content:{bodyModel:{paragraphs:[{text}]}}}}}` */
  datatype MediumResponse = MediumResponse(payload: Payload) {
    function Paragraphs(): seq<Paragraph> {
      payload.value.content.article.paragraphs
    }
  }

  /** `{content:{rendered}}` of the WordPress REST API. */
  datatype WpContent = WpContent(rendered: string)
  datatype WpResponse = WpResponse(content: WpContent)

  /** The Go zero values the decoder starts from. */
  const EmptyMediumResponse := MediumResponse(Payload(PostValue("", "", PostContent("", BodyModel([])))))
  const EmptyWpResponse := WpResponse(WpContent(""))

  /** A decoded response of either platform. */
  datatype Envelope = MediumEnvelope(medium: MediumResponse) | WordPressEnvelope(wordPress: WpResponse)

  datatype Header = Header(name: string, value: string)

  /** One outbound HTTP request. */
  datatype Request = Request(verb: string, target: string, headers: seq<Header>)

  /** What the HTTP client hands back for a request. */
  datatype Fetched = Body(bytes: seq<byte>) | TransportError

  /**
   * Everything outside the model: the HTTP client (one answer per request)
   * and the JSON decoders for the two envelope shapes (`None` when the bytes
   * do not decode).
   */
  datatype Transport = Transport(
    fetch: Request -> Fetched,
    decodeMedium: seq<byte> -> Option<MediumResponse>,
    decodeWordPress: seq<byte> -> Option<WpResponse>)

  /** JSON whitespace (section 2 of RFC 8259): space, tab, line feed, carriage return. */
  predicate IsJsonSpace(x: byte) {
    x == 32 || x == 9 || x == 10 || x == 13
  }

  /** The bytes of the JSON literal `null`. */
  const NullLiteral: seq<byte> := [110, 117, 108, 108]

  /** `b` without its leading JSON whitespace. */
  function TrimLeading(b: seq<byte>): (r: seq<byte>)
    ensures |r| <= |b| && r == b[|b| - |r|..]
    ensures |r| == 0 || !IsJsonSpace(r[0])
  {
    if |b| > 0 && IsJsonSpace(b[0]) then TrimLeading(b[1..]) else b
  }

  /** `b` without its trailing JSON whitespace. */
  function TrimTrailing(b: seq<byte>): (r: seq<byte>)
    ensures |r| <= |b| && r == b[..|r|]
    ensures |r| == 0 || !IsJsonSpace(r[|r| - 1])
  {
    if |b| > 0 && IsJsonSpace(b[|b| - 1]) then TrimTrailing(b[..|b| - 1]) else b
  }

  /**
   * The document is the literal `null` with optional whitespace around it.
   * Decoding it into a pointer variable sets that pointer to nil, with no
   * error; decoding it into a struct value leaves the value as it was.
   */
  predicate IsNullDocument(b: seq<byte>) {
    TrimTrailing(TrimLeading(b)) == NullLiteral
  }

  lemma {:induction false} TrimLeadingSpace(pre: seq<byte>, rest: seq<byte>)
    requires forall k :: 0 <= k < |pre| ==> IsJsonSpace(pre[k])
    requires |rest| == 0 || !IsJsonSpace(rest[0])
    ensures TrimLeading(pre + rest) == rest
    decreases |pre|
  {
    if |pre| == 0 {
      assert pre + rest == rest;
    } else {
      assert (pre + rest)[0] == pre[0];
      assert (pre + rest)[1..] == pre[1..] + rest;
      TrimLeadingSpace(pre[1..], rest);
    }
  }

  lemma {:induction false} TrimTrailingSpace(rest: seq<byte>, post: seq<byte>)
    requires forall k :: 0 <= k < |post| ==> IsJsonSpace(post[k])
    requires |rest| == 0 || !IsJsonSpace(rest[|rest| - 1])
    ensures TrimTrailing(rest + post) == rest
    decreases |post|
  {
    if |post| == 0 {
      assert rest + post == rest;
    } else {
      var init := post[..|post| - 1];
      assert (rest + post)[|rest + post| - 1] == post[|post| - 1];
      assert (rest + post)[..|rest + post| - 1] == rest + init;
      TrimTrailingSpace(rest, init);
    }
  }

  /** `null` with any whitespace before and after it is a null document. */
  lemma NullDocumentPadded(pre: seq<byte>, post: seq<byte>)
    requires forall k :: 0 <= k < |pre| ==> IsJsonSpace(pre[k])
    requires forall k :: 0 <= k < |post| ==> IsJsonSpace(post[k])
    ensures IsNullDocument(pre + NullLiteral + post)
  {
    assert pre + NullLiteral + post == pre + (NullLiteral + post);
    TrimLeadingSpace(pre, NullLiteral + post);
    TrimTrailingSpace(NullLiteral, post);
  }

  /** A document that opens an object, `{`, is not a null document. */
  lemma ObjectIsNotNull(b: seq<byte>)
    requires |b| > 0 && b[0] == 123
    ensures !IsNullDocument(b)
  {
    var t := TrimTrailing(TrimLeading(b));
    assert TrimLeading(b) == b;
    assert |t| > 0 ==> t[0] == 123;
  }

  /**
   * What can go wrong. `MalformedUrl`, `NoMatchingSource`, `BodyTooShort`
   * and `NullResponse` stand for the places where the Go code panics.
   */
  datatype Error =
    | MalformedUrl
    | NoMatchingSource
    | BodyTooShort
    | NullResponse
    | FetchFailed
    | DecodeFailed
    | Wrapped(context: string, cause: Error)

  /** The errors that stand for a panic rather than a returned error. */
  predicate IsPanic(e: Error) {
    e.MalformedUrl? || e.NoMatchingSource? || e.BodyTooShort? || e.NullResponse?
  }

  datatype Result<+T> = Ok(value: T) | Err(error: Error)

  /**
   * How a call to `GetCountSymbols` ends: it returns a count and an error,
   * or it panics.
   */
  datatype Outcome = Returned(count: int, err: Option<Error>) | Panicked(cause: Error)
}
