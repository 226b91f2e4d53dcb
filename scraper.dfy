/**
 * The earlier form of the pipeline, internal/scrape/scraper.go: the Medium
 * label is the constant "medium", both resolvers return a bare string and
 * swallow every fetch and decode failure, and `handleBody` turns either
 * envelope into text.
 */
module Scraper {
  import opened Text
  import opened Model
  import Cyrillic
  import Medium
  import WordPress
  import Scrape

  /** `MEDIUM`: the fixed host label of the Medium resolver. */
  const MediumLabel: string := "medium"

  /** The dispatch map `{MEDIUM: parseMedium, webSite: parseWp}`. */
  function Resolve(url: string, config: Config): (r: Result<Scrape.Source>)
    ensures r == Scrape.Resolve(url, config.(medium := MediumLabel))
  {
    match Scrape.HostLabel(url)
    case Err(e) => Err(e)
    case Ok(name) => Scrape.Dispatch(name, config.(medium := MediumLabel))
  }

  /** What `handleBody` extracts from an envelope. */
  function BodyText(v: Envelope): string {
    match v
    case MediumEnvelope(m) => Medium.JoinTexts(m.Paragraphs())
    case WordPressEnvelope(w) => w.content.rendered
  }

  /** `handleBody`: the paragraph loop for Medium, the rendered content for WordPress. */
  method HandleBody(v: Envelope) returns (t: string)
    ensures t == BodyText(v)
    ensures v.MediumEnvelope? ==> |t| == Medium.TotalLength(v.medium.Paragraphs())
  {
    match v
    case MediumEnvelope(m) =>
      t := Medium.CollectParagraphs(m.Paragraphs());
      Medium.JoinTextsLength(m.Paragraphs());
    case WordPressEnvelope(w) =>
      t := w.content.rendered;
  }

  /** The envelope `parseMedium` ends with: the decoded one, or the zero value. */
  function MediumEnvelopeOf(decoded: Option<MediumResponse>): Envelope {
    MediumEnvelope(if decoded.Some? then decoded.value else EmptyMediumResponse)
  }

  /**
   * `parseMedium`: a failed fetch, an undecodable body or a `null` document
   * (decoded into a struct value, it changes nothing) leaves the response at
   * its zero value, whose text is "". Only a body shorter than the 16-byte
   * prefix stops it, by a panic.
   */
  function MediumText(url: string, net: Transport): Result<string> {
    match net.fetch(Medium.MediumRequest(url))
    case TransportError => Ok(BodyText(MediumEnvelope(EmptyMediumResponse)))
    case Body(body) =>
      if |body| < Medium.PrefixLength then Err(BodyTooShort)
      else if IsNullDocument(body[Medium.PrefixLength..]) then Ok(BodyText(MediumEnvelope(EmptyMediumResponse)))
      else Ok(BodyText(MediumEnvelopeOf(net.decodeMedium(body[Medium.PrefixLength..]))))
  }

  /** `parseMedium`, as a sequence of steps. */
  method ParseMedium(url: string, net: Transport) returns (r: Result<string>)
    ensures r == MediumText(url, net)
    ensures r.Err? ==> r.error == BodyTooShort
  {
    var fetched := net.fetch(Medium.MediumRequest(url));
    var v := MediumEnvelope(EmptyMediumResponse);
    if fetched.Body? {
      if |fetched.bytes| < Medium.PrefixLength {
        return Err(BodyTooShort);
      }
      var json := fetched.bytes[Medium.PrefixLength..];
      if !IsNullDocument(json) {
        v := MediumEnvelopeOf(net.decodeMedium(json));
      }
    }
    var t := HandleBody(v);
    r := Ok(t);
  }

  /**
   * The request of `parseWp`: the same target and `Authorization` value as
   * the later resolver, plus a `Content-Type` header.
   */
  function WpRequest(url: string, config: Config): (req: Request)
    ensures req.verb == "GET" && req.target == WordPress.Target(url, config)
    ensures Header("Authorization", WordPress.AuthHeaderValue(config)) in req.headers
  {
    Request("GET", WordPress.Target(url, config),
      [Header("Authorization", WordPress.AuthHeaderValue(config)), Header("Content-Type", "application/json")])
  }

  /**
   * `parseWp`: the rendered content, or "" when the fetch or the decoding
   * fails or the body is `null`.
   */
  function WpText(url: string, config: Config, net: Transport): string {
    match net.fetch(WpRequest(url, config))
    case TransportError => BodyText(WordPressEnvelope(EmptyWpResponse))
    case Body(body) =>
      if IsNullDocument(body) then BodyText(WordPressEnvelope(EmptyWpResponse))
      else
        var w := net.decodeWordPress(body);
        BodyText(WordPressEnvelope(if w.Some? then w.value else EmptyWpResponse))
  }

  /** `parseWp`, as a sequence of steps. */
  method ParseWp(url: string, config: Config, net: Transport) returns (t: string)
    ensures t == WpText(url, config, net)
  {
    var fetched := net.fetch(WpRequest(url, config));
    var w := EmptyWpResponse;
    if fetched.Body? && !IsNullDocument(fetched.bytes) {
      var decoded := net.decodeWordPress(fetched.bytes);
      if decoded.Some? {
        w := decoded.value;
      }
    }
    t := HandleBody(WordPressEnvelope(w));
  }

  /** `caller[name](url)`: the raw text; an error here is always a panic. */
  function RawText(url: string, config: Config, net: Transport): (r: Result<string>)
    ensures r.Err? ==> IsPanic(r.error)
  {
    match Resolve(url, config)
    case Err(e) => Err(e)
    case Ok(source) =>
      if source.MediumSite? then MediumText(url, net) else Ok(WpText(url, config, net))
  }

  /**
   * `GetCountSymbols` of this version: it panics where the raw text cannot
   * be had, and otherwise returns the Cyrillic count with no error. Its
   * `return 0, err` branch is never taken, since the filter cannot fail.
   */
  method GetCountSymbols(url: string, config: Config, net: Transport) returns (outcome: Outcome)
    ensures RawText(url, config, net).Err? ==> outcome == Panicked(RawText(url, config, net).error)
    ensures RawText(url, config, net).Ok? ==>
      outcome == Returned(|Cyrillic.CyrillicText(RawText(url, config, net).value)|, None)
    ensures outcome.Returned? ==> outcome.err.None? && outcome.count >= 0
  {
    var source := Resolve(url, config);
    if source.Err? {
      return Panicked(source.error);
    }
    var raw: string;
    if source.value.MediumSite? {
      var r := ParseMedium(url, net);
      if r.Err? {
        return Panicked(r.error);
      }
      raw := r.value;
    } else {
      raw := ParseWp(url, config, net);
    }
    var text := Cyrillic.GetCyrillicText(raw);
    outcome := Returned(|text|, None);
  }

  /**
   * Where the later Medium resolver produces a text, this one produces the
   * same text; where the later one reports a failed fetch or decode, or
   * panics on a `null` document, this one reports the empty text.
   */
  lemma MediumVersionsCompared(url: string, net: Transport)
    ensures Medium.ArticleText(url, net).Ok? ==> MediumText(url, net) == Medium.ArticleText(url, net)
    ensures Medium.ArticleText(url, net) == Err(BodyTooShort) <==> MediumText(url, net) == Err(BodyTooShort)
    ensures Medium.ArticleText(url, net) in {Err(FetchFailed), Err(DecodeFailed), Err(NullResponse)} ==>
      MediumText(url, net) == Ok("")
  {
  }

  /**
   * The same for WordPress, for a network that answers the two request forms
   * alike: a text is kept, a failure or a `null` panic becomes the empty text.
   */
  lemma WordPressVersionsCompared(url: string, config: Config, net: Transport)
    requires net.fetch(WpRequest(url, config)) == net.fetch(WordPress.WordPressRequest(url, config))
    ensures WordPress.RenderedText(url, config, net).Ok? ==>
      WpText(url, config, net) == WordPress.RenderedText(url, config, net).value
    ensures WordPress.RenderedText(url, config, net).Err? ==> WpText(url, config, net) == ""
  {
    match net.fetch(WordPress.WordPressRequest(url, config))
    case TransportError =>
      assert WordPress.RenderedText(url, config, net) == Err(FetchFailed);
      assert WpText(url, config, net) == BodyText(WordPressEnvelope(EmptyWpResponse));
    case Body(body) =>
      if IsNullDocument(body) {
        assert WordPress.RenderedText(url, config, net) == Err(NullResponse);
        assert WpText(url, config, net) == BodyText(WordPressEnvelope(EmptyWpResponse));
      } else if net.decodeWordPress(body).None? {
        assert WordPress.RenderedText(url, config, net) == Err(DecodeFailed);
        assert WpText(url, config, net) == BodyText(WordPressEnvelope(EmptyWpResponse));
      } else {
        var w := net.decodeWordPress(body).value;
        assert WordPress.RenderedText(url, config, net) == Ok(w.content.rendered);
        assert WpText(url, config, net) == BodyText(WordPressEnvelope(w));
      }
  }

  /**
   * With the Medium label configured as "medium" and a network that answers
   * both WordPress request forms alike, the two versions of the pipeline
   * agree on every link the later one counts and on every panic but the
   * `null` one; where the later one returns an error or panics on a `null`
   * document, the earlier one counts the empty text.
   */
  lemma PipelinesCompared(url: string, config: Config, net: Transport)
    requires config.medium == MediumLabel
    requires net.fetch(WpRequest(url, config)) == net.fetch(WordPress.WordPressRequest(url, config))
    ensures Scrape.RawText(url, config, net).Ok? ==> RawText(url, config, net) == Scrape.RawText(url, config, net)
    ensures Scrape.RawText(url, config, net).Err? ==>
      var e := Scrape.RawText(url, config, net).error;
      if IsPanic(e) && e != NullResponse then RawText(url, config, net) == Scrape.RawText(url, config, net)
      else RawText(url, config, net) == Ok("")
  {
    assert config.(medium := MediumLabel) == config;
    var source := Scrape.Resolve(url, config);
    if source.Ok? {
      if source.value.MediumSite? {
        MediumBranch(url, config, net);
        MediumVersionsCompared(url, net);
      } else {
        WordPressBranch(url, config, net);
        WordPressVersionsCompared(url, config, net);
      }
    } else {
      UnresolvedBranch(url, config, net);
    }
  }

  lemma UnresolvedBranch(url: string, config: Config, net: Transport)
    requires config.medium == MediumLabel && Scrape.Resolve(url, config).Err?
    ensures Scrape.RawText(url, config, net) == RawText(url, config, net) == Err(Scrape.Resolve(url, config).error)
    ensures IsPanic(Scrape.Resolve(url, config).error) && Scrape.Resolve(url, config).error != NullResponse
  {
    assert config.(medium := MediumLabel) == config;
  }

  lemma MediumBranch(url: string, config: Config, net: Transport)
    requires config.medium == MediumLabel && Scrape.Resolve(url, config) == Ok(Scrape.MediumSite)
    ensures Scrape.RawText(url, config, net) == Medium.ArticleText(url, net)
    ensures RawText(url, config, net) == MediumText(url, net)
  {
    assert config.(medium := MediumLabel) == config;
  }

  lemma WordPressBranch(url: string, config: Config, net: Transport)
    requires config.medium == MediumLabel && Scrape.Resolve(url, config) == Ok(Scrape.WordPressSite)
    ensures Scrape.RawText(url, config, net) == WordPress.RenderedText(url, config, net)
    ensures RawText(url, config, net) == Ok(WpText(url, config, net))
  {
    assert config.(medium := MediumLabel) == config;
  }
}
