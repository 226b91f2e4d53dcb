/**
 * The counting pipeline of internal/scrape/scrape.go: pick the resolver by
 * the link's host label, fetch the article text, keep its Cyrillic
 * codepoints and count them.
 */
module Scrape {
  import opened Text
  import opened Model
  import Cyrillic
  import Medium
  import WordPress
  import Access

  /** The two resolvers the dispatch map can hold. */
  datatype Source = MediumSite | WordPressSite

  /**
   * The label closure: the text after the first "://" up to the next "://"
   * or ".", whichever comes first. Without "://" the Go code indexes past the
   * end of the split and panics.
   */
  function HostLabel(url: string): (r: Result<string>)
    ensures r.Err? <==> !Contains(url, SchemeSeparator)
    ensures r.Err? ==> r.error == MalformedUrl
    ensures r.Ok? ==> '.' !in r.value
  {
    var line := Split(url, SchemeSeparator);
    SplitOnePiece(url, SchemeSeparator);
    if |line| < 2 then Err(MalformedUrl)
    else
      var name := Split(line[1], ".");
      ContainsSingle(name[0], '.');
      Ok(name[0])
  }

  /**
   * For `pre + "://" + host + tail`, where `host` holds no "." and `tail` is
   * empty or starts with ".", the label is `host`, whatever comes after a
   * second "://".
   */
  lemma HostLabelOfLink(pre: string, host: string, tail: string, more: string)
    requires !Contains(pre, SchemeSeparator) && !Contains(host + tail, SchemeSeparator)
    requires '.' !in host && (tail == [] || tail[0] == '.')
    ensures HostLabel(pre + SchemeSeparator + host + tail) == Ok(host)
    ensures HostLabel(pre + SchemeSeparator + host + tail + SchemeSeparator + more) == Ok(host)
  {
    SchemeSeparatorNoSelfOverlap();
    assert pre + SchemeSeparator + host + tail == pre + SchemeSeparator + (host + tail);
    SplitAfterPrefix(pre, SchemeSeparator, host + tail);
    SplitOnePiece(host + tail, SchemeSeparator);
    var long := pre + SchemeSeparator + host + tail + SchemeSeparator + more;
    assert long == pre + SchemeSeparator + (host + tail + SchemeSeparator + more);
    SplitAfterPrefix(pre, SchemeSeparator, host + tail + SchemeSeparator + more);
    SplitAfterPrefix(host + tail, SchemeSeparator, more);
    SplitBeforeFirst(host, '.', tail);
  }

  /**
   * The lookup in the map literal `{medium: ..., webSite: ...}`. When the two
   * configured labels are equal the later entry, the WordPress one, wins; an
   * absent label yields a nil parser, whose call panics.
   */
  function Dispatch(name: string, config: Config): (r: Result<Source>)
    ensures r.Err? ==> r.error == NoMatchingSource
  {
    if name == config.webSite then Ok(WordPressSite)
    else if name == config.medium then Ok(MediumSite)
    else Err(NoMatchingSource)
  }

  /**
   * The label selects a resolver exactly when it equals one of the two
   * configured labels, the WordPress one taking precedence.
   */
  lemma DispatchCases(name: string, config: Config)
    ensures Dispatch(name, config) == Ok(WordPressSite) <==> name == config.webSite
    ensures Dispatch(name, config) == Ok(MediumSite) <==> name == config.medium && name != config.webSite
    ensures Dispatch(name, config).Err? <==> name != config.medium && name != config.webSite
  {
  }

  /** The resolver for a link: its host label looked up in the dispatch map. */
  function Resolve(url: string, config: Config): (r: Result<Source>)
    ensures r.Err? ==> IsPanic(r.error)
  {
    match HostLabel(url)
    case Err(e) => Err(e)
    case Ok(name) => Dispatch(name, config)
  }

  /**
   * Every link the bot's `verifyLink` guard lets through, checked against the
   * same two labels, finds a resolver: neither dispatch panic can follow it.
   */
  lemma GuardedLinkResolves(url: string, config: Config)
    requires Access.VerifyLink(url, config.medium, config.webSite)
    ensures Resolve(url, config).Ok?
  {
  }

  /**
   * The guard is stricter than the dispatch: a link with a second "://" is
   * rejected by `verifyLink` but still resolved by its first host label,
   * whichever of the two configured labels that is.
   */
  lemma SecondSeparatorResolvedButRejected(pre: string, host: string, tail: string, more: string, config: Config)
    requires !Contains(pre, SchemeSeparator) && !Contains(host + tail, SchemeSeparator)
    requires '.' !in host && (tail == [] || tail[0] == '.')
    requires host == config.medium || host == config.webSite
    ensures Resolve(pre + SchemeSeparator + host + tail + SchemeSeparator + more, config).Ok?
    ensures !Access.VerifyLink(pre + SchemeSeparator + host + tail + SchemeSeparator + more, config.medium, config.webSite)
  {
    HostLabelOfLink(pre, host, tail, more);
    var url := pre + SchemeSeparator + host + tail + SchemeSeparator + more;
    var i, j := |pre|, |pre| + 3 + |host + tail|;
    assert url[i..i + 3] == SchemeSeparator;
    assert url[j..j + 3] == SchemeSeparator;
    Access.VerifyLinkSeveralSeparators(url, config.medium, config.webSite, i, j);
  }

  /** `parse(get[label], url)`: the raw text the chosen resolver returns. */
  function RawText(url: string, config: Config, net: Transport): Result<string> {
    match Resolve(url, config)
    case Err(e) => Err(e)
    case Ok(MediumSite) => Medium.ArticleText(url, net)
    case Ok(WordPressSite) => WordPress.RenderedText(url, config, net)
  }

  /**
   * When no resolver is found nothing is fetched: the outcome is the same
   * whatever the network and the decoders would answer.
   */
  lemma UnresolvedFetchesNothing(url: string, config: Config, net: Transport, other: Transport)
    requires Resolve(url, config).Err?
    ensures RawText(url, config, net) == RawText(url, config, other) == Err(Resolve(url, config).error)
    ensures IsPanic(RawText(url, config, net).error)
  {
  }

  /** The context `GetCountSymbols` puts in front of a resolver's error. */
  const ParsingError: string := "parsing error"

  /**
   * `GetCountSymbols`: a panic of the label closure, the dispatch or a
   * resolver propagates; any other resolver error is returned wrapped,
   * with count -1; otherwise the count is the number of Cyrillic codepoints
   * in the raw text.
   */
  method GetCountSymbols(url: string, config: Config, net: Transport) returns (outcome: Outcome)
    ensures RawText(url, config, net).Err? && IsPanic(RawText(url, config, net).error) ==>
      outcome == Panicked(RawText(url, config, net).error)
    ensures RawText(url, config, net).Err? && !IsPanic(RawText(url, config, net).error) ==>
      outcome == Returned(-1, Some(Wrapped(ParsingError, RawText(url, config, net).error)))
    ensures RawText(url, config, net).Ok? ==>
      outcome == Returned(|Cyrillic.CyrillicText(RawText(url, config, net).value)|, None)
    ensures outcome.Returned? ==> (outcome.err.None? <==> outcome.count >= 0)
  {
    var source := Resolve(url, config);
    if source.Err? {
      return Panicked(source.error);
    }
    var raw: Result<string>;
    if source.value == MediumSite {
      raw := Medium.Parse(url, net);
    } else {
      raw := WordPress.RenderedText(url, config, net);
    }
    if raw.Err? {
      if IsPanic(raw.error) {
        return Panicked(raw.error);
      }
      return Returned(-1, Some(Wrapped(ParsingError, raw.error)));
    }
    var text := Cyrillic.GetCyrillicText(raw.value);
    outcome := Returned(|text|, None);
  }

  /**
   * An end-to-end run: a Medium link whose response, after its 16-byte
   * prefix, is an object that decodes to the paragraphs "Hello " and "Мир"
   * counts 3.
   */
  lemma MediumArticleCount(url: string, config: Config, net: Transport, prefix: seq<byte>, json: seq<byte>)
    requires Resolve(url, config) == Ok(MediumSite)
    requires |prefix| == Medium.PrefixLength
    requires net.fetch(Medium.MediumRequest(url)) == Body(prefix + json)
    requires |json| > 0 && json[0] == 123
    requires net.decodeMedium(json) ==
      Some(MediumResponse(Payload(PostValue("", "", PostContent("", BodyModel([Paragraph("Hello "), Paragraph("Мир")]))))))
    ensures RawText(url, config, net) == Ok("Hello Мир")
    ensures |Cyrillic.CyrillicText(RawText(url, config, net).value)| == 3
  {
    Medium.ArticleTextIgnoresPrefix(url, net, prefix, json);
    ObjectIsNotNull(json);
    ExampleJoin();
    ExampleCount();
  }

  lemma ExampleJoin()
    ensures Medium.JoinTexts([Paragraph("Hello "), Paragraph("Мир")]) == "Hello Мир"
  {
    assert Medium.JoinTexts([Paragraph("Мир")]) == "Мир" + Medium.JoinTexts([]);
    assert [Paragraph("Hello "), Paragraph("Мир")][1..] == [Paragraph("Мир")];
  }

  lemma ExampleCount()
    ensures |Cyrillic.CyrillicText("Hello Мир")| == 3
  {
    assert "Hello " + "Мир" == "Hello Мир";
    Cyrillic.CyrillicTextAppend("Hello ", "Мир");
    Cyrillic.CyrillicTextOfNone("Hello ");
    Cyrillic.CyrillicTextKeepsCyrillic("Мир");
  }
}
