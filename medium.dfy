/**
 * The Medium resolver of internal/scrape/medium.go: drop a trailing "edit"
 * from the link, fetch it asking for JSON, skip the 16-byte prefix Medium
 * puts in front of the JSON, and join the paragraph texts in order.
 */
module Medium {
  import opened Text
  import opened Model

  /** The number of non-JSON bytes Medium sends before the envelope. */
  const PrefixLength: nat := 16

  const EditSuffix: string := "edit"

  predicate EndsWith(s: string, suffix: string) {
    |suffix| <= |s| && s[|s| - |suffix|..] == suffix
  }

  /**
   * The link with one trailing "edit" removed (the regular expression
   * `edit$` replaced by ""); any other link is left as it is.
   */
  function StripEdit(url: string): (r: string)
    ensures EndsWith(url, EditSuffix) ==> r + EditSuffix == url
    ensures !EndsWith(url, EditSuffix) ==> r == url
  {
    if EndsWith(url, EditSuffix) then url[..|url| - |EditSuffix|] else url
  }

  /** Stripping undoes appending "edit", once: "...editedit" becomes "...edit". */
  lemma StripEditAppended(url: string)
    ensures StripEdit(url + EditSuffix) == url
  {
    assert EndsWith(url + EditSuffix, EditSuffix);
  }

  /** The request: GET with `Accept: application/json`, at the stripped link. */
  function MediumRequest(url: string): (req: Request)
    ensures req.verb == "GET" && req.target == StripEdit(url)
    ensures Header("Accept", "application/json") in req.headers
  {
    Request("GET", StripEdit(url), [Header("Accept", "application/json")])
  }

  /** The texts of the paragraphs, one after the other. */
  function JoinTexts(ps: seq<Paragraph>): string {
    if |ps| == 0 then [] else ps[0].text + JoinTexts(ps[1..])
  }

  lemma {:induction false} JoinTextsAppend(ps: seq<Paragraph>, qs: seq<Paragraph>)
    ensures JoinTexts(ps + qs) == JoinTexts(ps) + JoinTexts(qs)
    decreases |ps|
  {
    if ps == [] {
      assert ps + qs == qs;
    } else {
      assert (ps + qs)[0] == ps[0];
      assert (ps + qs)[1..] == ps[1..] + qs;
      JoinTextsAppend(ps[1..], qs);
    }
  }

  /** The sum of the paragraph text lengths. */
  function TotalLength(ps: seq<Paragraph>): nat {
    if |ps| == 0 then 0 else |ps[0].text| + TotalLength(ps[1..])
  }

  /** The joined text is as long as all paragraph texts together. */
  lemma {:induction false} JoinTextsLength(ps: seq<Paragraph>)
    ensures |JoinTexts(ps)| == TotalLength(ps)
  {
    if ps != [] {
      JoinTextsLength(ps[1..]);
    }
  }

  /**
   * Paragraph k's text sits in the joined text right after the texts of the
   * paragraphs before it: nothing is dropped, reordered or interleaved.
   */
  lemma JoinTextsPlacesParagraph(ps: seq<Paragraph>, k: nat)
    requires k < |ps|
    ensures var start := TotalLength(ps[..k]);
      start + |ps[k].text| <= |JoinTexts(ps)| &&
      JoinTexts(ps)[start..start + |ps[k].text|] == ps[k].text
  {
    var front, back := ps[..k], ps[k + 1..];
    assert ps == front + ([ps[k]] + back);
    JoinTextsSingle(ps[k]);
    JoinTextsAppend(front, [ps[k]] + back);
    JoinTextsAppend([ps[k]], back);
    assert JoinTexts(ps) == JoinTexts(front) + ps[k].text + JoinTexts(back);
    JoinTextsLength(front);
  }

  /** A paragraph with no text (an omitted `text` field) adds nothing. */
  lemma EmptyParagraphAddsNothing(ps: seq<Paragraph>, k: nat)
    requires k <= |ps|
    ensures JoinTexts(ps[..k] + [Paragraph("")] + ps[k..]) == JoinTexts(ps)
  {
    JoinTextsAroundEmpty(ps[..k], ps[k..]);
    assert ps[..k] + ps[k..] == ps;
  }

  lemma JoinTextsAroundEmpty(front: seq<Paragraph>, back: seq<Paragraph>)
    ensures JoinTexts(front + [Paragraph("")] + back) == JoinTexts(front + back)
  {
    JoinTextsSingle(Paragraph(""));
    assert front + [Paragraph("")] + back == front + ([Paragraph("")] + back);
    JoinTextsAppend(front, [Paragraph("")] + back);
    JoinTextsAppend([Paragraph("")], back);
    JoinTextsAppend(front, back);
  }

  lemma JoinTextsSingle(p: Paragraph)
    ensures JoinTexts([p]) == p.text
  {
    assert [p][1..] == [];
  }

  /**
   * The nested loops of `parse` (and of `handleBody`): append the runes of
   * every paragraph's text, paragraph by paragraph.
   */
  method CollectParagraphs(ps: seq<Paragraph>) returns (content: string)
    ensures content == JoinTexts(ps)
  {
    content := "";
    for i := 0 to |ps|
      invariant content == JoinTexts(ps[..i])
    {
      var text := ps[i].text;
      for j := 0 to |text|
        invariant content == JoinTexts(ps[..i]) + text[..j]
      {
        assert text[..j + 1] == text[..j] + [text[j]];
        content := content + [text[j]];
      }
      assert text[..|text|] == text;
      assert ps[..i + 1] == ps[..i] + [ps[i]];
      JoinTextsAppend(ps[..i], [ps[i]]);
    }
    assert ps[..|ps|] == ps;
  }

  /**
   * The article text for a link, with every failure reported: the transport
   * error, a body too short to hold the prefix (a panic in the Go code), a
   * `null` document (it sets the receiver pointer to nil, and the paragraph
   * loop then panics), and a body that does not decode.
   */
  function ArticleText(url: string, net: Transport): (r: Result<string>)
    ensures r.Err? ==> r.error in {FetchFailed, BodyTooShort, NullResponse, DecodeFailed}
  {
    match net.fetch(MediumRequest(url))
    case TransportError => Err(FetchFailed)
    case Body(body) =>
      if |body| < PrefixLength then Err(BodyTooShort)
      else if IsNullDocument(body[PrefixLength..]) then Err(NullResponse)
      else
        match net.decodeMedium(body[PrefixLength..])
        case None => Err(DecodeFailed)
        case Some(m) => Ok(JoinTexts(m.Paragraphs()))
  }

  /** `parse`, as a sequence of steps. */
  method Parse(url: string, net: Transport) returns (r: Result<string>)
    ensures r == ArticleText(url, net)
  {
    var req := MediumRequest(url);
    var fetched := net.fetch(req);
    if fetched.TransportError? {
      return Err(FetchFailed);
    }
    var body := fetched.bytes;
    if |body| < PrefixLength {
      return Err(BodyTooShort);
    }
    if IsNullDocument(body[PrefixLength..]) {
      return Err(NullResponse);
    }
    var decoded := net.decodeMedium(body[PrefixLength..]);
    if decoded.None? {
      return Err(DecodeFailed);
    }
    var content := CollectParagraphs(decoded.value.Paragraphs());
    r := Ok(content);
  }

  /**
   * A text is produced exactly when the fetch succeeds and the bytes after
   * the first 16 are a document other than `null` that decodes; it is then
   * the joined paragraph texts. Every other outcome is an error and carries
   * no text.
   */
  lemma ArticleTextCases(url: string, net: Transport)
    ensures ArticleText(url, net).Ok? <==>
      net.fetch(MediumRequest(url)).Body? &&
      |net.fetch(MediumRequest(url)).bytes| >= PrefixLength &&
      !IsNullDocument(net.fetch(MediumRequest(url)).bytes[PrefixLength..]) &&
      net.decodeMedium(net.fetch(MediumRequest(url)).bytes[PrefixLength..]).Some?
    ensures ArticleText(url, net).Ok? ==>
      ArticleText(url, net).value ==
        JoinTexts(net.decodeMedium(net.fetch(MediumRequest(url)).bytes[PrefixLength..]).value.Paragraphs())
    ensures net.fetch(MediumRequest(url)).TransportError? ==> ArticleText(url, net) == Err(FetchFailed)
  {
  }

  /** Only the first 16 bytes are skipped: what they hold does not matter. */
  lemma ArticleTextIgnoresPrefix(url: string, net: Transport, prefix: seq<byte>, json: seq<byte>)
    requires |prefix| == PrefixLength
    requires net.fetch(MediumRequest(url)) == Body(prefix + json)
    ensures ArticleText(url, net) ==
      if IsNullDocument(json) then Err(NullResponse)
      else
        match net.decodeMedium(json)
        case None => Err(DecodeFailed)
        case Some(m) => Ok(JoinTexts(m.Paragraphs()))
  {
    assert (prefix + json)[PrefixLength..] == json;
  }

  /**
   * `parse` as written: the decode error is stored by the response callback
   * but tested before `Visit` runs it, so it never surfaces, and the text of
   * the still-empty response is returned.
   */
  function ArticleTextAsWritten(url: string, net: Transport): Result<string> {
    match net.fetch(MediumRequest(url))
    case TransportError => Err(FetchFailed)
    case Body(body) =>
      if |body| < PrefixLength then Err(BodyTooShort)
      else if IsNullDocument(body[PrefixLength..]) then Err(NullResponse)
      else
        var m := net.decodeMedium(body[PrefixLength..]);
        Ok(JoinTexts(if m.Some? then m.value.Paragraphs() else EmptyMediumResponse.Paragraphs()))
  }

  /** A body that does not decode: the code as written reports "" and no error. */
  lemma DecodeErrorLostAsWritten(url: string, net: Transport)
    requires net.fetch(MediumRequest(url)).Body?
    requires |net.fetch(MediumRequest(url)).bytes| >= PrefixLength
    requires !IsNullDocument(net.fetch(MediumRequest(url)).bytes[PrefixLength..])
    requires net.decodeMedium(net.fetch(MediumRequest(url)).bytes[PrefixLength..]).None?
    ensures ArticleTextAsWritten(url, net) == Ok("")
    ensures ArticleText(url, net) == Err(DecodeFailed)
  {
  }

  /**
   * A body whose bytes after the prefix are `null`, with any whitespace
   * around it, panics, both as written and in the corrected model.
   */
  lemma NullBodyPanics(url: string, net: Transport, prefix: seq<byte>, pre: seq<byte>, post: seq<byte>)
    requires |prefix| == PrefixLength
    requires forall k :: 0 <= k < |pre| ==> IsJsonSpace(pre[k])
    requires forall k :: 0 <= k < |post| ==> IsJsonSpace(post[k])
    requires net.fetch(MediumRequest(url)) == Body(prefix + pre + NullLiteral + post)
    ensures ArticleText(url, net) == ArticleTextAsWritten(url, net) == Err(NullResponse)
  {
    var body := prefix + pre + NullLiteral + post;
    assert body[PrefixLength..] == pre + NullLiteral + post;
    NullDocumentPadded(pre, post);
  }
}
