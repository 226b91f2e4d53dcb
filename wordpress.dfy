/**
 * The WordPress resolver of internal/scrape/wordpress.go: take the first
 * run of digits in the link as the post id, fetch the configured API base
 * followed by that id with HTTP Basic authentication (section 2 of RFC 7617),
 * and return the rendered content verbatim.
 */
module WordPress {
  import opened Text
  import opened Model
  import Base64

  predicate IsDigit(c: char) {
    '0' <= c <= '9'
  }

  /** The digits at the start of `s`, as many as there are. */
  function LeadingDigits(s: string): (r: string)
    ensures |r| <= |s| && r == s[..|r|]
    ensures forall k :: 0 <= k < |r| ==> IsDigit(r[k])
    ensures |r| == |s| || !IsDigit(s[|r|])
  {
    if |s| > 0 && IsDigit(s[0]) then [s[0]] + LeadingDigits(s[1..]) else []
  }

  /**
   * What the regular expression `[0-9]+` finds first in `s`: the leftmost
   * maximal run of ASCII digits, or "" when `s` has no digit.
   */
  function FirstDigitRun(s: string): (r: string)
    ensures |r| <= |s|
    ensures forall k :: 0 <= k < |r| ==> IsDigit(r[k])
  {
    if |s| == 0 then []
    else if IsDigit(s[0]) then LeadingDigits(s)
    else FirstDigitRun(s[1..])
  }

  /** Without digits there is no run: the id is "". */
  lemma {:induction false} FirstDigitRunWithoutDigits(s: string)
    requires forall k :: 0 <= k < |s| ==> !IsDigit(s[k])
    ensures FirstDigitRun(s) == ""
  {
    if |s| > 0 {
      FirstDigitRunWithoutDigits(s[1..]);
    }
  }

  /**
   * In `pre + run + post`, where `pre` has no digit, `run` is a non-empty run
   * of digits and `post` does not continue it, the run found is `run`: the
   * result is the leftmost run, taken whole, and a contiguous part of `s`.
   */
  lemma {:induction false} FirstDigitRunIsLeftmostMaximal(pre: string, run: string, post: string)
    requires forall k :: 0 <= k < |pre| ==> !IsDigit(pre[k])
    requires |run| > 0 && forall k :: 0 <= k < |run| ==> IsDigit(run[k])
    requires |post| == 0 || !IsDigit(post[0])
    ensures FirstDigitRun(pre + run + post) == run
    decreases |pre|
  {
    var s := pre + run + post;
    if |pre| == 0 {
      assert s == run + post;
      LeadingDigitsOfRun(run, post);
    } else {
      assert s[1..] == pre[1..] + run + post;
      FirstDigitRunIsLeftmostMaximal(pre[1..], run, post);
    }
  }

  lemma {:induction false} LeadingDigitsOfRun(run: string, post: string)
    requires forall k :: 0 <= k < |run| ==> IsDigit(run[k])
    requires |post| == 0 || !IsDigit(post[0])
    ensures LeadingDigits(run + post) == run
    decreases |run|
  {
    if |run| == 0 {
      assert run + post == post;
    } else {
      assert (run + post)[1..] == run[1..] + post;
      LeadingDigitsOfRun(run[1..], post);
    }
  }

  /** The example of a post link: ".../posts/42-my-article" gives "42". */
  lemma FirstDigitRunExample()
    ensures FirstDigitRun("https://site.example/posts/42-my-article") == "42"
  {
    var pre, run, post := "https://site.example/posts/", "42", "-my-article";
    assert pre + run + post == "https://site.example/posts/42-my-article";
    FirstDigitRunIsLeftmostMaximal(pre, run, post);
  }

  /** The byte of ':' that separates login and password. */
  const Colon: byte := 58

  /** The user-pass of section 2 of RFC 7617: login, ':', password. */
  function Credentials(login: seq<byte>, password: seq<byte>): seq<byte> {
    login + [Colon] + password
  }

  /**
   * `basicAuth`: the standard padded base64 of `login + ":" + password`.
   * Decoding it gives the credentials back; for n credential bytes it has
   * 4 * ceil(n / 3) characters, all from the alphabet or `=`, and the unused
   * bits before the padding are zero. `BasicAuthUnique` shows that no other
   * text has these properties.
   */
  function BasicAuth(login: seq<byte>, password: seq<byte>): (r: string)
    ensures Base64.Decode(r) == Some(Credentials(login, password))
    ensures |r| == 4 * ((|Credentials(login, password)| + 2) / 3)
    ensures forall i :: 0 <= i < |r| ==> Base64.InAlphabet(r[i]) || r[i] == '='
    ensures Base64.ZeroPadBits(r)
  {
    var credentials := Credentials(login, password);
    Base64.DecodeEncode(credentials);
    Base64.EncodeShape(credentials);
    Base64.EncodeZeroPadBits(credentials);
    Base64.Encode(credentials)
  }

  /**
   * The token is the only text that decodes to the credentials and has zero
   * pad bits: a decoder that tolerates other pad bits does not make another
   * token acceptable as `basicAuth`'s output.
   */
  lemma BasicAuthUnique(login: seq<byte>, password: seq<byte>, token: string)
    requires Base64.Decode(token) == Some(Credentials(login, password))
    requires Base64.ZeroPadBits(token)
    ensures token == BasicAuth(login, password)
  {
    Base64.EncodeCanonical(token, Credentials(login, password));
  }

  /**
   * When the login holds no ':', the receiver splits the decoded credentials
   * at their first ':' back into exactly this login and password.
   */
  lemma BasicAuthSeparatesLogin(login: seq<byte>, password: seq<byte>)
    requires Colon !in login
    ensures var credentials := Base64.Decode(BasicAuth(login, password)).value;
      Find(credentials, [Colon]) == Some(|login|) &&
      credentials[..|login|] == login &&
      credentials[|login| + 1..] == password
  {
    FindSingle(login, Colon, password);
  }

  const BasicScheme: string := "Basic "

  /** The `Authorization` value stored by `NewWordpressResponse`. */
  function AuthHeaderValue(config: Config): (v: string)
    ensures |v| > |BasicScheme| && v[..|BasicScheme|] == BasicScheme
    ensures Base64.Decode(v[|BasicScheme|..]) == Some(Credentials(config.login, config.password))
    ensures Base64.ZeroPadBits(v[|BasicScheme|..])
    ensures v == BasicScheme + BasicAuth(config.login, config.password)
  {
    var token := BasicAuth(config.login, config.password);
    assert (BasicScheme + token)[|BasicScheme|..] == token;
    BasicScheme + token
  }

  /** The request target: the API base followed by the post id. */
  function Target(url: string, config: Config): string {
    config.api + FirstDigitRun(url)
  }

  /** The request: GET at the target, carrying the `Authorization` header. */
  function WordPressRequest(url: string, config: Config): (req: Request)
    ensures req.verb == "GET"
    ensures req.target == Target(url, config)
    ensures Header("Authorization", AuthHeaderValue(config)) in req.headers
  {
    Request("GET", Target(url, config), [Header("Authorization", AuthHeaderValue(config))])
  }

  /** A link without digits is not rejected: the API base itself is fetched. */
  lemma LinkWithoutDigitsFetchesApiBase(url: string, config: Config)
    requires forall k :: 0 <= k < |url| ==> !IsDigit(url[k])
    ensures WordPressRequest(url, config).target == config.api
  {
    FirstDigitRunWithoutDigits(url);
  }

  /**
   * The post's rendered content, with every failure reported. A `null`
   * document sets the receiver pointer to nil, and reading the content
   * through it then panics.
   */
  function RenderedText(url: string, config: Config, net: Transport): (r: Result<string>)
    ensures r.Err? ==> r.error in {FetchFailed, NullResponse, DecodeFailed}
  {
    match net.fetch(WordPressRequest(url, config))
    case TransportError => Err(FetchFailed)
    case Body(body) =>
      if IsNullDocument(body) then Err(NullResponse)
      else
        match net.decodeWordPress(body)
        case None => Err(DecodeFailed)
        case Some(w) => Ok(w.content.rendered)
  }

  /**
   * A text is produced exactly when the fetch succeeds and the body is a
   * document other than `null` that decodes; it is then `content.rendered`,
   * markup and all.
   */
  lemma RenderedTextCases(url: string, config: Config, net: Transport)
    ensures RenderedText(url, config, net).Ok? <==>
      net.fetch(WordPressRequest(url, config)).Body? &&
      !IsNullDocument(net.fetch(WordPressRequest(url, config)).bytes) &&
      net.decodeWordPress(net.fetch(WordPressRequest(url, config)).bytes).Some?
    ensures RenderedText(url, config, net).Ok? ==>
      RenderedText(url, config, net).value ==
        net.decodeWordPress(net.fetch(WordPressRequest(url, config)).bytes).value.content.rendered
    ensures net.fetch(WordPressRequest(url, config)).TransportError? ==>
      RenderedText(url, config, net) == Err(FetchFailed)
  {
  }

  /**
   * `parse` as written: the `stage` flag set by the response callback is
   * tested before `Visit` runs it, so a decode failure is never reported and
   * the empty `Content.Rendered` is returned.
   */
  function RenderedTextAsWritten(url: string, config: Config, net: Transport): Result<string> {
    match net.fetch(WordPressRequest(url, config))
    case TransportError => Err(FetchFailed)
    case Body(body) =>
      if IsNullDocument(body) then Err(NullResponse)
      else
        var w := net.decodeWordPress(body);
        Ok(if w.Some? then w.value.content.rendered else EmptyWpResponse.content.rendered)
  }

  /** A body that does not decode: the code as written reports "" and no error. */
  lemma DecodeErrorLostAsWritten(url: string, config: Config, net: Transport)
    requires net.fetch(WordPressRequest(url, config)).Body?
    requires !IsNullDocument(net.fetch(WordPressRequest(url, config)).bytes)
    requires net.decodeWordPress(net.fetch(WordPressRequest(url, config)).bytes).None?
    ensures RenderedTextAsWritten(url, config, net) == Ok("")
    ensures RenderedText(url, config, net) == Err(DecodeFailed)
  {
  }

  /**
   * A body that is `null`, with any whitespace around it, panics, both as
   * written and in the corrected model.
   */
  lemma NullBodyPanics(url: string, config: Config, net: Transport, pre: seq<byte>, post: seq<byte>)
    requires forall k :: 0 <= k < |pre| ==> IsJsonSpace(pre[k])
    requires forall k :: 0 <= k < |post| ==> IsJsonSpace(post[k])
    requires net.fetch(WordPressRequest(url, config)) == Body(pre + NullLiteral + post)
    ensures RenderedText(url, config, net) == RenderedTextAsWritten(url, config, net) == Err(NullResponse)
  {
    NullDocumentPadded(pre, post);
  }
}
