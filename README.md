# Character-counter bot: the link-to-count pipeline

The bot answers a Telegram message holding a link to an article with the
number of Cyrillic characters (codepoints of the Cyrillic script) in that
article. This project models the part of
it that turns a link into that number:

- the two guards the bot applies to a message: the user allow-list and the
  check that the message is a link to one of the two configured sites
  (`Access`);
- the host-label extraction and dispatch to a resolver, and the counting
  pipeline `GetCountSymbols` (`Scrape`);
- the Medium resolver (`Medium`). It drops a trailing `edit` from the link,
  fetches it as JSON, skips Medium's 16-byte prefix and joins the paragraph
  texts in order;
- the WordPress resolver (`WordPress`). It takes the first run of digits in
  the link as the post id, fetches the API base followed by that id with an
  HTTP Basic `Authorization` header (section 2 of RFC 7617), and returns the
  rendered content;
- the standard padded base64 of section 4 of RFC 4648 behind that header,
  with a decode round trip (`Base64`);
- the `\p{Cyrillic}` filter and the codepoint count (`Cyrillic`);
- the earlier version of the whole pipeline, internal/scrape/scraper.go
  (`Scraper`). It is compared with the current one.

Strings are sequences of codepoints. `strings.Split` is modelled by
`Text.Split`, whose pieces joined with the separator give back the input.
The network and the JSON decoders are a `Transport` value: one function from
request to response body, and one decoder per envelope shape. Nothing else in
the model does I/O.

The current Go code panics in four places:

- a link without `://`;
- a host label that matches neither configured label;
- a Medium body shorter than 16 bytes;
- a response document that is the JSON literal `null`. The current resolvers
  decode into a pointer to their receiver pointer, so `null` sets the
  receiver to nil, and reading the content through it panics.

The model gives these the error values `MalformedUrl`, `NoMatchingSource`,
`BodyTooShort` and `NullResponse`. `GetCountSymbols` reports them as the
outcome `Panicked`, and never as a returned error. The earlier resolvers
decode into struct values, where `null` changes nothing, so only the first
three panic there.

The code does not reject a WordPress link without digits: the request goes
to the API base itself (`WordPress.LinkWithoutDigitsFetchesApiBase`).

When the two configured labels are equal, the map literal keeps its later
entry, so the WordPress resolver wins (`Scrape.DispatchCases`).

## Model

| member | source | states |
|---|---|---|
| Access.VerifyUser | internal/app/utils.go:5-13 | the scan answers true exactly when the user equals some entry of the allow-list; an empty list admits nobody |
| Access.VerifyLink | internal/app/utils.go:15-25 | a message is accepted only if it contains "://" |
| Access.VerifyLinkWithoutSeparator | internal/app/utils.go:16-17 | a message with no "://" is rejected |
| Access.VerifyLinkSeveralSeparators | internal/app/utils.go:16-17 | a message with two or more "://" is rejected, whatever its labels |
| Access.VerifyLinkByHostLabel | internal/app/utils.go:18-22 | with one "://", the verdict is whether the text after it, up to the first "." (the whole remainder when there is none), equals either label exactly |
| Access.VerifyLinkIgnoresPath | internal/app/utils.go:18-22 | text appended after the first "." of the host does not change the verdict, as long as it brings no "://" |
| Text.Split | internal/app/utils.go:16 | at least one piece; the pieces joined with the separator give back the input; no piece contains the separator |
| Text.SplitOnePiece | internal/app/utils.go:16-17 | the split has exactly one piece iff the separator does not occur, and that piece is the whole input |
| Text.SplitTwoPieces | internal/app/utils.go:16-17 | the split has two pieces iff the separator does not occur again after its first occurrence; the second piece runs up to the next occurrence |
| Text.Find | internal/scrape/scrape.go:30 | the index found holds the separator and none before it does; there is none iff the separator does not occur |
| Scrape.HostLabel | internal/scrape/scrape.go:29-32 | the label is an error (the index panic) iff the link has no "://", and otherwise holds no "." |
| Scrape.HostLabelOfLink | internal/scrape/scrape.go:29-32 | the label of `pre + "://" + host + tail` is `host`, strictly between the first "://" and the next "."; a second "://" later on does not change it |
| Scrape.Resolve | internal/scrape/scrape.go:25-32 | the resolver for a link is the host label looked up in the dispatch map; failing to find one is always a panic |
| Scrape.Dispatch | internal/scrape/scrape.go:25-29 | a label that selects no resolver gives NoMatchingSource |
| Scrape.DispatchCases | internal/scrape/scrape.go:25-29 | WordPress is chosen iff the label equals the website label; Medium iff it equals the Medium label and not the website label; no resolver iff it equals neither |
| Scrape.RawText | internal/scrape/scrape.go:29-32 | `parse(get[label], url)`: the chosen resolver's text or error; characterised by `Scrape.UnresolvedFetchesNothing`, `Medium.ArticleTextCases` and `WordPress.RenderedTextCases` |
| Scrape.UnresolvedFetchesNothing | internal/scrape/scrape.go:25-32 | without a resolver the result does not depend on the network or the decoders, and it is a panic |
| Scrape.GuardedLinkResolves | internal/scrape/scrape.go:29-32 | every link that `verifyLink` accepts with the same two labels finds a resolver |
| Scrape.SecondSeparatorResolvedButRejected | internal/scrape/scrape.go:29-32 | a link with a second "://" after either configured label is rejected by `verifyLink` yet resolved by the dispatch |
| Scrape.GetCountSymbols | internal/scrape/scrape.go:24-41 | a panic propagates; any other resolver error is returned wrapped in "parsing error" with count -1; otherwise the count is the number of Cyrillic codepoints of the raw text with no error; a returned count is non-negative iff there is no error |
| Scrape.MediumArticleCount | internal/scrape/scrape.go:24-41 | a Medium article whose body, after the prefix, is an object decoding to the paragraphs "Hello " and "Мир" has raw text "Hello Мир" and count 3 |
| Cyrillic.CyrillicText | internal/scrape/scrape.go:43-53 | the filtered text is no longer than the input and holds only Cyrillic codepoints |
| Cyrillic.CyrillicMatches | internal/scrape/scrape.go:49 | every match is a single Cyrillic codepoint |
| Cyrillic.MatchesJoinToCyrillicText | internal/scrape/scraper.go:97-108 | joining the matches of `\p{Cyrillic}` gives the filtered text |
| Cyrillic.GetCyrillicText | internal/scrape/scrape.go:43-53 | the loop over the matches returns the filtered text |
| Cyrillic.CyrillicTextIsSubsequence | internal/scrape/scrape.go:43-53 | the output is an in-order subsequence of the input |
| Cyrillic.CyrillicTextOccurrences | internal/scrape/scrape.go:49-51 | each Cyrillic codepoint is kept as often as it occurs, and nothing else is kept |
| Cyrillic.CyrillicTextLength | internal/scrape/scrape.go:40 | the output length, and so the count `GetCountSymbols` returns, equals the number of Cyrillic positions of the input |
| Cyrillic.CyrillicTextIdempotent | internal/scrape/scrape.go:44-52 | filtering twice is filtering once |
| Cyrillic.CyrillicTextAppend | internal/scrape/scrape.go:44-52 | the filter distributes over concatenation |
| Cyrillic.CyrillicTextKeepsCyrillic | internal/scrape/scrape.go:44-52 | all-Cyrillic text passes unchanged |
| Cyrillic.CyrillicTextOfNone | internal/scrape/scrape.go:48-52 | text with no Cyrillic codepoint, the empty text included, gives "" |
| Medium.StripEdit | internal/scrape/medium.go:29-31 | a link ending in "edit" loses exactly those four characters; any other link is unchanged |
| Medium.StripEditAppended | internal/scrape/medium.go:29-31 | only one "edit" is stripped: `url + "edit"` becomes `url`, so "...editedit" becomes "...edit" |
| Medium.MediumRequest | internal/scrape/medium.go:32-36 | the request is a GET at the stripped link carrying `Accept: application/json` |
| Medium.JoinTexts | internal/scrape/medium.go:48-52 | the paragraph texts one after the other; characterised by `Medium.JoinTextsAppend`, `Medium.JoinTextsLength` and `Medium.JoinTextsPlacesParagraph` |
| Medium.CollectParagraphs | internal/scrape/medium.go:48-52 | the nested loops build the in-order concatenation of the paragraph texts |
| Medium.JoinTextsAppend | internal/scrape/medium.go:48-52 | the joined text of two paragraph lists is the two joined texts one after the other |
| Medium.JoinTextsLength | internal/scrape/medium.go:48-52 | the content length is the sum of the paragraph text lengths |
| Medium.JoinTextsPlacesParagraph | internal/scrape/medium.go:48-52 | paragraph k's text appears whole, right after the texts of the paragraphs before it |
| Medium.EmptyParagraphAddsNothing | internal/scrape/medium.go:24-26 | a paragraph whose omitted `text` decodes as "" contributes nothing, wherever it stands |
| Medium.ArticleText | internal/scrape/medium.go:28-54 | the article text; its only errors are a failed fetch, a short body, a `null` document and an undecodable body |
| Medium.Parse | internal/scrape/medium.go:28-54 | the steps of `parse` compute the article text, error cases included |
| Medium.ArticleTextCases | internal/scrape/medium.go:37-53 | a text comes back iff the fetch succeeds and the bytes after the first 16 are a document other than `null` that decodes, and it is the joined paragraphs; a failed fetch gives an error and no content |
| Medium.NullBodyPanics | internal/scrape/medium.go:38-48 | a `null` document after the prefix, with any whitespace around it, panics, as written and corrected |
| Medium.ArticleTextIgnoresPrefix | internal/scrape/medium.go:38 | exactly the first 16 bytes are discarded, whatever they hold |
| Medium.ArticleTextAsWritten | internal/scrape/medium.go:37-44 | the text as the code computes it, with the decode error lost; contrasted with the corrected member by `Medium.DecodeErrorLostAsWritten` |
| Medium.DecodeErrorLostAsWritten | internal/scrape/medium.go:37-44 | an undecodable body yields "" and no error as written, and DecodeFailed in the corrected model |
| WordPress.LeadingDigits | internal/scrape/wordpress.go:35-38 | the result is the prefix of digits, all digits, and cannot be extended |
| WordPress.FirstDigitRun | internal/scrape/wordpress.go:35-38 | the id is no longer than the link and made only of ASCII digits |
| WordPress.FirstDigitRunIsLeftmostMaximal | internal/scrape/wordpress.go:35-38 | the id is the leftmost run of digits, taken whole, a contiguous part of the link |
| WordPress.FirstDigitRunWithoutDigits | internal/scrape/wordpress.go:35-38 | a link without digits gives the id "" |
| WordPress.FirstDigitRunExample | internal/scrape/wordpress.go:35-38 | ".../posts/42-my-article" gives "42" |
| WordPress.Credentials | internal/scrape/wordpress.go:30 | the bytes `login + ":" + password`; `WordPress.BasicAuthSeparatesLogin` splits them back |
| WordPress.BasicAuth | internal/scrape/wordpress.go:29-32 | decoding the token gives exactly `login + ":" + password`; its length is 4·⌈n/3⌉ for n credential bytes; every character is from the alphabet or "="; the unused bits before the padding are zero |
| WordPress.BasicAuthUnique | internal/scrape/wordpress.go:29-32 | any text that decodes to the credentials and has zero pad bits is the token: the properties above fix it completely |
| WordPress.BasicAuthSeparatesLogin | internal/scrape/wordpress.go:30 | for a login with no ":", the first ":" of the decoded credentials splits them back into login and password |
| WordPress.AuthHeaderValue | internal/scrape/wordpress.go:25 | the header value is "Basic " followed by `basicAuth(login, password)`, a token that decodes to the credentials and has zero pad bits |
| WordPress.Target | internal/scrape/wordpress.go:35-39 | the API base followed by the first digit run of the link; characterised by `WordPress.FirstDigitRunIsLeftmostMaximal` and `WordPress.LinkWithoutDigitsFetchesApiBase` |
| WordPress.WordPressRequest | internal/scrape/wordpress.go:39-42 | a GET at the API base followed by the id, carrying the Authorization header |
| WordPress.LinkWithoutDigitsFetchesApiBase | internal/scrape/wordpress.go:35-39 | an empty id is not rejected: the API base itself is requested |
| WordPress.RenderedText | internal/scrape/wordpress.go:34-57 | the post's content; its only errors are a failed fetch, a `null` document and an undecodable body |
| WordPress.RenderedTextCases | internal/scrape/wordpress.go:44-56 | a text comes back iff the fetch succeeds and the body is a document other than `null` that decodes, and it is `content.rendered` unchanged; a failed fetch gives an error and no content |
| WordPress.NullBodyPanics | internal/scrape/wordpress.go:46-56 | a `null` body, with any whitespace around it, panics, as written and corrected |
| WordPress.RenderedTextAsWritten | internal/scrape/wordpress.go:44-56 | the content as the code computes it, with the decode error lost; contrasted with the corrected member by `WordPress.DecodeErrorLostAsWritten` |
| WordPress.DecodeErrorLostAsWritten | internal/scrape/wordpress.go:44-52 | an undecodable body yields "" and no error as written, and DecodeFailed in the corrected model |
| Base64.Encode | internal/scrape/wordpress.go:31 | `base64.StdEncoding.EncodeToString`; inverted by `Base64.Decode` (`Base64.DecodeEncode`), shape by `Base64.EncodeShape`, zero pad bits by `Base64.EncodeZeroPadBits`, and the only such text by `Base64.EncodeCanonical` |
| Base64.DecodeEncode | internal/scrape/wordpress.go:31 | decoding the encoding of any bytes gives them back |
| Base64.EncodeShape | internal/scrape/wordpress.go:31 | the encoding has 4·⌈n/3⌉ characters, all from the alphabet except padding "=" in the last two places |
| Base64.EncodeZeroPadBits | internal/scrape/wordpress.go:31 | the unused low bits of the last character before "=" or "==" are zero, as section 3.5 of RFC 4648 asks of an encoder |
| Base64.EncodeCanonical | internal/scrape/wordpress.go:31 | text that decodes to some bytes and has zero pad bits is exactly their encoding |
| Base64.EncodeInjective | internal/scrape/wordpress.go:31 | different credentials never share a token |
| Base64.Decode | internal/scrape/wordpress.go:31 | only text whose length is a multiple of four decodes; like Go's non-strict decoder, it ignores the pad bits |
| Scraper.Resolve | internal/scrape/scraper.go:28-35 | the earlier dispatch is the current one with the Medium label fixed to "medium" |
| Scraper.BodyText | internal/scrape/scraper.go:82-95 | what `handleBody` extracts; `Scraper.HandleBody` computes it |
| Scraper.HandleBody | internal/scrape/scraper.go:82-95 | a Medium envelope gives the in-order concatenation of the paragraph texts, as long as their total; a WordPress envelope gives `Content.Rendered` verbatim |
| Scraper.MediumText | internal/scrape/scraper.go:45-61 | the earlier Medium text; compared with the current one by `Scraper.MediumVersionsCompared` |
| Scraper.ParseMedium | internal/scrape/scraper.go:45-61 | a failed fetch, an undecodable body or a `null` document gives "" with no error; only a body shorter than 16 bytes stops it, by a panic |
| Scraper.WpRequest | internal/scrape/scraper.go:63-74 | a GET at `config.API + handleLink(url)`, with the same Authorization value as the current resolver |
| Scraper.WpText | internal/scrape/scraper.go:63-80 | the earlier WordPress text; compared with the current one by `Scraper.WordPressVersionsCompared` |
| Scraper.ParseWp | internal/scrape/scraper.go:63-80 | the rendered content, or "" when the fetch or the decoding fails or the body is `null` |
| Scraper.RawText | internal/scrape/scraper.go:37 | the earlier resolvers fail only by a panic |
| Scraper.GetCountSymbols | internal/scrape/scraper.go:27-43 | a panic propagates; otherwise the count of Cyrillic codepoints is returned with no error and is never negative |
| Scraper.MediumVersionsCompared | internal/scrape/scraper.go:45-61 | the earlier Medium resolver returns the current one's text when there is one, panics on the same short bodies, and returns "" where the current one reports a fetch or decode failure or panics on a `null` document |
| Scraper.WordPressVersionsCompared | internal/scrape/scraper.go:63-80 | with the network answering both request forms alike, the earlier WordPress resolver keeps the current one's text and turns its failures and its `null` panic into "" |
| Scraper.PipelinesCompared | internal/scrape/scraper.go:27-43 | with the Medium label "medium" and a network that answers both WordPress request forms alike, the two pipelines agree on every link the current one counts and on every panic but the `null` one; where the current one returns an error or panics on `null`, the earlier one counts the empty text |
| Model.NullDocumentPadded | internal/scrape/medium.go:38 | `null` with any JSON whitespace before and after it is a null document |
| Model.ObjectIsNotNull | internal/scrape/medium.go:38 | a document that opens an object is not a null document |

## Left out

- Network I/O: colly's collector, its callbacks and `Visit`. The fetch is the `fetch` function of a `Transport`, one response per request. Redirects are followed inside `fetch`; an error status or a transport failure is `TransportError`.
- JSON decoding: `json.Unmarshal` is the `decodeMedium` and `decodeWordPress` functions of a `Transport`, which return no envelope when the bytes do not decode. A partial decode, where fields are filled before a type error, is not modelled.
- Filling the receiver in place (`Unmarshal` into `m` and `w`): the model passes the decoded envelope on as a value.
- Cyrillic.IsCyrillic: a table of the Unicode Cyrillic script ranges. Every general lemma holds for any such predicate; only the end-to-end example `Scrape.MediumArticleCount` uses the table, through "М", "и", "р" being Cyrillic and the characters of "Hello " not. UTF-8 decoding is not modelled: text is a sequence of codepoints, and invalid UTF-8 is not considered.
- The error branch of `regexp.Compile` in both `getCyrillicText` functions: the pattern is a constant that compiles, so the branch cannot be taken. For the same reason, the "get cyrillic error" branch of the current `GetCountSymbols` and the `return 0, err` branch of the earlier one are absent.
- Scrape.GetCountSymbols, Scrape.RawText, Medium.Parse: use the corrected decode-error handling of the two Findings rows (`Medium.ArticleText`, `WordPress.RenderedText`), returning `DecodeFailed`, wrapped with count -1. The code as written counts 0 with no error for an undecodable body; that behaviour is `Medium.ArticleTextAsWritten` and `WordPress.RenderedTextAsWritten`.
- Scrape.Dispatch: its own contract states only the error case. The full case split is stated by `Scrape.DispatchCases`.
- internal/app/bot.go (the Telegram transport, webhook server, goroutines and reply choice), cmd/bot/main.go and the configuration loaders are not part of this model. The configuration is a plain `Config` value.
- A panic is an outcome, not control flow. Recovery from a panic, and the goroutine that carries it, are not modelled.

## Findings

| source | as written | input that shows it | evidently intended | confidence | as-written member | corrected member |
|---|---|---|---|---|---|---|
| internal/scrape/medium.go:37-44 | the decode error is stored by the response callback but tested before `Visit` runs that callback, so it is never returned and the text of the empty response is | a fetch whose body, after 16 bytes, is not JSON (say `"0123456789abcdef{"`) | report the decode error | not executed | Medium.ArticleTextAsWritten, Medium.DecodeErrorLostAsWritten | Medium.ArticleText, Medium.ArticleTextCases |
| internal/scrape/wordpress.go:44-52 | the `stage` flag is set by the response callback but tested before `Visit` runs it, so `ErrUnmarshal` is never returned and "" is | a fetch whose body is not JSON (say `"<html>"`) | return `ErrUnmarshal` | not executed | WordPress.RenderedTextAsWritten, WordPress.DecodeErrorLostAsWritten | WordPress.RenderedText, WordPress.RenderedTextCases |
