/**
 * The script filter behind `getCyrillicText` (internal/scrape/scrape.go and
 * internal/scrape/scraper.go): keep exactly the codepoints of the Cyrillic
 * script, in order. Text is a sequence of codepoints.
 */
module Cyrillic {
  import opened Text

  /**
   * Membership in the Unicode Cyrillic script, by the ranges of Unicode 15.0
   * as Go's `unicode.Cyrillic` table lists them. No lemma below depends on
   * which ranges these are.
   */
  predicate IsCyrillic(c: char) {
    || 'Ѐ' <= c <= '҄'
    || '҇' <= c <= 'ԯ'
    || 'ᲀ' <= c <= 'ᲈ'
    || c == 'ᴫ'
    || c == 'ᵸ'
    || 'ⷠ' <= c <= 'ⷿ'
    || 'Ꙁ' <= c <= 'ꚟ'
    || '︮' <= c <= '︯'
    || '\U{1E030}' <= c <= '\U{1E06D}'
    || c == '\U{1E08F}'
  }

  /** The Cyrillic codepoints of `s`, in order. */
  function CyrillicText(s: string): (r: string)
    ensures |r| <= |s|
    ensures forall i :: 0 <= i < |r| ==> IsCyrillic(r[i])
  {
    if s == [] then []
    else (if IsCyrillic(s[0]) then [s[0]] else []) + CyrillicText(s[1..])
  }

  /**
   * The matches `FindAllString(content, -1)` returns for the pattern
   * `\p{Cyrillic}`: every Cyrillic codepoint as a one-character string, left
   * to right.
   */
  function CyrillicMatches(s: string): (ms: seq<string>)
    ensures forall i :: 0 <= i < |ms| ==> |ms[i]| == 1 && IsCyrillic(ms[i][0])
  {
    if s == [] then []
    else (if IsCyrillic(s[0]) then [[s[0]]] else []) + CyrillicMatches(s[1..])
  }

  /** Joining the regular expression's matches gives the filtered text. */
  lemma {:induction false} MatchesJoinToCyrillicText(s: string)
    ensures Concat(CyrillicMatches(s)) == CyrillicText(s)
  {
    if s != [] {
      var head: seq<string> := if IsCyrillic(s[0]) then [[s[0]]] else [];
      MatchesJoinToCyrillicText(s[1..]);
      ConcatAppend(head, CyrillicMatches(s[1..]));
    }
  }

  /** `getCyrillicText`: concatenate the matches one after the other. */
  method GetCyrillicText(content: string) returns (text: string)
    ensures text == CyrillicText(content)
  {
    var matches := CyrillicMatches(content);
    text := "";
    for i := 0 to |matches|
      invariant text == Concat(matches[..i])
    {
      assert matches[..i + 1] == matches[..i] + [matches[i]];
      ConcatAppend(matches[..i], [matches[i]]);
      text := text + matches[i];
    }
    assert matches[..|matches|] == matches;
    MatchesJoinToCyrillicText(content);
  }

  /** Filtering distributes over concatenation. */
  lemma {:induction false} CyrillicTextAppend(a: string, b: string)
    ensures CyrillicText(a + b) == CyrillicText(a) + CyrillicText(b)
    decreases |a|
  {
    if a == [] {
      assert a + b == b;
    } else {
      assert (a + b)[0] == a[0];
      assert (a + b)[1..] == a[1..] + b;
      CyrillicTextAppend(a[1..], b);
    }
  }

  /** Text made only of Cyrillic codepoints passes through unchanged. */
  lemma {:induction false} CyrillicTextKeepsCyrillic(s: string)
    requires forall i :: 0 <= i < |s| ==> IsCyrillic(s[i])
    ensures CyrillicText(s) == s
  {
    if s != [] {
      assert IsCyrillic(s[0]);
      CyrillicTextKeepsCyrillic(s[1..]);
    }
  }

  /** Filtering twice is filtering once. */
  lemma CyrillicTextIdempotent(s: string)
    ensures CyrillicText(CyrillicText(s)) == CyrillicText(s)
  {
    CyrillicTextKeepsCyrillic(CyrillicText(s));
  }

  /** Text with no Cyrillic codepoint, the empty text among it, filters to "". */
  lemma {:induction false} CyrillicTextOfNone(s: string)
    requires forall i :: 0 <= i < |s| ==> !IsCyrillic(s[i])
    ensures CyrillicText(s) == ""
  {
    if s != [] {
      assert !IsCyrillic(s[0]);
      CyrillicTextOfNone(s[1..]);
    }
  }

  /** The filtered text is the input with characters left out, order kept. */
  lemma {:induction false} CyrillicTextIsSubsequence(s: string)
    ensures IsSubsequence(CyrillicText(s), s)
  {
    if s != [] {
      CyrillicTextIsSubsequence(s[1..]);
      if IsCyrillic(s[0]) {
        assert CyrillicText(s)[1..] == CyrillicText(s[1..]);
      } else {
        assert CyrillicText(s) == CyrillicText(s[1..]);
        assert CyrillicText(s) == [] || CyrillicText(s)[0] != s[0];
      }
    }
  }

  /** Every Cyrillic codepoint is kept as often as it occurs; nothing else is kept. */
  lemma {:induction false} CyrillicTextOccurrences(s: string, c: char)
    ensures multiset(CyrillicText(s))[c] == if IsCyrillic(c) then multiset(s)[c] else 0
  {
    if s != [] {
      var head := if IsCyrillic(s[0]) then [s[0]] else [];
      CyrillicTextOccurrences(s[1..], c);
      assert s == [s[0]] + s[1..];
      assert multiset(CyrillicText(s)) == multiset(head) + multiset(CyrillicText(s[1..]));
      assert multiset(s) == multiset([s[0]]) + multiset(s[1..]);
    }
  }

  /** The positions of `s` holding a Cyrillic codepoint. */
  ghost function CyrillicPositions(s: string): set<nat> {
    set i: nat | i < |s| && IsCyrillic(s[i])
  }

  /** The filtered text has one codepoint per Cyrillic position of the input. */
  lemma {:induction false} CyrillicTextLength(s: string)
    ensures |CyrillicText(s)| == |CyrillicPositions(s)|
    decreases |s|
  {
    if s != [] {
      var init, last := s[..|s| - 1], s[|s| - 1];
      assert s == init + [last];
      CyrillicTextLength(init);
      CyrillicTextAppend(init, [last]);
      assert CyrillicText([last]) == if IsCyrillic(last) then [last] else [];
      if IsCyrillic(last) {
        assert CyrillicPositions(s) == CyrillicPositions(init) + {|init|};
      } else {
        assert CyrillicPositions(s) == CyrillicPositions(init);
      }
    }
  }
}
