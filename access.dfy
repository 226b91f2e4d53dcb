/**
 * The two guards the bot applies to every message before it asks the
 * scraper for a count (internal/app/utils.go): the user allow-list and the
 * cheap check that a message looks like a link to one of the two sites.
 */
module Access {
  import opened Text

  /** `verifyUser`: scan the allow-list and stop at the first entry equal to `user`. */
  method VerifyUser(user: string, accessUsers: seq<string>) returns (state: bool)
    ensures state <==> user in accessUsers
  {
    state := false;
    var i := 0;
    while i < |accessUsers|
      invariant 0 <= i <= |accessUsers|
      invariant !state
      invariant user !in accessUsers[..i]
    {
      if accessUsers[i] == user {
        state := true;
        break;
      }
      assert accessUsers[..i + 1] == accessUsers[..i] + [accessUsers[i]];
      i := i + 1;
    }
    assert !state ==> accessUsers[..i] == accessUsers;
  }

  /**
   * `verifyLink`: the message must split on "://" into exactly two parts, and
   * the text after the separator up to its first "." must equal one of the
   * two configured host labels, compared exactly.
   */
  function VerifyLink(msg: string, medium: string, domain: string): (state: bool)
    ensures state ==> Contains(msg, SchemeSeparator)
  {
    var line := Split(msg, SchemeSeparator);
    SplitOnePiece(msg, SchemeSeparator);
    if |line| == 2 then
      var name := Split(line[1], ".");
      name[0] == medium || name[0] == domain
    else
      false
  }

  /** A message without "://" is rejected. */
  lemma VerifyLinkWithoutSeparator(msg: string, medium: string, domain: string)
    requires !Contains(msg, SchemeSeparator)
    ensures !VerifyLink(msg, medium, domain)
  {
    SplitOnePiece(msg, SchemeSeparator);
  }

  /** A message with two or more "://", one after the other, is rejected. */
  lemma VerifyLinkSeveralSeparators(msg: string, medium: string, domain: string, i: nat, j: nat)
    requires OccursAt(msg, SchemeSeparator, i) && OccursAt(msg, SchemeSeparator, j)
    requires i + |SchemeSeparator| <= j
    ensures !VerifyLink(msg, medium, domain)
  {
    var f := Find(msg, SchemeSeparator).value;
    assert f <= i;
    var rest := msg[f + 3..];
    assert rest[j - f - 3..j - f] == msg[j..j + 3];
    assert OccursAt(rest, SchemeSeparator, j - f - 3);
    SplitTwoPieces(msg, SchemeSeparator, f);
  }

  /**
   * For a message `pre + "://" + host + tail` with a single "://", where
   * `host` holds no "." and `tail` is empty or starts with ".", the verdict
   * is whether `host` is one of the two labels. With no "." after the
   * separator (`tail` empty) the whole remainder is the label.
   */
  lemma VerifyLinkByHostLabel(pre: string, host: string, tail: string, medium: string, domain: string)
    requires !Contains(pre, SchemeSeparator) && !Contains(host + tail, SchemeSeparator)
    requires '.' !in host && (tail == [] || tail[0] == '.')
    ensures VerifyLink(pre + SchemeSeparator + host + tail, medium, domain) <==> host == medium || host == domain
  {
    SchemeSeparatorNoSelfOverlap();
    assert pre + SchemeSeparator + host + tail == pre + SchemeSeparator + (host + tail);
    SplitAfterPrefix(pre, SchemeSeparator, host + tail);
    SplitOnePiece(host + tail, SchemeSeparator);
    SplitBeforeFirst(host, '.', tail);
  }

  /**
   * Whatever follows the first "." of the host does not change the verdict,
   * as long as it brings no second "://".
   */
  lemma VerifyLinkIgnoresPath(pre: string, host: string, rest: string, more: string, medium: string, domain: string)
    requires !Contains(pre, SchemeSeparator) && '.' !in host
    requires !Contains(host + "." + rest, SchemeSeparator)
    requires !Contains(host + "." + rest + more, SchemeSeparator)
    ensures VerifyLink(pre + SchemeSeparator + host + "." + rest + more, medium, domain)
         == VerifyLink(pre + SchemeSeparator + host + "." + rest, medium, domain)
  {
    assert host + "." + rest == host + ("." + rest);
    assert host + "." + rest + more == host + ("." + rest + more);
    assert pre + SchemeSeparator + host + "." + rest == pre + SchemeSeparator + host + ("." + rest);
    assert pre + SchemeSeparator + host + "." + rest + more == pre + SchemeSeparator + host + ("." + rest + more);
    VerifyLinkByHostLabel(pre, host, "." + rest, medium, domain);
    VerifyLinkByHostLabel(pre, host, "." + rest + more, medium, domain);
  }
}
