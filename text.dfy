/**
 * Sequence and string helpers shared by the model: Go's `strings.Split`
 * for a non-empty separator, the search for the first occurrence it is
 * built on, concatenation of pieces, and the subsequence relation.
 */
module Text {

  /** One byte of a Go `[]byte` or of a Go string viewed as bytes. */
  type byte = x: int | 0 <= x < 256

  datatype Option<+T> = None | Some(value: T)

  /** `sep` occurs in `s` starting at index `i`. */
  predicate OccursAt<T(==)>(s: seq<T>, sep: seq<T>, i: nat) {
    i + |sep| <= |s| && s[i..i + |sep|] == sep
  }

  ghost predicate Contains<T>(s: seq<T>, sep: seq<T>) {
    exists i: nat :: OccursAt(s, sep, i)
  }

  /** No proper suffix of `sep` is also a prefix of it, so two occurrences never overlap. */
  ghost predicate NoSelfOverlap<T>(sep: seq<T>) {
    forall k :: 0 < k < |sep| ==> sep[k..] != sep[..|sep| - k]
  }

  /** The index of the leftmost occurrence of `sep` in `s`, if there is one. */
  function Find<T(==)>(s: seq<T>, sep: seq<T>): (r: Option<nat>)
    requires sep != []
    ensures r.Some? ==> OccursAt(s, sep, r.value)
    ensures r.Some? ==> forall j: nat :: j < r.value ==> !OccursAt(s, sep, j)
    ensures r.None? <==> !Contains(s, sep)
    decreases |s|
  {
    if |s| < |sep| then None
    else if s[..|sep|] == sep then Some(0)
    else
      var rest := Find(s[1..], sep);
      assert forall j: nat :: OccursAt(s, sep, j + 1) <==> OccursAt(s[1..], sep, j) by {
        forall j: nat ensures OccursAt(s, sep, j + 1) <==> OccursAt(s[1..], sep, j) {
          if j + 1 + |sep| <= |s| {
            assert s[1..][j..j + |sep|] == s[j + 1..j + 1 + |sep|];
          }
        }
      }
      assert forall j: nat :: OccursAt(s, sep, j) ==> j > 0;
      match rest
      case None =>
        assert !Contains(s, sep) by {
          forall j: nat ensures !OccursAt(s, sep, j) {
            if j > 0 { assert !OccursAt(s[1..], sep, j - 1); }
          }
        }
        None
      case Some(k) =>
        assert forall j: nat :: j < k + 1 ==> !OccursAt(s, sep, j) by {
          forall j: nat | j < k + 1 ensures !OccursAt(s, sep, j) {
            if j > 0 { assert !OccursAt(s[1..], sep, j - 1); }
          }
        }
        Some(k + 1)
  }

  /** The pieces joined back together with `sep` between them (Go's `strings.Join`). */
  function Join<T>(parts: seq<seq<T>>, sep: seq<T>): seq<T> {
    if |parts| == 0 then []
    else if |parts| == 1 then parts[0]
    else parts[0] + sep + Join(parts[1..], sep)
  }

  /**
   * Go's `strings.Split(s, sep)` for a non-empty separator: the text between
   * successive occurrences of `sep`, found left to right without overlap.
   */
  function Split<T(==)>(s: seq<T>, sep: seq<T>): (parts: seq<seq<T>>)
    requires sep != []
    ensures |parts| >= 1
    ensures Join(parts, sep) == s
    ensures forall k :: 0 <= k < |parts| ==> !Contains(parts[k], sep)
    decreases |s|
  {
    match Find(s, sep)
    case None => [s]
    case Some(i) =>
      var rest := Split(s[i + |sep|..], sep);
      assert !Contains(s[..i], sep) by {
        forall j: nat ensures !OccursAt(s[..i], sep, j) {
          if OccursAt(s[..i], sep, j) {
            assert s[..i][j..j + |sep|] == s[j..j + |sep|];
            assert OccursAt(s, sep, j);
          }
        }
      }
      assert s == s[..i] + sep + s[i + |sep|..];
      [s[..i]] + rest
  }

  /** The number of pieces is one more than the number of separators found. */
  lemma {:induction false} SplitOnePiece<T>(s: seq<T>, sep: seq<T>)
    requires sep != []
    ensures |Split(s, sep)| == 1 <==> !Contains(s, sep)
    ensures !Contains(s, sep) ==> Split(s, sep) == [s]
  {
  }

  /** The first piece is everything before the leftmost separator. */
  lemma SplitHead<T>(s: seq<T>, sep: seq<T>, i: nat)
    requires sep != [] && Find(s, sep) == Some(i)
    ensures Split(s, sep)[0] == s[..i]
  {
  }

  /** Split(s, sep) has exactly two pieces iff `sep` occurs once, counting left to right. */
  lemma {:induction false} SplitTwoPieces<T>(s: seq<T>, sep: seq<T>, i: nat)
    requires sep != [] && Find(s, sep) == Some(i)
    ensures |Split(s, sep)| == 2 <==> !Contains(s[i + |sep|..], sep)
    ensures |Split(s, sep)| >= 2 && Split(s, sep)[1] == Split(s[i + |sep|..], sep)[0]
  {
    SplitOnePiece(s[i + |sep|..], sep);
  }

  /** A one-element pattern occurs exactly where that element does. */
  lemma ContainsSingle<T>(s: seq<T>, x: T)
    ensures Contains(s, [x]) <==> x in s
  {
    if x in s {
      var i :| 0 <= i < |s| && s[i] == x;
      assert s[i..i + 1] == [x];
      assert OccursAt(s, [x], i);
    } else {
      forall i: nat ensures !OccursAt(s, [x], i) {
        if i + 1 <= |s| { assert s[i..i + 1] == [s[i]]; }
      }
    }
  }

  /**
   * Splitting `pre + sep + rest` where `pre` holds no separator: the first
   * piece is `pre`, the second is the first piece of `rest`, and there are
   * exactly two pieces iff `rest` holds no separator.
   */
  lemma SplitAfterPrefix<T>(pre: seq<T>, sep: seq<T>, rest: seq<T>)
    requires sep != [] && NoSelfOverlap(sep) && !Contains(pre, sep)
    ensures |Split(pre + sep + rest, sep)| >= 2
    ensures Split(pre + sep + rest, sep)[0] == pre
    ensures Split(pre + sep + rest, sep)[1] == Split(rest, sep)[0]
    ensures |Split(pre + sep + rest, sep)| == 2 <==> !Contains(rest, sep)
  {
    var s := pre + sep + rest;
    FindAfterPrefix(pre, sep, rest);
    assert s[..|pre|] == pre;
    assert s[|pre| + |sep|..] == rest;
    SplitHead(s, sep, |pre|);
    SplitTwoPieces(s, sep, |pre|);
  }

  /**
   * The first piece of `word + tail` split on `x`, when `word` holds no `x`
   * and `tail` is empty or starts with `x`, is `word`.
   */
  lemma SplitBeforeFirst<T>(word: seq<T>, x: T, tail: seq<T>)
    requires x !in word && (tail == [] || tail[0] == x)
    ensures Split(word + tail, [x])[0] == word
  {
    if tail == [] {
      assert word + tail == word;
      ContainsSingle(word, x);
      SplitOnePiece(word, [x]);
    } else {
      assert word + tail == word + [x] + tail[1..];
      FindSingle(word, x, tail[1..]);
      SplitHead(word + tail, [x], |word|);
      assert (word + tail)[..|word|] == word;
    }
  }

  /**
   * When `pre` holds no occurrence of a separator that cannot overlap itself,
   * the leftmost occurrence in `pre + sep + rest` is the one right after `pre`.
   */
  lemma {:induction false} FindAfterPrefix<T>(pre: seq<T>, sep: seq<T>, rest: seq<T>)
    requires sep != [] && NoSelfOverlap(sep) && !Contains(pre, sep)
    ensures Find(pre + sep + rest, sep) == Some(|pre|)
  {
    var s := pre + sep + rest;
    assert s[|pre|..|pre| + |sep|] == sep;
    assert OccursAt(s, sep, |pre|);
    forall j: nat | j < |pre| ensures !OccursAt(s, sep, j) {
      if j + |sep| <= |pre| {
        assert s[j..j + |sep|] == pre[j..j + |sep|];
        assert !OccursAt(pre, sep, j);
      } else {
        var k := |pre| - j;
        assert s[j..j + |sep|][k..] == s[|pre|..j + |sep|] == sep[..|sep| - k];
        assert sep[k..] != sep[..|sep| - k];
      }
    }
  }

  /** A one-element separator is found at the first position holding it. */
  lemma {:induction false} FindSingle<T>(pre: seq<T>, x: T, rest: seq<T>)
    requires x !in pre
    ensures Find(pre + [x] + rest, [x]) == Some(|pre|)
  {
    var s := pre + [x] + rest;
    assert OccursAt(s, [x], |pre|);
    forall j: nat | j < |pre| ensures !OccursAt(s, [x], j) {
      assert s[j] == pre[j] != x;
    }
  }

  /** The separator between a URL's scheme and the rest of it. */
  const SchemeSeparator: string := "://"

  lemma SchemeSeparatorNoSelfOverlap()
    ensures NoSelfOverlap(SchemeSeparator)
  {
    assert SchemeSeparator[1..] == "//" != ":/" == SchemeSeparator[..2];
    assert SchemeSeparator[2..] == "/" != ":" == SchemeSeparator[..1];
  }

  /** The concatenation of all pieces, in order. */
  function Concat<T>(parts: seq<seq<T>>): seq<T> {
    if parts == [] then [] else parts[0] + Concat(parts[1..])
  }

  lemma {:induction false} ConcatAppend<T>(xs: seq<seq<T>>, ys: seq<seq<T>>)
    ensures Concat(xs + ys) == Concat(xs) + Concat(ys)
    decreases |xs|
  {
    if xs == [] {
      assert xs + ys == ys;
    } else {
      assert (xs + ys)[0] == xs[0];
      assert (xs + ys)[1..] == xs[1..] + ys;
      ConcatAppend(xs[1..], ys);
    }
  }

  /** `a` is `b` with some elements left out, the rest kept in their order. */
  ghost predicate IsSubsequence<T>(a: seq<T>, b: seq<T>)
    decreases |b|
  {
    if a == [] then true
    else if b == [] then false
    else if a[0] == b[0] then IsSubsequence(a[1..], b[1..])
    else IsSubsequence(a, b[1..])
  }
}
