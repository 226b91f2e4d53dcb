/**
 * The base64 encoding of section 4 of RFC 4648 with its standard alphabet
 * and `=` padding, as Go's `base64.StdEncoding` produces it, and a decoder
 * that inverts it.
 */
module Base64 {
  import opened Text

  /** The character standing for a 6-bit value in the standard alphabet. */
  function Sextet(v: nat): (c: char)
    requires v < 64
    ensures c != '='
  {
    if v < 26 then ('A' as int + v) as char
    else if v < 52 then ('a' as int + (v - 26)) as char
    else if v < 62 then ('0' as int + (v - 52)) as char
    else if v == 62 then '+'
    else '/'
  }

  /** The 6-bit value a character of the standard alphabet stands for. */
  function SextetValue(c: char): (r: Option<nat>)
    ensures r.Some? ==> r.value < 64 && Sextet(r.value) == c
  {
    if 'A' <= c <= 'Z' then Some(c as int - 'A' as int)
    else if 'a' <= c <= 'z' then Some(c as int - 'a' as int + 26)
    else if '0' <= c <= '9' then Some(c as int - '0' as int + 52)
    else if c == '+' then Some(62)
    else if c == '/' then Some(63)
    else None
  }

  lemma SextetRoundTrip(v: nat)
    requires v < 64
    ensures SextetValue(Sextet(v)) == Some(v)
  {
  }

  predicate InAlphabet(c: char) {
    SextetValue(c).Some?
  }

  /** The four characters for one full group of three bytes. */
  function EncodeGroup(b0: byte, b1: byte, b2: byte): string {
    [Sextet(b0 / 4), Sextet(b0 % 4 * 16 + b1 / 16), Sextet(b1 % 16 * 4 + b2 / 64), Sextet(b2 % 64)]
  }

  /**
   * The padded encoding: every three bytes become four characters, and a
   * final group of one or two bytes is completed with `==` or `=`.
   */
  function Encode(b: seq<byte>): string
    decreases |b|
  {
    if |b| >= 3 then EncodeGroup(b[0], b[1], b[2]) + Encode(b[3..])
    else if |b| == 2 then [Sextet(b[0] / 4), Sextet(b[0] % 4 * 16 + b[1] / 16), Sextet(b[1] % 16 * 4), '=']
    else if |b| == 1 then [Sextet(b[0] / 4), Sextet(b[0] % 4 * 16), '=', '=']
    else []
  }

  /**
   * The encoding of n bytes has 4 * ceil(n / 3) characters, all from the
   * alphabet except for at most two `=` at the very end.
   */
  lemma {:induction false} EncodeShape(b: seq<byte>)
    ensures |Encode(b)| == 4 * ((|b| + 2) / 3)
    ensures forall i :: 0 <= i < |Encode(b)| ==>
      InAlphabet(Encode(b)[i]) || (Encode(b)[i] == '=' && i >= |Encode(b)| - 2)
    decreases |b|
  {
    var s := Encode(b);
    if |b| >= 3 {
      var g, rest := EncodeGroup(b[0], b[1], b[2]), Encode(b[3..]);
      SextetRoundTrip(b[0] / 4);
      SextetRoundTrip(b[0] % 4 * 16 + b[1] / 16);
      SextetRoundTrip(b[1] % 16 * 4 + b[2] / 64);
      SextetRoundTrip(b[2] % 64);
      EncodeShape(b[3..]);
      assert s == g + rest;
      forall i | 0 <= i < |s| ensures InAlphabet(s[i]) || (s[i] == '=' && i >= |s| - 2) {
        if i >= 4 { assert s[i] == rest[i - 4]; }
      }
    } else if |b| == 2 {
      SextetRoundTrip(b[0] / 4);
      SextetRoundTrip(b[0] % 4 * 16 + b[1] / 16);
      SextetRoundTrip(b[1] % 16 * 4);
    } else if |b| == 1 {
      SextetRoundTrip(b[0] / 4);
      SextetRoundTrip(b[0] % 4 * 16);
    }
  }

  /**
   * The bits of the last group's final sextet that carry no byte are zero,
   * as section 3.5 of RFC 4648 asks of an encoder: the low four bits before
   * `==`, the low two bits before `=`.
   */
  predicate PadBitsZero(q: string)
    requires |q| == 4
  {
    if q[2] == '=' && q[3] == '=' then SextetValue(q[1]).Some? && SextetValue(q[1]).value % 16 == 0
    else if q[3] == '=' then SextetValue(q[2]).Some? && SextetValue(q[2]).value % 4 == 0
    else true
  }

  /** The final group of `s`, if any, has its unused bits set to zero. */
  predicate ZeroPadBits(s: string) {
    |s| < 4 || PadBitsZero(s[|s| - 4..])
  }

  /** The encoder sets the unused bits of a padded final group to zero. */
  lemma {:induction false} EncodeZeroPadBits(b: seq<byte>)
    ensures ZeroPadBits(Encode(b))
    decreases |b|
  {
    var s := Encode(b);
    if |b| >= 3 {
      var g, rest := EncodeGroup(b[0], b[1], b[2]), Encode(b[3..]);
      assert s == g + rest;
      EncodeShape(b[3..]);
      if |b| == 3 {
        assert s == g;
      } else {
        EncodeZeroPadBits(b[3..]);
        assert s[|s| - 4..] == rest[|rest| - 4..];
      }
    } else if |b| == 2 {
      SextetRoundTrip(b[1] % 16 * 4);
    } else if |b| == 1 {
      SextetRoundTrip(b[0] % 4 * 16);
    }
  }

  /**
   * The bytes one group of four characters stands for; `last` tells whether
   * it is the final group, the only one that may carry padding.
   */
  function DecodeGroup(q: string, last: bool): Option<seq<byte>>
    requires |q| == 4
  {
    match (SextetValue(q[0]), SextetValue(q[1]), SextetValue(q[2]), SextetValue(q[3]))
    case (Some(v0), Some(v1), Some(v2), Some(v3)) =>
      Some([v0 * 4 + v1 / 16, v1 % 16 * 16 + v2 / 4, v2 % 4 * 64 + v3])
    case (Some(v0), Some(v1), Some(v2), None) =>
      if last && q[3] == '=' then Some([v0 * 4 + v1 / 16, v1 % 16 * 16 + v2 / 4]) else None
    case (Some(v0), Some(v1), None, None) =>
      if last && q[2] == '=' && q[3] == '=' then Some([v0 * 4 + v1 / 16]) else None
    case _ => None
  }

  /** Decoding of padded base64 text; `None` when the text is not well formed. */
  function Decode(s: string): (r: Option<seq<byte>>)
    ensures r.Some? ==> |s| % 4 == 0
    decreases |s|
  {
    if s == [] then Some([])
    else if |s| < 4 then None
    else
      match DecodeGroup(s[..4], |s| == 4)
      case None => None
      case Some(head) =>
        match Decode(s[4..])
        case None => None
        case Some(tail) => Some(head + tail)
  }

  /** Putting a value back together from its quotient and remainder by a power of two. */
  lemma Recombine(hi: nat, lo: nat, d: nat)
    requires d == 4 || d == 16 || d == 64
    requires lo < d
    ensures (hi * d + lo) / d == hi && (hi * d + lo) % d == lo
  {
  }

  /** The arithmetic behind one group: the three bytes come back from their four sextets. */
  lemma GroupArithmetic(b0: byte, b1: byte, b2: byte)
    ensures var v0, v1, v2, v3 := b0 / 4, b0 % 4 * 16 + b1 / 16, b1 % 16 * 4 + b2 / 64, b2 % 64;
      v0 * 4 + v1 / 16 == b0 && v1 % 16 * 16 + v2 / 4 == b1 && v2 % 4 * 64 + v3 == b2
  {
    Recombine(b0 % 4, b1 / 16, 16);
    Recombine(b1 % 16, b2 / 64, 4);
  }

  lemma GroupRoundTrip(b0: byte, b1: byte, b2: byte, last: bool)
    ensures DecodeGroup(EncodeGroup(b0, b1, b2), last) == Some([b0, b1, b2])
  {
    var v0, v1, v2, v3 := b0 / 4, b0 % 4 * 16 + b1 / 16, b1 % 16 * 4 + b2 / 64, b2 % 64;
    SextetRoundTrip(v0);
    SextetRoundTrip(v1);
    SextetRoundTrip(v2);
    SextetRoundTrip(v3);
    GroupArithmetic(b0, b1, b2);
  }

  lemma PairRoundTrip(b0: byte, b1: byte)
    ensures DecodeGroup([Sextet(b0 / 4), Sextet(b0 % 4 * 16 + b1 / 16), Sextet(b1 % 16 * 4), '='], true)
         == Some([b0, b1])
  {
    var v0, v1, v2 := b0 / 4, b0 % 4 * 16 + b1 / 16, b1 % 16 * 4;
    SextetRoundTrip(v0);
    SextetRoundTrip(v1);
    SextetRoundTrip(v2);
    Recombine(b0 % 4, b1 / 16, 16);
    Recombine(b1 % 16, 0, 4);
  }

  lemma SingleRoundTrip(b0: byte)
    ensures DecodeGroup([Sextet(b0 / 4), Sextet(b0 % 4 * 16), '=', '='], true) == Some([b0])
  {
    SextetRoundTrip(b0 / 4);
    SextetRoundTrip(b0 % 4 * 16);
    Recombine(b0 % 4, 0, 16);
  }

  /** Decoding one leading group and then the rest. */
  lemma DecodeStep(s: string, head: seq<byte>, tail: seq<byte>)
    requires |s| >= 4
    requires DecodeGroup(s[..4], |s| == 4) == Some(head)
    requires Decode(s[4..]) == Some(tail)
    ensures Decode(s) == Some(head + tail)
  {
  }

  /** Decoding undoes encoding: the round trip of section 4 of RFC 4648. */
  lemma {:induction false} DecodeEncode(b: seq<byte>)
    ensures Decode(Encode(b)) == Some(b)
    decreases |b|
  {
    if |b| >= 3 {
      var s, rest := Encode(b), Encode(b[3..]);
      assert s[..4] == EncodeGroup(b[0], b[1], b[2]) && s[4..] == rest;
      GroupRoundTrip(b[0], b[1], b[2], |s| == 4);
      DecodeEncode(b[3..]);
      DecodeStep(s, [b[0], b[1], b[2]], b[3..]);
      assert [b[0], b[1], b[2]] + b[3..] == b;
    } else if |b| == 2 {
      var s := Encode(b);
      PairRoundTrip(b[0], b[1]);
      assert s[..4] == s && s[4..] == [];
      DecodeStep(s, [b[0], b[1]], []);
      assert [b[0], b[1]] + [] == b;
    } else if |b| == 1 {
      var s := Encode(b);
      SingleRoundTrip(b[0]);
      assert s[..4] == s && s[4..] == [];
      DecodeStep(s, [b[0]], []);
      assert [b[0]] + [] == b;
    }
  }

  /** The arithmetic behind decoding one group: the four sextets come back from their three bytes. */
  lemma SextetArithmetic(v0: nat, v1: nat, v2: nat, v3: nat)
    requires v0 < 64 && v1 < 64 && v2 < 64 && v3 < 64
    ensures var b0, b1, b2 := v0 * 4 + v1 / 16, v1 % 16 * 16 + v2 / 4, v2 % 4 * 64 + v3;
      b0 / 4 == v0 && b0 % 4 * 16 + b1 / 16 == v1 && b1 % 16 * 4 + b2 / 64 == v2 && b2 % 64 == v3
  {
    Recombine(v0, v1 / 16, 4);
    Recombine(v1 % 16, v2 / 4, 16);
    Recombine(v2 % 4, v3, 64);
  }

  /** A group decoded as three bytes is their encoding. */
  lemma FullGroupCanonical(q: string, last: bool, head: seq<byte>)
    requires |q| == 4 && q[3] != '='
    requires DecodeGroup(q, last) == Some(head)
    ensures |head| == 3 && q == EncodeGroup(head[0], head[1], head[2])
  {
    var v0, v1, v2, v3 := SextetValue(q[0]).value, SextetValue(q[1]).value, SextetValue(q[2]).value, SextetValue(q[3]).value;
    SextetArithmetic(v0, v1, v2, v3);
  }

  /** A padded final group with zero pad bits is the encoding of the bytes it decodes to. */
  lemma PaddedGroupCanonical(q: string, head: seq<byte>)
    requires |q| == 4 && q[3] == '=' && PadBitsZero(q)
    requires DecodeGroup(q, true) == Some(head)
    ensures q == Encode(head)
  {
    var v0, v1 := SextetValue(q[0]).value, SextetValue(q[1]).value;
    if q[2] == '=' {
      Recombine(v0, v1 / 16, 4);
      assert head == [v0 * 4 + v1 / 16];
    } else {
      var v2 := SextetValue(q[2]).value;
      Recombine(v0, v1 / 16, 4);
      Recombine(v1 % 16, v2 / 4, 16);
      assert head == [v0 * 4 + v1 / 16, v1 % 16 * 16 + v2 / 4];
    }
  }

  /**
   * The converse of the round trip: text that decodes to `b` and has zero
   * pad bits is the encoding of `b`. With `DecodeEncode` and
   * `EncodeZeroPadBits`, this pins down the one text the encoder produces.
   */
  lemma {:induction false} EncodeCanonical(s: string, b: seq<byte>)
    requires Decode(s) == Some(b) && ZeroPadBits(s)
    ensures s == Encode(b)
    decreases |s|
  {
    if s != [] {
      var head := DecodeGroup(s[..4], |s| == 4).value;
      var tail := Decode(s[4..]).value;
      assert b == head + tail;
      if |s| == 4 {
        assert s[..4] == s && s[|s| - 4..] == s;
        if s[3] == '=' {
          PaddedGroupCanonical(s, head);
        } else {
          FullGroupCanonical(s, true, head);
          assert Encode(head) == EncodeGroup(head[0], head[1], head[2]) + Encode([]);
        }
      } else {
        assert s[4..][|s[4..]| - 4..] == s[|s| - 4..];
        EncodeCanonical(s[4..], tail);
        assert SextetValue(s[..4][3]).Some?;
        FullGroupCanonical(s[..4], false, head);
        assert b[3..] == tail;
        assert s == s[..4] + s[4..];
      }
    }
  }

  /** Different byte strings never share an encoding. */
  lemma EncodeInjective(a: seq<byte>, b: seq<byte>)
    requires Encode(a) == Encode(b)
    ensures a == b
  {
    DecodeEncode(a);
    DecodeEncode(b);
  }
}
