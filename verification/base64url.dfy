/** Base64 with the URL- and filename-safe alphabet of section 5 of RFC 4648,
    with `=` padding kept, as produced by Python's `base64.urlsafe_b64encode`.
    The decoder is strict: it accepts exactly the strings the encoder can
    produce, so that encoding and decoding are mutually inverse. */
module Base64Url {
  import opened Common

  /** A six-bit group, the unit a base64 character stands for. */
  type sextet = i: int | 0 <= i < 64

  /** The padding character `=`. */
  const Pad: byte := Equals

  /** Characters of the alphabet: `A-Z`, `a-z`, `0-9`, `-` and `_`. */
  predicate IsAlphabet(c: byte) {
    (65 <= c <= 90) || (97 <= c <= 122) || (48 <= c <= 57) || c == 45 || c == 95
  }

  /** The character standing for the six-bit value `i` (table 2 of RFC 4648,
      with `-` and `_` in place of `+` and `/`). */
  function Char(i: sextet): (c: byte)
    ensures IsAlphabet(c)
  {
    if i < 26 then 65 + i          // 'A' .. 'Z'
    else if i < 52 then 71 + i     // 'a' .. 'z'
    else if i < 62 then i - 4      // '0' .. '9'
    else if i == 62 then 45        // '-'
    else 95                        // '_'
  }

  /** The six-bit value a character stands for, if it is in the alphabet. */
  function Value(c: byte): (r: Option<sextet>)
    ensures r.Some? <==> IsAlphabet(c)
    ensures r.Some? ==> Char(r.value) == c
  {
    if 65 <= c <= 90 then Some(c - 65)
    else if 97 <= c <= 122 then Some(c - 71)
    else if 48 <= c <= 57 then Some(c + 4)
    else if c == 45 then Some(62)
    else if c == 95 then Some(63)
    else None
  }

  lemma ValueOfChar(i: sextet)
    ensures Value(Char(i)) == Some(i)
  {
  }

  /** Three bytes become four characters: 24 bits cut into four sextets. */
  function EncodeBlock(b0: byte, b1: byte, b2: byte): seq<byte> {
    [Char(b0 / 4), Char((b0 % 4) * 16 + b1 / 16), Char((b1 % 16) * 4 + b2 / 64), Char(b2 % 64)]
  }

  /** The final one or two bytes, zero-filled to a whole sextet and padded. */
  function EncodeTail(s: seq<byte>): seq<byte>
    requires |s| < 3
  {
    if |s| == 0 then []
    else if |s| == 1 then [Char(s[0] / 4), Char((s[0] % 4) * 16), Pad, Pad]
    else [Char(s[0] / 4), Char((s[0] % 4) * 16 + s[1] / 16), Char((s[1] % 16) * 4), Pad]
  }

  /** `base64.urlsafe_b64encode`: the payload of every link. */
  function Encode(s: seq<byte>): (t: seq<byte>)
    ensures |t| == 4 * ((|s| + 2) / 3)
    ensures forall i :: 0 <= i < |t| ==> IsAlphabet(t[i]) || t[i] == Pad
    ensures forall i :: 0 <= i < |t| - 2 ==> IsAlphabet(t[i])
    decreases |s|
  {
    if |s| < 3 then EncodeTail(s)
    else EncodeBlock(s[0], s[1], s[2]) + Encode(s[3..])
  }

  /** Four alphabet characters become three bytes. */
  function DecodeBlock(c0: byte, c1: byte, c2: byte, c3: byte): Option<seq<byte>> {
    match (Value(c0), Value(c1), Value(c2), Value(c3))
    case (Some(x0), Some(x1), Some(x2), Some(x3)) =>
      var n0, n1, n2, n3 := x0 as int, x1 as int, x2 as int, x3 as int;
      Some([n0 * 4 + n1 / 16, (n1 % 16) * 16 + n2 / 4, (n2 % 4) * 64 + n3])
    case _ => None
  }

  /** The last group of four, which may carry one or two padding characters.
      The bits a padded group leaves unused must be zero, as the encoder
      writes them. */
  function DecodeFinal(c0: byte, c1: byte, c2: byte, c3: byte): Option<seq<byte>> {
    if c2 == Pad && c3 == Pad then
      match (Value(c0), Value(c1))
      case (Some(x0), Some(x1)) =>
        var n0, n1 := x0 as int, x1 as int;
        if n1 % 16 == 0 then Some([n0 * 4 + n1 / 16]) else None
      case _ => None
    else if c3 == Pad then
      match (Value(c0), Value(c1), Value(c2))
      case (Some(x0), Some(x1), Some(x2)) =>
        var n0, n1, n2 := x0 as int, x1 as int, x2 as int;
        if n2 % 4 == 0 then Some([n0 * 4 + n1 / 16, (n1 % 16) * 16 + n2 / 4]) else None
      case _ => None
    else DecodeBlock(c0, c1, c2, c3)
  }

  /** Strict decoder: the length must be a multiple of four, padding may only
      end the last group, and every other character must be in the alphabet. */
  function Decode(t: seq<byte>): (r: Option<seq<byte>>)
    decreases |t|
  {
    if |t| == 0 then Some([])
    else if |t| < 4 then None
    else if |t| == 4 then DecodeFinal(t[0], t[1], t[2], t[3])
    else match (DecodeBlock(t[0], t[1], t[2], t[3]), Decode(t[4..]))
      case (Some(head), Some(rest)) => Some(head + rest)
      case _ => None
  }

  lemma BlockRoundTrip(b0: byte, b1: byte, b2: byte)
    ensures var t := EncodeBlock(b0, b1, b2); DecodeBlock(t[0], t[1], t[2], t[3]) == Some([b0, b1, b2])
  {
    var x0, x1, x2, x3 := b0 / 4, (b0 % 4) * 16 + b1 / 16, (b1 % 16) * 4 + b2 / 64, b2 % 64;
    ValueOfChar(x0);
    ValueOfChar(x1);
    ValueOfChar(x2);
    ValueOfChar(x3);
    assert x1 / 16 == b0 % 4 && x1 % 16 == b1 / 16;
    assert x2 / 4 == b1 % 16 && x2 % 4 == b2 / 64;
  }

  lemma BlockCanonical(c0: byte, c1: byte, c2: byte, c3: byte)
    requires DecodeBlock(c0, c1, c2, c3).Some?
    ensures var b := DecodeBlock(c0, c1, c2, c3).value; EncodeBlock(b[0], b[1], b[2]) == [c0, c1, c2, c3]
  {
    var x0, x1, x2, x3: int := Value(c0).value, Value(c1).value, Value(c2).value, Value(c3).value;
    var b0, b1, b2 := x0 * 4 + x1 / 16, (x1 % 16) * 16 + x2 / 4, (x2 % 4) * 64 + x3;
    assert DecodeBlock(c0, c1, c2, c3).value == [b0, b1, b2];
    Recombine(x0, x1 / 16, 4);
    Recombine(x1 % 16, x2 / 4, 16);
    Recombine(x2 % 4, x3, 64);
    assert (b0 % 4) * 16 + b1 / 16 == x1;
    assert (b1 % 16) * 4 + b2 / 64 == x2;
    assert EncodeBlock(b0, b1, b2) == [Char(x0), Char(x1), Char(x2), Char(x3)];
  }

  /** A byte built as `hi * k + lo` with `lo < k` splits back into `hi` and `lo`. */
  lemma Recombine(hi: int, lo: int, k: int)
    requires k == 4 || k == 16 || k == 64
    requires 0 <= lo < k
    ensures (hi * k + lo) / k == hi && (hi * k + lo) % k == lo
  {
  }

  lemma TailRoundTrip(s: seq<byte>)
    requires 0 < |s| < 3
    ensures var t := EncodeTail(s); DecodeFinal(t[0], t[1], t[2], t[3]) == Some(s)
  {
    var x0 := s[0] / 4;
    ValueOfChar(x0);
    if |s| == 1 {
      var x1 := (s[0] % 4) * 16;
      ValueOfChar(x1);
      assert x1 / 16 == s[0] % 4;
      assert [x0 * 4 + x1 / 16] == s;
    } else {
      var x1, x2 := (s[0] % 4) * 16 + s[1] / 16, (s[1] % 16) * 4;
      ValueOfChar(x1);
      ValueOfChar(x2);
      assert x1 / 16 == s[0] % 4 && x1 % 16 == s[1] / 16;
      assert [x0 * 4 + x1 / 16, (x1 % 16) * 16 + x2 / 4] == s;
    }
  }

  lemma FinalCanonical(c0: byte, c1: byte, c2: byte, c3: byte)
    requires DecodeFinal(c0, c1, c2, c3).Some?
    ensures Encode(DecodeFinal(c0, c1, c2, c3).value) == [c0, c1, c2, c3]
  {
    var b := DecodeFinal(c0, c1, c2, c3).value;
    if c2 == Pad && c3 == Pad {
      var x0, x1: int := Value(c0).value, Value(c1).value;
      assert b[0] / 4 == x0 && (b[0] % 4) * 16 == x1;
    } else if c3 == Pad {
      var x0, x1, x2: int := Value(c0).value, Value(c1).value, Value(c2).value;
      assert b[0] / 4 == x0 && (b[0] % 4) * 16 + b[1] / 16 == x1;
      assert (b[1] % 16) * 4 == x2;
    } else {
      BlockCanonical(c0, c1, c2, c3);
      assert Encode(b) == EncodeBlock(b[0], b[1], b[2]) + Encode([]);
    }
  }

  /** Decoding an encoding gives back the original bytes. */
  lemma {:induction false} DecodeEncode(s: seq<byte>)
    ensures Decode(Encode(s)) == Some(s)
    decreases |s|
  {
    var t := Encode(s);
    if |s| == 0 {
    } else if |s| < 3 {
      TailRoundTrip(s);
    } else {
      BlockRoundTrip(s[0], s[1], s[2]);
      assert t[..4] == EncodeBlock(s[0], s[1], s[2]);
      assert t[4..] == Encode(s[3..]);
      if |s| == 3 {
        assert s[3..] == [];
        assert s == [s[0], s[1], s[2]];
      } else {
        DecodeEncode(s[3..]);
        assert s == [s[0], s[1], s[2]] + s[3..];
      }
    }
  }

  /** Only encodings decode: a string that decodes is the encoding of what
      it decodes to. */
  lemma {:induction false} EncodeDecode(t: seq<byte>)
    requires Decode(t).Some?
    ensures Encode(Decode(t).value) == t
    decreases |t|
  {
    if |t| == 4 {
      FinalCanonical(t[0], t[1], t[2], t[3]);
      assert t == [t[0], t[1], t[2], t[3]];
    } else if |t| > 4 {
      var head := DecodeBlock(t[0], t[1], t[2], t[3]).value;
      var rest := Decode(t[4..]).value;
      BlockCanonical(t[0], t[1], t[2], t[3]);
      EncodeDecode(t[4..]);
      var s := head + rest;
      assert s[3..] == rest;
      assert t == [t[0], t[1], t[2], t[3]] + t[4..];
    }
  }

  /** Encoding and decoding are inverse: `t` decodes to `s` exactly when `t`
      is the encoding of `s`. */
  lemma DecodeIffEncode(t: seq<byte>, s: seq<byte>)
    ensures Decode(t) == Some(s) <==> t == Encode(s)
  {
    if Decode(t) == Some(s) {
      EncodeDecode(t);
    }
    if t == Encode(s) {
      DecodeEncode(s);
    }
  }

  /** A byte outside the alphabet and other than `=` never occurs in an
      encoding; the link formats rely on this to use `:`, `/` and `&` as
      separators around encoded fields. */
  lemma NotInEncoding(c: byte, s: seq<byte>)
    requires !IsAlphabet(c) && c != Pad
    ensures c !in Encode(s)
  {
  }
}
