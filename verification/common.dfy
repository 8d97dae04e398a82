/** Shared vocabulary of the model: bytes, the Option and Result wrappers, the
    ASCII punctuation the link formats use, and splitting a byte string at a
    separator. Python `str` values are taken as their UTF-8 byte strings. */
module Common {

  /** One octet of a UTF-8 encoded string. */
  type byte = b: int | 0 <= b < 256

  /** A value that may be missing; also used for parsers that may fail. */
  datatype Option<+T> = None | Some(value: T) {
    predicate IsFailure() {
      None?
    }

    function PropagateFailure<U>(): Option<U>
      requires None?
    {
      None
    }

    function Extract(): T
      requires Some?
    {
      value
    }
  }

  /** Outcome of an operation that may raise an error. */
  datatype Result<+T, +E> = Ok(value: T) | Err(error: E)

  // ASCII codes of the punctuation used by the link and subscription formats
  const Newline: byte := 10
  const Ampersand: byte := 38
  const Minus: byte := 45
  const Slash: byte := 47
  const Colon: byte := 58
  const Equals: byte := 61
  const At: byte := 64

  /** Position of the first occurrence of `c` in `s`, if any. */
  function IndexOf(s: seq<byte>, c: byte): (r: Option<nat>)
    ensures r.None? <==> c !in s
    ensures r.Some? ==> r.value < |s| && s[r.value] == c && c !in s[..r.value]
  {
    if |s| == 0 then None
    else if s[0] == c then Some(0)
    else match IndexOf(s[1..], c)
      case None => None
      case Some(i) =>
        assert s[1..][..i] == s[1..i + 1];
        Some(i + 1)
  }

  /** Position of the last occurrence of `c` in `s`, if any. */
  function LastIndexOf(s: seq<byte>, c: byte): (r: Option<nat>)
    ensures r.None? <==> c !in s
    ensures r.Some? ==> r.value < |s| && s[r.value] == c && c !in s[r.value + 1..]
  {
    if |s| == 0 then None
    else if s[|s| - 1] == c then Some(|s| - 1)
    else
      var r := LastIndexOf(s[..|s| - 1], c);
      assert s == s[..|s| - 1] + [s[|s| - 1]];
      r
  }

  /** Splits `s` around the first occurrence of `c`. */
  function SplitFirst(s: seq<byte>, c: byte): (r: Option<(seq<byte>, seq<byte>)>)
    ensures r.None? <==> c !in s
    ensures r.Some? ==> s == r.value.0 + [c] + r.value.1 && c !in r.value.0
  {
    match IndexOf(s, c)
    case None => None
    case Some(i) =>
      assert s == s[..i] + [c] + s[i + 1..];
      Some((s[..i], s[i + 1..]))
  }

  /** Splits `s` around the last occurrence of `c`. */
  function SplitLast(s: seq<byte>, c: byte): (r: Option<(seq<byte>, seq<byte>)>)
    ensures r.None? <==> c !in s
    ensures r.Some? ==> s == r.value.0 + [c] + r.value.1 && c !in r.value.1
  {
    match LastIndexOf(s, c)
    case None => None
    case Some(i) =>
      assert s == s[..i] + [c] + s[i + 1..];
      Some((s[..i], s[i + 1..]))
  }

  /** The rest of `s` after `prefix`, if `s` starts with `prefix`. */
  function StripPrefix(prefix: seq<byte>, s: seq<byte>): (r: Option<seq<byte>>)
    ensures r.Some? <==> prefix <= s
    ensures r.Some? ==> s == prefix + r.value
  {
    if prefix <= s then
      assert s == prefix + s[|prefix|..];
      Some(s[|prefix|..])
    else None
  }

  /** The first occurrence of a separator splits a string uniquely when the
      part before it does not contain the separator. */
  lemma SplitFirstOf(a: seq<byte>, c: byte, b: seq<byte>)
    requires c !in a
    ensures SplitFirst(a + [c] + b, c) == Some((a, b))
  {
    var s := a + [c] + b;
    var i := IndexOf(s, c).value;
    assert s[..|a|] == a && s[|a|] == c;
    assert s[..i] == a;
    assert s[i + 1..] == b;
  }

  /** The last occurrence of a separator splits a string uniquely when the
      part after it does not contain the separator. */
  lemma SplitLastOf(a: seq<byte>, c: byte, b: seq<byte>)
    requires c !in b
    ensures SplitLast(a + [c] + b, c) == Some((a, b))
  {
    var s := a + [c] + b;
    var i := LastIndexOf(s, c).value;
    assert s[|a| + 1..] == b && s[|a|] == c;
    assert s[..i] == a;
    assert s[i + 1..] == b;
  }

  lemma StripPrefixOf(prefix: seq<byte>, t: seq<byte>)
    ensures StripPrefix(prefix, prefix + t) == Some(t)
  {
    assert prefix <= prefix + t;
    assert (prefix + t)[|prefix|..] == t;
  }
}
