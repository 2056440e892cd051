/** Base64url without padding (section 5 of RFC 4648), as used for cursor tokens. */
module Base64Url {
  import opened Foundations

  type Sextet = n: int | 0 <= n < 64

  function Symbol(n: Sextet): CodePoint {
    if n < 26 then 65 + n
    else if n < 52 then 71 + n
    else if n < 62 then n - 4
    else if n == 62 then 45
    else 95
  }

  function Index(c: CodePoint): Option<Sextet> {
    if 65 <= c <= 90 then Some(c - 65)
    else if 97 <= c <= 122 then Some(c - 71)
    else if 48 <= c <= 57 then Some(c + 4)
    else if c == 45 then Some(62)
    else if c == 95 then Some(63)
    else None
  }

  // The four sextets of three bytes, and the three bytes of four sextets.

  function Sextet1(x: int): Sextet
    requires 0 <= x < 256
  { x / 4 }

  function Sextet2(x: int, y: int): Sextet
    requires 0 <= x < 256 && 0 <= y < 256
  { x % 4 * 16 + y / 16 }

  function Sextet3(y: int, z: int): Sextet
    requires 0 <= y < 256 && 0 <= z < 256
  { y % 16 * 4 + z / 64 }

  function Sextet4(z: int): Sextet
    requires 0 <= z < 256
  { z % 64 }

  function Byte1(a: Sextet, b: Sextet): Byte { var i: int := a; i * 4 + b / 16 }

  function Byte2(b: Sextet, c: Sextet): Byte { var i: int := b % 16; i * 16 + c / 4 }

  function Byte3(c: Sextet, d: Sextet): Byte { var i: int := c % 4; i * 64 + d }

  function Group(x: Byte, y: Byte, z: Byte): Text {
    [Symbol(Sextet1(x)), Symbol(Sextet2(x, y)), Symbol(Sextet3(y, z)), Symbol(Sextet4(z))]
  }

  /** A final partial group is the group padded with zero bytes, without its last symbols. */
  function Encode(b: Bytes): Text {
    if b == [] then []
    else if |b| == 1 then Group(b[0], 0, 0)[..2]
    else if |b| == 2 then Group(b[0], b[1], 0)[..3]
    else Group(b[0], b[1], b[2]) + Encode(b[3..])
  }

  /** The bytes of up to four symbols; leftover bits of a partial group are ignored, as Python's
      decoder does. */
  function Ungroup(t: Text): Option<Bytes>
    requires 1 <= |t| <= 4
  {
    if |t| == 1 || !UrlSafe(t) then None
    else
      var a, b := Index(t[0]).value, Index(t[1]).value;
      if |t| == 2 then Some([Byte1(a, b)])
      else
        var c := Index(t[2]).value;
        if |t| == 3 then Some([Byte1(a, b), Byte2(b, c)])
        else Some([Byte1(a, b), Byte2(b, c), Byte3(c, Index(t[3]).value)])
  }

  function Decode(t: Text): Option<Bytes> {
    if t == [] then Some([])
    else if |t| <= 4 then Ungroup(t)
    else
      match (Ungroup(t[..4]), Decode(t[4..]))
      case (Some(group), Some(rest)) => Some(group + rest)
      case _ => None
  }

  predicate UrlSafe(t: Text) {
    forall i :: 0 <= i < |t| ==> Index(t[i]).Some?
  }

  lemma {:induction false} IndexOfSymbol(n: Sextet)
    ensures Index(Symbol(n)) == Some(n)
  {
  }

  lemma {:induction false} BytesOfSextets(x: Byte, y: Byte, z: Byte)
    ensures Byte1(Sextet1(x), Sextet2(x, y)) == x
    ensures Byte2(Sextet2(x, y), Sextet3(y, z)) == y
    ensures Byte3(Sextet3(y, z), Sextet4(z)) == z
  {
    var s, t: int := Sextet2(x, y), Sextet3(y, z);
    assert s / 16 == x % 4 && s % 16 == y / 16;
    assert t / 4 == y % 16 && t % 4 == z / 64;
  }

  lemma {:induction false} UngroupOfGroup(x: Byte, y: Byte, z: Byte)
    ensures Ungroup(Group(x, y, z)) == Some([x, y, z])
    ensures Ungroup(Group(x, y, z)[..3]) == Some([x, y])
    ensures Ungroup(Group(x, y, z)[..2]) == Some([x])
  {
    BytesOfSextets(x, y, z);
    IndexOfSymbol(Sextet1(x));
    IndexOfSymbol(Sextet2(x, y));
    IndexOfSymbol(Sextet3(y, z));
    IndexOfSymbol(Sextet4(z));
  }

  lemma {:induction false} DecodeGroup(x: Byte, y: Byte, z: Byte, rest: Text)
    requires Decode(rest).Some?
    ensures Decode(Group(x, y, z) + rest) == Some([x, y, z] + Decode(rest).value)
  {
    UngroupOfGroup(x, y, z);
    if rest == [] {
      assert Group(x, y, z) + rest == Group(x, y, z);
      assert [x, y, z] + [] == [x, y, z];
    } else {
      assert (Group(x, y, z) + rest)[..4] == Group(x, y, z) && (Group(x, y, z) + rest)[4..] == rest;
    }
  }

  lemma {:induction false} DecodeOfEncode(b: Bytes)
    ensures Decode(Encode(b)) == Some(b)
  {
    if |b| == 1 {
      UngroupOfGroup(b[0], 0, 0);
      assert b == [b[0]];
    } else if |b| == 2 {
      UngroupOfGroup(b[0], b[1], 0);
      assert b == [b[0], b[1]];
    } else if |b| > 2 {
      DecodeOfEncode(b[3..]);
      DecodeGroup(b[0], b[1], b[2], Encode(b[3..]));
      assert b == [b[0], b[1], b[2]] + b[3..];
    }
  }

  lemma {:induction false} GroupIsUrlSafe(x: Byte, y: Byte, z: Byte)
    ensures UrlSafe(Group(x, y, z))
  {
    IndexOfSymbol(Sextet1(x));
    IndexOfSymbol(Sextet2(x, y));
    IndexOfSymbol(Sextet3(y, z));
    IndexOfSymbol(Sextet4(z));
  }

  lemma {:induction false} EncodeIsUrlSafe(b: Bytes)
    ensures UrlSafe(Encode(b))
  {
    if |b| == 1 {
      GroupIsUrlSafe(b[0], 0, 0);
    } else if |b| == 2 {
      GroupIsUrlSafe(b[0], b[1], 0);
    } else if |b| > 2 {
      GroupIsUrlSafe(b[0], b[1], b[2]);
      EncodeIsUrlSafe(b[3..]);
    }
  }

  lemma {:induction false} EncodedLength(b: Bytes)
    ensures |Encode(b)| == (4 * |b| + 2) / 3
  {
    if |b| > 2 {
      EncodedLength(b[3..]);
    }
  }
}
