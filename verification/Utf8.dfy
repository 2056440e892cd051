/** Strict UTF-8 (section 3 of RFC 3629): Python's `str.encode("utf-8")` and
    `bytes.decode("utf-8", errors="strict")`. */
module Utf8 {
  import opened Foundations

  predicate IsScalar(c: CodePoint) {
    !(0xD800 <= c <= 0xDFFF)
  }

  /** What `str.encode("utf-8")` accepts: text without lone surrogates. */
  predicate Encodable(t: Text) {
    forall i :: 0 <= i < |t| ==> IsScalar(t[i])
  }

  /** The lead byte carries the top bits of the code point; every further byte carries six. */
  function EncodeChar(c: CodePoint): Bytes {
    var c1 := c / 64;
    var c2 := c1 / 64;
    if c < 0x80 then [c]
    else if c < 0x800 then [0xC0 + c1, 0x80 + c % 64]
    else if c < 0x10000 then [0xE0 + c2, 0x80 + c1 % 64, 0x80 + c % 64]
    else [0xF0 + c2 / 64, 0x80 + c2 % 64, 0x80 + c1 % 64, 0x80 + c % 64]
  }

  function Encode(t: Text): Bytes
    requires Encodable(t)
  {
    if t == [] then [] else EncodeChar(t[0]) + Encode(t[1..])
  }

  predicate IsAscii(t: Text) {
    forall i :: 0 <= i < |t| ==> t[i] < 0x80
  }

  lemma {:induction false} AsciiEncodesToItsLength(t: Text)
    requires IsAscii(t)
    ensures Encodable(t) && |Encode(t)| == |t|
  {
    if t != [] {
      AsciiEncodesToItsLength(t[1..]);
    }
  }

  predicate IsContinuation(b: int) {
    0x80 <= b < 0xC0
  }

  function Append(high: int, b: int): int {
    high * 64 + (b - 0x80)
  }

  /** The first code point of a byte string and its width, when the string starts with the
      shortest encoding of a scalar value. */
  function DecodeHead(b: Bytes): Option<(CodePoint, nat)>
    requires b != []
  {
    var b0: int := b[0];
    if b0 < 0x80 then Some((b0, 1))
    else if |b| < 2 || !IsContinuation(b[1]) then None
    else if 0xC2 <= b0 < 0xE0 then Some((Append(b0 - 0xC0, b[1]), 2))
    else if |b| < 3 || !IsContinuation(b[2]) then None
    else if 0xE0 <= b0 < 0xF0 then
      var c := Append(Append(b0 - 0xE0, b[1]), b[2]);
      if c < 0x800 || 0xD800 <= c <= 0xDFFF then None else Some((c, 3))
    else if |b| < 4 || !IsContinuation(b[3]) then None
    else if 0xF0 <= b0 < 0xF5 then
      var c := Append(Append(Append(b0 - 0xF0, b[1]), b[2]), b[3]);
      if c < 0x10000 || c > 0x10FFFF then None else Some((c, 4))
    else None
  }

  function Decode(b: Bytes): Option<Text>
    decreases |b|
  {
    if b == [] then Some([])
    else
      match DecodeHead(b)
      case None => None
      case Some((c, n)) =>
        match Decode(b[n..])
        case None => None
        case Some(t) => Some([c] + t)
  }

  lemma {:induction false} AppendUndoesDivision(high: int, c: int)
    requires high == c / 64
    ensures Append(high, 0x80 + c % 64) == c
  {
  }

  lemma {:induction false} HeadOfEncoded(c: CodePoint, rest: Bytes)
    requires IsScalar(c)
    ensures DecodeHead(EncodeChar(c) + rest) == Some((c, |EncodeChar(c)|))
  {
    var e := EncodeChar(c);
    assert forall i :: 0 <= i < |e| ==> (e + rest)[i] == e[i];
    AppendUndoesDivision(c / 64, c);
    AppendUndoesDivision(c / 64 / 64, c / 64);
    AppendUndoesDivision(c / 64 / 64 / 64, c / 64 / 64);
  }

  lemma {:induction false} DivisionUndoesAppend(high: int, b: int)
    requires IsContinuation(b)
    ensures Append(high, b) / 64 == high && 0x80 + Append(high, b) % 64 == b
  {
  }

  lemma {:induction false} HeadIsEncoded(b: Bytes)
    requires b != [] && DecodeHead(b).Some?
    ensures var (c, n) := DecodeHead(b).value;
      IsScalar(c) && 1 <= n <= |b| && EncodeChar(c) == b[..n]
  {
    var (c, n) := DecodeHead(b).value;
    var b0: int := b[0];
    if n == 2 {
      DivisionUndoesAppend(b0 - 0xC0, b[1]);
    } else if n == 3 {
      var c1 := Append(b0 - 0xE0, b[1]);
      DivisionUndoesAppend(c1, b[2]);
      DivisionUndoesAppend(b0 - 0xE0, b[1]);
    } else if n == 4 {
      var c2 := Append(b0 - 0xF0, b[1]);
      DivisionUndoesAppend(Append(c2, b[2]), b[3]);
      DivisionUndoesAppend(c2, b[2]);
      DivisionUndoesAppend(b0 - 0xF0, b[1]);
    }
    assert |EncodeChar(c)| == n;
    assert forall i :: 0 <= i < n ==> EncodeChar(c)[i] == b[i];
  }

  lemma {:induction false} DecodeOfEncode(t: Text)
    requires Encodable(t)
    ensures Decode(Encode(t)) == Some(t)
  {
    if t != [] {
      HeadOfEncoded(t[0], Encode(t[1..]));
      DecodeOfEncode(t[1..]);
      assert Encode(t)[|EncodeChar(t[0])|..] == Encode(t[1..]);
      assert t == [t[0]] + t[1..];
    }
  }

  lemma {:induction false} EncodeOfDecode(b: Bytes)
    requires Decode(b).Some?
    ensures Encodable(Decode(b).value) && Encode(Decode(b).value) == b
    decreases |b|
  {
    if b != [] {
      var (c, n) := DecodeHead(b).value;
      HeadIsEncoded(b);
      EncodeOfDecode(b[n..]);
      EncodeJoins(b, c, n, Decode(b[n..]).value);
    }
  }

  lemma {:induction false} EncodeJoins(b: Bytes, c: CodePoint, n: nat, t: Text)
    requires IsScalar(c) && n <= |b| && EncodeChar(c) == b[..n]
    requires Encodable(t) && Encode(t) == b[n..]
    ensures Encodable([c] + t) && Encode([c] + t) == b
  {
    EncodeCons(c, t);
    assert b == b[..n] + b[n..];
  }

  lemma {:induction false} EncodeCons(c: CodePoint, t: Text)
    requires IsScalar(c) && Encodable(t)
    ensures Encodable([c] + t) && Encode([c] + t) == EncodeChar(c) + Encode(t)
  {
    assert ([c] + t)[1..] == t;
  }

  /** The strict decoder accepts exactly the encodings, each as the one text it came from. */
  lemma {:induction false} DecodeIffEncode(b: Bytes, t: Text)
    ensures Decode(b) == Some(t) <==> Encodable(t) && Encode(t) == b
  {
    if Decode(b) == Some(t) {
      EncodeOfDecode(b);
    }
    if Encodable(t) && Encode(t) == b {
      DecodeOfEncode(t);
    }
  }

  /** An ASCII byte occurs in an encoding only where that character occurs in the text. */
  lemma {:induction false} AsciiBytesAreCharacters(t: Text, c: int)
    requires Encodable(t) && 0 <= c < 0x80
    ensures c in Encode(t) <==> c in t
  {
    if t != [] {
      AsciiBytesAreCharacters(t[1..], c);
      assert t == [t[0]] + t[1..];
      assert c in EncodeChar(t[0]) <==> c == t[0];
    }
  }
}
