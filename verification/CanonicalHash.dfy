/** Canonical bytes of a value, their decoder, and the domain-separated digest
    (protocol/canonical.py). */
module CanonicalHash {
  import opened Foundations
  import Utf8
  import opened Binary64
  import opened CanonicalJson
  import opened CanonicalBytes

  function CanonicalJsonBytes(v: Json): Option<Bytes> {
    match Tag(v)
    case None => None
    case Some(tree) => if Utf8.Encodable(Print(tree)) then Some(Utf8.Encode(Print(tree))) else None
  }

  /** The reader of canonical bytes: strict UTF-8, then one tree and nothing after it. */
  function DecodeTree(b: Bytes): Option<Tree> {
    match Utf8.Decode(b)
    case None => None
    case Some(text) =>
      match Parse(text)
      case None => None
      case Some((tree, rest)) => if rest == [] then Some(tree) else None
  }

  // ----- every accepted value has bytes -----

  predicate TreeEncodable(t: Tree) {
    match t
    case TNone => true
    case TBool(_) => true
    case TStr(s) => Utf8.Encodable(s)
    case TList(items) => forall i :: 0 <= i < |items| ==> TreeEncodable(items[i])
  }

  lemma {:induction false} EscapeAllIsEncodable(s: Text)
    requires Utf8.Encodable(s)
    ensures Utf8.Encodable(EscapeAll(s))
  {
    if s != [] {
      EscapeAllIsEncodable(s[1..]);
      HexIsEncodable(s[0], 4);
    }
  }

  lemma {:induction false} HexIsEncodable(n: nat, digits: nat)
    ensures Utf8.Encodable(Hex(n, digits))
  {
    if digits > 0 {
      HexIsEncodable(n / 16, digits - 1);
    }
  }

  lemma {:induction false} PrintIsEncodable(t: Tree)
    requires TreeEncodable(t)
    ensures Utf8.Encodable(Print(t))
    decreases t, 0
  {
    match t
    case TNone =>
    case TBool(_) =>
    case TStr(s) => EscapeAllIsEncodable(s);
    case TList(items) => JoinIsEncodable(items);
  }

  lemma {:induction false} JoinIsEncodable(items: seq<Tree>)
    requires forall i :: 0 <= i < |items| ==> TreeEncodable(items[i])
    ensures Utf8.Encodable(Join(items))
    decreases items
  {
    if items != [] {
      PrintIsEncodable(items[0]);
      if |items| > 1 {
        JoinIsEncodable(items[1..]);
      }
    }
  }

  lemma {:induction false} TaggedTreeIsEncodable(v: Json)
    requires Tag(v).Some?
    ensures TreeEncodable(Tag(v).value)
    decreases v
  {
    match v
    case Null =>
    case Bool(_) =>
    case Str(_) =>
    case Num(x) => HexIsEncodable(Bits(Normalized(x)), 16);
    case Arr(items) =>
      forall i | 0 <= i < |items| ensures TreeEncodable(TaggedItems(items)[i]) {
        TaggedTreeIsEncodable(items[i]);
      }
    case Obj(members) =>
      forall i | 0 <= i < |members| ensures TreeEncodable(Tag(members[i].1).value) {
        TaggedTreeIsEncodable(members[i].1);
      }
      EntriesAreEncodable(members);
  }

  lemma {:induction false} EntriesAreEncodable(members: seq<(Text, Json)>)
    requires AcceptsMembers(members)
    requires forall i :: 0 <= i < |members| ==> TreeEncodable(Tag(members[i].1).value)
    ensures TreeEncodable(TList(Entries(Sort(KeyLess, TaggedMembers(members)))))
  {
    var sorted := Sort(KeyLess, TaggedMembers(members));
    forall i | 0 <= i < |sorted| ensures TreeEncodable(Entries(sorted)[i]) {
      assert sorted[i] in TaggedMembers(members);
      var j :| 0 <= j < |members| && TaggedMembers(members)[j] == sorted[i];
      assert Entries(sorted)[i] == TList([TStr(members[j].0), Tag(members[j].1).value]);
    }
  }

  /** The decoder undoes the encoder: it returns the tagged tree the bytes were made from. */
  lemma {:induction false} DecodeOfCanonicalBytes(v: Json)
    requires Tag(v).Some?
    ensures CanonicalJsonBytes(v).Some? && DecodeTree(CanonicalJsonBytes(v).value) == Tag(v)
  {
    var tree := Tag(v).value;
    TaggedTreeIsEncodable(v);
    PrintIsEncodable(tree);
    Utf8.DecodeOfEncode(Print(tree));
    ParseOfPrint(tree, []);
    assert Print(tree) + [] == Print(tree);
  }

  // ----- the canonical bytes decide the intended equality -----

  lemma {:induction false} EquivHasSameBytes(v: Json, w: Json)
    requires WellFormed(v) && WellFormed(w) && Equiv(v, w)
    ensures CanonicalJsonBytes(v) == CanonicalJsonBytes(w)
  {
    EquivHasSameTree(v, w);
  }

  /** Injectivity: accepted values have equal bytes exactly when they are equal up to the order
      of object members, the int or float form of a number, and the sign of zero. */
  lemma {:induction false} CanonicalBytesIffEquiv(v: Json, w: Json)
    requires WellFormed(v) && WellFormed(w)
    requires CanonicalJsonBytes(v).Some?
    ensures CanonicalJsonBytes(v) == CanonicalJsonBytes(w) <==> Equiv(v, w)
  {
    if CanonicalJsonBytes(v) == CanonicalJsonBytes(w) {
      DecodeOfCanonicalBytes(v);
      DecodeOfCanonicalBytes(w);
      SameTreeIsEquiv(v, w);
    }
    if Equiv(v, w) {
      EquivHasSameBytes(v, w);
    }
  }

  // ----- domain separation -----

  /** The ASCII bytes of "defined-quant" and "dq-tagged-json-v1". */
  const HASH_PREFIX: Bytes := [100, 101, 102, 105, 110, 101, 100, 45, 113, 117, 97, 110, 116]
  const CANONICALIZATION_ID: Bytes :=
    [100, 113, 45, 116, 97, 103, 103, 101, 100, 45, 106, 115, 111, 110, 45, 118, 49]

  predicate DomainCharacter(c: int) {
    97 <= c <= 122 || 48 <= c <= 57 || c == 95 || c == 46 || c == 45
  }

  /** The pattern ^[a-z][a-z0-9_.-]{0,127}$. */
  predicate DomainOk(domain: Text) {
    && 1 <= |domain| <= 128
    && 97 <= domain[0] <= 122
    && forall i :: 0 <= i < |domain| ==> DomainCharacter(domain[i])
  }

  function DomainBytes(domain: Text): (b: Bytes)
    requires DomainOk(domain)
    ensures |b| == |domain| && forall i :: 0 <= i < |b| ==> b[i] == domain[i]
  {
    seq(|domain|, i requires 0 <= i < |domain| => domain[i])
  }

  /** The NUL-joined message that is hashed. */
  function Payload(domain: Text, canonical: Bytes): Bytes
    requires DomainOk(domain)
  {
    HASH_PREFIX + [0] + CANONICALIZATION_ID + [0] + DomainBytes(domain) + [0] + canonical
  }

  /** `canonical_hash`: None where the source raises ValueError. */
  function CanonicalHash(sha256: Bytes -> Text, v: Json, domain: Text): Option<Text> {
    if !DomainOk(domain) || CanonicalJsonBytes(v).None? then None
    else Some(sha256(Payload(domain, CanonicalJsonBytes(v).value)))
  }

  /** A value has a digest exactly when every text in it is encodable and every number finite and safe. */
  lemma {:induction false} HashExistsIff(sha256: Bytes -> Text, v: Json, domain: Text)
    ensures CanonicalHash(sha256, v, domain).Some? <==> DomainOk(domain) && Tag(v).Some?
  {
    if Tag(v).Some? {
      DecodeOfCanonicalBytes(v);
    }
  }

  lemma {:induction false} SplitAtFirstNul(a1: Bytes, b1: Bytes, a2: Bytes, b2: Bytes)
    requires 0 !in a1 && 0 !in a2
    requires a1 + [0] + b1 == a2 + [0] + b2
    ensures a1 == a2 && b1 == b2
  {
    var x := a1 + [0] + b1;
    var y := a2 + [0] + b2;
    assert forall i :: 0 <= i < |a1| ==> x[i] == a1[i];
    assert forall i :: 0 <= i < |a2| ==> y[i] == a2[i];
    assert x[|a1|] == 0 && y[|a2|] == 0;
    assert |a1| == |a2|;
    assert a1 == x[..|a1|] && a2 == y[..|a2|];
    assert b1 == x[|a1| + 1..] && b2 == y[|a2| + 1..];
  }

  lemma {:induction false} PayloadIsInjective(d1: Text, b1: Bytes, d2: Text, b2: Bytes)
    requires DomainOk(d1) && DomainOk(d2)
    ensures Payload(d1, b1) == Payload(d2, b2) <==> d1 == d2 && b1 == b2
  {
    if Payload(d1, b1) == Payload(d2, b2) {
      var head := HASH_PREFIX + [0] + CANONICALIZATION_ID + [0];
      assert Payload(d1, b1)[|head|..] == DomainBytes(d1) + [0] + b1;
      assert Payload(d2, b2)[|head|..] == DomainBytes(d2) + [0] + b2;
      SplitAtFirstNul(DomainBytes(d1), b1, DomainBytes(d2), b2);
      assert forall i :: 0 <= i < |d1| ==> d1[i] == DomainBytes(d1)[i];
      assert forall i :: 0 <= i < |d2| ==> d2[i] == DomainBytes(d2)[i];
    }
  }

  /** SHA-256 as a function without collisions. */
  ghost predicate CollisionFree(sha256: Bytes -> Text) {
    forall a, b :: sha256(a) == sha256(b) ==> a == b
  }

  /** Nothing that is assumed of SHA-256 is impossible. */
  lemma {:induction false} CollisionFreeExists() returns (digest: Bytes -> Text)
    ensures CollisionFree(digest) && forall b :: Utf8.Encodable(digest(b))
  {
    digest := (b: Bytes) => b;
  }

  /** Equal digests bind the domain and the value, up to the intended equality, and nothing less. */
  lemma {:induction false} CanonicalHashIffEquiv(sha256: Bytes -> Text, v: Json, d1: Text, w: Json, d2: Text)
    requires CollisionFree(sha256)
    requires WellFormed(v) && WellFormed(w)
    requires CanonicalHash(sha256, v, d1).Some? && CanonicalHash(sha256, w, d2).Some?
    ensures CanonicalHash(sha256, v, d1) == CanonicalHash(sha256, w, d2) <==> d1 == d2 && Equiv(v, w)
  {
    var b1, b2 := CanonicalJsonBytes(v).value, CanonicalJsonBytes(w).value;
    PayloadIsInjective(d1, b1, d2, b2);
    CanonicalBytesIffEquiv(v, w);
  }

  /** In one domain a value that has a digest shares it with exactly the values equal to it. */
  lemma {:induction false} SameDomainIffEquiv(sha256: Bytes -> Text, v: Json, w: Json, domain: Text)
    requires CollisionFree(sha256) && WellFormed(v) && WellFormed(w)
    requires CanonicalHash(sha256, v, domain).Some?
    ensures CanonicalHash(sha256, v, domain) == CanonicalHash(sha256, w, domain) <==> Equiv(v, w)
  {
    if Equiv(v, w) {
      EquivHasSameBytes(v, w);
    } else if CanonicalHash(sha256, w, domain).Some? {
      CanonicalHashIffEquiv(sha256, v, domain, w, domain);
    }
  }
}
