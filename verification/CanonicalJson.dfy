/** The tagged canonical form `dq-tagged-json-v1` (protocol/canonical.py): every digest of the
    system is taken over these bytes. */
module CanonicalJson {
  import opened Foundations
  import Utf8
  import opened Binary64

  /** A JSON-compatible value. Object members stand in insertion order, as in a Python dict. */
  datatype Json =
    | Null
    | Bool(b: bool)
    | Str(s: Text)
    | Num(x: Number)
    | Arr(items: seq<Json>)
    | Obj(members: seq<(Text, Json)>)

  predicate DistinctKeys<V>(members: seq<(Text, V)>) {
    forall i, j :: 0 <= i < j < |members| ==> members[i].0 != members[j].0
  }

  /** Dict keys are distinct and floats are binary64. */
  ghost predicate WellFormed(v: Json) {
    match v
    case Null => true
    case Bool(_) => true
    case Str(_) => true
    case Num(x) => ValidNumber(x)
    case Arr(items) => forall i :: 0 <= i < |items| ==> WellFormed(items[i])
    case Obj(members) =>
      DistinctKeys(members) && forall i :: 0 <= i < |members| ==> WellFormed(members[i].1)
  }

  /** `dict.get(key)`. */
  function Lookup<V>(members: seq<(Text, V)>, key: Text): Option<V> {
    if members == [] then None
    else if members[0].0 == key then Some(members[0].1)
    else Lookup(members[1..], key)
  }

  /** The tagged tree: nested Python lists, strings, booleans and None. */
  datatype Tree = TNone | TBool(b: bool) | TStr(s: Text) | TList(items: seq<Tree>)

  function Tagged(tag: string, payload: Tree): Tree {
    TList([TStr(Lit(tag)), payload])
  }

  function KeyBytes(key: Text): Bytes {
    if Utf8.Encodable(key) then Utf8.Encode(key) else []
  }

  predicate KeyLess<V>(a: (Text, V), b: (Text, V)) {
    Less(KeyBytes(a.0), KeyBytes(b.0))
  }

  function Entries(sorted: seq<(Text, Tree)>): (entries: seq<Tree>)
    ensures |entries| == |sorted|
  {
    seq(|sorted|, i requires 0 <= i < |sorted| => TList([TStr(sorted[i].0), sorted[i].1]))
  }

  /** The tagged tree of an accepted value; None where the source raises ValueError. */
  function Tag(v: Json): Option<Tree>
    decreases v, 2
  {
    match v
    case Null => Some(TList([TStr(Lit("null"))]))
    case Bool(b) => Some(Tagged("boolean", TBool(b)))
    case Str(s) => if Utf8.Encodable(s) then Some(Tagged("string", TStr(s))) else None
    case Num(x) =>
      (match NumberHex(x) case Some(h) => Some(Tagged("number", TStr(h))) case None => None)
    case Arr(items) =>
      if AcceptsItems(items) then Some(Tagged("array", TList(TaggedItems(items)))) else None
    case Obj(members) =>
      if AcceptsMembers(members) then
        Some(Tagged("object", TList(Entries(Sort(KeyLess, TaggedMembers(members))))))
      else None
  }

  predicate AcceptsItems(items: seq<Json>)
    decreases Arr(items), 0
  {
    forall i :: 0 <= i < |items| ==> Tag(items[i]).Some?
  }

  function TaggedItems(items: seq<Json>): (trees: seq<Tree>)
    requires AcceptsItems(items)
    ensures |trees| == |items|
    decreases Arr(items), 1
  {
    seq(|items|, i requires 0 <= i < |items| => Tag(items[i]).value)
  }

  predicate AcceptsMembers(members: seq<(Text, Json)>)
    decreases Obj(members), 0
  {
    forall i :: 0 <= i < |members| ==> Utf8.Encodable(members[i].0) && Tag(members[i].1).Some?
  }

  function TaggedMembers(members: seq<(Text, Json)>): (tagged: seq<(Text, Tree)>)
    requires AcceptsMembers(members)
    ensures |tagged| == |members|
    decreases Obj(members), 1
  {
    seq(|members|, i requires 0 <= i < |members| => (members[i].0, Tag(members[i].1).value))
  }

  // ----- the intended equality: key order, int against float and signed zero do not matter -----

  ghost predicate SameNumber(x: Number, y: Number) {
    if IsFinite(x) && IsFinite(y) then Value(x) == Value(y) else x == y
  }

  ghost predicate Equiv(v: Json, w: Json) {
    match v
    case Null => w.Null?
    case Bool(b) => w.Bool? && w.b == b
    case Str(s) => w.Str? && w.s == s
    case Num(x) => w.Num? && SameNumber(x, w.x)
    case Arr(items) =>
      && w.Arr? && |w.items| == |items|
      && forall i :: 0 <= i < |items| ==> Equiv(items[i], w.items[i])
    case Obj(members) =>
      && w.Obj? && |w.members| == |members|
      && forall i :: 0 <= i < |members| ==> EquivMember(members[i], w)
  }

  /** Some member of object w has the same key and an equivalent value. */
  ghost predicate EquivMember(m: (Text, Json), w: Json)
    requires w.Obj?
  {
    exists j :: 0 <= j < |w.members| && w.members[j].0 == m.0 && Equiv(m.1, w.members[j].1)
  }

  // ----- sorting by the UTF-8 bytes of distinct keys -----

  lemma {:induction false} KeyLessIsStrict<V(!new)>()
    ensures StrictOrder<(Text, V)>(KeyLess)
  {
    forall a: (Text, V) ensures !KeyLess(a, a) {
      LessIsIrreflexive(KeyBytes(a.0));
    }
    forall a: (Text, V), b: (Text, V), c: (Text, V) | KeyLess(a, b) && KeyLess(b, c)
      ensures KeyLess(a, c)
    {
      LessIsTransitive(KeyBytes(a.0), KeyBytes(b.0), KeyBytes(c.0));
    }
  }

  ghost predicate EncodableKeys<V>(members: seq<(Text, V)>) {
    forall i :: 0 <= i < |members| ==> Utf8.Encodable(members[i].0)
  }

  lemma {:induction false} KeysAreComparable<V(!new)>(members: seq<(Text, V)>)
    requires DistinctKeys(members) && EncodableKeys(members)
    ensures Comparable(KeyLess, members)
  {
    forall i, j | 0 <= i < j < |members|
      ensures KeyLess(members[i], members[j]) || KeyLess(members[j], members[i])
    {
      LessIsTotal(KeyBytes(members[i].0), KeyBytes(members[j].0));
      Utf8.DecodeOfEncode(members[i].0);
      Utf8.DecodeOfEncode(members[j].0);
    }
  }

  lemma {:induction false} SortedByKey<V(!new)>(members: seq<(Text, V)>)
    requires DistinctKeys(members) && EncodableKeys(members)
    ensures Sorted(KeyLess, Sort(KeyLess, members))
    ensures SameElements(Sort(KeyLess, members), members)
  {
    KeyLessIsStrict<V>();
    KeysAreComparable(members);
    SortSorts(KeyLess, members);
  }

  /** Members listed in any order sort to the same sequence. */
  lemma {:induction false} SortForgetsOrder<V(!new)>(a: seq<(Text, V)>, b: seq<(Text, V)>)
    requires DistinctKeys(a) && EncodableKeys(a) && DistinctKeys(b) && EncodableKeys(b)
    ensures SameElements(a, b) <==> Sort(KeyLess, a) == Sort(KeyLess, b)
  {
    KeyLessIsStrict<V>();
    SortedByKey(a);
    SortedByKey(b);
    if SameElements(a, b) {
      SortedIsUnique(KeyLess, Sort(KeyLess, a), Sort(KeyLess, b));
    }
  }

  lemma {:induction false} EntriesAreInjective(a: seq<(Text, Tree)>, b: seq<(Text, Tree)>)
    requires Entries(a) == Entries(b)
    ensures a == b
  {
    forall i | 0 <= i < |a| ensures a[i] == b[i] {
      assert Entries(a)[i] == TList([TStr(a[i].0), a[i].1]);
      assert Entries(b)[i] == TList([TStr(b[i].0), b[i].1]);
      assert Entries(a)[i].items[0] == Entries(b)[i].items[0];
      assert Entries(a)[i].items[1] == Entries(b)[i].items[1];
    }
  }

  // ----- the tagged tree decides the intended equality -----

  function TagName(v: Json): string {
    match v
    case Null => "null"
    case Bool(_) => "boolean"
    case Str(_) => "string"
    case Num(_) => "number"
    case Arr(_) => "array"
    case Obj(_) => "object"
  }

  /** The tag tells the kind of value. */
  lemma {:induction false} SameTreeSameKind(v: Json, w: Json)
    requires Tag(v).Some? && Tag(v) == Tag(w)
    ensures TagName(v) == TagName(w)
  {
    assert Tag(v).value.items[0] == TStr(Lit(TagName(v)));
    assert Tag(w).value.items[0] == TStr(Lit(TagName(w)));
    assert Lit(TagName(v))[0] == Lit(TagName(w))[0];
  }

  lemma {:induction false} EquivHasSameTree(v: Json, w: Json)
    requires WellFormed(v) && WellFormed(w) && Equiv(v, w)
    ensures Tag(v) == Tag(w)
    decreases v
  {
    match v
    case Null =>
    case Bool(_) =>
    case Str(_) =>
    case Num(x) =>
      if IsFinite(x) && IsFinite(w.x) {
        SameValueSameAcceptance(x, w.x);
        if Accepted(x) {
          NumberHexIffSameValue(x, w.x);
        }
      }
    case Arr(items) =>
      forall i | 0 <= i < |items| ensures Tag(items[i]) == Tag(w.items[i]) {
        EquivHasSameTree(items[i], w.items[i]);
      }
      assert Tag(v).Some? ==> TaggedItems(items) == TaggedItems(w.items);
    case Obj(members) =>
      EquivObjectsHaveSameTree(members, w.members);
  }

  ghost function Keys<V>(members: seq<(Text, V)>): set<Text> {
    set i | 0 <= i < |members| :: members[i].0
  }

  lemma {:induction false} CountKeys<V>(members: seq<(Text, V)>)
    requires DistinctKeys(members)
    ensures |Keys(members)| == |members|
  {
    if members != [] {
      var last := |members| - 1;
      CountKeys(members[..last]);
      assert Keys(members) == Keys(members[..last]) + {members[last].0};
    }
  }

  lemma {:induction false} SubsetOfSameSize<T>(a: set<T>, b: set<T>)
    requires a <= b && |a| == |b|
    ensures a == b
  {
    assert |b - a| == |b| - |a|;
  }

  /** Matching every member of ms in ns uses up all of ns. */
  lemma {:induction false} MatchingIsOnto(ms: seq<(Text, Json)>, ns: seq<(Text, Json)>, j: int) returns (i: int)
    requires DistinctKeys(ms) && DistinctKeys(ns) && |ms| == |ns| && 0 <= j < |ns|
    requires forall i :: 0 <= i < |ms| ==> EquivMember(ms[i], Obj(ns))
    ensures 0 <= i < |ms| && ms[i].0 == ns[j].0 && Equiv(ms[i].1, ns[j].1)
  {
    forall k | k in Keys(ms) ensures k in Keys(ns) {
      var i :| 0 <= i < |ms| && ms[i].0 == k;
      assert EquivMember(ms[i], Obj(ns));
    }
    CountKeys(ms);
    CountKeys(ns);
    SubsetOfSameSize(Keys(ms), Keys(ns));
    assert ns[j].0 in Keys(ms);
    i :| 0 <= i < |ms| && ms[i].0 == ns[j].0;
    assert EquivMember(ms[i], Obj(ns));
  }

  /** Some member of ns has the key and the tagged tree of m. */
  ghost predicate HasTwin(m: (Text, Json), ns: seq<(Text, Json)>) {
    exists j :: 0 <= j < |ns| && ns[j].0 == m.0 && Tag(ns[j].1) == Tag(m.1)
  }

  lemma {:induction false} TwinsAreAccepted(ms: seq<(Text, Json)>, ns: seq<(Text, Json)>)
    requires forall i :: 0 <= i < |ms| ==> HasTwin(ms[i], ns)
    requires AcceptsMembers(ns)
    ensures AcceptsMembers(ms)
  {
    forall i | 0 <= i < |ms| ensures Utf8.Encodable(ms[i].0) && Tag(ms[i].1).Some? {
      assert HasTwin(ms[i], ns);
    }
  }

  lemma {:induction false} TwinsAreElements(ms: seq<(Text, Json)>, ns: seq<(Text, Json)>, e: (Text, Tree))
    requires AcceptsMembers(ms) && AcceptsMembers(ns)
    requires forall i :: 0 <= i < |ms| ==> HasTwin(ms[i], ns)
    ensures e in TaggedMembers(ms) ==> e in TaggedMembers(ns)
  {
    if e in TaggedMembers(ms) {
      var i :| 0 <= i < |ms| && TaggedMembers(ms)[i] == e;
      assert HasTwin(ms[i], ns);
      var j :| 0 <= j < |ns| && ns[j].0 == ms[i].0 && Tag(ns[j].1) == Tag(ms[i].1);
      assert TaggedMembers(ns)[j] == e;
    }
  }

  lemma {:induction false} TwinsHaveSameTree(ms: seq<(Text, Json)>, ns: seq<(Text, Json)>)
    requires DistinctKeys(ms) && DistinctKeys(ns)
    requires forall i :: 0 <= i < |ms| ==> HasTwin(ms[i], ns)
    requires forall j :: 0 <= j < |ns| ==> HasTwin(ns[j], ms)
    requires AcceptsMembers(ms) || AcceptsMembers(ns)
    ensures AcceptsMembers(ms) && AcceptsMembers(ns)
    ensures Sort(KeyLess, TaggedMembers(ms)) == Sort(KeyLess, TaggedMembers(ns))
  {
    if AcceptsMembers(ms) {
      TwinsAreAccepted(ns, ms);
    } else {
      TwinsAreAccepted(ms, ns);
    }
    forall e ensures e in TaggedMembers(ms) <==> e in TaggedMembers(ns) {
      TwinsAreElements(ms, ns, e);
      TwinsAreElements(ns, ms, e);
    }
    SortForgetsOrder(TaggedMembers(ms), TaggedMembers(ns));
  }

  lemma {:induction false} EquivObjectsHaveSameTree(ms: seq<(Text, Json)>, ns: seq<(Text, Json)>)
    requires WellFormed(Obj(ms)) && WellFormed(Obj(ns)) && Equiv(Obj(ms), Obj(ns))
    ensures Tag(Obj(ms)) == Tag(Obj(ns))
    decreases Obj(ms), 0
  {
    forall i | 0 <= i < |ms| ensures HasTwin(ms[i], ns) {
      assert EquivMember(ms[i], Obj(ns));
      var j :| 0 <= j < |ns| && ns[j].0 == ms[i].0 && Equiv(ms[i].1, ns[j].1);
      EquivHasSameTree(ms[i].1, ns[j].1);
    }
    forall j | 0 <= j < |ns| ensures HasTwin(ns[j], ms) {
      var i := MatchingIsOnto(ms, ns, j);
      EquivHasSameTree(ms[i].1, ns[j].1);
    }
    if AcceptsMembers(ms) || AcceptsMembers(ns) {
      TwinsHaveSameTree(ms, ns);
    }
  }

  lemma {:induction false} SameTreeIsEquiv(v: Json, w: Json)
    requires WellFormed(v) && WellFormed(w)
    requires Tag(v).Some? && Tag(v) == Tag(w)
    ensures Equiv(v, w)
    decreases v
  {
    SameTreeSameKind(v, w);
    assert !v.Null? ==> Tag(v).value.items[1] == Tag(w).value.items[1];
    match v
    case Null =>
    case Bool(_) =>
    case Str(_) =>
    case Num(x) =>
      NumberHexIffSameValue(x, w.x);
    case Arr(items) =>
      var a, b := TaggedItems(items), TaggedItems(w.items);
      forall i | 0 <= i < |items| ensures Equiv(items[i], w.items[i]) {
        assert a[i] == Tag(items[i]).value && b[i] == Tag(w.items[i]).value;
        SameTreeIsEquiv(items[i], w.items[i]);
      }
    case Obj(members) =>
      EntriesAreInjective(Sort(KeyLess, TaggedMembers(members)), Sort(KeyLess, TaggedMembers(w.members)));
      SortForgetsOrder(TaggedMembers(members), TaggedMembers(w.members));
      forall i | 0 <= i < |members| ensures EquivMember(members[i], w) {
        var j := TwinOf(members, w.members, i);
        SameTreeIsEquiv(members[i].1, w.members[j].1);
      }
  }

  lemma {:induction false} TwinOf(ms: seq<(Text, Json)>, ns: seq<(Text, Json)>, i: int) returns (j: int)
    requires AcceptsMembers(ms) && AcceptsMembers(ns)
    requires SameElements(TaggedMembers(ms), TaggedMembers(ns)) && 0 <= i < |ms|
    ensures 0 <= j < |ns| && ns[j].0 == ms[i].0 && Tag(ns[j].1) == Tag(ms[i].1)
  {
    assert TaggedMembers(ms)[i] in TaggedMembers(ns);
    j :| 0 <= j < |ns| && TaggedMembers(ns)[j] == TaggedMembers(ms)[i];
  }
}
