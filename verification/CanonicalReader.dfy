/** An independent reader of canonical trees (protocol/canonical.py): what each tag, each hexadecimal
    number and each list stands for. Reading what the canonical form wrote gives the value back. */
module CanonicalReader {
  import opened Foundations
  import Utf8
  import opened Binary64
  import opened CanonicalJson
  import CanonicalBytes
  import CanonicalHash

  // ----- numbers -----

  function NumberOfHex(t: Text): Option<nat> {
    if t == [] then Some(0)
    else
      match (NumberOfHex(t[..|t| - 1]), CanonicalBytes.HexValue(t[|t| - 1]))
      case (Some(high), Some(low)) => Some(16 * high + low)
      case _ => None
  }

  /** Big-endian binary64: the sign in the first bit, the biased exponent in the next eleven, the
      fraction in the last 52; infinities and NaNs are refused. */
  function DoubleOfHex(t: Text): Option<Double> {
    match NumberOfHex(t)
    case None => None
    case Some(n) =>
      var exponent, fraction := n / 0x10_0000_0000_0000 % 2048, n % 0x10_0000_0000_0000;
      if |t| != 16 || exponent == 2047 then None
      else Some(Finite(n >= 0x8000_0000_0000_0000, exponent, fraction))
  }

  lemma {:induction false} NumberOfHexDigits(n: nat, digits: nat)
    requires n < Pow16(digits)
    ensures NumberOfHex(Hex(n, digits)) == Some(n)
  {
    if digits > 0 {
      NumberOfHexDigits(n / 16, digits - 1);
      var t := Hex(n, digits);
      assert t[..digits - 1] == Hex(n / 16, digits - 1);
      assert t[digits - 1] == HexDigit(n % 16);
    }
  }

  lemma {:induction false} FieldsOfBits(negative: bool, exponent: nat, fraction: nat)
    requires exponent < 2047 && fraction < 0x10_0000_0000_0000
    ensures var n := Bits(Finite(negative, exponent, fraction));
      && n / 0x10_0000_0000_0000 % 2048 == exponent && n % 0x10_0000_0000_0000 == fraction
      && (n >= 0x8000_0000_0000_0000 <==> negative)
  {
    var n := Bits(Finite(negative, exponent, fraction));
    assert n == ((if negative then 2048 else 0) + exponent) * 0x10_0000_0000_0000 + fraction;
  }

  lemma {:induction false} DoubleIsReadBack(d: Double)
    requires d.Finite? && ValidDouble(d)
    ensures DoubleOfHex(Hex(Bits(d), 16)) == Some(d)
  {
    BitsFit(d);
    NumberOfHexDigits(Bits(d), 16);
    FieldsOfBits(d.negative, d.exponent, d.fraction);
  }

  // ----- trees -----

  predicate IsTagged(t: Tree, kind: string, size: nat) {
    t.TList? && |t.items| == size && size > 0 && t.items[0] == TStr(Lit(kind))
  }

  /** A two-element list of an encodable text and a tree, as an object has one for each member. */
  predicate IsEntry(t: Tree) {
    t.TList? && |t.items| == 2 && t.items[0].TStr? && Utf8.Encodable(t.items[0].s)
  }

  function EntryKey(t: Tree): Bytes {
    if IsEntry(t) then Utf8.Encode(t.items[0].s) else []
  }

  /** The UTF-8 bytes of the keys increase from entry to entry. */
  predicate KeysIncrease(entries: seq<Tree>) {
    && (forall i :: 0 <= i < |entries| ==> IsEntry(entries[i]))
    && (forall i, j :: 0 <= i < j < |entries| ==> Less(EntryKey(entries[i]), EntryKey(entries[j])))
  }

  /** The value a tree stands for. */
  function ReadValue(t: Tree): Option<Json>
    decreases t, 2
  {
    if IsTagged(t, "null", 1) then Some(Null)
    else if IsTagged(t, "boolean", 2) && t.items[1].TBool? then Some(Bool(t.items[1].b))
    else if IsTagged(t, "string", 2) && t.items[1].TStr? then Some(Str(t.items[1].s))
    else if IsTagged(t, "number", 2) && t.items[1].TStr? then
      (match DoubleOfHex(t.items[1].s) case None => None case Some(d) => Some(Num(Float(d))))
    else if IsTagged(t, "array", 2) && t.items[1].TList? then
      (if ReadsItems(t.items[1].items) then Some(Arr(ItemValues(t.items[1].items))) else None)
    else if IsTagged(t, "object", 2) && t.items[1].TList? then
      (if ReadsEntries(t.items[1].items) then Some(Obj(EntryValues(t.items[1].items))) else None)
    else None
  }

  predicate ReadsItems(items: seq<Tree>)
    decreases TList(items), 0
  {
    forall i :: 0 <= i < |items| ==> ReadValue(items[i]).Some?
  }

  function ItemValues(items: seq<Tree>): (values: seq<Json>)
    requires ReadsItems(items)
    ensures |values| == |items|
    decreases TList(items), 1
  {
    seq(|items|, i requires 0 <= i < |items| => ReadValue(items[i]).value)
  }

  predicate ReadsEntries(items: seq<Tree>)
    decreases TList(items), 0
  {
    KeysIncrease(items) && forall i :: 0 <= i < |items| ==> IsEntry(items[i]) && ReadValue(items[i].items[1]).Some?
  }

  function EntryValues(items: seq<Tree>): (members: seq<(Text, Json)>)
    requires ReadsEntries(items)
    ensures |members| == |items|
    decreases TList(items), 1
  {
    seq(|items|, i requires 0 <= i < |items| => (items[i].items[0].s, ReadValue(items[i].items[1]).value))
  }

  // ----- reading undoes tagging -----

  lemma {:induction false} KindsDiffer()
    ensures Lit("null")[0] == 'n' as int && Lit("boolean")[0] == 'b' as int && Lit("string")[0] == 's' as int
    ensures Lit("number")[1] == 'u' as int && Lit("array")[0] == 'a' as int && Lit("object")[0] == 'o' as int
    ensures |Lit("null")| == 4 && |Lit("number")| == 6
  {
  }

  lemma {:induction false} ReadsTagged(kind: string, payload: Tree)
    ensures kind == "boolean" && payload.TBool? ==> ReadValue(Tagged(kind, payload)) == Some(Bool(payload.b))
    ensures kind == "string" && payload.TStr? ==> ReadValue(Tagged(kind, payload)) == Some(Str(payload.s))
    ensures kind == "number" && payload.TStr? && DoubleOfHex(payload.s).Some? ==>
              ReadValue(Tagged(kind, payload)) == Some(Num(Float(DoubleOfHex(payload.s).value)))
    ensures kind == "array" && payload.TList? && ReadsItems(payload.items) ==>
              ReadValue(Tagged(kind, payload)) == Some(Arr(ItemValues(payload.items)))
    ensures kind == "object" && payload.TList? && ReadsEntries(payload.items) ==>
              ReadValue(Tagged(kind, payload)) == Some(Obj(EntryValues(payload.items)))
  {
    KindsDiffer();
  }

  /** The read value is a value of the same kind that is equal to the one that was written. */
  ghost predicate IsReadBack(v: Json) {
    Tag(v).Some? && ReadValue(Tag(v).value).Some? && Equiv(v, ReadValue(Tag(v).value).value)
  }

  lemma {:induction false} NumberIsReadBack(x: Number)
    requires ValidNumber(x) && Accepted(x)
    ensures IsReadBack(Num(x))
  {
    NormalizedKeepsValue(x);
    DoubleIsReadBack(Normalized(x));
    ReadsTagged("number", TStr(NumberHex(x).value));
  }

  lemma {:induction false} ArrayIsReadBack(items: seq<Json>)
    requires AcceptsItems(items) && forall i :: 0 <= i < |items| ==> IsReadBack(items[i])
    ensures IsReadBack(Arr(items))
  {
    var trees := TaggedItems(items);
    forall i | 0 <= i < |trees| ensures ReadValue(trees[i]).Some? && Equiv(items[i], ReadValue(trees[i]).value) {
      assert IsReadBack(items[i]);
    }
    ReadsTagged("array", TList(trees));
  }

  lemma {:induction false} SortedEntriesIncrease(members: seq<(Text, Json)>)
    requires DistinctKeys(members) && AcceptsMembers(members)
    ensures KeysIncrease(Entries(Sort(KeyLess, TaggedMembers(members))))
  {
    var tagged := TaggedMembers(members);
    var sorted := Sort(KeyLess, tagged);
    SortedByKey(tagged);
    var entries := Entries(sorted);
    forall i | 0 <= i < |sorted| ensures IsEntry(entries[i]) {
      assert sorted[i] in tagged;
    }
    forall i, j | 0 <= i < j < |sorted| ensures Less(EntryKey(entries[i]), EntryKey(entries[j])) {
      assert KeyLess(sorted[i], sorted[j]);
      assert IsEntry(entries[i]) && IsEntry(entries[j]);
    }
  }

  /** The entry that a member has become. */
  lemma {:induction false} EntryOfMember(members: seq<(Text, Json)>, i: nat) returns (j: nat)
    requires DistinctKeys(members) && AcceptsMembers(members) && i < |members|
    ensures var sorted := Sort(KeyLess, TaggedMembers(members));
      j < |sorted| && sorted[j] == (members[i].0, Tag(members[i].1).value)
  {
    var tagged := TaggedMembers(members);
    SortedByKey(tagged);
    assert tagged[i] in Sort(KeyLess, tagged);
    j :| 0 <= j < |Sort(KeyLess, tagged)| && Sort(KeyLess, tagged)[j] == tagged[i];
  }

  lemma {:induction false} MemberOfEntry(members: seq<(Text, Json)>, j: nat) returns (i: nat)
    requires DistinctKeys(members) && AcceptsMembers(members) && j < |Sort(KeyLess, TaggedMembers(members))|
    ensures var sorted := Sort(KeyLess, TaggedMembers(members));
      i < |members| && sorted[j] == (members[i].0, Tag(members[i].1).value)
  {
    var tagged := TaggedMembers(members);
    SortedByKey(tagged);
    assert Sort(KeyLess, tagged)[j] in tagged;
    i :| 0 <= i < |tagged| && tagged[i] == Sort(KeyLess, tagged)[j];
  }

  lemma {:induction false} ObjectIsReadBack(members: seq<(Text, Json)>)
    requires DistinctKeys(members) && AcceptsMembers(members)
    requires forall i :: 0 <= i < |members| ==> IsReadBack(members[i].1)
    ensures IsReadBack(Obj(members))
  {
    var sorted := Sort(KeyLess, TaggedMembers(members));
    var entries := Entries(sorted);
    SortedEntriesIncrease(members);
    forall j | 0 <= j < |entries| ensures ReadValue(entries[j].items[1]).Some? {
      var i := MemberOfEntry(members, j);
      assert IsReadBack(members[i].1);
    }
    var w := Obj(EntryValues(entries));
    ReadsTagged("object", TList(entries));
    forall i | 0 <= i < |members| ensures EquivMember(members[i], w) {
      var j := EntryOfMember(members, i);
      assert IsReadBack(members[i].1);
      assert w.members[j].0 == members[i].0 && Equiv(members[i].1, w.members[j].1);
    }
  }

  /** Whatever is accepted is read back as an equal value. */
  lemma {:induction false} TreeIsReadBack(v: Json)
    requires WellFormed(v) && Tag(v).Some?
    ensures IsReadBack(v)
    decreases v
  {
    match v
    case Null => KindsDiffer();
    case Bool(b) => ReadsTagged("boolean", TBool(b));
    case Str(s) => ReadsTagged("string", TStr(s));
    case Num(x) => NumberIsReadBack(x);
    case Arr(items) =>
      forall i | 0 <= i < |items| ensures IsReadBack(items[i]) {
        TreeIsReadBack(items[i]);
      }
      ArrayIsReadBack(items);
    case Obj(members) =>
      forall i | 0 <= i < |members| ensures IsReadBack(members[i].1) {
        TreeIsReadBack(members[i].1);
      }
      ObjectIsReadBack(members);
  }

  /** The value that canonical bytes stand for. */
  function ReadBytes(b: Bytes): Option<Json> {
    match CanonicalHash.DecodeTree(b) case None => None case Some(t) => ReadValue(t)
  }

  /** The canonical bytes of an accepted value stand for that value, up to the order of object members,
      int against float and the sign of zero. */
  lemma {:induction false} BytesAreReadBack(v: Json)
    requires WellFormed(v) && Tag(v).Some?
    ensures CanonicalHash.CanonicalJsonBytes(v).Some?
    ensures var w := ReadBytes(CanonicalHash.CanonicalJsonBytes(v).value); w.Some? && Equiv(v, w.value)
  {
    CanonicalHash.DecodeOfCanonicalBytes(v);
    TreeIsReadBack(v);
  }
}
