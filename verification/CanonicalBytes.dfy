/** The byte format of a tagged tree, the decoder that undoes it, and the hash payload
    (protocol/canonical.py). */
module CanonicalBytes {
  import opened Foundations
  import Utf8
  import opened Binary64
  import opened CanonicalJson

  const QUOTE: CodePoint := 34
  const BACKSLASH: CodePoint := 92

  // ----- string escapes (section 7 of RFC 8259) -----

  /** The letter after the backslash in a short escape. */
  function ShortEscape(c: CodePoint): Option<CodePoint> {
    if c == 8 then Some('b' as int)
    else if c == 9 then Some('t' as int)
    else if c == 10 then Some('n' as int)
    else if c == 12 then Some('f' as int)
    else if c == 13 then Some('r' as int)
    else if c == QUOTE || c == BACKSLASH then Some(c)
    else None
  }

  function EscapeChar(c: CodePoint): (e: Text)
    ensures e != [] && e[0] != QUOTE
  {
    match ShortEscape(c)
    case Some(letter) => [BACKSLASH, letter]
    case None => if c < 0x20 then [BACKSLASH, 'u' as int] + Hex(c, 4) else [c]
  }

  function EscapeAll(s: Text): Text {
    if s == [] then [] else EscapeChar(s[0]) + EscapeAll(s[1..])
  }

  function Quote(s: Text): Text {
    [QUOTE] + EscapeAll(s) + [QUOTE]
  }

  lemma {:induction false} EscapeAllSnoc(s: Text, c: CodePoint)
    ensures EscapeAll(s + [c]) == EscapeAll(s) + EscapeChar(c)
  {
    if s == [] {
      assert s + [c] == [c];
    } else {
      EscapeAllSnoc(s[1..], c);
      assert (s + [c])[1..] == s[1..] + [c];
    }
  }

  /** The loop of the source: text with a lone surrogate is refused. */
  method EncodeString(value: Text) returns (encoded: Option<Text>)
    ensures encoded == if Utf8.Encodable(value) then Some(Quote(value)) else None
  {
    if !Utf8.Encodable(value) {
      return None;
    }
    var parts := [QUOTE];
    for i := 0 to |value|
      invariant parts == [QUOTE] + EscapeAll(value[..i])
    {
      var character := value[i];
      var piece: Text;
      match ShortEscape(character) {
        case Some(letter) => piece := [BACKSLASH, letter];
        case None =>
          piece := if character < 0x20 then [BACKSLASH, 'u' as int] + Hex(character, 4) else [character];
      }
      EscapeAllSnoc(value[..i], character);
      assert value[..i + 1] == value[..i] + [character];
      assert [QUOTE] + EscapeAll(value[..i]) + piece == [QUOTE] + (EscapeAll(value[..i]) + piece);
      parts := parts + piece;
    }
    assert value[..|value|] == value;
    return Some(parts + [QUOTE]);
  }

  function HexValue(c: CodePoint): Option<nat> {
    if 48 <= c < 58 then Some(c - 48) else if 97 <= c < 103 then Some(c - 87) else None
  }

  function UnescapeLetter(letter: CodePoint): Option<CodePoint> {
    if letter == 'b' as int then Some(8)
    else if letter == 't' as int then Some(9)
    else if letter == 'n' as int then Some(10)
    else if letter == 'f' as int then Some(12)
    else if letter == 'r' as int then Some(13)
    else if letter == QUOTE || letter == BACKSLASH then Some(letter)
    else None
  }

  /** One possibly escaped character at the head of x, and how much of x it takes. */
  function UnescapeHead(x: Text): Option<(CodePoint, nat)>
    requires x != []
  {
    if x[0] != BACKSLASH then Some((x[0], 1))
    else if |x| < 2 then None
    else if x[1] != 'u' as int then
      (match UnescapeLetter(x[1]) case Some(c) => Some((c, 2)) case None => None)
    else if |x| < 6 || x[2] != 48 || x[3] != 48 then None
    else
      match (HexValue(x[4]), HexValue(x[5]))
      case (Some(h), Some(l)) => Some((16 * h + l, 6))
      case _ => None
  }

  lemma {:induction false} UnescapeOfEscape(c: CodePoint, rest: Text)
    ensures UnescapeHead(EscapeChar(c) + rest) == Some((c, |EscapeChar(c)|))
  {
    var e := EscapeChar(c);
    assert forall i :: 0 <= i < |e| ==> (e + rest)[i] == e[i];
    if ShortEscape(c).None? && c < 0x20 {
      ControlEscape(c);
    }
  }

  lemma {:induction false} ControlEscape(c: nat)
    requires c < 0x20
    ensures Hex(c, 4) == [48, 48, HexDigit(c / 16), HexDigit(c % 16)]
  {
    var h := c / 16;
    assert h < 2;
    assert Hex(c, 4) == Hex(h, 3) + [HexDigit(c % 16)];
    assert Hex(h, 3) == Hex(0, 2) + [HexDigit(h)];
    assert Hex(0, 2) == [48, 48];
  }

  /** A string body up to its closing quote, and what follows the quote. */
  function ParseBody(x: Text): (r: Option<(Text, Text)>)
    ensures r.Some? ==> |r.value.1| < |x|
    decreases |x|
  {
    if x == [] then None
    else if x[0] == QUOTE then Some(([], x[1..]))
    else
      match UnescapeHead(x)
      case None => None
      case Some((c, n)) =>
        match ParseBody(x[n..])
        case None => None
        case Some((s, rest)) => Some(([c] + s, rest))
  }

  lemma {:induction false} ParseOfEscaped(s: Text, rest: Text)
    ensures ParseBody(EscapeAll(s) + [QUOTE] + rest) == Some((s, rest))
  {
    var x := EscapeAll(s) + [QUOTE] + rest;
    if s != [] {
      var e := EscapeChar(s[0]);
      var tail := EscapeAll(s[1..]) + [QUOTE] + rest;
      assert x == e + tail;
      UnescapeOfEscape(s[0], tail);
      assert x[|e|..] == tail;
      ParseOfEscaped(s[1..], rest);
      assert s == [s[0]] + s[1..];
    } else {
      assert x[1..] == rest;
    }
  }

  // ----- nested lists -----

  const OPEN: CodePoint := 91
  const CLOSE: CodePoint := 93
  const COMMA: CodePoint := 44

  function Print(t: Tree): Text
    decreases t, 0
  {
    match t
    case TNone => Lit("null")
    case TBool(b) => if b then Lit("true") else Lit("false")
    case TStr(s) => Quote(s)
    case TList(items) => [OPEN] + Join(items) + [CLOSE]
  }

  function Join(items: seq<Tree>): Text
    decreases items
  {
    if items == [] then []
    else if |items| == 1 then Print(items[0])
    else Print(items[0]) + [COMMA] + Join(items[1..])
  }

  function ParseLiteral(x: Text, word: string, value: Tree): (r: Option<(Tree, Text)>)
    requires word != ""
    ensures r.Some? ==> |r.value.1| < |x|
  {
    if Lit(word) <= x then Some((value, x[|word|..])) else None
  }

  function Parse(x: Text): (r: Option<(Tree, Text)>)
    ensures r.Some? ==> |r.value.1| < |x|
    decreases |x|, 0
  {
    if x == [] then None
    else if x[0] == 'n' as int then ParseLiteral(x, "null", TNone)
    else if x[0] == 't' as int then ParseLiteral(x, "true", TBool(true))
    else if x[0] == 'f' as int then ParseLiteral(x, "false", TBool(false))
    else if x[0] == QUOTE then
      (match ParseBody(x[1..]) case None => None case Some((s, rest)) => Some((TStr(s), rest)))
    else if x[0] != OPEN then None
    else if |x| >= 2 && x[1] == CLOSE then Some((TList([]), x[2..]))
    else
      match ParseItems(x[1..])
      case None => None
      case Some((items, rest)) => Some((TList(items), rest))
  }

  /** One or more items separated by commas, then the closing bracket. */
  function ParseItems(x: Text): (r: Option<(seq<Tree>, Text)>)
    ensures r.Some? ==> |r.value.1| < |x|
    decreases |x|, 1
  {
    match Parse(x)
    case None => None
    case Some((item, rest)) =>
      if rest == [] then None
      else if rest[0] == CLOSE then Some(([item], rest[1..]))
      else if rest[0] != COMMA then None
      else
        match ParseItems(rest[1..])
        case None => None
        case Some((items, end)) => Some(([item] + items, end))
  }

  lemma {:induction false} PrintStarts(t: Tree)
    ensures Print(t) != [] && Print(t)[0] != CLOSE
  {
  }

  lemma {:induction false} ParseOfLiteral(word: string, value: Tree, rest: Text)
    requires word != ""
    ensures ParseLiteral(Lit(word) + rest, word, value) == Some((value, rest))
  {
    assert (Lit(word) + rest)[|word|..] == rest;
  }

  /** Unique decodability: a printed tree is read back whatever follows it. */
  lemma {:induction false} ParseOfPrint(t: Tree, rest: Text)
    ensures Parse(Print(t) + rest) == Some((t, rest))
    decreases t, 0
  {
    var x := Print(t) + rest;
    assert x[0] == Print(t)[0];
    match t
    case TNone => ParseOfLiteral("null", t, rest);
    case TBool(b) => ParseOfLiteral(if b then "true" else "false", t, rest);
    case TStr(s) =>
      assert x[1..] == EscapeAll(s) + [QUOTE] + rest;
      ParseOfEscaped(s, rest);
    case TList(items) =>
      assert x[1..] == Join(items) + [CLOSE] + rest;
      if items == [] {
        assert x[2..] == rest;
      } else {
        PrintStarts(items[0]);
        assert x[1] == Print(items[0])[0];
        ParseOfJoin(items, rest);
      }
  }

  lemma {:induction false} ParseOfJoin(items: seq<Tree>, rest: Text)
    requires items != []
    ensures ParseItems(Join(items) + [CLOSE] + rest) == Some((items, rest))
    decreases items
  {
    var x := Join(items) + [CLOSE] + rest;
    if |items| == 1 {
      assert x == Print(items[0]) + ([CLOSE] + rest);
      ParseOfPrint(items[0], [CLOSE] + rest);
      assert items == [items[0]];
      assert ([CLOSE] + rest)[1..] == rest;
    } else {
      var tail := Join(items[1..]) + [CLOSE] + rest;
      assert x == Print(items[0]) + ([COMMA] + tail);
      ParseOfPrint(items[0], [COMMA] + tail);
      assert ([COMMA] + tail)[1..] == tail;
      ParseOfJoin(items[1..], rest);
      assert items == [items[0]] + items[1..];
    }
  }

  // ----- the tagging loops of the source -----

  lemma {:induction false} SameMembersSameTags(ms: seq<(Text, Json)>, ns: seq<(Text, Json)>, e: (Text, Tree))
    requires AcceptsMembers(ms) && AcceptsMembers(ns) && forall m :: m in ms ==> m in ns
    ensures e in TaggedMembers(ms) ==> e in TaggedMembers(ns)
  {
    if e in TaggedMembers(ms) {
      var i :| 0 <= i < |ms| && TaggedMembers(ms)[i] == e;
      assert ms[i] in ns;
      var j :| 0 <= j < |ns| && ns[j] == ms[i];
      assert TaggedMembers(ns)[j] == e;
    }
  }

  lemma {:induction false} TaggingKeepsOrder(keyed: seq<(Text, Json)>)
    requires AcceptsMembers(keyed) && Sorted(KeyLess, keyed)
    ensures Sorted(KeyLess, TaggedMembers(keyed))
  {
    var tagged := TaggedMembers(keyed);
    forall i, j | 0 <= i < j < |tagged| ensures KeyLess(tagged[i], tagged[j]) {
      assert KeyLess(keyed[i], keyed[j]);
    }
  }

  lemma {:induction false} AcceptanceForgetsOrder(ms: seq<(Text, Json)>, ns: seq<(Text, Json)>)
    requires AcceptsMembers(ns) && forall m :: m in ms ==> m in ns
    ensures AcceptsMembers(ms)
  {
    forall i | 0 <= i < |ms| ensures Utf8.Encodable(ms[i].0) && Tag(ms[i].1).Some? {
      assert ms[i] in ns;
    }
  }

  /** Tagging the sorted members is sorting the tagged members. */
  lemma {:induction false} SortCommutesWithTagging(members: seq<(Text, Json)>)
    requires DistinctKeys(members) && AcceptsMembers(members)
    ensures AcceptsMembers(Sort(KeyLess, members))
    ensures Sort(KeyLess, TaggedMembers(members)) == TaggedMembers(Sort(KeyLess, members))
  {
    var keyed := Sort(KeyLess, members);
    AcceptanceForgetsOrder(keyed, members);
    SortedByKey(members);
    SortedByKey(TaggedMembers(members));
    TaggingKeepsOrder(keyed);
    KeyLessIsStrict<Tree>();
    forall e ensures e in TaggedMembers(members) <==> e in TaggedMembers(keyed) {
      SameMembersSameTags(members, keyed, e);
      SameMembersSameTags(keyed, members, e);
    }
    SortedIsUnique(KeyLess, Sort(KeyLess, TaggedMembers(members)), TaggedMembers(keyed));
  }

  method TaggedTree(value: Json) returns (tree: Option<Tree>)
    requires WellFormed(value)
    ensures tree == Tag(value)
    decreases value, 2
  {
    match value {
      case Null => return Some(TList([TStr(Lit("null"))]));
      case Bool(b) => return Some(Tagged("boolean", TBool(b)));
      case Str(s) =>
        if !Utf8.Encodable(s) {
          return None;
        }
        return Some(Tagged("string", TStr(s)));
      case Num(x) =>
        var hex := NumberHex(x);
        if hex.None? {
          return None;
        }
        return Some(Tagged("number", TStr(hex.value)));
      case Arr(items) => tree := TaggedArray(value);
      case Obj(members) => tree := TaggedObject(value);
    }
  }

  method TaggedArray(value: Json) returns (tree: Option<Tree>)
    requires value.Arr? && WellFormed(value)
    ensures tree == Tag(value)
    decreases value, 0
  {
    var items := value.items;
    var trees: seq<Tree> := [];
    for i := 0 to |items|
      invariant |trees| == i
      invariant forall k :: 0 <= k < i ==> Tag(items[k]) == Some(trees[k])
    {
      var item := TaggedTree(items[i]);
      if item.None? {
        return None;
      }
      trees := trees + [item.value];
    }
    assert trees == TaggedItems(items);
    return Some(Tagged("array", TList(trees)));
  }

  /** All keys are encoded first; then the items are tagged in the order of the encoded keys. */
  method TaggedObject(value: Json) returns (tree: Option<Tree>)
    requires value.Obj? && WellFormed(value)
    ensures tree == Tag(value)
    decreases value, 1
  {
    var members := value.members;
    for i := 0 to |members|
      invariant forall k :: 0 <= k < i ==> Utf8.Encodable(members[k].0)
    {
      if !Utf8.Encodable(members[i].0) {
        return None;
      }
    }
    var keyed := Sort(KeyLess, members);
    var tagged := TaggedInOrder(keyed, value);
    if tagged.None? {
      return None;
    }
    AcceptanceForgetsOrder(members, keyed);
    SortCommutesWithTagging(members);
    return Some(Tagged("object", TList(Entries(tagged.value))));
  }

  method TaggedInOrder(keyed: seq<(Text, Json)>, ghost parent: Json) returns (tagged: Option<seq<(Text, Tree)>>)
    requires parent.Obj? && WellFormed(parent) && EncodableKeys(parent.members)
    requires SameElements(keyed, parent.members)
    ensures tagged.Some? <==> AcceptsMembers(keyed)
    ensures tagged.Some? <==> AcceptsMembers(parent.members)
    ensures tagged.Some? ==> tagged.value == TaggedMembers(keyed)
    decreases parent, 0
  {
    var trees: seq<(Text, Tree)> := [];
    for i := 0 to |keyed|
      invariant |trees| == i
      invariant forall k :: 0 <= k < i ==> Tag(keyed[k].1) == Some(trees[k].1) && trees[k].0 == keyed[k].0
    {
      assert keyed[i] in parent.members;
      var item := TaggedTree(keyed[i].1);
      if item.None? {
        return None;
      }
      trees := trees + [(keyed[i].0, item.value)];
    }
    EncodableForgetsOrder(keyed, parent.members);
    AcceptanceForgetsOrder(parent.members, keyed);
    assert trees == TaggedMembers(keyed);
    return Some(trees);
  }

  lemma {:induction false} EncodableForgetsOrder(ms: seq<(Text, Json)>, ns: seq<(Text, Json)>)
    requires EncodableKeys(ns) && forall m :: m in ms ==> m in ns
    ensures EncodableKeys(ms)
  {
    forall i | 0 <= i < |ms| ensures Utf8.Encodable(ms[i].0) {
      assert ms[i] in ns;
    }
  }
}
