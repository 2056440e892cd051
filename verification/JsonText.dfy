/** Compact JSON text as `json.dumps` writes it with sorted keys, and a reader that undoes it: the text
    determines the document (section 2 of RFC 8259). */
module JsonText {
  import opened Foundations
  import CanonicalBytes

  const QUOTE: CodePoint := 34
  const PLUS: CodePoint := 43
  const COMMA: CodePoint := 44
  const DASH: CodePoint := 45
  const POINT: CodePoint := 46
  const COLON: CodePoint := 58
  const OPEN_ARRAY: CodePoint := 91
  const CLOSE_ARRAY: CodePoint := 93
  const OPEN_OBJECT: CodePoint := 123
  const CLOSE_OBJECT: CodePoint := 125

  predicate NumberCharacter(c: int) {
    IsDigit(c) || c == PLUS || c == DASH || c == POINT || c == 'e' as int || c == 'E' as int
  }

  predicate NumberStart(c: int) {
    IsDigit(c) || c == DASH
  }

  /** The text of a number. */
  type NumberText = t: Text |
    t != [] && NumberStart(t[0]) && forall i :: 0 <= i < |t| ==> NumberCharacter(t[i]) witness [48]

  /** A document with the members of every object in the order in which they are written. */
  datatype Doc =
    | DNull
    | DBool(b: bool)
    | DStr(s: Text)
    | DNum(number: NumberText)
    | DArr(items: seq<Doc>)
    | DObj(members: seq<Member>)

  datatype Member = Member(key: Text, value: Doc)

  function Print(d: Doc): (t: Text)
    ensures t != []
  {
    match d
    case DNull => Lit("null")
    case DBool(b) => if b then Lit("true") else Lit("false")
    case DStr(s) => CanonicalBytes.Quote(s)
    case DNum(number) => number
    case DArr(items) => [OPEN_ARRAY] + (if items == [] then [CLOSE_ARRAY] else PrintItems(items))
    case DObj(members) => [OPEN_OBJECT] + (if members == [] then [CLOSE_OBJECT] else PrintMembers(members))
  }

  /** Items and the closing bracket. */
  function PrintItems(items: seq<Doc>): Text
    requires items != []
  {
    Print(items[0]) + (if |items| == 1 then [CLOSE_ARRAY] else [COMMA] + PrintItems(items[1..]))
  }

  /** Members and the closing brace. */
  function PrintMembers(members: seq<Member>): Text
    requires members != []
  {
    CanonicalBytes.Quote(members[0].key) + [COLON] + Print(members[0].value)
    + (if |members| == 1 then [CLOSE_OBJECT] else [COMMA] + PrintMembers(members[1..]))
  }

  // ----- the reader -----

  function NumberRun(x: Text): (n: nat)
    ensures n <= |x| && forall i :: 0 <= i < n ==> NumberCharacter(x[i])
  {
    if x == [] || !NumberCharacter(x[0]) then 0 else 1 + NumberRun(x[1..])
  }

  function ReadWord(x: Text, word: string, value: Doc): (r: Option<(Doc, Text)>)
    requires word != ""
    ensures r.Some? ==> |r.value.1| < |x|
  {
    if Lit(word) <= x then Some((value, x[|word|..])) else None
  }

  function Read(x: Text): (r: Option<(Doc, Text)>)
    ensures r.Some? ==> |r.value.1| < |x|
    decreases |x|, 0
  {
    if x == [] then None
    else if x[0] == 'n' as int then ReadWord(x, "null", DNull)
    else if x[0] == 't' as int then ReadWord(x, "true", DBool(true))
    else if x[0] == 'f' as int then ReadWord(x, "false", DBool(false))
    else if x[0] == QUOTE then
      (match CanonicalBytes.ParseBody(x[1..]) case None => None case Some((s, rest)) => Some((DStr(s), rest)))
    else if NumberStart(x[0]) then
      var n := NumberRun(x);
      if n == 0 then None else Some((DNum(x[..n]), x[n..]))
    else if x[0] == OPEN_ARRAY then
      if |x| >= 2 && x[1] == CLOSE_ARRAY then Some((DArr([]), x[2..]))
      else (match ReadItems(x[1..]) case None => None case Some((items, rest)) => Some((DArr(items), rest)))
    else if x[0] == OPEN_OBJECT then
      if |x| >= 2 && x[1] == CLOSE_OBJECT then Some((DObj([]), x[2..]))
      else (match ReadMembers(x[1..]) case None => None case Some((members, rest)) => Some((DObj(members), rest)))
    else None
  }

  function ReadItems(x: Text): (r: Option<(seq<Doc>, Text)>)
    ensures r.Some? ==> |r.value.1| < |x|
    decreases |x|, 1
  {
    match Read(x)
    case None => None
    case Some((item, rest)) =>
      if rest == [] then None
      else if rest[0] == CLOSE_ARRAY then Some(([item], rest[1..]))
      else if rest[0] != COMMA then None
      else
        match ReadItems(rest[1..])
        case None => None
        case Some((items, end)) => Some(([item] + items, end))
  }

  function ReadMembers(x: Text): (r: Option<(seq<Member>, Text)>)
    ensures r.Some? ==> |r.value.1| < |x|
    decreases |x|, 1
  {
    if x == [] || x[0] != QUOTE then None
    else
      match CanonicalBytes.ParseBody(x[1..])
      case None => None
      case Some((key, y)) =>
        if y == [] || y[0] != COLON then None
        else
          match Read(y[1..])
          case None => None
          case Some((value, rest)) =>
            if rest == [] then None
            else if rest[0] == CLOSE_OBJECT then Some(([Member(key, value)], rest[1..]))
            else if rest[0] != COMMA then None
            else
              match ReadMembers(rest[1..])
              case None => None
              case Some((members, end)) => Some(([Member(key, value)] + members, end))
  }

  // ----- reading undoes printing -----

  /** What may follow a document: nothing that would lengthen a number. */
  predicate Delimits(rest: Text) {
    rest == [] || !NumberCharacter(rest[0])
  }

  lemma {:induction false} NumberRunStops(number: Text, rest: Text)
    requires (forall i :: 0 <= i < |number| ==> NumberCharacter(number[i])) && Delimits(rest)
    ensures NumberRun(number + rest) == |number|
  {
    if number == [] {
      assert number + rest == rest;
    } else {
      assert (number + rest)[1..] == number[1..] + rest;
      NumberRunStops(number[1..], rest);
    }
  }

  lemma {:induction false} ReadOfWord(word: string, value: Doc, rest: Text)
    requires word != ""
    ensures ReadWord(Lit(word) + rest, word, value) == Some((value, rest))
  {
    assert (Lit(word) + rest)[|word|..] == rest;
  }

  lemma {:induction false} ReadOfNumber(number: NumberText, rest: Text)
    requires Delimits(rest)
    ensures Read(number + rest) == Some((DNum(number), rest))
  {
    var x := number + rest;
    assert x[0] == number[0];
    NumberRunStops(number, rest);
    assert x[..|number|] == number && x[|number|..] == rest;
  }

  lemma {:induction false} AfterQuote(body: Text, rest: Text)
    ensures var x := [QUOTE] + body + [QUOTE] + rest; x[0] == QUOTE && x[1..] == body + [QUOTE] + rest
  {
  }

  lemma {:induction false} ReadOfString(s: Text, rest: Text)
    ensures Read(CanonicalBytes.Quote(s) + rest) == Some((DStr(s), rest))
  {
    AfterQuote(CanonicalBytes.EscapeAll(s), rest);
    CanonicalBytes.ParseOfEscaped(s, rest);
  }

  lemma {:induction false} PrintStarts(d: Doc)
    ensures Print(d)[0] != CLOSE_ARRAY
  {
    assert Lit("null")[0] == 'n' as int && Lit("true")[0] == 't' as int && Lit("false")[0] == 'f' as int;
  }

  lemma {:induction false} ReadOfPrint(d: Doc, rest: Text)
    requires Delimits(rest)
    ensures Read(Print(d) + rest) == Some((d, rest))
    decreases d, 0
  {
    match d
    case DNull =>
      assert (Lit("null") + rest)[0] == 'n' as int;
      ReadOfWord("null", d, rest);
    case DBool(b) =>
      assert (Lit("true") + rest)[0] == 't' as int && (Lit("false") + rest)[0] == 'f' as int;
      ReadOfWord(if b then "true" else "false", d, rest);
    case DStr(s) => ReadOfString(s, rest);
    case DNum(number) => ReadOfNumber(number, rest);
    case DArr(items) =>
      if items != [] {
        ReadOfItems(items, rest);
        PrintStarts(items[0]);
      }
      ReadOfArray(items, rest);
    case DObj(members) =>
      if members != [] {
        ReadOfMembers(members, rest);
      }
      ReadOfObject(members, rest);
  }

  lemma {:induction false} ReadOfArray(items: seq<Doc>, rest: Text)
    requires items != [] ==> Print(items[0])[0] != CLOSE_ARRAY
    requires items != [] ==> ReadItems(PrintItems(items) + rest) == Some((items, rest))
    ensures Read(Print(DArr(items)) + rest) == Some((DArr(items), rest))
  {
    var x := Print(DArr(items)) + rest;
    assert x[0] == OPEN_ARRAY;
    if items == [] {
      assert x[1] == CLOSE_ARRAY && x[2..] == rest;
    } else {
      assert x[1..] == PrintItems(items) + rest;
      assert x[1] == Print(items[0])[0];
    }
  }

  lemma {:induction false} MembersStart(members: seq<Member>)
    requires members != []
    ensures PrintMembers(members) != [] && PrintMembers(members)[0] == QUOTE
  {
  }

  lemma {:induction false} AfterBrace(body: Text, rest: Text)
    ensures var x := [OPEN_OBJECT] + body + rest; x[0] == OPEN_OBJECT && x[1..] == body + rest
  {
  }

  lemma {:induction false} ReadOfObject(members: seq<Member>, rest: Text)
    requires members != [] ==> ReadMembers(PrintMembers(members) + rest) == Some((members, rest))
    ensures Read(Print(DObj(members)) + rest) == Some((DObj(members), rest))
  {
    var body := if members == [] then [CLOSE_OBJECT] else PrintMembers(members);
    var x := [OPEN_OBJECT] + body + rest;
    AfterBrace(body, rest);
    assert x[1] == x[1..][0] == body[0];
    if members == [] {
      assert x[2..] == rest;
    } else {
      MembersStart(members);
    }
  }

  lemma {:induction false} ReadOfItems(items: seq<Doc>, rest: Text)
    requires items != []
    ensures ReadItems(PrintItems(items) + rest) == Some((items, rest))
    decreases items
  {
    var tail := if |items| == 1 then [CLOSE_ARRAY] + rest else [COMMA] + (PrintItems(items[1..]) + rest);
    assert PrintItems(items) + rest == Print(items[0]) + tail;
    ReadOfPrint(items[0], tail);
    if |items| == 1 {
      assert items == [items[0]] && tail[1..] == rest;
    } else {
      ReadOfItems(items[1..], rest);
      assert tail[1..] == PrintItems(items[1..]) + rest;
      assert items == [items[0]] + items[1..];
    }
  }

  lemma {:induction false} ReadOneMember(key: Text, value: Doc, tail: Text)
    requires tail != [] && Read(Print(value) + tail) == Some((value, tail))
    ensures ReadMembers(CanonicalBytes.Quote(key) + [COLON] + Print(value) + tail) ==
      if tail[0] == CLOSE_OBJECT then Some(([Member(key, value)], tail[1..]))
      else if tail[0] != COMMA then None
      else
        match ReadMembers(tail[1..])
        case None => None
        case Some((members, end)) => Some(([Member(key, value)] + members, end))
  {
    var y := [COLON] + (Print(value) + tail);
    var x := CanonicalBytes.Quote(key) + y;
    KeyIsRead(key, y);
    assert y[1..] == Print(value) + tail;
    Regroup(CanonicalBytes.Quote(key), Print(value), tail);
    ReadsMember(x, key, y, value, tail);
  }

  lemma {:induction false} Regroup(key: Text, value: Text, tail: Text)
    ensures key + [COLON] + value + tail == key + ([COLON] + (value + tail))
  {
  }

  lemma {:induction false} KeyIsRead(key: Text, y: Text)
    ensures var x := CanonicalBytes.Quote(key) + y;
      x[0] == QUOTE && CanonicalBytes.ParseBody(x[1..]) == Some((key, y))
  {
    AfterQuote(CanonicalBytes.EscapeAll(key), y);
    CanonicalBytes.ParseOfEscaped(key, y);
  }

  /** One step of the reader of members. */
  lemma {:induction false} ReadsMember(x: Text, key: Text, y: Text, value: Doc, tail: Text)
    requires x != [] && x[0] == QUOTE && CanonicalBytes.ParseBody(x[1..]) == Some((key, y))
    requires y != [] && y[0] == COLON && tail != [] && Read(y[1..]) == Some((value, tail))
    ensures ReadMembers(x) ==
      if tail[0] == CLOSE_OBJECT then Some(([Member(key, value)], tail[1..]))
      else if tail[0] != COMMA then None
      else
        match ReadMembers(tail[1..])
        case None => None
        case Some((members, end)) => Some(([Member(key, value)] + members, end))
  {
  }

  lemma {:induction false} ReadOfMembers(members: seq<Member>, rest: Text)
    requires members != []
    ensures ReadMembers(PrintMembers(members) + rest) == Some((members, rest))
    decreases members
  {
    var Member(key, value) := members[0];
    var tail := if |members| == 1 then [CLOSE_OBJECT] + rest else [COMMA] + (PrintMembers(members[1..]) + rest);
    assert PrintMembers(members) + rest == CanonicalBytes.Quote(key) + [COLON] + Print(value) + tail;
    ReadOfPrint(value, tail);
    ReadOneMember(key, value, tail);
    if |members| == 1 {
      assert members == [Member(key, value)] && tail[1..] == rest;
    } else {
      ReadOfMembers(members[1..], rest);
      assert tail[1..] == PrintMembers(members[1..]) + rest;
      assert members == [Member(key, value)] + members[1..];
    }
  }

  /** The text determines the document. */
  lemma {:induction false} PrintIsInjective(a: Doc, b: Doc)
    ensures Print(a) == Print(b) <==> a == b
  {
    ReadOfPrint(a, []);
    ReadOfPrint(b, []);
    assert Print(a) + [] == Print(a) && Print(b) + [] == Print(b);
  }
}
