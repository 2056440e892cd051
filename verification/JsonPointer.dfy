/** JSON Pointers (sections 3 and 4 of RFC 6901): the printer of authoring/input_validation.py
    and the reader of authoring/evidence_runtime.py. */
module JsonPointer {
  import opened Foundations
  import opened CanonicalJson

  const SLASH: CodePoint := 47
  const TILDE: CodePoint := 126
  const ZERO: CodePoint := 48
  const ONE: CodePoint := 49

  /** One element of an error location: a string key or a list index. */
  datatype Part = Key(name: Text) | Index(n: int)

  /** `str(part)`. */
  function PartText(part: Part): Text {
    match part
    case Key(name) => name
    case Index(n) => if n < 0 then [45] + Decimal(-n) else Decimal(n)
  }

  function PathText(path: seq<Part>): (texts: seq<Text>)
    ensures |texts| == |path|
  {
    seq(|path|, i requires 0 <= i < |path| => PartText(path[i]))
  }

  // ----- printing -----

  /** `text.replace(c, r)` for a one-character pattern. */
  function ReplaceCharacter(text: Text, c: CodePoint, r: Text): Text {
    if text == [] then []
    else (if text[0] == c then r else [text[0]]) + ReplaceCharacter(text[1..], c, r)
  }

  function Escape(part: Text): Text {
    ReplaceCharacter(ReplaceCharacter(part, TILDE, [TILDE, ZERO]), SLASH, [TILDE, ONE])
  }

  function PointerOf(parts: seq<Text>): Text {
    if parts == [] then [] else [SLASH] + Escape(parts[0]) + PointerOf(parts[1..])
  }

  function JsonPointer(location: seq<Part>): Text {
    PointerOf(PathText(location))
  }

  // ----- reading -----

  /** `text.replace(ab, c)` for a two-character pattern, leftmost matches first. */
  function ReplacePair(text: Text, a: CodePoint, b: CodePoint, c: CodePoint): Text {
    if text == [] then []
    else if |text| >= 2 && text[0] == a && text[1] == b then [c] + ReplacePair(text[2..], a, b, c)
    else [text[0]] + ReplacePair(text[1..], a, b, c)
  }

  function Unescape(raw: Text): Text {
    ReplacePair(ReplacePair(raw, TILDE, ONE, SLASH), TILDE, ZERO, TILDE)
  }

  /** `text.split("/")`: always at least one piece. */
  function Split(text: Text): (pieces: seq<Text>)
    ensures pieces != []
  {
    if text == [] then [[]]
    else
      var rest := Split(text[1..]);
      if text[0] == SLASH then [[]] + rest else [[text[0]] + rest[0]] + rest[1..]
  }

  function RemovePrefix(pointer: Text): Text {
    if pointer != [] && pointer[0] == SLASH then pointer[1..] else pointer
  }

  function PointerParts(pointer: Text): seq<Text> {
    var pieces := Split(RemovePrefix(pointer));
    seq(|pieces|, i requires 0 <= i < |pieces| => Unescape(pieces[i]))
  }

  /** One step into a document; `int()` is the parameter parseInt, and a negative index counts
      from the end. */
  function Step(parseInt: Text -> Option<int>, current: Json, part: Text): Option<Json> {
    match current
    case Obj(members) => Lookup(members, part)
    case Arr(items) =>
      (match parseInt(part)
       case Some(n) =>
         if 0 <= n < |items| then Some(items[n])
         else if -|items| <= n < 0 then Some(items[|items| + n])
         else None
       case None => None)
    case _ => None
  }

  function Walk(parseInt: Text -> Option<int>, document: Json, parts: seq<Text>): Option<Json>
    decreases |parts|
  {
    if parts == [] then Some(document)
    else
      match Step(parseInt, document, parts[0])
      case Some(next) => Walk(parseInt, next, parts[1..])
      case None => None
  }

  method ResolvePointer(parseInt: Text -> Option<int>, document: Json, pointer: Text)
    returns (found: Option<Json>)
    ensures found == Walk(parseInt, document, PointerParts(pointer))
  {
    var current := document;
    var pieces := Split(RemovePrefix(pointer));
    for i := 0 to |pieces|
      invariant Walk(parseInt, document, PointerParts(pointer))
             == Walk(parseInt, current, PointerParts(pointer)[i..])
    {
      var part := Unescape(pieces[i]);
      assert PointerParts(pointer)[i..][0] == part;
      assert PointerParts(pointer)[i..][1..] == PointerParts(pointer)[i + 1..];
      match Step(parseInt, current, part) {
        case Some(next) => current := next;
        case None => return None;
      }
    }
    return Some(current);
  }

  // ----- escaping is undone -----

  /** Escaping one character at a time. */
  function EscapeCharacter(c: CodePoint): Text {
    if c == TILDE then [TILDE, ZERO] else if c == SLASH then [TILDE, ONE] else [c]
  }

  lemma {:induction false} ReplaceCons(x: CodePoint, t: Text, c: CodePoint, r: Text)
    ensures ReplaceCharacter([x] + t, c, r) == (if x == c then r else [x]) + ReplaceCharacter(t, c, r)
  {
    assert ([x] + t)[1..] == t;
  }

  lemma {:induction false} ReplaceConcat(s: Text, t: Text, c: CodePoint, r: Text)
    ensures ReplaceCharacter(s + t, c, r) == ReplaceCharacter(s, c, r) + ReplaceCharacter(t, c, r)
  {
    if s == [] {
      assert s + t == t;
    } else {
      var tail := s[1..];
      var first := if s[0] == c then r else [s[0]];
      ReplaceConcat(tail, t, c, r);
      assert s + t == [s[0]] + (tail + t);
      ReplaceCons(s[0], tail + t, c, r);
      Associate(first, ReplaceCharacter(tail, c, r), ReplaceCharacter(t, c, r));
    }
  }

  lemma {:induction false} Associate(a: Text, b: Text, c: Text)
    ensures a + (b + c) == (a + b) + c
  {
  }

  lemma {:induction false} EscapeCons(c: CodePoint, rest: Text)
    ensures Escape([c] + rest) == EscapeCharacter(c) + Escape(rest)
  {
    var first := ReplaceCharacter([c], TILDE, [TILDE, ZERO]);
    ReplaceConcat([c], rest, TILDE, [TILDE, ZERO]);
    ReplaceConcat(first, ReplaceCharacter(rest, TILDE, [TILDE, ZERO]), SLASH, [TILDE, ONE]);
    assert [c][1..] == [];
    assert first == if c == TILDE then [TILDE, ZERO] else [c];
    assert [TILDE, ZERO][1..] == [ZERO] && [ZERO][1..] == [];
    assert ReplaceCharacter([ZERO], SLASH, [TILDE, ONE]) == [ZERO];
    assert ReplaceCharacter(first, SLASH, [TILDE, ONE]) == EscapeCharacter(c);
  }

  lemma {:induction false} NoSlashInEscape(part: Text)
    ensures SLASH !in Escape(part)
  {
    if part != [] {
      NoSlashInEscape(part[1..]);
      EscapeCons(part[0], part[1..]);
      assert part == [part[0]] + part[1..];
    }
  }

  lemma {:induction false} PairMatches(a: CodePoint, b: CodePoint, c: CodePoint, rest: Text)
    ensures ReplacePair([a, b] + rest, a, b, c) == [c] + ReplacePair(rest, a, b, c)
  {
    assert ([a, b] + rest)[2..] == rest;
  }

  lemma {:induction false} PairSkips(x: CodePoint, rest: Text, a: CodePoint, b: CodePoint, c: CodePoint)
    requires x != a || rest == [] || rest[0] != b
    ensures ReplacePair([x] + rest, a, b, c) == [x] + ReplacePair(rest, a, b, c)
  {
    assert ([x] + rest)[1..] == rest;
  }

  /** The first pass of the reader restores the slashes and nothing else. */
  lemma {:induction false} FirstPass(part: Text)
    ensures ReplacePair(Escape(part), TILDE, ONE, SLASH) == ReplaceCharacter(part, TILDE, [TILDE, ZERO])
  {
    if part != [] {
      var rest := Escape(part[1..]);
      FirstPass(part[1..]);
      assert part == [part[0]] + part[1..];
      EscapeCons(part[0], part[1..]);
      if part[0] == TILDE {
        assert [TILDE, ZERO] + rest == [TILDE] + ([ZERO] + rest);
        PairSkips(TILDE, [ZERO] + rest, TILDE, ONE, SLASH);
        PairSkips(ZERO, rest, TILDE, ONE, SLASH);
      } else if part[0] == SLASH {
        PairMatches(TILDE, ONE, SLASH, rest);
      } else {
        PairSkips(part[0], rest, TILDE, ONE, SLASH);
      }
    }
  }

  lemma {:induction false} SecondPass(part: Text)
    ensures ReplacePair(ReplaceCharacter(part, TILDE, [TILDE, ZERO]), TILDE, ZERO, TILDE) == part
  {
    if part != [] {
      var rest := ReplaceCharacter(part[1..], TILDE, [TILDE, ZERO]);
      SecondPass(part[1..]);
      assert part == [part[0]] + part[1..];
      if part[0] == TILDE {
        PairMatches(TILDE, ZERO, TILDE, rest);
      } else {
        PairSkips(part[0], rest, TILDE, ZERO, TILDE);
      }
    }
  }

  lemma {:induction false} UnescapeOfEscape(part: Text)
    ensures Unescape(Escape(part)) == part
  {
    FirstPass(part);
    SecondPass(part);
  }

  // ----- splitting is undone -----

  lemma {:induction false} SplitPiece(piece: Text, rest: Text)
    requires SLASH !in piece
    ensures Split(piece + [SLASH] + rest) == [piece] + Split(rest)
    ensures Split(piece) == [piece]
  {
    var text := piece + [SLASH] + rest;
    if piece == [] {
      assert text[1..] == rest;
    } else {
      SplitPiece(piece[1..], rest);
      assert text[1..] == piece[1..] + [SLASH] + rest;
      assert piece == [piece[0]] + piece[1..];
      assert piece[0] in piece;
    }
  }

  function EscapeEach(parts: seq<Text>): seq<Text> {
    if parts == [] then [] else [Escape(parts[0])] + EscapeEach(parts[1..])
  }

  lemma {:induction false} SplitOfPointer(parts: seq<Text>)
    requires parts != []
    ensures PointerOf(parts) != [] && PointerOf(parts)[0] == SLASH
    ensures Split(PointerOf(parts)[1..]) == EscapeEach(parts)
  {
    var first := Escape(parts[0]);
    NoSlashInEscape(parts[0]);
    if |parts| == 1 {
      assert PointerOf(parts)[1..] == first;
      SplitPiece(first, []);
    } else {
      SplitOfPointer(parts[1..]);
      var rest := PointerOf(parts[1..])[1..];
      assert PointerOf(parts)[1..] == first + [SLASH] + rest;
      SplitPiece(first, rest);
    }
  }

  lemma {:induction false} UnescapeEach(parts: seq<Text>)
    ensures |EscapeEach(parts)| == |parts|
    ensures forall i :: 0 <= i < |parts| ==> Unescape(EscapeEach(parts)[i]) == parts[i]
  {
    if parts != [] {
      UnescapeOfEscape(parts[0]);
      UnescapeEach(parts[1..]);
    }
  }

  /** Reading a printed pointer gives back the path, exactly when the path is not empty: the
      empty path prints as "", which reads back as the one-element path [""]. */
  lemma {:induction false} ReadingUndoesPrinting(location: seq<Part>)
    ensures PointerParts(JsonPointer(location)) == PathText(location) <==> location != []
  {
    var parts := PathText(location);
    if location == [] {
      assert |PointerParts(JsonPointer(location))| == 1;
    } else {
      SplitOfPointer(parts);
      UnescapeEach(parts);
    }
  }

  /** Locations print alike exactly when their parts do, so an index and its decimal key clash
      and nothing else does. */
  lemma {:induction false} PointersIdentifyPaths(p: seq<Part>, q: seq<Part>)
    ensures JsonPointer(p) == JsonPointer(q) <==> PathText(p) == PathText(q)
  {
    if JsonPointer(p) == JsonPointer(q) {
      if p != [] && q != [] {
        ReadingUndoesPrinting(p);
        ReadingUndoesPrinting(q);
      }
      assert p == [] <==> q == [];
    }
  }
}
