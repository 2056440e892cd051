/** Opaque page cursors of a session (shared/session_cas.py, encode_cursor and decode_cursor):
    a JSON payload and its keyed digest, printed as base64url. */
module Cursor {
  import opened Foundations
  import Utf8
  import Base64Url
  import opened Binary64
  import opened CanonicalJson
  import opened CanonicalBytes

  const MAX_CURSOR_BYTES: nat := 512
  const MAC_BYTES: nat := 32

  /** The functions a session is built on: HMAC-SHA-256 under the session's key, the hex SHA-256,
      and `strict_json_loads` (None where it raises). */
  datatype Session = Session(mac: Bytes -> Bytes, digest: Bytes -> Text, loads: Bytes -> Option<Json>)

  datatype Payload = Payload(next: nat, reference: Text, selector: Option<Text>, view: Text)

  /** The value a payload stands for, with its keys in order. */
  function PayloadValue(p: Payload): Json {
    Obj([(Lit("i"), Num(Int(p.next))),
         (Lit("r"), Str(p.reference)),
         (Lit("s"), match p.selector case Some(s) => Str(s) case None => Null),
         (Lit("v"), Str(p.view)),
         (Lit("z"), Num(Int(1)))])
  }

  const COLON: CodePoint := 58
  const COMMA: CodePoint := 44
  const OPEN: CodePoint := 123
  const CLOSE: CodePoint := 125

  /** `json.dumps` of a string, a null or a natural number. */
  function ScalarText(value: Json): Text {
    match value
    case Str(s) => Quote(s)
    case Num(Int(n)) => if n >= 0 then Decimal(n) else []
    case _ => Lit("null")
  }

  /** `json.dumps` of the members of a flat object with compact separators, and the closing brace. */
  function MembersText(members: seq<(Text, Json)>): Text {
    if members == [] then [CLOSE]
    else
      Quote(members[0].0) + [COLON] + ScalarText(members[0].1)
      + (if |members| == 1 then [CLOSE] else [COMMA] + MembersText(members[1..]))
  }

  /** The text of a payload inside a token. */
  function Dumps(p: Payload): Text {
    [OPEN] + MembersText(PayloadValue(p).members)
  }

  // ----- reading a payload back -----

  /** A run of digits appended to a number, and what follows the run. */
  function ReadDigits(x: Text, value: nat): (nat, Text)
    decreases |x|
  {
    if x == [] || !IsDigit(x[0]) then (value, x) else ReadDigits(x[1..], 10 * value + (x[0] - 48))
  }

  /** A natural number without leading zeros, in the canonical range. */
  function ReadNatural(x: Text): Option<(nat, Text)> {
    if x == [] || !IsDigit(x[0]) then None
    else if x[0] == 48 then Some((0, x[1..]))
    else
      var (n, rest) := ReadDigits(x, 0);
      if n > MAX_SAFE_INTEGER then None else Some((n, rest))
  }

  /** A string, a null or a natural number. */
  function ReadScalar(x: Text): (r: Option<(Json, Text)>)
  {
    if x == [] then None
    else if x[0] == QUOTE then
      (match ParseBody(x[1..]) case None => None case Some((s, rest)) => Some((Str(s), rest)))
    else if Lit("null") <= x then Some((Null, x[4..]))
    else (match ReadNatural(x) case None => None case Some((n, rest)) => Some((Num(Int(n)), rest)))
  }

  /** The members of a compact object up to its closing brace, and what follows the brace. */
  function ReadMembers(x: Text): Option<(seq<(Text, Json)>, Text)>
    decreases |x|
  {
    if x == [] || x[0] != QUOTE then None
    else
      match ParseBody(x[1..])
      case None => None
      case Some((key, y)) =>
        if y == [] || y[0] != COLON then None
        else
          match ReadScalar(y[1..])
          case None => None
          case Some((value, z)) =>
            if z == [] || |z| >= |y| then None
            else if z[0] == CLOSE then Some(([(key, value)], z[1..]))
            else if z[0] != COMMA then None
            else
              match ReadMembers(z[1..])
              case None => None
              case Some((more, rest)) => Some(([(key, value)] + more, rest))
  }

  /** A flat compact object of strings, nulls and safe natural numbers, read from strict UTF-8. */
  function ReadCompact(b: Bytes): Option<Json> {
    match Utf8.Decode(b)
    case None => None
    case Some(text) =>
      if text == [] || text[0] != OPEN || !NoControls(text) then None
      else
        match ReadMembers(text[1..])
        case None => None
        case Some((members, rest)) => if rest == [] && DistinctKeys(members) then Some(Obj(members)) else None
  }

  /** The digest of HMAC-SHA-256 has 32 bytes, and the strict reader reads what the compact one does. */
  ghost predicate SessionOk(session: Session) {
    && (forall b :: |session.mac(b)| == MAC_BYTES)
    && (forall b :: ReadCompact(b).Some? ==> session.loads(b) == ReadCompact(b))
  }

  lemma {:induction false} SessionsExist() returns (session: Session)
    ensures SessionOk(session)
  {
    session := Session((b: Bytes) => seq(MAC_BYTES, i => 0), (b: Bytes) => [], (b: Bytes) => ReadCompact(b));
  }

  lemma {:induction false} DigitsOfDecimal(n: nat, rest: Text, value: nat)
    ensures ReadDigits(Decimal(n) + rest, value) == ReadDigits(rest, value * Pow10(|Decimal(n)|) + n)
    decreases n
  {
    if n < 10 {
      var x := Decimal(n) + rest;
      assert x[1..] == rest;
      assert Pow10(1) == 10;
    } else {
      var front, last: Text := Decimal(n / 10), [48 + n % 10];
      assert Decimal(n) + rest == front + (last + rest);
      DigitsOfDecimal(n / 10, last + rest, value);
      assert (last + rest)[1..] == rest;
      assert Pow10(|Decimal(n)|) == 10 * Pow10(|front|);
      assert value * Pow10(|Decimal(n)|) == 10 * (value * Pow10(|front|));
    }
  }

  lemma {:induction false} DecimalStarts(n: nat)
    ensures n > 0 ==> Decimal(n)[0] != 48
    ensures n == 0 ==> Decimal(n) == [48]
    decreases n
  {
    if n >= 10 {
      DecimalStarts(n / 10);
    }
  }

  lemma {:induction false} NaturalOfDecimal(n: nat, rest: Text)
    requires n <= MAX_SAFE_INTEGER && rest != [] && !IsDigit(rest[0])
    ensures ReadScalar(Decimal(n) + rest) == Some((Num(Int(n)), rest))
  {
    var x := Decimal(n) + rest;
    DecimalStarts(n);
    DigitsOfDecimal(n, rest, 0);
    assert x[0] == Decimal(n)[0];
    assert !(Lit("null") <= x) by {
      assert Lit("null")[0] == 110;
    }
    if n == 0 {
      assert x[1..] == rest;
    }
  }

  lemma {:induction false} StringOfQuote(s: Text, rest: Text)
    ensures ReadScalar(Quote(s) + rest) == Some((Str(s), rest))
  {
    var x := Quote(s) + rest;
    ParseOfEscaped(s, rest);
    assert x[1..] == EscapeAll(s) + [QUOTE] + rest;
  }

  lemma {:induction false} NullOfLiteral(rest: Text)
    ensures ReadScalar(Lit("null") + rest) == Some((Null, rest))
  {
    var x := Lit("null") + rest;
    assert x[0] == Lit("null")[0] == 110;
    assert x[4..] == rest;
  }

  /** One step of the reader. */
  lemma {:induction false} ReadOneMember(x: Text, key: Text, y: Text, value: Json, rest: Text)
    requires x != [] && x[0] == QUOTE && ParseBody(x[1..]) == Some((key, y))
    requires y != [] && y[0] == COLON && ReadScalar(y[1..]) == Some((value, rest))
    requires rest != [] && |rest| < |y|
    ensures ReadMembers(x) ==
      if rest[0] == CLOSE then Some(([(key, value)], rest[1..]))
      else if rest[0] != COMMA then None
      else
        match ReadMembers(rest[1..])
        case None => None
        case Some((more, end)) => Some(([(key, value)] + more, end))
  {
  }

  lemma {:induction false} AfterOpeningQuote(body: Text, printed: Text, rest: Text)
    ensures var x := [QUOTE] + body + [QUOTE] + [COLON] + printed + rest;
      && x[0] == QUOTE && x[1..] == body + [QUOTE] + ([COLON] + printed + rest)
    ensures ([COLON] + printed + rest)[1..] == printed + rest
  {
    var x := [QUOTE] + body + [QUOTE] + [COLON] + printed + rest;
    assert x == [QUOTE] + (body + [QUOTE] + ([COLON] + printed + rest));
  }

  /** One member: a quoted key, a colon, the text of a scalar, and a comma or the closing brace. */
  lemma {:induction false} MemberOfText(key: Text, value: Json, printed: Text, rest: Text)
    requires rest != [] && ReadScalar(printed + rest) == Some((value, rest))
    ensures ReadMembers(Quote(key) + [COLON] + printed + rest) ==
      if rest[0] == CLOSE then Some(([(key, value)], rest[1..]))
      else if rest[0] != COMMA then None
      else
        match ReadMembers(rest[1..])
        case None => None
        case Some((more, end)) => Some(([(key, value)] + more, end))
  {
    var x := Quote(key) + [COLON] + printed + rest;
    var y := [COLON] + printed + rest;
    ParseOfEscaped(key, y);
    AfterOpeningQuote(EscapeAll(key), printed, rest);
    ReadOneMember(x, key, y, value, rest);
  }

  // ----- selectors -----

  /** The ASCII bytes of "defined-quant-cursor-selector-v1" and a NUL. */
  const SELECTOR_DOMAIN: Bytes :=
    [100, 101, 102, 105, 110, 101, 100, 45, 113, 117, 97, 110, 116, 45, 99, 117, 114, 115, 111, 114,
     45, 115, 101, 108, 101, 99, 116, 111, 114, 45, 118, 49, 0]

  predicate ValidSelector(selector: Option<Text>) {
    selector.Some? ==>
      selector.value != [] && Utf8.Encodable(selector.value) && |Utf8.Encode(selector.value)| <= 240
  }

  /** The digest that stands for a selector inside a cursor. */
  function SelectorBinding(session: Session, selector: Option<Text>): Option<Text>
    requires ValidSelector(selector)
  {
    match selector
    case None => None
    case Some(text) => Some(session.digest(SELECTOR_DOMAIN + Utf8.Encode(text)))
  }

  /** The digest separates two given selectors. */
  ghost predicate SelectorsDoNotCollide(session: Session, a: Option<Text>, b: Option<Text>)
    requires ValidSelector(a) && ValidSelector(b)
  {
    SelectorBinding(session, a) == SelectorBinding(session, b) ==> a == b
  }

  // ----- tokens -----

  /** `_encode_cursor_token`: None where the source answers INVALID_TOOL_REQUEST. */
  function EncodeToken(session: Session, reference: Text, view: Text, selector: Option<Text>, next: int): Option<Text> {
    if view == [] || !Utf8.Encodable(view) || |Utf8.Encode(view)| > 64 || !ValidSelector(selector) then None
    else if !(0 <= next <= MAX_SAFE_INTEGER) then None
    else
      var text := Dumps(Payload(next, reference, SelectorBinding(session, selector), view));
      if !Utf8.Encodable(text) then None
      else
        var payload := Utf8.Encode(text);
        var token := Base64Url.Encode(payload + session.mac(payload));
        if |token| > MAX_CURSOR_BYTES then None else Some(token)
  }

  /** Python's `value == 1`. */
  predicate EqualsOne(v: Json) {
    match v
    case Bool(b) => b
    case Num(x) => IsFinite(x) && Value(x) == One()
    case _ => false
  }

  /** `set(value) == {"i", "r", "s", "v", "z"}`. */
  predicate HasPayloadKeys(members: seq<(Text, Json)>) {
    && Lookup(members, Lit("i")).Some? && Lookup(members, Lit("r")).Some?
    && Lookup(members, Lit("s")).Some? && Lookup(members, Lit("v")).Some?
    && Lookup(members, Lit("z")).Some?
    && forall i :: 0 <= i < |members| ==>
         members[i].0 in [Lit("i"), Lit("r"), Lit("s"), Lit("v"), Lit("z")]
  }

  /** The authenticated payload bytes of a token. */
  function Authenticate(session: Session, token: Text): Option<Bytes> {
    if !(1 <= |token| <= 512) || !Base64Url.UrlSafe(token) then None
    else
      match Base64Url.Decode(token)
      case None => None
      case Some(decoded) =>
        if Base64Url.Encode(decoded) != token || |decoded| <= MAC_BYTES then None
        else
          var payload := decoded[..|decoded| - MAC_BYTES];
          if decoded[|decoded| - MAC_BYTES..] != session.mac(payload) then None else Some(payload)
  }

  /** The binding checks on a parsed payload. */
  function BoundIndex(session: Session, value: Json, reference: Text, view: Text, selector: Option<Text>): Option<nat> {
    if !value.Obj? || !HasPayloadKeys(value.members) || !ValidSelector(selector) then None
    else
      var bound := match SelectorBinding(session, selector) case Some(s) => Str(s) case None => Null;
      if && EqualsOne(Lookup(value.members, Lit("z")).value)
         && Lookup(value.members, Lit("r")) == Some(Str(reference))
         && Lookup(value.members, Lit("v")) == Some(Str(view))
         && Lookup(value.members, Lit("s")) == Some(bound)
      then
        match Lookup(value.members, Lit("i")).value
        case Num(Int(n)) => if n >= 0 then Some(n) else None
        case _ => None
      else None
  }

  /** The part of `decode_cursor` that does not look at the session's references; every failure
      is INVALID_TOOL_REQUEST. */
  function DecodeToken(session: Session, token: Text, reference: Text, view: Text,
                       selector: Option<Text>): Option<nat> {
    match Authenticate(session, token)
    case None => None
    case Some(payload) =>
      match session.loads(payload)
      case None => None
      case Some(value) => BoundIndex(session, value, reference, view, selector)
  }

  lemma {:induction false} AuthenticateOfToken(session: Session, payload: Bytes)
    requires SessionOk(session) && payload != []
    requires |Base64Url.Encode(payload + session.mac(payload))| <= MAX_CURSOR_BYTES
    ensures Authenticate(session, Base64Url.Encode(payload + session.mac(payload))) == Some(payload)
  {
    var signed := payload + session.mac(payload);
    Base64Url.DecodeOfEncode(signed);
    Base64Url.EncodeIsUrlSafe(signed);
    Base64Url.EncodedLength(signed);
    assert signed[..|signed| - MAC_BYTES] == payload;
    assert signed[|signed| - MAC_BYTES..] == session.mac(payload);
  }

  lemma {:induction false} LettersDiffer()
    ensures Lit("i")[0] == 105 && Lit("r")[0] == 114 && Lit("s")[0] == 115 && Lit("v")[0] == 118 && Lit("z")[0] == 122
  {
  }

  lemma {:induction false} LookupCons<V>(head: (Text, V), rest: seq<(Text, V)>, key: Text)
    ensures Lookup([head] + rest, key) == if head.0 == key then Some(head.1) else Lookup(rest, key)
  {
    assert ([head] + rest)[1..] == rest;
  }

  lemma {:induction false} LookupInPayload(i: Json, r: Json, s: Json, v: Json, z: Json)
    ensures var members := [(Lit("i"), i), (Lit("r"), r), (Lit("s"), s), (Lit("v"), v), (Lit("z"), z)];
      && HasPayloadKeys(members)
      && Lookup(members, Lit("i")) == Some(i) && Lookup(members, Lit("r")) == Some(r)
      && Lookup(members, Lit("s")) == Some(s) && Lookup(members, Lit("v")) == Some(v)
      && Lookup(members, Lit("z")) == Some(z)
  {
    LettersDiffer();
    var m5 := [(Lit("z"), z)];
    var m4 := [(Lit("v"), v)] + m5;
    var m3 := [(Lit("s"), s)] + m4;
    var m2 := [(Lit("r"), r)] + m3;
    var m1 := [(Lit("i"), i)] + m2;
    assert m1 == [(Lit("i"), i), (Lit("r"), r), (Lit("s"), s), (Lit("v"), v), (Lit("z"), z)];
    forall key ensures
      Lookup(m1, key) ==
        if key == Lit("i") then Some(i) else if key == Lit("r") then Some(r)
        else if key == Lit("s") then Some(s) else if key == Lit("v") then Some(v)
        else if key == Lit("z") then Some(z) else None
    {
      LookupCons((Lit("i"), i), m2, key);
      LookupCons((Lit("r"), r), m3, key);
      LookupCons((Lit("s"), s), m4, key);
      LookupCons((Lit("v"), v), m5, key);
    }
  }

  lemma {:induction false} BoundIndexOfPayload(session: Session, p: Payload, reference: Text, view: Text,
                                               selector: Option<Text>)
    ensures BoundIndex(session, PayloadValue(p), reference, view, selector) ==
      if reference == p.reference && view == p.view && ValidSelector(selector)
         && SelectorBinding(session, selector) == p.selector
      then Some(p.next) else None
  {
    LookupInPayload(Num(Int(p.next)), Str(p.reference),
                    match p.selector case Some(s) => Str(s) case None => Null, Str(p.view), Num(Int(1)));
  }

  // ----- the printed payload is read back -----

  predicate NoControls(t: Text) {
    forall i :: 0 <= i < |t| ==> t[i] >= 0x20
  }

  /** A string, a null or a safe natural number. */
  predicate IsPlainScalar(value: Json) {
    value.Str? || value.Null? || (value.Num? && value.x.Int? && 0 <= value.x.n <= MAX_SAFE_INTEGER)
  }

  lemma {:induction false} EscapesAreNotControls(s: Text)
    ensures NoControls(EscapeAll(s)) && NoControls(Quote(s))
  {
    if s != [] {
      EscapesAreNotControls(s[1..]);
      if s[0] < 0x20 && ShortEscape(s[0]).None? {
        ControlEscape(s[0]);
      }
      assert NoControls(EscapeChar(s[0]));
    }
  }

  lemma {:induction false} ScalarHasNoControls(value: Json)
    ensures NoControls(ScalarText(value))
  {
    if value.Str? {
      EscapesAreNotControls(value.s);
    }
  }

  lemma {:induction false} MembersHaveNoControls(members: seq<(Text, Json)>)
    ensures NoControls(MembersText(members))
    decreases |members|
  {
    if members != [] {
      EscapesAreNotControls(members[0].0);
      ScalarHasNoControls(members[0].1);
      MembersHaveNoControls(members[1..]);
    }
  }

  lemma {:induction false} ScalarIsReadBack(value: Json, rest: Text)
    requires IsPlainScalar(value) && rest != [] && !IsDigit(rest[0])
    ensures ReadScalar(ScalarText(value) + rest) == Some((value, rest))
  {
    match value {
      case Str(s) => StringOfQuote(s, rest);
      case Null => NullOfLiteral(rest);
      case Num(x) => NaturalOfDecimal(x.n, rest);
    }
  }

  lemma {:induction false} MembersAreReadBack(members: seq<(Text, Json)>)
    requires members != []
    requires forall i :: 0 <= i < |members| ==> IsPlainScalar(members[i].1)
    ensures ReadMembers(MembersText(members)) == Some((members, []))
    decreases |members|
  {
    var (key, value) := members[0];
    var more := members[1..];
    var rest := if more == [] then [CLOSE] else [COMMA] + MembersText(more);
    ScalarIsReadBack(value, rest);
    MemberOfText(key, value, ScalarText(value), rest);
    assert members == [(key, value)] + more;
    if more == [] {
      assert rest[1..] == [];
      assert members == [(key, value)];
    } else {
      MembersAreReadBack(more);
      assert rest[1..] == MembersText(more);
    }
  }

  /** The compact reader undoes `json.dumps` on every flat object of distinct keys. */
  lemma {:induction false} CompactIsReadBack(members: seq<(Text, Json)>)
    requires members != [] && DistinctKeys(members)
    requires forall i :: 0 <= i < |members| ==> IsPlainScalar(members[i].1)
    requires Utf8.Encodable([OPEN] + MembersText(members))
    ensures ReadCompact(Utf8.Encode([OPEN] + MembersText(members))) == Some(Obj(members))
  {
    var text := [OPEN] + MembersText(members);
    Utf8.DecodeOfEncode(text);
    MembersHaveNoControls(members);
    assert text[1..] == MembersText(members);
    MembersAreReadBack(members);
  }

  lemma {:induction false} PayloadIsReadBack(p: Payload)
    requires p.next <= MAX_SAFE_INTEGER && Utf8.Encodable(Dumps(p))
    ensures ReadCompact(Utf8.Encode(Dumps(p))) == Some(PayloadValue(p))
  {
    LettersDiffer();
    CompactIsReadBack(PayloadValue(p).members);
  }

  /** A cursor decodes to its index under its own reference, view and selector, and under no
      other. */
  lemma {:induction false} CursorBindsItsArguments(
      session: Session, token: Text, next: int,
      reference: Text, view: Text, selector: Option<Text>,
      otherReference: Text, otherView: Text, otherSelector: Option<Text>)
    requires SessionOk(session)
    requires EncodeToken(session, reference, view, selector, next) == Some(token)
    requires ValidSelector(otherSelector) ==> SelectorsDoNotCollide(session, selector, otherSelector)
    ensures DecodeToken(session, token, otherReference, otherView, otherSelector) ==
      if otherReference == reference && otherView == view && otherSelector == selector
      then Some(next) else None
  {
    var p := Payload(next, reference, SelectorBinding(session, selector), view);
    var payload := Utf8.Encode(Dumps(p));
    PayloadIsReadBack(p);
    assert payload != [];
    AuthenticateOfToken(session, payload);
    BoundIndexOfPayload(session, p, otherReference, otherView, otherSelector);
  }

  /** The token is the payload and the session's MAC over it, and nothing else. */
  ghost predicate IsSigned(session: Session, token: Text, payload: Bytes) {
    && payload != [] && |token| <= MAX_CURSOR_BYTES
    && token == Base64Url.Encode(payload + session.mac(payload))
  }

  /** The payload names this reference, view and selector, and the index next. */
  ghost predicate Binds(session: Session, value: Json, reference: Text, view: Text, selector: Option<Text>, next: nat) {
    && value.Obj? && HasPayloadKeys(value.members) && ValidSelector(selector)
    && EqualsOne(Lookup(value.members, Lit("z")).value)
    && Lookup(value.members, Lit("r")) == Some(Str(reference))
    && Lookup(value.members, Lit("v")) == Some(Str(view))
    && Lookup(value.members, Lit("s"))
       == Some(match SelectorBinding(session, selector) case Some(s) => Str(s) case None => Null)
    && Lookup(value.members, Lit("i")) == Some(Num(Int(next)))
  }

  lemma {:induction false} AuthenticateIff(session: Session, token: Text, payload: Bytes)
    requires SessionOk(session)
    ensures Authenticate(session, token) == Some(payload) <==> IsSigned(session, token, payload)
  {
    if Authenticate(session, token) == Some(payload) {
      var decoded := Base64Url.Decode(token).value;
      assert decoded == payload + decoded[|decoded| - MAC_BYTES..];
    }
    if IsSigned(session, token, payload) {
      AuthenticateOfToken(session, payload);
    }
  }

  lemma {:induction false} BoundIndexIff(session: Session, value: Json, reference: Text, view: Text,
                                         selector: Option<Text>, next: nat)
    ensures BoundIndex(session, value, reference, view, selector) == Some(next)
            <==> Binds(session, value, reference, view, selector, next)
  {
  }

  /** What an accepted token is: exactly a payload, signed under the session's key, that binds the given
      reference, view and selector to the index. */
  lemma {:induction false} AcceptedIff(session: Session, token: Text, reference: Text, view: Text,
                                       selector: Option<Text>, next: nat)
    requires SessionOk(session)
    ensures DecodeToken(session, token, reference, view, selector) == Some(next) <==>
              exists payload, value ::
                && IsSigned(session, token, payload) && session.loads(payload) == Some(value)
                && Binds(session, value, reference, view, selector, next)
  {
    if DecodeToken(session, token, reference, view, selector) == Some(next) {
      var payload := Authenticate(session, token).value;
      var value := session.loads(payload).value;
      AuthenticateIff(session, token, payload);
      BoundIndexIff(session, value, reference, view, selector, next);
    }
    if payload, value :|
      IsSigned(session, token, payload) && session.loads(payload) == Some(value)
      && Binds(session, value, reference, view, selector, next)
    {
      AuthenticateIff(session, token, payload);
      BoundIndexIff(session, value, reference, view, selector, next);
    }
  }

  // ----- every cursor the views ask for fits -----

  /** Printable ASCII that JSON does not escape. */
  predicate Plain(t: Text) {
    forall i :: 0 <= i < |t| ==> 0x20 <= t[i] < 0x7F && t[i] != QUOTE && t[i] != BACKSLASH
  }

  lemma {:induction false} PlainEscapesToItself(t: Text)
    requires Plain(t)
    ensures EscapeAll(t) == t
  {
    if t != [] {
      PlainEscapesToItself(t[1..]);
      assert EscapeChar(t[0]) == [t[0]];
      assert t == [t[0]] + t[1..];
    }
  }

  lemma {:induction false} DecimalLength(n: nat, k: nat)
    requires k > 0 && n < Pow10(k)
    ensures |Decimal(n)| <= k
  {
    if n >= 10 {
      assert k > 1;
      DecimalLength(n / 10, k - 1);
    }
  }

  lemma {:induction false} SafeIntegersHaveSixteenDigits(n: nat)
    requires n <= MAX_SAFE_INTEGER
    ensures |Decimal(n)| <= 16
  {
    assert Pow10(4) == 10_000 && Pow10(8) == 100_000_000;
    assert Pow10(12) == 1_000_000_000_000 && Pow10(16) == 10_000_000_000_000_000;
    DecimalLength(n, 16);
  }

  /** `dqds:v1:` or `dqop:v1:` followed by 64 hexadecimal digits. */
  predicate ReferenceShaped(reference: Text) {
    |reference| == 72 && Plain(reference)
  }

  lemma {:induction false} QuotePlain(t: Text)
    requires Plain(t)
    ensures |Quote(t)| == |t| + 2 && Utf8.IsAscii(Quote(t))
  {
    PlainEscapesToItself(t);
  }

  /** A printed scalar in ASCII of at most n characters. */
  predicate ShortScalar(value: Json, n: nat) {
    Utf8.IsAscii(ScalarText(value)) && |ScalarText(value)| <= n
  }

  lemma {:induction false} LettersArePlain()
    ensures Plain(Lit("i")) && Plain(Lit("r")) && Plain(Lit("s")) && Plain(Lit("v")) && Plain(Lit("z"))
    ensures Utf8.IsAscii(Lit("null"))
  {
  }

  lemma {:induction false} OneMoreMember(key: Text, value: Json, n: nat, rest: seq<(Text, Json)>, m: nat)
    requires Plain(key) && |key| == 1 && ShortScalar(value, n)
    requires rest != [] ==> Utf8.IsAscii(MembersText(rest)) && |MembersText(rest)| <= m
    ensures var text := MembersText([(key, value)] + rest);
      Utf8.IsAscii(text) && |text| <= n + 5 + (if rest == [] then 0 else m)
  {
    QuotePlain(key);
    var members := [(key, value)] + rest;
    assert members[1..] == rest;
    var tail := if rest == [] then [CLOSE] else [COMMA] + MembersText(rest);
    assert MembersText(members) == Quote(key) + [COLON] + ScalarText(value) + tail;
    assert Utf8.IsAscii(tail);
  }

  lemma {:induction false} PayloadScalars(p: Payload)
    requires p.next <= MAX_SAFE_INTEGER && ReferenceShaped(p.reference)
    requires p.selector.Some? ==> Plain(p.selector.value) && |p.selector.value| == 64
    requires Plain(p.view) && |p.view| <= 64
    ensures ShortScalar(Num(Int(p.next)), 16) && ShortScalar(Num(Int(1)), 1)
    ensures ShortScalar(Str(p.reference), 74) && ShortScalar(Str(p.view), 66)
    ensures ShortScalar(match p.selector case Some(s) => Str(s) case None => Null, 66)
  {
    SafeIntegersHaveSixteenDigits(p.next);
    QuotePlain(p.reference);
    QuotePlain(p.view);
    LettersArePlain();
    if p.selector.Some? {
      QuotePlain(p.selector.value);
    }
  }

  lemma {:induction false} MembersLength(i: Json, r: Json, s: Json, v: Json, z: Json)
    requires ShortScalar(i, 16) && ShortScalar(r, 74) && ShortScalar(s, 66) && ShortScalar(v, 66)
    requires ShortScalar(z, 1)
    requires Plain(Lit("i")) && Plain(Lit("r")) && Plain(Lit("s")) && Plain(Lit("v")) && Plain(Lit("z"))
    ensures var text := MembersText([(Lit("i"), i), (Lit("r"), r), (Lit("s"), s), (Lit("v"), v), (Lit("z"), z)]);
      Utf8.IsAscii(text) && |text| <= 248
  {
    var m5 := [(Lit("z"), z)];
    var m4 := [(Lit("v"), v)] + m5;
    var m3 := [(Lit("s"), s)] + m4;
    var m2 := [(Lit("r"), r)] + m3;
    var m1 := [(Lit("i"), i)] + m2;
    assert m5 == m5 + [];
    OneMoreMember(Lit("z"), z, 1, [], 0);
    OneMoreMember(Lit("v"), v, 66, m5, 6);
    OneMoreMember(Lit("s"), s, 66, m4, 77);
    OneMoreMember(Lit("r"), r, 74, m3, 148);
    OneMoreMember(Lit("i"), i, 16, m2, 227);
    assert m1 == [(Lit("i"), i), (Lit("r"), r), (Lit("s"), s), (Lit("v"), v), (Lit("z"), z)];
  }

  lemma {:induction false} PayloadLength(p: Payload)
    requires p.next <= MAX_SAFE_INTEGER && ReferenceShaped(p.reference)
    requires p.selector.Some? ==> Plain(p.selector.value) && |p.selector.value| == 64
    requires Plain(p.view) && |p.view| <= 64
    ensures Utf8.IsAscii(Dumps(p)) && |Dumps(p)| <= 249
  {
    LettersArePlain();
    PayloadScalars(p);
    MembersLength(Num(Int(p.next)), Str(p.reference), match p.selector case Some(s) => Str(s) case None => Null,
                  Str(p.view), Num(Int(1)));
  }

  /** `sha256(...).hexdigest()`. */
  ghost predicate DigestsAreHex(session: Session) {
    forall b :: Plain(session.digest(b)) && |session.digest(b)| == 64
  }

  /** Any registered reference, any plain view name and any valid selector give a cursor of at
      most 375 characters, for every index a page can reach. */
  lemma {:induction false} CursorsFit(session: Session, reference: Text, view: Text, selector: Option<Text>, next: int)
    requires SessionOk(session) && DigestsAreHex(session)
    requires ReferenceShaped(reference) && Plain(view) && 1 <= |view| <= 64 && ValidSelector(selector)
    ensures 0 <= next <= MAX_SAFE_INTEGER <==> EncodeToken(session, reference, view, selector, next).Some?
    ensures 0 <= next <= MAX_SAFE_INTEGER ==>
      |EncodeToken(session, reference, view, selector, next).value| <= 375
  {
    Utf8.AsciiEncodesToItsLength(view);
    if 0 <= next <= MAX_SAFE_INTEGER {
      var p := Payload(next, reference, SelectorBinding(session, selector), view);
      PayloadLength(p);
      Utf8.AsciiEncodesToItsLength(Dumps(p));
      var payload := Utf8.Encode(Dumps(p));
      Base64Url.EncodedLength(payload + session.mac(payload));
    }
  }
}
