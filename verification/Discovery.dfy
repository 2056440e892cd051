/** Deterministic component search (shared/discovery.py): tokens, query terms, and the ranking of one
    component. */
module Discovery {
  import opened Foundations

  const MAX_LIMIT: nat := 100
  const MAX_INDEXED_RECORDS: nat := 10_000
  const FACETS: nat := 8

  /** NFKC followed by case folding, and `str.isalnum`. */
  datatype Lexicon = Lexicon(normalize: Text -> Text, isAlnum: CodePoint -> bool)

  const POSITIVE_FIELD_WEIGHTS: seq<(string, nat)> := [
    ("id", 14), ("slug", 14), ("title", 14), ("discovery.aliases", 13), ("discovery.intents", 12),
    ("discovery.output_concepts", 11), ("discovery.input_concepts", 10), ("tags", 8), ("summary", 6),
    ("guidance.use_when", 4), ("category", 3), ("group", 3), ("template.profile", 2)]

  const BOUNDARY_FIELDS: seq<(string, nat)> := [
    ("guidance.do_not_use_when", 0), ("guidance.unsupported_scope", 0), ("limitations", 0)]

  const STOPWORDS: seq<string> := [
    "a", "an", "and", "are", "as", "at", "be", "by", "calculate", "compute", "for", "from", "how", "i",
    "in", "into", "is", "it", "me", "my", "of", "on", "or", "please", "that", "the", "this", "to", "use",
    "want", "with"]

  /** One list of normalized values, without repeats, for each facet. */
  type Facets = f: seq<seq<Text>> | |f| == FACETS && forall k :: 0 <= k < FACETS ==> NoRepeats(f[k])
    witness seq(FACETS, i => [])

  /** A component contract: the nonempty string values under each field path, and its normalized
      facet values. */
  datatype ComponentRecord = ComponentRecord(id: Text, values: map<string, seq<Text>>, facets: Facets)

  datatype Field = Field(name: string, values: seq<Text>, weight: nat)

  datatype Component = Component(record: ComponentRecord, positive: seq<Field>, boundary: seq<Field>)

  function CompileFields(record: ComponentRecord, names: seq<(string, nat)>): (fields: seq<Field>)
    ensures |fields| == |names|
  {
    if names == [] then []
    else
      var (name, weight) := names[0];
      [Field(name, if name in record.values then record.values[name] else [], weight)]
      + CompileFields(record, names[1..])
  }

  function Compile(record: ComponentRecord): Component {
    Component(record, CompileFields(record, POSITIVE_FIELD_WEIGHTS), CompileFields(record, BOUNDARY_FIELDS))
  }

  // ----- tokens -----

  /** The maximal alphanumeric runs of a text; `run` is the run being read. */
  function Runs(lex: Lexicon, text: Text, run: Text): seq<Text> {
    if text == [] then (if run == [] then [] else [run])
    else if lex.isAlnum(text[0]) then Runs(lex, text[1..], run + [text[0]])
    else (if run == [] then [] else [run]) + Runs(lex, text[1..], [])
  }

  function RawTokens(lex: Lexicon, text: Text): seq<Text> {
    Runs(lex, lex.normalize(text), [])
  }

  method ReadTokens(lex: Lexicon, text: Text) returns (tokens: seq<Text>)
    ensures tokens == RawTokens(lex, text)
  {
    var normalised := lex.normalize(text);
    tokens := [];
    var token: Text := [];
    for i := 0 to |normalised|
      invariant RawTokens(lex, text) == tokens + Runs(lex, normalised[i..], token)
    {
      assert normalised[i..][1..] == normalised[i + 1..];
      if lex.isAlnum(normalised[i]) {
        token := token + [normalised[i]];
      } else if token != [] {
        tokens := tokens + [token];
        token := [];
      }
    }
    if token != [] {
      tokens := tokens + [token];
    }
  }

  // ----- what the runs are -----

  predicate AllAlnum(lex: Lexicon, t: Text) {
    forall i :: 0 <= i < |t| ==> lex.isAlnum(t[i])
  }

  /** text[i..j] is a nonempty alphanumeric run that no neighbour extends. */
  ghost predicate IsRun(lex: Lexicon, text: Text, i: nat, j: nat) {
    && i < j <= |text| && AllAlnum(lex, text[i..j])
    && (i > 0 ==> !lex.isAlnum(text[i - 1]))
    && (j < |text| ==> !lex.isAlnum(text[j]))
  }

  /** The token is a run that begins at or after a position. */
  ghost predicate RunFrom(lex: Lexicon, text: Text, start: nat, token: Text) {
    exists i: nat, j: nat :: start <= i && IsRun(lex, text, i, j) && token == text[i..j]
  }

  function Concat(tokens: seq<Text>): Text {
    if tokens == [] then [] else tokens[0] + Concat(tokens[1..])
  }

  function Alnums(lex: Lexicon, text: Text): Text {
    if text == [] then [] else (if lex.isAlnum(text[0]) then [text[0]] else []) + Alnums(lex, text[1..])
  }

  /** Between them the runs hold every alphanumeric character, once and in order. */
  lemma {:induction false} RunsHoldEveryAlnum(lex: Lexicon, text: Text, run: Text)
    ensures Concat(Runs(lex, text, run)) == run + Alnums(lex, text)
  {
    if text == [] {
      assert Concat([run]) == run + Concat([]);
    } else if lex.isAlnum(text[0]) {
      RunsHoldEveryAlnum(lex, text[1..], run + [text[0]]);
    } else {
      RunsHoldEveryAlnum(lex, text[1..], []);
      if run != [] {
        var rest := Runs(lex, text[1..], []);
        assert ([run] + rest)[1..] == rest;
      } else {
        assert [] + Runs(lex, text[1..], []) == Runs(lex, text[1..], []);
      }
    }
  }

  /** What the scan has found after the first k characters of a whole text: the run in progress starts
      at position start. */
  lemma {:induction false} RunsAreMaximal(lex: Lexicon, whole: Text, start: nat, k: nat, token: Text)
    requires start <= k <= |whole| && AllAlnum(lex, whole[start..k])
    requires start > 0 ==> !lex.isAlnum(whole[start - 1])
    ensures token in Runs(lex, whole[k..], whole[start..k]) <==>
              RunFrom(lex, whole, start, token)
    decreases |whole| - k
  {
    if k == |whole| {
      LastRun(lex, whole, start, token);
    } else {
      assert whole[k..][1..] == whole[k + 1..];
      if lex.isAlnum(whole[k]) {
        assert whole[start..k + 1] == whole[start..k] + [whole[k]];
        RunsAreMaximal(lex, whole, start, k + 1, token);
      } else {
        assert whole[k + 1..k + 1] == [];
        RunsAreMaximal(lex, whole, k + 1, k + 1, token);
        RunEndsAt(lex, whole, start, k, token);
      }
    }
  }

  lemma {:induction false} LastRun(lex: Lexicon, whole: Text, start: nat, token: Text)
    requires start <= |whole| && AllAlnum(lex, whole[start..])
    requires start > 0 ==> !lex.isAlnum(whole[start - 1])
    ensures (start < |whole| && token == whole[start..]) <==>
              RunFrom(lex, whole, start, token)
  {
    if start < |whole| && token == whole[start..] {
      assert whole[start..|whole|] == whole[start..];
      assert IsRun(lex, whole, start, |whole|);
    }
    if i: nat, j: nat :| start <= i && IsRun(lex, whole, i, j) && token == whole[i..j] {
      RunFillsInterval(lex, whole, start, |whole|, i, j);
    }
  }

  /** Inside an alphanumeric stretch a run can only be the whole stretch. */
  lemma {:induction false} RunFillsInterval(lex: Lexicon, whole: Text, start: nat, end: nat, i: nat, j: nat)
    requires start <= i < end <= |whole| && AllAlnum(lex, whole[start..end]) && IsRun(lex, whole, i, j)
    requires end < |whole| ==> !lex.isAlnum(whole[end])
    ensures i == start && j == end
  {
    assert forall m :: start <= m < end ==> whole[m] == whole[start..end][m - start];
    assert forall m :: i <= m < j ==> whole[m] == whole[i..j][m - i];
  }

  /** A separator at k ends the stretch from start and nothing else. */
  lemma {:induction false} RunEndsAt(lex: Lexicon, whole: Text, start: nat, k: nat, token: Text)
    requires start <= k < |whole| && AllAlnum(lex, whole[start..k]) && !lex.isAlnum(whole[k])
    requires start > 0 ==> !lex.isAlnum(whole[start - 1])
    ensures RunFrom(lex, whole, start, token) <==>
              || (start < k && token == whole[start..k])
              || RunFrom(lex, whole, k + 1, token)
  {
    if i: nat, j: nat :| start <= i && IsRun(lex, whole, i, j) && token == whole[i..j] {
      if i < k {
        RunFillsInterval(lex, whole, start, k, i, j);
      } else {
        assert whole[i] == whole[i..j][0];
      }
    }
    if start < k && token == whole[start..k] {
      assert IsRun(lex, whole, start, k);
    }
  }

  /** The raw tokens are exactly the maximal alphanumeric runs of the normalized text. */
  lemma {:induction false} TokensAreMaximalRuns(lex: Lexicon, text: Text, token: Text)
    ensures var whole := lex.normalize(text);
      token in RawTokens(lex, text) <==> RunFrom(lex, whole, 0, token)
    ensures Concat(RawTokens(lex, text)) == Alnums(lex, lex.normalize(text))
  {
    var whole := lex.normalize(text);
    assert whole[0..] == whole && whole[0..0] == [];
    RunsAreMaximal(lex, whole, 0, 0, token);
    RunsHoldEveryAlnum(lex, whole, []);
  }

  predicate EndsWith(t: Text, suffix: string) {
    |t| >= |suffix| && t[|t| - |suffix|..] == Lit(suffix)
  }

  /** The term itself and at most one singular form. */
  function TermForms(term: Text): set<Text> {
    if |term| > 4 && EndsWith(term, "ies") then {term, term[..|term| - 3] + Lit("y")}
    else if |term| > 4 && EndsWith(term, "s")
            && !(EndsWith(term, "ss") || EndsWith(term, "is") || EndsWith(term, "us") || EndsWith(term, "series"))
    then {term, term[..|term| - 1]}
    else {term}
  }

  predicate IsStopword(token: Text) {
    exists i :: 0 <= i < |STOPWORDS| && token == Lit(STOPWORDS[i])
  }

  /** The tokens that are not filler and not among `seen`, each once, in order. */
  function Fresh(tokens: seq<Text>, seen: set<Text>): seq<Text> {
    if tokens == [] then []
    else if IsStopword(tokens[0]) || tokens[0] in seen then Fresh(tokens[1..], seen)
    else [tokens[0]] + Fresh(tokens[1..], seen + {tokens[0]})
  }

  function Terms(lex: Lexicon, query: Text): seq<Text> {
    Fresh(RawTokens(lex, query), {})
  }

  method Tokenize(lex: Lexicon, query: Text) returns (terms: seq<Text>)
    ensures terms == Terms(lex, query)
  {
    var tokens := ReadTokens(lex, query);
    var seen: set<Text> := {};
    terms := [];
    for i := 0 to |tokens|
      invariant Terms(lex, query) == terms + Fresh(tokens[i..], seen)
    {
      assert tokens[i..][1..] == tokens[i + 1..];
      if !IsStopword(tokens[i]) && tokens[i] !in seen {
        seen := seen + {tokens[i]};
        terms := terms + [tokens[i]];
      }
    }
  }

  /** Search terms are the distinct tokens of the query that are not filler. */
  lemma {:induction false} FreshIsDistinctFilter(tokens: seq<Text>, seen: set<Text>)
    ensures forall t :: t in Fresh(tokens, seen) <==> t in tokens && !IsStopword(t) && t !in seen
    ensures forall i, j :: 0 <= i < j < |Fresh(tokens, seen)| ==> Fresh(tokens, seen)[i] != Fresh(tokens, seen)[j]
    decreases |tokens|
  {
    if tokens != [] {
      assert tokens == [tokens[0]] + tokens[1..];
      FreshIsDistinctFilter(tokens[1..], seen);
      FreshIsDistinctFilter(tokens[1..], seen + {tokens[0]});
    }
  }

  // ----- matching and ranking -----

  function ValueTerms(lex: Lexicon, values: seq<Text>): set<Text> {
    set v, token, form | v in values && token in RawTokens(lex, v) && form in TermForms(token) :: form
  }

  predicate TermMatches(term: Text, indexed: set<Text>) {
    exists form :: form in TermForms(term) && form in indexed
  }

  function MatchingTerms(terms: seq<Text>, indexed: set<Text>): seq<Text> {
    if terms == [] then []
    else (if TermMatches(terms[0], indexed) then [terms[0]] else []) + MatchingTerms(terms[1..], indexed)
  }

  function Phrase(tokens: seq<Text>): Text {
    if tokens == [] then []
    else if |tokens| == 1 then tokens[0]
    else tokens[0] + [32] + Phrase(tokens[1..])
  }

  function NormalisedPhrase(lex: Lexicon, value: Text): Text {
    Phrase(RawTokens(lex, value))
  }

  datatype FieldMatch = FieldMatch(field: string, terms: seq<Text>, values: seq<Text>)

  function MatchField(lex: Lexicon, field: Field, terms: seq<Text>): Option<FieldMatch> {
    var matched := MatchingTerms(terms, ValueTerms(lex, field.values));
    if matched == [] then None else Some(FieldMatch(field.name, matched, field.values))
  }

  /** The matches of the fields that have one, in order. */
  function Collect(matcher: Field -> Option<FieldMatch>, fields: seq<Field>): seq<FieldMatch> {
    if fields == [] then []
    else
      Collect(matcher, fields[..|fields| - 1])
      + match matcher(fields[|fields| - 1]) case Some(m) => [m] case None => []
  }

  function Matcher(lex: Lexicon, terms: seq<Text>): Field -> Option<FieldMatch> {
    (field: Field) => MatchField(lex, field, terms)
  }

  function MatchFields(lex: Lexicon, fields: seq<Field>, terms: seq<Text>): seq<FieldMatch> {
    Collect(Matcher(lex, terms), fields)
  }

  predicate HasPhrase(lex: Lexicon, field: Field, phrase: Text) {
    phrase != [] && exists v :: v in field.values && NormalisedPhrase(lex, v) == phrase
  }

  /** Points for the matched terms of each field, and twice its weight for the exact phrase. */
  function FieldScore(lex: Lexicon, fields: seq<Field>, terms: seq<Text>, phrase: Text): nat {
    if fields == [] then 0
    else
      var last := fields[|fields| - 1];
      FieldScore(lex, fields[..|fields| - 1], terms, phrase)
      + match MatchField(lex, last, terms)
        case Some(m) => last.weight * |m.terms| + (if HasPhrase(lex, last, phrase) then last.weight * 2 else 0)
        case None => 0
  }

  predicate Covered(term: Text, matches: seq<FieldMatch>) {
    exists i :: 0 <= i < |matches| && term in matches[i].terms
  }

  function Filter(terms: seq<Text>, matches: seq<FieldMatch>, covered: bool): seq<Text> {
    if terms == [] then []
    else (if Covered(terms[0], matches) == covered then [terms[0]] else []) + Filter(terms[1..], matches, covered)
  }

  function AllTerms(matches: seq<FieldMatch>): set<Text> {
    set i, term | 0 <= i < |matches| && term in matches[i].terms :: term
  }

  datatype Hit = Hit(id: Text, score: nat, positive: seq<FieldMatch>, boundary: seq<FieldMatch>,
                     matched: seq<Text>, unmatched: seq<Text>)

  /** The rank of a component: None when a nonempty query touches none of its positive fields. */
  function Rank(lex: Lexicon, c: Component, phrase: Text, terms: seq<Text>): Option<Hit> {
    var positive := MatchFields(lex, c.positive, terms);
    var boundary := MatchFields(lex, c.boundary, terms);
    if terms != [] && positive == [] then None
    else
      var matched := Filter(terms, positive, true);
      var raw := FieldScore(lex, c.positive, terms, phrase) + 5 * |matched|;
      var penalty := 3 * |AllTerms(boundary)|;
      Some(Hit(c.record.id, if raw < penalty then 0 else raw - penalty, positive, boundary,
               matched, Filter(terms, positive, false)))
  }

  /** The loop over the positive fields. */
  method MatchPositive(lex: Lexicon, fields: seq<Field>, phrase: Text, terms: seq<Text>)
      returns (positive: seq<FieldMatch>, score: nat)
    ensures positive == MatchFields(lex, fields, terms)
    ensures score == FieldScore(lex, fields, terms, phrase)
  {
    positive, score := [], 0;
    var matcher := Matcher(lex, terms);
    for i := 0 to |fields|
      invariant positive == Collect(matcher, fields[..i])
      invariant score == FieldScore(lex, fields[..i], terms, phrase)
    {
      assert fields[..i + 1][..i] == fields[..i];
      var found := matcher(fields[i]);
      if found.Some? {
        positive := positive + [found.value];
        score := score + fields[i].weight * |found.value.terms|;
        if HasPhrase(lex, fields[i], phrase) {
          score := score + fields[i].weight * 2;
        }
      }
    }
    assert fields[..|fields|] == fields;
  }

  /** The loop over the boundary fields. */
  method MatchBoundary(lex: Lexicon, fields: seq<Field>, terms: seq<Text>) returns (boundary: seq<FieldMatch>)
    ensures boundary == MatchFields(lex, fields, terms)
  {
    boundary := [];
    var matcher := Matcher(lex, terms);
    for i := 0 to |fields|
      invariant boundary == Collect(matcher, fields[..i])
    {
      assert fields[..i + 1][..i] == fields[..i];
      var found := matcher(fields[i]);
      if found.Some? {
        boundary := boundary + [found.value];
      }
    }
    assert fields[..|fields|] == fields;
  }

  method RankRecord(lex: Lexicon, c: Component, phrase: Text, terms: seq<Text>) returns (hit: Option<Hit>)
    ensures hit == Rank(lex, c, phrase, terms)
  {
    var positive, score := MatchPositive(lex, c.positive, phrase, terms);
    var boundary := MatchBoundary(lex, c.boundary, terms);
    if terms != [] && positive == [] {
      return None;
    }
    var matched := Filter(terms, positive, true);
    var penalty := 3 * |AllTerms(boundary)|;
    score := score + 5 * |matched|;
    score := if score < penalty then 0 else score - penalty;
    return Some(Hit(c.record.id, score, positive, boundary, matched, Filter(terms, positive, false)));
  }

  // ----- what a score says -----

  predicate FieldHas(lex: Lexicon, field: Field, term: Text) {
    exists form :: form in TermForms(term) && form in ValueTerms(lex, field.values)
  }

  /** Some term is in the field, and one of its values is exactly the phrase. */
  predicate ExactPhrase(lex: Lexicon, field: Field, terms: seq<Text>, phrase: Text) {
    && (exists t :: t in terms && FieldHas(lex, field, t))
    && phrase != [] && exists v :: v in field.values && NormalisedPhrase(lex, v) == phrase
  }

  /** The weights of the chosen fields together. */
  function WeightWhere(chosen: Field -> bool, fields: seq<Field>): nat {
    if fields == [] then 0 else (if chosen(fields[0]) then fields[0].weight else 0) + WeightWhere(chosen, fields[1..])
  }

  lemma {:induction false} WeightOfLast(chosen: Field -> bool, fields: seq<Field>, last: Field)
    ensures WeightWhere(chosen, fields + [last])
            == WeightWhere(chosen, fields) + if chosen(last) then last.weight else 0
  {
    if fields == [] {
      assert fields + [last] == [last];
    } else {
      WeightOfLast(chosen, fields[1..], last);
      assert (fields + [last])[1..] == fields[1..] + [last];
    }
  }

  lemma {:induction false} MatchingTermsOfOneMore(terms: seq<Text>, term: Text, indexed: set<Text>)
    ensures MatchingTerms(terms + [term], indexed)
            == MatchingTerms(terms, indexed) + if TermMatches(term, indexed) then [term] else []
  {
    if terms == [] {
      assert terms + [term] == [term];
    } else {
      MatchingTermsOfOneMore(terms[1..], term, indexed);
      assert (terms + [term])[1..] == terms[1..] + [term];
    }
  }

  lemma {:induction false} MatchingTermsNonempty(terms: seq<Text>, indexed: set<Text>)
    ensures MatchingTerms(terms, indexed) != [] <==> exists t :: t in terms && TermMatches(t, indexed)
  {
    if terms != [] {
      MatchingTermsNonempty(terms[1..], indexed);
      assert terms == [terms[0]] + terms[1..];
    }
  }

  /** Without terms nothing scores. */
  lemma {:induction false} NoTermsNoScore(lex: Lexicon, fields: seq<Field>, phrase: Text)
    ensures FieldScore(lex, fields, [], phrase) == 0
  {
    if fields != [] {
      NoTermsNoScore(lex, fields[..|fields| - 1], phrase);
    }
  }

  /** A further term adds the weight of every field that has it. */
  lemma {:induction false} TermRaisesScore(lex: Lexicon, fields: seq<Field>, terms: seq<Text>, term: Text)
    ensures FieldScore(lex, fields, terms + [term], [])
            == FieldScore(lex, fields, terms, []) + WeightWhere((f: Field) => FieldHas(lex, f, term), fields)
  {
    if fields != [] {
      var front, last := fields[..|fields| - 1], fields[|fields| - 1];
      assert fields == front + [last];
      TermRaisesScore(lex, front, terms, term);
      WeightOfLast((f: Field) => FieldHas(lex, f, term), front, last);
      MatchingTermsOfOneMore(terms, term, ValueTerms(lex, last.values));
      OneMoreTermPoints(last.weight, |MatchingTerms(terms, ValueTerms(lex, last.values))|);
    }
  }

  lemma {:induction false} OneMoreTermPoints(weight: nat, count: nat)
    ensures weight * (count + 1) == weight * count + weight
  {
  }

  /** The exact phrase adds twice the weight of every field that it is a value of and that a term is in. */
  lemma {:induction false} PhraseRaisesScore(lex: Lexicon, fields: seq<Field>, terms: seq<Text>, phrase: Text)
    ensures FieldScore(lex, fields, terms, phrase)
            == FieldScore(lex, fields, terms, [])
               + 2 * WeightWhere((f: Field) => ExactPhrase(lex, f, terms, phrase), fields)
  {
    if fields != [] {
      var front, last := fields[..|fields| - 1], fields[|fields| - 1];
      assert fields == front + [last];
      PhraseRaisesScore(lex, front, terms, phrase);
      WeightOfLast((f: Field) => ExactPhrase(lex, f, terms, phrase), front, last);
      MatchingTermsNonempty(terms, ValueTerms(lex, last.values));
      assert (exists t :: t in terms && FieldHas(lex, last, t)) <==>
             exists t :: t in terms && TermMatches(t, ValueTerms(lex, last.values));
    }
  }

  /** Some field has the term. */
  predicate SomeFieldHas(lex: Lexicon, fields: seq<Field>, term: Text) {
    exists i :: 0 <= i < |fields| && FieldHas(lex, fields[i], term)
  }

  function TermsIn(lex: Lexicon, fields: seq<Field>, terms: seq<Text>): set<Text> {
    set t | t in terms && SomeFieldHas(lex, fields, t)
  }

  /** The score of a hit: the points of its fields and five for each matched term, less three for each
      term that boundary text has, and never below zero. */
  lemma {:induction false} HitScoreIs(lex: Lexicon, c: Component, phrase: Text, terms: seq<Text>)
    requires Rank(lex, c, phrase, terms).Some?
    ensures var hit := Rank(lex, c, phrase, terms).value;
      var gained := FieldScore(lex, c.positive, terms, phrase) + 5 * |hit.matched|;
      var lost := 3 * |TermsIn(lex, c.boundary, terms)|;
      hit.id == c.record.id && hit.score == if gained >= lost then gained - lost else 0
  {
    BoundaryTermsAre(lex, c.boundary, terms);
  }

  lemma {:induction false} BoundaryTermsAre(lex: Lexicon, fields: seq<Field>, terms: seq<Text>)
    ensures AllTerms(MatchFields(lex, fields, terms)) == TermsIn(lex, fields, terms)
  {
    forall t ensures t in AllTerms(MatchFields(lex, fields, terms)) <==> t in TermsIn(lex, fields, terms) {
      TermOfMatches(lex, fields, terms, t);
    }
  }

  lemma {:induction false} TermOfMatches(lex: Lexicon, fields: seq<Field>, terms: seq<Text>, t: Text)
    ensures t in AllTerms(MatchFields(lex, fields, terms)) <==>
              t in terms && SomeFieldHas(lex, fields, t)
  {
    if fields != [] {
      var front, last := fields[..|fields| - 1], fields[|fields| - 1];
      TermOfMatches(lex, front, terms, t);
      MatchingTermsAre(terms, ValueTerms(lex, last.values), t);
      AllTermsOfOneMore(MatchFields(lex, front, terms), MatchField(lex, last, terms), t);
      FieldHasOfOneMore(lex, front, last, t);
      assert fields == front + [last];
    }
  }

  lemma {:induction false} FieldHasOfOneMore(lex: Lexicon, front: seq<Field>, last: Field, t: Text)
    ensures SomeFieldHas(lex, front + [last], t) <==> SomeFieldHas(lex, front, t) || FieldHas(lex, last, t)
  {
    var all := front + [last];
    if i :| 0 <= i < |front| && FieldHas(lex, front[i], t) {
      assert all[i] == front[i];
    }
    assert all[|front|] == last;
  }

  lemma {:induction false} AllTermsOfOneMore(matches: seq<FieldMatch>, last: Option<FieldMatch>, t: Text)
    ensures var all := matches + match last case Some(m) => [m] case None => [];
      t in AllTerms(all) <==> t in AllTerms(matches) || (last.Some? && t in last.value.terms)
  {
    var all := matches + match last case Some(m) => [m] case None => [];
    if i :| 0 <= i < |matches| && t in matches[i].terms {
      assert all[i] == matches[i];
    }
    if last.Some? {
      assert all[|matches|] == last.value;
    }
  }

  lemma {:induction false} MatchingTermsAre(terms: seq<Text>, indexed: set<Text>, t: Text)
    ensures t in MatchingTerms(terms, indexed) <==> t in terms && TermMatches(t, indexed)
  {
    if terms != [] {
      MatchingTermsAre(terms[1..], indexed, t);
      assert terms == [terms[0]] + terms[1..];
    }
  }
}
