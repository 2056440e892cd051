/** The inverted index over component contracts (`ContractIndex` in shared/discovery.py), proved to
    return exactly what a plain scan over the records returns. */
module ContractIndex {
  import opened Foundations
  import opened Discovery

  // ----- the plain scan -----

  datatype FacetValue = FacetValue(value: Text, count: nat)

  datatype SearchResults = SearchResults(terms: seq<Text>, totalMatches: nat, hits: seq<Hit>,
                                         facets: seq<seq<FacetValue>>)

  /** A prepared query. */
  datatype Query = Query(lex: Lexicon, terms: seq<Text>, phrase: Text, filters: Facets)

  function Prepare(lex: Lexicon, query: Text, filters: Facets): Query {
    Query(lex, Terms(lex, query), NormalisedPhrase(lex, query), filters)
  }

  /** One of the requested values, if any is requested. */
  predicate PassesFacet(requested: seq<Text>, values: seq<Text>) {
    requested == [] || exists v :: v in requested && v in values
  }

  predicate PassesFilters(filters: Facets, record: ComponentRecord) {
    forall f :: 0 <= f < FACETS ==> PassesFacet(filters[f], record.facets[f])
  }

  function HitOf(q: Query, record: ComponentRecord): Option<Hit> {
    Rank(q.lex, Compile(record), q.phrase, q.terms)
  }

  predicate Accepts(q: Query, record: ComponentRecord) {
    PassesFilters(q.filters, record) && HitOf(q, record).Some?
  }

  function Ranked(q: Query, record: ComponentRecord): Hit
    requires Accepts(q, record)
  {
    HitOf(q, record).value
  }

  function Scan(q: Query, records: seq<ComponentRecord>): (found: seq<ComponentRecord>)
    ensures forall r :: r in found <==> r in records && Accepts(q, r)
  {
    if records == [] then []
    else
      assert records == [records[0]] + records[1..];
      (if Accepts(q, records[0]) then [records[0]] else []) + Scan(q, records[1..])
  }

  function Hits(q: Query, found: seq<ComponentRecord>): (hits: seq<Hit>)
    requires forall i :: 0 <= i < |found| ==> Accepts(q, found[i])
    ensures |hits| == |found|
    ensures forall i :: 0 <= i < |found| ==> hits[i] == Ranked(q, found[i])
  {
    seq(|found|, i requires 0 <= i < |found| => Ranked(q, found[i]))
  }

  /** Best score first, then by id. */
  predicate Before(a: Hit, b: Hit) {
    a.score > b.score || (a.score == b.score && Less(a.id, b.id))
  }

  function With(found: seq<ComponentRecord>, f: nat, value: Text): set<ComponentRecord>
    requires f < FACETS
  {
    set r | r in found && value in r.facets[f]
  }

  function FacetValues(found: seq<ComponentRecord>, f: nat): set<Text>
    requires f < FACETS
  {
    set r, v | r in found && v in r.facets[f] :: v
  }

  function FacetCounts(found: seq<ComponentRecord>, f: nat): seq<FacetValue>
    requires f < FACETS
  {
    var values := SortedSet(FacetValues(found, f));
    seq(|values|, i requires 0 <= i < |values| => FacetValue(values[i], |With(found, f, values[i])|))
  }

  function Take<T>(s: seq<T>, n: nat): seq<T> {
    if |s| <= n then s else s[..n]
  }

  function AllFacetCounts(found: seq<ComponentRecord>): seq<seq<FacetValue>> {
    seq(FACETS, f requires 0 <= f < FACETS => FacetCounts(found, f))
  }

  function Report(q: Query, found: seq<ComponentRecord>, limit: nat): SearchResults
    requires forall i :: 0 <= i < |found| ==> Accepts(q, found[i])
  {
    SearchResults(q.terms, |found|, Take(Sort(Before, Hits(q, found)), limit), AllFacetCounts(found))
  }

  /** What a search means: filter and rank the records one by one, sort, count, cut. */
  function PlainScan(q: Query, records: seq<ComponentRecord>, limit: nat): SearchResults {
    var found := Scan(q, records);
    assert forall i :: 0 <= i < |found| ==> found[i] in found;
    Report(q, found, limit)
  }

  // ----- the order of the hits -----

  ghost predicate DistinctIds(records: seq<ComponentRecord>) {
    forall i, j :: 0 <= i < j < |records| ==> records[i].id != records[j].id
  }

  lemma {:induction false} BeforeIsStrict()
    ensures StrictOrder(Before)
  {
    forall x: Hit ensures !Before(x, x) {
      LessIsIrreflexive(x.id);
    }
    forall x: Hit, y: Hit, z: Hit | Before(x, y) && Before(y, z) ensures Before(x, z) {
      if x.score == y.score == z.score {
        LessIsTransitive(x.id, y.id, z.id);
      }
    }
  }

  lemma {:induction false} ScanKeepsIdsDistinct(q: Query, records: seq<ComponentRecord>)
    requires DistinctIds(records)
    ensures DistinctIds(Scan(q, records))
  {
    if records != [] {
      var rest := Scan(q, records[1..]);
      ScanKeepsIdsDistinct(q, records[1..]);
      forall j | 0 <= j < |rest| ensures rest[j].id != records[0].id {
        assert rest[j] in records[1..];
      }
    }
  }

  lemma {:induction false} HitsAreComparable(q: Query, found: seq<ComponentRecord>)
    requires DistinctIds(found)
    requires forall i :: 0 <= i < |found| ==> Accepts(q, found[i])
    ensures Comparable(Before, Hits(q, found))
    ensures Sorted(Before, Sort(Before, Hits(q, found)))
  {
    var hits := Hits(q, found);
    forall i, j | 0 <= i < j < |hits| ensures Before(hits[i], hits[j]) || Before(hits[j], hits[i]) {
      LessIsTotal(hits[i].id, hits[j].id);
    }
    BeforeIsStrict();
    SortSorts(Before, hits);
  }

  /** Two searches that found the same records rank them in the same order. */
  lemma {:induction false} SameRecordsSameRanking(q: Query, a: seq<ComponentRecord>, b: seq<ComponentRecord>)
    requires DistinctIds(a) && DistinctIds(b) && SameElements(a, b)
    requires forall i :: 0 <= i < |a| ==> Accepts(q, a[i])
    requires forall i :: 0 <= i < |b| ==> Accepts(q, b[i])
    ensures |a| == |b|
    ensures Sort(Before, Hits(q, a)) == Sort(Before, Hits(q, b))
  {
    BeforeIsStrict();
    HitsAreComparable(q, a);
    HitsAreComparable(q, b);
    SameRecordsSameHits(q, a, b);
    SameRecordsSameHits(q, b, a);
    SortedIsUnique(Before, Sort(Before, Hits(q, a)), Sort(Before, Hits(q, b)));
  }

  lemma {:induction false} SameRecordsSameHits(q: Query, a: seq<ComponentRecord>, b: seq<ComponentRecord>)
    requires forall r :: r in a ==> r in b
    requires forall i :: 0 <= i < |a| ==> Accepts(q, a[i])
    requires forall i :: 0 <= i < |b| ==> Accepts(q, b[i])
    ensures forall h :: h in Hits(q, a) ==> h in Hits(q, b)
  {
    forall h | h in Hits(q, a) ensures h in Hits(q, b) {
      var i :| 0 <= i < |a| && Hits(q, a)[i] == h;
      assert a[i] in a;
      var j :| 0 <= j < |b| && b[j] == a[i];
      assert Hits(q, b)[j] == h;
    }
  }

  lemma {:induction false} SameRecordsSameCounts(a: seq<ComponentRecord>, b: seq<ComponentRecord>)
    requires SameElements(a, b)
    ensures AllFacetCounts(a) == AllFacetCounts(b)
  {
    forall f | 0 <= f < FACETS ensures FacetCounts(a, f) == FacetCounts(b, f) {
      assert FacetValues(a, f) == FacetValues(b, f);
      forall v: Text ensures With(a, f, v) == With(b, f, v) {}
    }
  }

  lemma {:induction false} SameRecordsSameReport(q: Query, a: seq<ComponentRecord>, b: seq<ComponentRecord>, limit: nat)
    requires DistinctIds(a) && DistinctIds(b) && SameElements(a, b)
    requires forall i :: 0 <= i < |a| ==> Accepts(q, a[i])
    requires forall i :: 0 <= i < |b| ==> Accepts(q, b[i])
    ensures Report(q, a, limit) == Report(q, b, limit)
  {
    SameRecordsSameRanking(q, a, b);
    SameRecordsSameCounts(a, b);
  }

  /** A search does not depend on the order in which the records were listed. */
  lemma {:induction false} ScanForgetsOrder(q: Query, a: seq<ComponentRecord>, b: seq<ComponentRecord>, limit: nat)
    requires DistinctIds(a) && DistinctIds(b) && SameElements(a, b)
    ensures PlainScan(q, a, limit) == PlainScan(q, b, limit)
  {
    ScanKeepsIdsDistinct(q, a);
    ScanKeepsIdsDistinct(q, b);
    SameRecordsSameReport(q, Scan(q, a), Scan(q, b), limit);
  }

  // ----- the prefilter -----

  ghost predicate Touches(lex: Lexicon, field: Field, terms: seq<Text>) {
    exists t :: t in terms && TermMatches(t, ValueTerms(lex, field.values))
  }

  lemma {:induction false} MatchFieldTouches(lex: Lexicon, field: Field, terms: seq<Text>)
    ensures MatchField(lex, field, terms).Some? <==> Touches(lex, field, terms)
  {
    MatchingTermsNonempty(terms, ValueTerms(lex, field.values));
  }

  ghost predicate TouchesAny(lex: Lexicon, fields: seq<Field>, terms: seq<Text>) {
    exists i :: 0 <= i < |fields| && Touches(lex, fields[i], terms)
  }

  lemma {:induction false} CollectNonempty(matcher: Field -> Option<FieldMatch>, fields: seq<Field>)
    ensures Collect(matcher, fields) != [] <==> exists i :: 0 <= i < |fields| && matcher(fields[i]).Some?
  {
    if fields != [] {
      var n := |fields| - 1;
      CollectNonempty(matcher, fields[..n]);
      assert forall i :: 0 <= i < n ==> fields[..n][i] == fields[i];
    }
  }

  lemma {:induction false} MatchFieldsNonempty(lex: Lexicon, fields: seq<Field>, terms: seq<Text>)
    ensures MatchFields(lex, fields, terms) != [] <==> TouchesAny(lex, fields, terms)
  {
    CollectNonempty(Matcher(lex, terms), fields);
    forall i | 0 <= i < |fields| ensures Matcher(lex, terms)(fields[i]).Some? <==> Touches(lex, fields[i], terms) {
      MatchFieldTouches(lex, fields[i], terms);
    }
  }

  /** Every form of every term under a positive field. */
  function PositiveTerms(lex: Lexicon, c: Component): set<Text> {
    set i, t | 0 <= i < |c.positive| && t in ValueTerms(lex, c.positive[i].values) :: t
  }

  predicate Posted(terms: seq<Text>, indexed: set<Text>) {
    exists t :: t in terms && TermMatches(t, indexed)
  }

  /** A nonempty query ranks a component exactly when a form of one of its terms is posted under
      one of the component's positive fields; text in boundary fields never makes it eligible. */
  lemma {:induction false} RankedIffPosted(q: Query, record: ComponentRecord)
    requires q.terms != []
    ensures HitOf(q, record).Some? <==> Posted(q.terms, PositiveTerms(q.lex, Compile(record)))
  {
    var c := Compile(record);
    MatchFieldsNonempty(q.lex, c.positive, q.terms);
    var all := PositiveTerms(q.lex, c);
    if i, t :| 0 <= i < |c.positive| && t in q.terms && TermMatches(t, ValueTerms(q.lex, c.positive[i].values)) {
      var form :| form in TermForms(t) && form in ValueTerms(q.lex, c.positive[i].values);
      assert form in all;
    }
    if t :| t in q.terms && TermMatches(t, all) {
      var form :| form in TermForms(t) && form in all;
      var i :| 0 <= i < |c.positive| && form in ValueTerms(q.lex, c.positive[i].values);
      assert Touches(q.lex, c.positive[i], q.terms);
    }
  }

  // ----- building the index -----

  datatype CatalogError = TooManyRecords | DuplicateId(id: Text)

  type Postings = map<Text, set<Text>>

  datatype Index = Index(lex: Lexicon, components: map<Text, Component>, positive: Postings, facets: seq<Postings>)

  function Posting(postings: Postings, key: Text): set<Text> {
    if key in postings then postings[key] else {}
  }

  ghost predicate IsSnapshot(snapshots: map<Text, ComponentRecord>, records: seq<ComponentRecord>) {
    && (forall r :: r in records ==> r.id in snapshots && snapshots[r.id] == r)
    && (forall id :: id in snapshots ==> snapshots[id] in records && snapshots[id].id == id)
  }

  /** One more record under an id of its own. */
  lemma {:induction false} SnapshotGrows(snapshots: map<Text, ComponentRecord>, front: seq<ComponentRecord>,
                                         record: ComponentRecord)
    requires IsSnapshot(snapshots, front) && DistinctIds(front) && record.id !in snapshots
    ensures IsSnapshot(snapshots[record.id := record], front + [record]) && DistinctIds(front + [record])
  {
    assert forall j :: 0 <= j < |front| ==> front[j] in front;
    var all := front + [record];
    assert forall r :: r in all <==> r in front || r == record;
  }

  /** An id that is taken belongs to an earlier record. */
  lemma {:induction false} TakenIdIsEarlier(snapshots: map<Text, ComponentRecord>, records: seq<ComponentRecord>,
                                            i: nat)
    requires i < |records| && IsSnapshot(snapshots, records[..i]) && records[i].id in snapshots
    ensures exists j :: 0 <= j < i && records[j].id == records[i].id
  {
    var j :| 0 <= j < i && records[..i][j] == snapshots[records[i].id];
    assert records[j].id == records[i].id;
  }

  method Snapshot(records: seq<ComponentRecord>) returns (r: Result<map<Text, ComponentRecord>, CatalogError>)
    ensures r.Ok? <==> |records| <= MAX_INDEXED_RECORDS && DistinctIds(records)
    ensures r.Ok? ==> IsSnapshot(r.value, records)
    ensures r.Err? && r.error.TooManyRecords? ==>
              |records| > MAX_INDEXED_RECORDS && DistinctIds(records[..MAX_INDEXED_RECORDS])
    ensures r.Err? && r.error.DuplicateId? ==>
              exists i, j :: 0 <= i < j < |records| && j < MAX_INDEXED_RECORDS && DistinctIds(records[..j])
                             && records[i].id == records[j].id == r.error.id
  {
    var snapshots: map<Text, ComponentRecord> := map[];
    for i := 0 to |records|
      invariant i <= MAX_INDEXED_RECORDS
      invariant DistinctIds(records[..i])
      invariant IsSnapshot(snapshots, records[..i])
    {
      if i + 1 > MAX_INDEXED_RECORDS {
        return Err(TooManyRecords);
      }
      var record := records[i];
      if record.id in snapshots {
        TakenIdIsEarlier(snapshots, records, i);
        return Err(DuplicateId(record.id));
      }
      SnapshotGrows(snapshots, records[..i], record);
      snapshots := snapshots[record.id := record];
      assert records[..i + 1] == records[..i] + [record];
    }
    assert records[..|records|] == records;
    r := Ok(snapshots);
  }

  /** `id` filed under each of the given keys. */
  function Post(postings: Postings, keys: set<Text>, id: Text): (r: Postings)
    ensures forall key: Text :: Posting(r, key) == Posting(postings, key) + if key in keys then {id} else {}
  {
    map key | key in postings.Keys + keys :: Posting(postings, key) + if key in keys then {id} else {}
  }

  ghost predicate FiledByTerm(ix: Index, term: Text, id: Text) {
    id in Posting(ix.positive, term) <==>
    id in ix.components && term in PositiveTerms(ix.lex, ix.components[id])
  }

  ghost predicate FiledByFacet(ix: Index, f: nat, value: Text, id: Text)
    requires f < FACETS == |ix.facets|
  {
    id in Posting(ix.facets[f], value) <==>
    id in ix.components && value in ix.components[id].record.facets[f]
  }

  /** Every id is filed under exactly the positive terms and facet values of its component. */
  ghost predicate Files(ix: Index) {
    && |ix.facets| == FACETS
    && (forall term, id :: FiledByTerm(ix, term, id))
    && (forall f, value, id :: 0 <= f < FACETS ==> FiledByFacet(ix, f, value, id))
  }

  method PostPositive(lex: Lexicon, postings: Postings, c: Component) returns (r: Postings)
    ensures forall term: Text :: Posting(r, term) ==
              Posting(postings, term) + if term in PositiveTerms(lex, c) then {c.record.id} else {}
  {
    r := postings;
    for i := 0 to |c.positive|
      invariant forall term: Text :: Posting(r, term) ==
                  Posting(postings, term)
                  + if exists j :: 0 <= j < i && term in ValueTerms(lex, c.positive[j].values) then {c.record.id}
                    else {}
    {
      r := Post(r, ValueTerms(lex, c.positive[i].values), c.record.id);
    }
  }

  method PostFacets(facets: seq<Postings>, record: ComponentRecord) returns (r: seq<Postings>)
    requires |facets| == FACETS
    ensures |r| == FACETS
    ensures forall f, value: Text :: 0 <= f < FACETS ==>
              Posting(r[f], value) == Posting(facets[f], value) + if value in record.facets[f] then {record.id} else {}
  {
    r := facets;
    for i := 0 to FACETS
      invariant |r| == FACETS
      invariant forall f :: i <= f < FACETS ==> r[f] == facets[f]
      invariant forall f, value: Text :: 0 <= f < i ==>
                  Posting(r[f], value)
                  == Posting(facets[f], value) + if value in record.facets[f] then {record.id} else {}
    {
      var values := set v | v in record.facets[i];
      r := r[i := Post(r[i], values, record.id)];
    }
  }

  /** The index files the components of exactly these records. */
  ghost predicate Describes(ix: Index, records: seq<ComponentRecord>) {
    && Files(ix)
    && (forall r :: r in records ==> r.id in ix.components && ix.components[r.id] == Compile(r))
    && (forall id :: id in ix.components ==>
          var c := ix.components[id]; c.record in records && c.record.id == id && c == Compile(c.record))
  }

  method AddComponent(ix: Index, c: Component) returns (r: Index)
    requires Files(ix) && c.record.id !in ix.components
    ensures Files(r) && r.lex == ix.lex && r.components == ix.components[c.record.id := c]
  {
    var positive := PostPositive(ix.lex, ix.positive, c);
    var facets := PostFacets(ix.facets, c.record);
    r := Index(ix.lex, ix.components[c.record.id := c], positive, facets);
    forall term, id ensures FiledByTerm(r, term, id) {
      assert FiledByTerm(ix, term, id);
    }
    forall f, value, id | 0 <= f < FACETS ensures FiledByFacet(r, f, value, id) {
      assert FiledByFacet(ix, f, value, id);
    }
  }

  function EmptyIndex(lex: Lexicon): (ix: Index)
    ensures Files(ix)
  {
    Index(lex, map[], map[], seq(FACETS, i => map[]))
  }

  method IndexAll(lex: Lexicon, compiled: map<Text, Component>) returns (ix: Index)
    requires forall id :: id in compiled ==> compiled[id].record.id == id
    ensures Files(ix) && ix.lex == lex
    ensures forall id :: id in ix.components <==> id in compiled
    ensures forall id :: id in ix.components ==> ix.components[id] == compiled[id]
  {
    var ids := SortedSet(compiled.Keys);
    SortedSetHasNoRepeats(compiled.Keys);
    ix := EmptyIndex(lex);
    for i := 0 to |ids|
      invariant ix.lex == lex && Files(ix)
      invariant forall j :: 0 <= j < |ids| ==> (ids[j] in ix.components <==> j < i)
      invariant forall id :: id in ix.components ==> id in compiled && ix.components[id] == compiled[id]
    {
      assert ids[i] in ids;
      ix := AddComponent(ix, compiled[ids[i]]);
    }
  }

  method Build(lex: Lexicon, records: seq<ComponentRecord>) returns (r: Result<Index, CatalogError>)
    ensures r.Ok? <==> |records| <= MAX_INDEXED_RECORDS && DistinctIds(records)
    ensures r.Ok? ==> r.value.lex == lex && Describes(r.value, records)
  {
    var taken := Snapshot(records);
    if taken.Err? {
      return Err(taken.error);
    }
    var snapshots := taken.value;
    var compiled := map id | id in snapshots :: Compile(snapshots[id]);
    var ix := IndexAll(lex, compiled);
    r := Ok(ix);
  }

  // ----- searching the index -----

  method FacetMatches(postings: Postings, requested: seq<Text>) returns (ids: set<Text>)
    ensures forall id :: id in ids <==> exists v :: v in requested && id in Posting(postings, v)
  {
    ids := {};
    for i := 0 to |requested|
      invariant forall id :: id in ids <==> exists v :: v in requested[..i] && id in Posting(postings, v)
    {
      assert requested[..i + 1] == requested[..i] + [requested[i]];
      ids := ids + Posting(postings, requested[i]);
    }
    assert requested[..|requested|] == requested;
  }

  ghost predicate PostedBy(postings: Postings, terms: seq<Text>, id: Text) {
    exists t, form :: t in terms && form in TermForms(t) && id in Posting(postings, form)
  }

  method PositiveMatches(postings: Postings, terms: seq<Text>) returns (ids: set<Text>)
    ensures forall id :: id in ids <==> PostedBy(postings, terms, id)
  {
    ids := {};
    for i := 0 to |terms|
      invariant forall id :: id in ids <==> PostedBy(postings, terms[..i], id)
    {
      ghost var before := ids;
      var forms := TermForms(terms[i]);
      while forms != {}
        invariant forms <= TermForms(terms[i])
        invariant forall id :: id in ids <==>
                    id in before || exists form :: form in TermForms(terms[i]) - forms && id in Posting(postings, form)
      {
        var form :| form in forms;
        ids := ids + Posting(postings, form);
        forms := forms - {form};
      }
      assert terms[..i + 1] == terms[..i] + [terms[i]];
    }
    assert terms[..|terms|] == terms;
  }

  predicate PassesFirst(filters: Facets, record: ComponentRecord, n: nat)
    requires n <= FACETS
  {
    forall f :: 0 <= f < n ==> PassesFacet(filters[f], record.facets[f])
  }

  lemma {:induction false} PostedByIffPosted(ix: Index, terms: seq<Text>, id: Text)
    requires Files(ix) && id in ix.components
    ensures PostedBy(ix.positive, terms, id) <==> Posted(terms, PositiveTerms(ix.lex, ix.components[id]))
  {
    var posted := PositiveTerms(ix.lex, ix.components[id]);
    forall t | t in terms
      ensures (exists form :: form in TermForms(t) && id in Posting(ix.positive, form)) <==> TermMatches(t, posted)
    {
      forall form ensures id in Posting(ix.positive, form) <==> form in posted {
        assert FiledByTerm(ix, form, id);
      }
    }
  }

  method Candidates(ix: Index, q: Query) returns (ids: set<Text>)
    requires Files(ix) && q.lex == ix.lex
    ensures forall id :: id in ids <==>
              && id in ix.components
              && PassesFilters(q.filters, ix.components[id].record)
              && (q.terms == [] || Posted(q.terms, PositiveTerms(q.lex, ix.components[id])))
  {
    ids := ix.components.Keys;
    for f := 0 to FACETS
      invariant forall id :: id in ids <==> id in ix.components && PassesFirst(q.filters, ix.components[id].record, f)
    {
      var requested := q.filters[f];
      if requested != [] {
        var matching := FacetMatches(ix.facets[f], requested);
        forall id | id in ix.components
          ensures id in matching <==> PassesFacet(requested, ix.components[id].record.facets[f])
        {
          forall v | v in requested
            ensures id in Posting(ix.facets[f], v) <==> v in ix.components[id].record.facets[f]
          {
            assert FiledByFacet(ix, f, v, id);
          }
        }
        ids := ids * matching;
      }
    }
    if q.terms != [] {
      var positive := PositiveMatches(ix.positive, q.terms);
      ids := ids * positive;
      forall id | id in ix.components {
        PostedByIffPosted(ix, q.terms, id);
      }
    }
  }

  /** One more record adds itself under each of its values. */
  lemma {:induction false} WithOneMore(found: seq<ComponentRecord>, r: ComponentRecord, f: nat, value: Text)
    requires f < FACETS && r !in found
    ensures |With(found + [r], f, value)| == |With(found, f, value)| + if value in r.facets[f] then 1 else 0
  {
    assert With(found + [r], f, value) == With(found, f, value) + if value in r.facets[f] then {r} else {};
  }

  function CountOf(counter: map<Text, nat>, value: Text): nat {
    if value in counter then counter[value] else 0
  }

  /** `Counter.update` with values that do not repeat. */
  method CountValues(counter: map<Text, nat>, values: seq<Text>) returns (r: map<Text, nat>)
    requires NoRepeats(values)
    ensures r.Keys == counter.Keys + set v | v in values
    ensures forall v: Text :: CountOf(r, v) == CountOf(counter, v) + if v in values then 1 else 0
  {
    r := counter;
    for i := 0 to |values|
      invariant r.Keys == counter.Keys + set v | v in values[..i]
      invariant forall v: Text :: CountOf(r, v) == CountOf(counter, v) + if v in values[..i] then 1 else 0
    {
      assert values[..i + 1] == values[..i] + [values[i]];
      r := r[values[i] := CountOf(r, values[i]) + 1];
    }
    assert values[..|values|] == values;
  }

  method CountFacet(found: seq<ComponentRecord>, f: nat) returns (counts: seq<FacetValue>)
    requires f < FACETS && DistinctIds(found)
    ensures counts == FacetCounts(found, f)
  {
    var counter: map<Text, nat> := map[];
    for i := 0 to |found|
      invariant counter.Keys == FacetValues(found[..i], f)
      invariant forall v: Text :: CountOf(counter, v) == |With(found[..i], f, v)|
    {
      ghost var before := found[..i];
      assert found[..i + 1] == before + [found[i]];
      forall v: Text {
        WithOneMore(before, found[i], f, v);
      }
      counter := CountValues(counter, found[i].facets[f]);
    }
    assert found[..|found|] == found;
    var values := SortedSet(counter.Keys);
    counts := seq(|values|, i requires 0 <= i < |values| => FacetValue(values[i], CountOf(counter, values[i])));
  }

  predicate Names(ix: Index, id: Text) {
    id in ix.components && ix.components[id].record.id == id
  }

  function RecordOf(ix: Index, id: Text): ComponentRecord
    requires Names(ix, id)
  {
    ix.components[id].record
  }

  /** The records of the given ids that satisfy a condition, in order. */
  function Eligible(ix: Index, accept: ComponentRecord -> bool, ids: seq<Text>): (r: seq<ComponentRecord>)
    requires forall i :: 0 <= i < |ids| ==> Names(ix, ids[i])
    ensures forall record :: record in r ==>
              record.id in ids && Names(ix, record.id) && record == RecordOf(ix, record.id) && accept(record)
  {
    if ids == [] then []
    else
      var last := ids[|ids| - 1];
      var record := RecordOf(ix, last);
      Eligible(ix, accept, ids[..|ids| - 1]) + if accept(record) then [record] else []
  }

  lemma {:induction false} EligibleIsComplete(ix: Index, accept: ComponentRecord -> bool, ids: seq<Text>)
    requires forall i :: 0 <= i < |ids| ==> Names(ix, ids[i])
    ensures forall i :: 0 <= i < |ids| && accept(RecordOf(ix, ids[i])) ==>
                        RecordOf(ix, ids[i]) in Eligible(ix, accept, ids)
  {
    if ids != [] {
      EligibleIsComplete(ix, accept, ids[..|ids| - 1]);
    }
  }

  lemma {:induction false} EligibleIsDistinct(ix: Index, accept: ComponentRecord -> bool, ids: seq<Text>)
    requires NoRepeats(ids) && forall i :: 0 <= i < |ids| ==> Names(ix, ids[i])
    ensures DistinctIds(Eligible(ix, accept, ids))
  {
    if ids != [] {
      EligibleIsDistinct(ix, accept, ids[..|ids| - 1]);
      var before := Eligible(ix, accept, ids[..|ids| - 1]);
      forall i | 0 <= i < |before| ensures before[i].id != ids[|ids| - 1] {
        assert before[i] in before;
      }
    }
  }

  function Ranks(q: Query): ComponentRecord -> bool {
    (r: ComponentRecord) => HitOf(q, r).Some?
  }

  predicate IsCompiled(ix: Index, id: Text)
    requires Names(ix, id)
  {
    ix.components[id] == Compile(RecordOf(ix, id))
  }

  method RankOne(ix: Index, q: Query, id: Text) returns (hit: Option<Hit>)
    requires q.lex == ix.lex && Names(ix, id) && IsCompiled(ix, id)
    ensures hit == HitOf(q, RecordOf(ix, id))
  {
    hit := RankRecord(ix.lex, ix.components[id], q.phrase, q.terms);
  }

  method RankCandidates(ix: Index, q: Query, ids: seq<Text>) returns (hits: seq<Hit>, eligible: seq<ComponentRecord>)
    requires q.lex == ix.lex
    requires forall i :: 0 <= i < |ids| ==> Names(ix, ids[i])
    requires forall i :: 0 <= i < |ids| ==> IsCompiled(ix, ids[i]) && PassesFilters(q.filters, RecordOf(ix, ids[i]))
    ensures eligible == Eligible(ix, Ranks(q), ids)
    ensures forall i :: 0 <= i < |eligible| ==> Accepts(q, eligible[i])
    ensures hits == Hits(q, eligible)
  {
    hits, eligible := [], [];
    for i := 0 to |ids|
      invariant eligible == Eligible(ix, Ranks(q), ids[..i])
      invariant |hits| == |eligible|
      invariant forall i :: 0 <= i < |eligible| ==> Accepts(q, eligible[i]) && hits[i] == Ranked(q, eligible[i])
    {
      assert ids[..i + 1][..i] == ids[..i];
      var id := ids[i];
      assert IsCompiled(ix, id) && PassesFilters(q.filters, RecordOf(ix, id));
      var hit := RankOne(ix, q, id);
      if hit.Some? {
        assert Accepts(q, RecordOf(ix, id));
        hits := hits + [hit.value];
        eligible := eligible + [ix.components[id].record];
      }
    }
    assert ids[..|ids|] == ids;
  }

  /** The postings hide no record the scan would find. */
  lemma {:induction false} EligibleIsScan(ix: Index, q: Query, records: seq<ComponentRecord>, ids: seq<Text>)
    requires Describes(ix, records) && q.lex == ix.lex
    requires forall id :: id in ids <==>
               && id in ix.components
               && PassesFilters(q.filters, ix.components[id].record)
               && (q.terms == [] || Posted(q.terms, PositiveTerms(q.lex, ix.components[id])))
    requires forall i :: 0 <= i < |ids| ==> Names(ix, ids[i])
    ensures SameElements(Eligible(ix, Ranks(q), ids), Scan(q, records))
  {
    EligibleIsComplete(ix, Ranks(q), ids);
    var eligible := Eligible(ix, Ranks(q), ids);
    forall r ensures r in eligible <==> r in Scan(q, records) {
      if q.terms != [] {
        RankedIffPosted(q, r);
      }
      if r in Scan(q, records) {
        assert r.id in ids;
        var i :| 0 <= i < |ids| && ids[i] == r.id;
        assert RecordOf(ix, ids[i]) in eligible;
      }
    }
  }

  method CountFacets(found: seq<ComponentRecord>) returns (facets: seq<seq<FacetValue>>)
    requires DistinctIds(found)
    ensures facets == AllFacetCounts(found)
  {
    facets := [];
    for f := 0 to FACETS
      invariant |facets| == f
      invariant forall g :: 0 <= g < f ==> facets[g] == FacetCounts(found, g)
    {
      var counts := CountFacet(found, f);
      facets := facets + [counts];
    }
  }

  method Find(ix: Index, q: Query, ghost records: seq<ComponentRecord>)
      returns (hits: seq<Hit>, eligible: seq<ComponentRecord>)
    requires Describes(ix, records) && q.lex == ix.lex
    ensures DistinctIds(eligible) && SameElements(eligible, Scan(q, records))
    ensures forall i :: 0 <= i < |eligible| ==> Accepts(q, eligible[i])
    ensures hits == Hits(q, eligible)
  {
    var candidates := Candidates(ix, q);
    var ids := SortedSet(candidates);
    assert forall i :: 0 <= i < |ids| ==> ids[i] in candidates && Names(ix, ids[i]) && IsCompiled(ix, ids[i]);
    hits, eligible := RankCandidates(ix, q, ids);
    SortedSetHasNoRepeats(candidates);
    EligibleIsDistinct(ix, Ranks(q), ids);
    EligibleIsScan(ix, q, records, ids);
  }

  datatype SearchError = LimitOutOfRange

  /** The indexed search returns what the plain scan over the same records returns. */
  method Search(ix: Index, query: Text, filters: Facets, limit: int, ghost records: seq<ComponentRecord>)
      returns (r: Result<SearchResults, SearchError>)
    requires Describes(ix, records) && DistinctIds(records)
    ensures r == if 1 <= limit <= MAX_LIMIT then Ok(PlainScan(Prepare(ix.lex, query, filters), records, limit))
                 else Err(LimitOutOfRange)
    ensures r.Ok? ==> |r.value.hits| <= limit && BestFirst(r.value.hits)
    ensures r.Ok? ==>
              var q := Prepare(ix.lex, query, filters);
              forall c :: c in records && Accepts(q, c) && Ranked(q, c) !in r.value.hits ==>
                |r.value.hits| == limit && NoBetterThan(Ranked(q, c), r.value.hits)
  {
    if limit < 1 || limit > MAX_LIMIT {
      return Err(LimitOutOfRange);
    }
    var terms := Tokenize(ix.lex, query);
    var q := Query(ix.lex, terms, NormalisedPhrase(ix.lex, query), filters);
    var hits, eligible := Find(ix, q, records);
    var facets := CountFacets(eligible);
    ScanKeepsIdsDistinct(q, records);
    SameRecordsSameReport(q, eligible, Scan(q, records), limit);
    ScanReturnsBest(q, records, limit);
    r := Ok(SearchResults(terms, |hits|, Take(Sort(Before, hits), limit), facets));
  }

  // ----- what a hit says -----

  ghost predicate MatchedBy(lex: Lexicon, fields: seq<Field>, terms: seq<Text>, t: Text) {
    t in terms && exists i :: 0 <= i < |fields| && TermMatches(t, ValueTerms(lex, fields[i].values))
  }

  ghost predicate MatchHas(matcher: Field -> Option<FieldMatch>, field: Field, t: Text) {
    matcher(field).Some? && t in matcher(field).value.terms
  }

  ghost predicate SomeMatchHas(matcher: Field -> Option<FieldMatch>, fields: seq<Field>, t: Text) {
    exists i :: 0 <= i < |fields| && MatchHas(matcher, fields[i], t)
  }

  lemma {:induction false} SomeMatchSplit(matcher: Field -> Option<FieldMatch>, front: seq<Field>, last: Field, t: Text)
    ensures SomeMatchHas(matcher, front + [last], t) <==> SomeMatchHas(matcher, front, t) || MatchHas(matcher, last, t)
  {
    var all := front + [last];
    if i :| 0 <= i < |front| && MatchHas(matcher, front[i], t) {
      assert MatchHas(matcher, all[i], t);
    }
    assert all[|front|] == last;
  }

  lemma {:induction false} CollectCovers(matcher: Field -> Option<FieldMatch>, fields: seq<Field>, t: Text)
    ensures Covered(t, Collect(matcher, fields)) <==> SomeMatchHas(matcher, fields, t)
  {
    if fields != [] {
      var n := |fields| - 1;
      CollectCovers(matcher, fields[..n], t);
      SomeMatchSplit(matcher, fields[..n], fields[n], t);
      assert fields == fields[..n] + [fields[n]];
      if matcher(fields[n]).Some? {
        CoveredSplit(Collect(matcher, fields[..n]), matcher(fields[n]).value, t);
      } else {
        assert Collect(matcher, fields) == Collect(matcher, fields[..n]);
      }
    }
  }

  lemma {:induction false} CoveredSplit(front: seq<FieldMatch>, last: FieldMatch, t: Text)
    ensures Covered(t, front + [last]) <==> Covered(t, front) || t in last.terms
  {
    var all := front + [last];
    if i :| 0 <= i < |front| && t in front[i].terms {
      assert all[i] == front[i];
    }
    assert all[|front|] == last;
  }

  lemma {:induction false} CoveredIff(lex: Lexicon, fields: seq<Field>, terms: seq<Text>, t: Text)
    ensures Covered(t, MatchFields(lex, fields, terms)) <==> MatchedBy(lex, fields, terms, t)
  {
    CollectCovers(Matcher(lex, terms), fields, t);
    forall i | 0 <= i < |fields|
      ensures MatchHas(Matcher(lex, terms), fields[i], t) <==>
              t in terms && TermMatches(t, ValueTerms(lex, fields[i].values))
    {
      MatchingTermsAre(terms, ValueTerms(lex, fields[i].values), t);
    }
  }

  lemma {:induction false} FilterIs(terms: seq<Text>, matches: seq<FieldMatch>, covered: bool, t: Text)
    ensures t in Filter(terms, matches, covered) <==> t in terms && Covered(t, matches) == covered
  {
    if terms != [] {
      FilterIs(terms[1..], matches, covered, t);
      assert terms == [terms[0]] + terms[1..];
    }
  }

  lemma {:induction false} FilterSizes(terms: seq<Text>, matches: seq<FieldMatch>)
    ensures |Filter(terms, matches, true)| + |Filter(terms, matches, false)| == |terms|
  {
    if terms != [] {
      FilterSizes(terms[1..], matches);
    }
  }

  /** A hit splits the query's terms into those that some positive field matches and the others. */
  lemma {:induction false} HitSplitsTerms(lex: Lexicon, c: Component, phrase: Text, terms: seq<Text>, t: Text)
    requires Rank(lex, c, phrase, terms).Some?
    ensures var hit := Rank(lex, c, phrase, terms).value;
      && |hit.matched| + |hit.unmatched| == |terms|
      && (t in hit.matched <==> MatchedBy(lex, c.positive, terms, t))
      && (t in hit.unmatched <==> t in terms && !MatchedBy(lex, c.positive, terms, t))
  {
    var positive := MatchFields(lex, c.positive, terms);
    FilterIs(terms, positive, true, t);
    FilterIs(terms, positive, false, t);
    FilterSizes(terms, positive);
    CoveredIff(lex, c.positive, terms, t);
  }

  lemma {:induction false} SubsetSize(a: set<Text>, terms: seq<Text>)
    requires forall t :: t in a ==> t in terms
    ensures |a| <= |terms|
  {
    if terms != [] {
      SubsetSize(a - {terms[0]}, terms[1..]);
      assert forall t :: t in terms <==> t == terms[0] || t in terms[1..];
    } else {
      assert a == {};
    }
  }

  /** Boundary text never decides eligibility and never adds to a score: without it the component is a
      hit just the same, with a score that is higher by at most three points a term. */
  lemma {:induction false} BoundaryOnlyDemotes(lex: Lexicon, c: Component, phrase: Text, terms: seq<Text>)
    ensures var plain := Rank(lex, c.(boundary := []), phrase, terms);
      var hit := Rank(lex, c, phrase, terms);
      && (hit.Some? <==> plain.Some?)
      && (hit.Some? ==> hit.value.score <= plain.value.score <= hit.value.score + 3 * |terms|)
      && (hit.Some? ==> hit.value.matched == plain.value.matched && hit.value.positive == plain.value.positive)
  {
    var boundary := MatchFields(lex, c.boundary, terms);
    assert MatchFields(lex, [], terms) == [];
    assert AllTerms([]) == {};
    forall t | t in AllTerms(boundary) ensures t in terms {
      CoveredIff(lex, c.boundary, terms, t);
    }
    SubsetSize(AllTerms(boundary), terms);
  }

  /** Higher scores come first, equal scores in the order of the ids. */
  ghost predicate BestFirst(hits: seq<Hit>) {
    forall i, j :: 0 <= i < j < |hits| ==>
      hits[i].score > hits[j].score || (hits[i].score == hits[j].score && Less(hits[i].id, hits[j].id))
  }

  /** No returned hit has a lower score than h, and of those with the same score none has a later id. */
  ghost predicate NoBetterThan(h: Hit, hits: seq<Hit>) {
    forall g :: g in hits ==> h.score <= g.score && (h.score == g.score ==> Less(g.id, h.id))
  }

  /** The hits of a scan are the best ones, in order: each belongs to an accepted record, and an accepted
      record is missing only behind a full page of hits with higher scores, or equal scores and earlier
      ids. */
  lemma {:induction false} ScanReturnsBest(q: Query, records: seq<ComponentRecord>, limit: nat)
    requires DistinctIds(records)
    ensures var r := PlainScan(q, records, limit);
      && |r.hits| <= limit && |r.hits| <= r.totalMatches
      && BestFirst(r.hits)
      && (forall h :: h in r.hits ==> IsHitOfSome(q, records, h))
      && (forall c :: c in records && Accepts(q, c) && Ranked(q, c) !in r.hits ==>
            |r.hits| == limit && NoBetterThan(Ranked(q, c), r.hits))
  {
    var found := Scan(q, records);
    assert forall i :: 0 <= i < |found| ==> found[i] in found;
    ScanKeepsIdsDistinct(q, records);
    HitsAreComparable(q, found);
    var all := Sort(Before, Hits(q, found));
    var hits := Take(all, limit);
    assert PlainScan(q, records, limit).hits == hits;
    BeforeIsBestFirst(hits);
    forall h | h in hits ensures IsHitOfSome(q, records, h) {
      var c := HitComesFromRecord(q, found, h);
    }
    forall c | c in records && Accepts(q, c) && Ranked(q, c) !in hits
      ensures |hits| == limit && NoBetterThan(Ranked(q, c), hits)
    {
      HitOfFound(q, found, c);
      CutOffIsWorse(all, limit, Ranked(q, c));
    }
  }

  lemma {:induction false} BeforeIsBestFirst(hits: seq<Hit>)
    requires Sorted(Before, hits)
    ensures BestFirst(hits)
  {
    forall i, j | 0 <= i < j < |hits|
      ensures hits[i].score > hits[j].score || (hits[i].score == hits[j].score && Less(hits[i].id, hits[j].id))
    {
      assert Before(hits[i], hits[j]);
    }
  }

  ghost predicate IsHitOfSome(q: Query, records: seq<ComponentRecord>, h: Hit) {
    exists c :: c in records && Accepts(q, c) && h == Ranked(q, c)
  }

  lemma {:induction false} HitOfFound(q: Query, found: seq<ComponentRecord>, c: ComponentRecord)
    requires forall i :: 0 <= i < |found| ==> Accepts(q, found[i])
    requires c in found && Accepts(q, c)
    ensures Ranked(q, c) in Sort(Before, Hits(q, found))
  {
    var i :| 0 <= i < |found| && found[i] == c;
    assert Hits(q, found)[i] == Ranked(q, c);
  }

  lemma {:induction false} HitComesFromRecord(q: Query, found: seq<ComponentRecord>,
                                              h: Hit) returns (c: ComponentRecord)
    requires forall i :: 0 <= i < |found| ==> Accepts(q, found[i])
    requires h in Sort(Before, Hits(q, found))
    ensures c in found && Accepts(q, c) && h == Ranked(q, c)
  {
    var i :| 0 <= i < |Hits(q, found)| && Hits(q, found)[i] == h;
    c := found[i];
  }

  lemma {:induction false} CutOffIsWorse(all: seq<Hit>, limit: nat, h: Hit)
    requires Sorted(Before, all) && h in all && h !in Take(all, limit)
    ensures |Take(all, limit)| == limit && NoBetterThan(h, Take(all, limit))
  {
    var hits := Take(all, limit);
    assert forall i :: 0 <= i < |hits| ==> all[i] == hits[i] && hits[i] in hits;
    var i :| 0 <= i < |all| && all[i] == h;
    assert |hits| <= i;
    forall g | g in hits ensures h.score <= g.score && (h.score == g.score ==> Less(g.id, h.id)) {
      var j :| 0 <= j < |hits| && hits[j] == g;
      assert Before(all[j], all[i]);
    }
  }
}
