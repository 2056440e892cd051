/** Vocabulary shared by every module: bytes, Python-style text, the lexicographic order that
    sorts them, and the sorting function that stands for Python's `sorted` on distinct keys. */
module Foundations {

  datatype Option<+T> = None | Some(value: T)

  datatype Result<+T, +E> = Ok(value: T) | Err(error: E)

  type Byte = b: int | 0 <= b < 256

  type Bytes = seq<Byte>

  /** A Python string is a sequence of code points, lone surrogates included. */
  type CodePoint = c: int | 0 <= c <= 0x10FFFF

  type Text = seq<CodePoint>

  /** The text of a Dafny string literal. */
  function Lit(s: string): (t: Text)
    ensures |t| == |s|
    ensures forall i :: 0 <= i < |s| ==> t[i] == s[i] as int
  {
    seq(|s|, i requires 0 <= i < |s| => s[i] as int)
  }

  /** `str(n)` for a natural number. */
  function Decimal(n: nat): (t: Text)
    ensures t != [] && forall i :: 0 <= i < |t| ==> 48 <= t[i] <= 57
  {
    if n < 10 then [48 + n] else Decimal(n / 10) + [48 + n % 10]
  }

  predicate IsDigit(c: int) {
    48 <= c <= 57
  }

  function Pow10(k: nat): nat {
    if k == 0 then 1 else 10 * Pow10(k - 1)
  }

  /** Some element of a nonempty set. */
  ghost function Pick<T>(s: set<T>): (x: T)
    requires s != {}
    ensures x in s
  {
    var x :| x in s;
    x
  }

  // ----- sums -----

  ghost function Sum<K>(m: map<K, nat>): nat
    decreases |m|
  {
    if m == map[] then 0
    else
      var k := Pick(m.Keys);
      assert (m - {k}).Keys == m.Keys - {k};
      m[k] + Sum(m - {k})
  }

  lemma {:induction false} SumWithout<K>(m: map<K, nat>, k: K)
    requires k in m
    ensures Sum(m) == m[k] + Sum(m - {k})
    decreases |m|
  {
    var j := Pick(m.Keys);
    if j != k {
      assert (m - {j}).Keys == m.Keys - {j} && (m - {k}).Keys == m.Keys - {k};
      SumWithout(m - {j}, k);
      SumWithout(m - {k}, j);
      assert m - {j} - {k} == m - {k} - {j};
    }
  }

  lemma {:induction false} SumOfUpdate<K>(m: map<K, nat>, k: K, v: nat)
    requires k !in m
    ensures Sum(m[k := v]) == Sum(m) + v
  {
    SumWithout(m[k := v], k);
    assert m[k := v] - {k} == m;
  }

  // ----- the lexicographic order -----

  predicate Less(a: seq<int>, b: seq<int>) {
    b != [] && (a == [] || a[0] < b[0] || (a[0] == b[0] && Less(a[1..], b[1..])))
  }

  /** The sequences agree up to position k, where a has ended or has the smaller element. */
  ghost predicate DecidesAt(a: seq<int>, b: seq<int>, k: nat) {
    k <= |a| && k < |b| && (forall i :: 0 <= i < k ==> a[i] == b[i]) && (k < |a| ==> a[k] < b[k])
  }

  /** The order is decided by the first difference, and a prefix comes first. */
  lemma {:induction false} LessIff(a: seq<int>, b: seq<int>)
    ensures Less(a, b) <==> exists k: nat :: DecidesAt(a, b, k)
  {
    if a == [] || b == [] || a[0] != b[0] {
      if Less(a, b) {
        assert DecidesAt(a, b, 0);
      }
    } else {
      LessIff(a[1..], b[1..]);
      if k: nat :| DecidesAt(a[1..], b[1..], k) {
        assert DecidesAt(a, b, k + 1);
      }
      if k: nat :| DecidesAt(a, b, k) {
        assert k > 0;
        assert DecidesAt(a[1..], b[1..], k - 1);
      }
    }
  }

  lemma {:induction false} LessIsIrreflexive(a: seq<int>)
    ensures !Less(a, a)
  {
    if a != [] {
      LessIsIrreflexive(a[1..]);
    }
  }

  /** The first difference decides. */
  lemma {:induction false} LessAtDifference(a: seq<int>, b: seq<int>, k: nat)
    requires k < |a| && k < |b| && a[..k] == b[..k] && a[k] < b[k]
    ensures Less(a, b) && !Less(b, a)
  {
    if k > 0 {
      assert a[0] == a[..k][0] == b[..k][0] == b[0];
      assert a[1..][..k - 1] == a[..k][1..] && b[1..][..k - 1] == b[..k][1..];
      LessAtDifference(a[1..], b[1..], k - 1);
    }
  }

  lemma {:induction false} LessIsTransitive(a: seq<int>, b: seq<int>, c: seq<int>)
    requires Less(a, b) && Less(b, c)
    ensures Less(a, c)
  {
    if a != [] && a[0] == b[0] == c[0] {
      LessIsTransitive(a[1..], b[1..], c[1..]);
    }
  }

  lemma {:induction false} LessIsTotal(a: seq<int>, b: seq<int>)
    ensures Less(a, b) || a == b || Less(b, a)
  {
    if a != [] && b != [] && a[0] == b[0] {
      LessIsTotal(a[1..], b[1..]);
      assert a == [a[0]] + a[1..] && b == [b[0]] + b[1..];
    }
  }

  // ----- sorting by a strict order in which all elements are comparable -----

  ghost predicate StrictOrder<T(!new)>(less: (T, T) -> bool) {
    && (forall x :: !less(x, x))
    && (forall x, y, z :: less(x, y) && less(y, z) ==> less(x, z))
  }

  ghost predicate Comparable<T>(less: (T, T) -> bool, s: seq<T>) {
    forall i, j :: 0 <= i < j < |s| ==> less(s[i], s[j]) || less(s[j], s[i])
  }

  ghost predicate Sorted<T>(less: (T, T) -> bool, s: seq<T>) {
    forall i, j :: 0 <= i < j < |s| ==> less(s[i], s[j])
  }

  ghost predicate SameElements<T(!new)>(a: seq<T>, b: seq<T>) {
    forall x :: x in a <==> x in b
  }

  function Insert<T(!new)>(less: (T, T) -> bool, x: T, s: seq<T>): (r: seq<T>)
    ensures |r| == |s| + 1
    ensures forall y :: y in r <==> y == x || y in s
  {
    if s == [] then [x]
    else if less(x, s[0]) then [x] + s
    else
      var rest := Insert(less, x, s[1..]);
      assert forall y :: y in s <==> y == s[0] || y in s[1..];
      [s[0]] + rest
  }

  function Sort<T(!new)>(less: (T, T) -> bool, s: seq<T>): (r: seq<T>)
    ensures |r| == |s|
    ensures forall y :: y in r <==> y in s
  {
    if s == [] then []
    else
      assert forall y :: y in s <==> y == s[0] || y in s[1..];
      Insert(less, s[0], Sort(less, s[1..]))
  }

  lemma {:induction false} InsertSorts<T(!new)>(less: (T, T) -> bool, x: T, s: seq<T>)
    requires StrictOrder(less) && Sorted(less, s)
    requires forall y :: y in s ==> less(x, y) || less(y, x)
    ensures Sorted(less, Insert(less, x, s))
  {
    if s != [] {
      if less(x, s[0]) {
        var r := [x] + s;
        forall i, j | 0 <= i < j < |r| ensures less(r[i], r[j]) {
          if i == 0 && j > 1 { assert less(s[0], s[j - 1]); }
        }
      } else {
        InsertSorts(less, x, s[1..]);
        var rest := Insert(less, x, s[1..]);
        forall j | 0 <= j < |rest| ensures less(s[0], rest[j]) {
          assert rest[j] in rest;
          assert s[0] in s;
        }
      }
    }
  }

  lemma {:induction false} SortSorts<T(!new)>(less: (T, T) -> bool, s: seq<T>)
    requires StrictOrder(less) && Comparable(less, s)
    ensures Sorted(less, Sort(less, s))
  {
    if s != [] {
      SortSorts(less, s[1..]);
      forall y | y in Sort(less, s[1..]) ensures less(s[0], y) || less(y, s[0]) {
        var j :| 0 <= j < |s[1..]| && s[1..][j] == y;
        assert s[j + 1] == y;
      }
      InsertSorts(less, s[0], Sort(less, s[1..]));
    }
  }

  /** A sorted sequence is determined by its elements. */
  lemma {:induction false} SortedIsUnique<T(!new)>(less: (T, T) -> bool, a: seq<T>, b: seq<T>)
    requires StrictOrder(less) && Sorted(less, a) && Sorted(less, b) && SameElements(a, b)
    ensures a == b
  {
    if a == [] {
      assert forall i :: 0 <= i < |b| ==> b[i] in b;
    } else {
      assert forall i :: 0 <= i < |b| ==> b[i] in b;
      assert a[0] in b;
      assert forall y :: y in a ==> y == a[0] || less(a[0], y);
      assert forall y :: y in b ==> y == b[0] || less(b[0], y);
      forall x ensures x in a[1..] <==> x in b[1..] {
        if x in a[1..] {
          assert x in a && x in b;
          assert less(a[0], x);
        }
        if x in b[1..] {
          assert x in b && x in a;
          assert less(b[0], x);
        }
      }
      SortedIsUnique(less, a[1..], b[1..]);
      assert a == [a[0]] + a[1..] && b == [b[0]] + b[1..];
    }
  }

  predicate NoRepeats(values: seq<Text>) {
    forall i, j :: 0 <= i < j < |values| ==> values[i] != values[j]
  }

  lemma {:induction false} InsertIsPermutation<T(!new)>(less: (T, T) -> bool, x: T, s: seq<T>)
    ensures multiset(Insert(less, x, s)) == multiset(s) + multiset{x}
  {
    if s != [] {
      InsertIsPermutation(less, x, s[1..]);
      assert s == [s[0]] + s[1..];
    }
  }

  /** Sorting loses and invents nothing, repeats included. */
  lemma {:induction false} SortIsPermutation<T(!new)>(less: (T, T) -> bool, s: seq<T>)
    ensures multiset(Sort(less, s)) == multiset(s)
  {
    if s != [] {
      SortIsPermutation(less, s[1..]);
      InsertIsPermutation(less, s[0], Sort(less, s[1..]));
      assert s == [s[0]] + s[1..];
    }
  }

  // ----- sorted sets of texts -----

  predicate TextLess(a: Text, b: Text) {
    Less(a, b)
  }

  /** No text is followed by a smaller one. */
  ghost predicate Nondecreasing(texts: seq<Text>) {
    forall i, j :: 0 <= i < j < |texts| ==> !Less(texts[j], texts[i])
  }

  lemma {:induction false} InsertKeepsNondecreasing(x: Text, s: seq<Text>)
    requires Nondecreasing(s)
    ensures Nondecreasing(Insert(TextLess, x, s))
  {
    if s != [] {
      if Less(x, s[0]) {
        forall j | 0 <= j < |s| ensures !Less(s[j], x) {
          if Less(s[j], x) {
            LessIsTransitive(s[j], x, s[0]);
            if j == 0 {
              LessIsIrreflexive(s[0]);
            }
          }
        }
      } else {
        InsertKeepsNondecreasing(x, s[1..]);
        var rest := Insert(TextLess, x, s[1..]);
        forall j | 0 <= j < |rest| ensures !Less(rest[j], s[0]) {
          assert rest[j] in rest;
          if rest[j] != x {
            var k :| 0 <= k < |s[1..]| && s[1..][k] == rest[j];
            assert s[k + 1] == rest[j];
          }
        }
      }
    }
  }

  lemma {:induction false} SortIsNondecreasing(s: seq<Text>)
    ensures Nondecreasing(Sort(TextLess, s))
  {
    if s != [] {
      SortIsNondecreasing(s[1..]);
      InsertKeepsNondecreasing(s[0], Sort(TextLess, s[1..]));
    }
  }

  lemma {:induction false} LeastExists(s: set<Text>) returns (x: Text)
    requires s != {}
    ensures x in s && forall y :: y in s ==> x == y || Less(x, y)
    decreases |s|
  {
    x := Pick(s);
    if s != {x} {
      var least := LeastExists(s - {x});
      LessIsTotal(x, least);
      forall y | y in s && Less(x, least) ensures x == y || Less(x, y) {
        if y != x && y != least { LessIsTransitive(x, least, y); }
      }
      x := if Less(x, least) then x else least;
    }
  }

  predicate IsLeast(x: Text, s: set<Text>) {
    x in s && forall y :: y in s ==> x == y || Less(x, y)
  }

  lemma {:induction false} LeastIsUnique(s: set<Text>)
    requires s != {}
    ensures exists x: Text :: IsLeast(x, s)
    ensures forall x: Text, y: Text :: IsLeast(x, s) && IsLeast(y, s) ==> x == y
  {
    var x := LeastExists(s);
    assert IsLeast(x, s);
    forall x: Text, y: Text | IsLeast(x, s) && IsLeast(y, s) && x != y ensures false {
      LessIsTransitive(x, y, x);
      LessIsIrreflexive(x);
    }
  }

  /** `sorted(s)` for a set of strings. */
  function SortedSet(s: set<Text>): (r: seq<Text>)
    ensures Sorted(TextLess, r)
    ensures forall x :: x in r <==> x in s
    decreases |s|
  {
    if s == {} then []
    else
      LeastIsUnique(s);
      var x :| IsLeast(x, s);
      var rest := SortedSet(s - {x});
      assert forall i :: 0 <= i < |rest| ==> rest[i] in s - {x};
      assert forall i :: 0 <= i < |rest| ==> TextLess(x, rest[i]);
      [x] + rest
  }

  lemma {:induction false} SortedSetHasNoRepeats(s: set<Text>)
    ensures NoRepeats(SortedSet(s))
  {
    var r := SortedSet(s);
    forall i, j | 0 <= i < j < |r| ensures r[i] != r[j] {
      LessIsIrreflexive(r[i]);
      assert TextLess(r[i], r[j]);
    }
  }
}
