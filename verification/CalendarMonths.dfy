/** The calendar-month, ordering and duplicate measures of the constraint evaluator
    (shared/validation.py). */
module CalendarMonths {
  import opened Foundations

  const DASH: CodePoint := 45

  function Digit(c: int): int {
    c - 48
  }

  /** The pattern [0-9]{4}-(?:0[1-9]|1[0-2]). */
  predicate ValidLabel(t: Text) {
    && |t| == 7
    && IsDigit(t[0]) && IsDigit(t[1]) && IsDigit(t[2]) && IsDigit(t[3])
    && t[4] == DASH
    && ((t[5] == 48 && 49 <= t[6] <= 57) || (t[5] == 49 && 48 <= t[6] <= 50))
  }

  /** A sequence item: a string, or anything else. */
  datatype Item = Label(text: Text) | NotText

  predicate AllValidLabels(values: seq<Item>) {
    forall i :: 0 <= i < |values| ==> values[i].Label? && ValidLabel(values[i].text)
  }

  /** `int()` of a run of digits. */
  function DigitsValue(t: Text): int {
    if t == [] then 0 else 10 * DigitsValue(t[..|t| - 1]) + Digit(t[|t| - 1])
  }

  function Ordinal(t: Text): int
    requires ValidLabel(t)
  {
    DigitsValue(t[..4]) * 12 + DigitsValue(t[5..]) - 1
  }

  predicate IsConsecutiveCalendarMonths(values: seq<Item>) {
    && AllValidLabels(values)
    && forall i :: 0 < i < |values| ==> Ordinal(values[i].text) == Ordinal(values[i - 1].text) + 1
  }

  /** Python's `<` on strings compares code points lexicographically. */
  predicate IsStrictlyIncreasing(labels: seq<Text>) {
    forall i :: 0 < i < |labels| ==> Less(labels[i - 1], labels[i])
  }

  /** Some item equals an earlier one. */
  ghost predicate Repeats<T(!new)>(same: (T, T) -> bool, values: seq<T>) {
    exists i, j :: 0 <= j < i < |values| && same(values[i], values[j])
  }

  /** `same` is Python's `==` on the items, which need not be reflexive: a NaN repeats nothing. */
  method HasDuplicates<T(!new)>(same: (T, T) -> bool, values: seq<T>) returns (found: bool)
    ensures found <==> Repeats(same, values)
  {
    for index := 0 to |values|
      invariant forall i, j :: 0 <= j < i < index ==> !same(values[i], values[j])
    {
      for prior := 0 to index
        invariant forall j :: 0 <= j < prior ==> !same(values[index], values[j])
      {
        if same(values[index], values[prior]) {
          return true;
        }
      }
    }
    return false;
  }

  /** Labels are compared by their characters. */
  predicate SameLabel(a: Item, b: Item) {
    a.Label? && b.Label? && a.text == b.text
  }

  // ----- the calendar -----

  function Year(t: Text): int
    requires ValidLabel(t)
  {
    1000 * Digit(t[0]) + 100 * Digit(t[1]) + 10 * Digit(t[2]) + Digit(t[3])
  }

  function Month(t: Text): int
    requires ValidLabel(t)
  {
    10 * Digit(t[5]) + Digit(t[6])
  }

  /** The month after month m of year y. */
  function NextMonth(y: int, m: int): (int, int) {
    if m == 12 then (y + 1, 1) else (y, m + 1)
  }

  ghost predicate IsCalendarSuccessor(a: Text, b: Text) {
    && ValidLabel(a) && ValidLabel(b)
    && (Year(b), Month(b)) == NextMonth(Year(a), Month(a))
  }

  lemma {:induction false} TwoDigits(t: Text)
    requires |t| == 2
    ensures DigitsValue(t) == 10 * Digit(t[0]) + Digit(t[1])
  {
    assert t[..1] == [t[0]];
    assert DigitsValue([t[0]]) == Digit(t[0]);
  }

  lemma {:induction false} FourDigits(t: Text)
    requires |t| == 4
    ensures DigitsValue(t) == 1000 * Digit(t[0]) + 100 * Digit(t[1]) + 10 * Digit(t[2]) + Digit(t[3])
  {
    TwoDigits(t[..2]);
    assert t[..3][..2] == t[..2];
    assert DigitsValue(t[..3]) == 10 * DigitsValue(t[..2]) + Digit(t[2]);
  }

  lemma {:induction false} OrdinalOfDate(t: Text)
    requires ValidLabel(t)
    ensures Ordinal(t) == 12 * Year(t) + Month(t) - 1
    ensures 1 <= Month(t) <= 12
  {
    FourDigits(t[..4]);
    TwoDigits(t[5..]);
  }

  lemma {:induction false} NextOrdinalIsSuccessor(a: Text, b: Text)
    requires ValidLabel(a) && ValidLabel(b)
    ensures Ordinal(b) == Ordinal(a) + 1 <==> IsCalendarSuccessor(a, b)
  {
    OrdinalOfDate(a);
    OrdinalOfDate(b);
  }

  /** The ordinal test is the calendar: it holds exactly when every label is the successor month
      of the one before it. */
  lemma {:induction false} ConsecutiveIffCalendar(values: seq<Item>)
    requires AllValidLabels(values)
    ensures IsConsecutiveCalendarMonths(values) <==>
      forall i :: 0 < i < |values| ==> IsCalendarSuccessor(values[i - 1].text, values[i].text)
  {
    forall i | 0 < i < |values|
      ensures Ordinal(values[i].text) == Ordinal(values[i - 1].text) + 1
         <==> IsCalendarSuccessor(values[i - 1].text, values[i].text)
    {
      NextOrdinalIsSuccessor(values[i - 1].text, values[i].text);
    }
  }

  // ----- string order is calendar order -----

  lemma {:induction false} EarlierDateIsLess(a: Text, b: Text)
    requires ValidLabel(a) && ValidLabel(b)
    requires 12 * Year(a) + Month(a) < 12 * Year(b) + Month(b)
    ensures Less(a, b)
  {
    var k := if a[0] != b[0] then 0 else if a[1] != b[1] then 1 else if a[2] != b[2] then 2
             else if a[3] != b[3] then 3 else if a[5] != b[5] then 5 else 6;
    assert forall i :: 0 <= i < k ==> a[i] == b[i];
    assert a[k] < b[k];
    assert a[..k] == b[..k];
    LessAtDifference(a, b, k);
  }

  lemma {:induction false} SameDateIsSameLabel(a: Text, b: Text)
    requires ValidLabel(a) && ValidLabel(b)
    requires 12 * Year(a) + Month(a) == 12 * Year(b) + Month(b)
    ensures a == b
  {
    assert Year(a) == Year(b) && Month(a) == Month(b) by {
      OrdinalOfDate(a);
      OrdinalOfDate(b);
    }
    assert a[0] == b[0] && a[1] == b[1] && a[2] == b[2] && a[3] == b[3] && a[4] == b[4];
    assert a[5] == b[5] && a[6] == b[6];
  }

  lemma {:induction false} LessIsAsymmetric(a: seq<int>, b: seq<int>)
    requires Less(a, b)
    ensures !Less(b, a)
  {
    LessIsIrreflexive(a);
    if Less(b, a) {
      LessIsTransitive(a, b, a);
    }
  }

  /** On valid labels the string order and the order of months are the same order. */
  lemma {:induction false} StringOrderIsCalendarOrder(a: Text, b: Text)
    requires ValidLabel(a) && ValidLabel(b)
    ensures Less(a, b) <==> Ordinal(a) < Ordinal(b)
    ensures a == b <==> Ordinal(a) == Ordinal(b)
  {
    OrdinalOfDate(a);
    OrdinalOfDate(b);
    LessIsIrreflexive(a);
    if Ordinal(a) < Ordinal(b) {
      EarlierDateIsLess(a, b);
    } else if Ordinal(b) < Ordinal(a) {
      EarlierDateIsLess(b, a);
      LessIsAsymmetric(b, a);
    } else {
      SameDateIsSameLabel(a, b);
    }
  }

  function Texts(values: seq<Item>): (labels: seq<Text>)
    requires AllValidLabels(values)
    ensures |labels| == |values|
  {
    seq(|values|, i requires 0 <= i < |values| => values[i].text)
  }

  lemma {:induction false} OrdinalsAdvance(values: seq<Item>, i: nat, j: nat)
    requires IsConsecutiveCalendarMonths(values) && i <= j < |values|
    ensures Ordinal(values[j].text) == Ordinal(values[i].text) + (j - i)
    decreases j - i
  {
    if i < j {
      OrdinalsAdvance(values, i, j - 1);
    }
  }

  /** Consecutive months are strictly increasing as strings and have no duplicates. */
  lemma {:induction false} ConsecutiveImpliesIncreasing(values: seq<Item>)
    requires IsConsecutiveCalendarMonths(values)
    ensures IsStrictlyIncreasing(Texts(values))
    ensures !Repeats(SameLabel, values)
  {
    forall i | 0 < i < |values| ensures Less(Texts(values)[i - 1], Texts(values)[i]) {
      StringOrderIsCalendarOrder(values[i - 1].text, values[i].text);
    }
    forall i, j | 0 <= j < i < |values| ensures !SameLabel(values[i], values[j]) {
      OrdinalsAdvance(values, j, i);
    }
  }
}
