/** Objects with fixed keys, as the canonical projections of every record build them. */
module JsonObjects {
  import opened Foundations
  import Utf8
  import opened Binary64
  import opened CanonicalJson

  /** A JSON value a strict reader can produce. */
  type Value = v: Json | WellFormed(v) witness Null

  type Object = v: Json | WellFormed(v) && v.Obj? witness Obj([])

  ghost predicate DistinctNames(names: seq<string>) {
    forall i, j :: 0 <= i < j < |names| ==> Lit(names[i]) != Lit(names[j])
  }

  /** Length, first and last character: enough to tell the key names of every record apart. */
  function Mark(name: string): (int, char, char) {
    if name == [] then (0, ' ', ' ') else (|name|, name[0], name[|name| - 1])
  }

  lemma {:induction false} DistinctByMark(names: seq<string>)
    requires forall i, j :: 0 <= i < j < |names| ==> Mark(names[i]) != Mark(names[j])
    ensures DistinctNames(names)
  {
    forall i, j | 0 <= i < j < |names| ensures Lit(names[i]) != Lit(names[j]) {
      var a, b := names[i], names[j];
      assert |a| == |b| && a != [] ==> Lit(a)[0] != Lit(b)[0] || Lit(a)[|a| - 1] != Lit(b)[|b| - 1];
    }
  }

  function Members(names: seq<string>, values: seq<Value>): (members: seq<(Text, Json)>)
    requires |names| == |values|
    ensures |members| == |names|
    ensures forall i :: 0 <= i < |names| ==> members[i] == (Lit(names[i]), values[i])
  {
    seq(|names|, i requires 0 <= i < |names| => (Lit(names[i]), values[i]))
  }

  function Fields(names: seq<string>, values: seq<Value>): Json
    requires |names| == |values|
  {
    Obj(Members(names, values))
  }

  function List(values: seq<Value>): (v: Value)
  {
    Arr(values)
  }

  function Whole(n: nat): Value {
    Num(Int(n))
  }

  /** `str | None`. */
  function Optional(t: Option<Text>): Value {
    match t case None => Null case Some(s) => Str(s)
  }

  lemma {:induction false} FieldsAreWellFormed(names: seq<string>, values: seq<Value>)
    requires |names| == |values| && DistinctNames(names)
    ensures WellFormed(Fields(names, values))
  {
    var members := Members(names, values);
    forall i, j | 0 <= i < j < |members| ensures members[i].0 != members[j].0 {
      assert Lit(names[i]) != Lit(names[j]);
    }
  }

  /** Objects over the same keys are equal in the canonical sense exactly when they are so field by field. */
  lemma {:induction false} EquivFields(names: seq<string>, a: seq<Value>, b: seq<Value>)
    requires |names| == |a| == |b| && DistinctNames(names)
    ensures Equiv(Fields(names, a), Fields(names, b)) <==> forall i :: 0 <= i < |names| ==> Equiv(a[i], b[i])
  {
    var v, w := Fields(names, a), Fields(names, b);
    if Equiv(v, w) {
      forall i | 0 <= i < |names| ensures Equiv(a[i], b[i]) {
        assert EquivMember(v.members[i], w);
        var j :| 0 <= j < |w.members| && w.members[j].0 == v.members[i].0 && Equiv(v.members[i].1, w.members[j].1);
        assert i == j by {
          assert Lit(names[i]) == Lit(names[j]);
        }
      }
    }
    if forall i :: 0 <= i < |names| ==> Equiv(a[i], b[i]) {
      forall i | 0 <= i < |v.members| ensures EquivMember(v.members[i], w) {
        assert w.members[i].0 == v.members[i].0 && Equiv(v.members[i].1, w.members[i].1);
      }
    }
  }

  lemma {:induction false} EquivField(names: seq<string>, a: seq<Value>, b: seq<Value>, i: nat)
    requires |names| == |a| == |b| && DistinctNames(names) && i < |names|
    requires Equiv(Fields(names, a), Fields(names, b))
    ensures Equiv(a[i], b[i])
  {
    EquivFields(names, a, b);
  }

  /** An object of fixed keys is accepted exactly when every value is. */
  lemma {:induction false} FieldsAccepted(names: seq<string>, values: seq<Value>)
    requires |names| == |values|
    ensures Tag(Fields(names, values)).Some? <==> forall i :: 0 <= i < |values| ==> Tag(values[i]).Some?
  {
    var members := Members(names, values);
    assert forall i :: 0 <= i < |members| ==> Utf8.Encodable(members[i].0);
    assert forall i :: 0 <= i < |members| ==> members[i].1 == values[i];
    assert AcceptsMembers(members) <==> forall i :: 0 <= i < |values| ==> Tag(values[i]).Some?;
  }

  lemma {:induction false} ListAccepted(values: seq<Value>)
    ensures Tag(List(values)).Some? <==> forall i :: 0 <= i < |values| ==> Tag(values[i]).Some?
  {
  }

  // ----- canonical equality, part by part -----

  ghost predicate AllEquiv(a: seq<Value>, b: seq<Value>) {
    |a| == |b| && forall i :: 0 <= i < |a| ==> Equiv(a[i], b[i])
  }

  lemma {:induction false} FieldsIff(names: seq<string>, a: seq<Value>, b: seq<Value>)
    requires |names| == |a| == |b| && DistinctNames(names)
    ensures Equiv(Fields(names, a), Fields(names, b)) <==> AllEquiv(a, b)
  {
    EquivFields(names, a, b);
  }

  lemma {:induction false} ListIff(a: seq<Value>, b: seq<Value>)
    ensures Equiv(List(a), List(b)) <==> AllEquiv(a, b)
  {
  }

  ghost predicate AllRelated(rel: (Value, Value) -> bool, a: seq<Value>, b: seq<Value>) {
    |a| == |b| && forall i :: 0 <= i < |a| ==> rel(a[i], b[i])
  }

  lemma {:induction false} AllRelatedAppend(rel: (Value, Value) -> bool, a: seq<Value>, b: seq<Value>, c: seq<Value>,
                                            d: seq<Value>)
    requires |a| == |b|
    ensures AllRelated(rel, a + c, b + d) <==> AllRelated(rel, a, b) && AllRelated(rel, c, d)
  {
    var x, y := a + c, b + d;
    if AllRelated(rel, x, y) {
      forall i | 0 <= i < |a| ensures rel(a[i], b[i]) {
        assert rel(x[i], y[i]);
      }
      forall i | 0 <= i < |c| ensures rel(c[i], d[i]) {
        assert rel(x[|a| + i], y[|a| + i]);
      }
    }
  }

  lemma {:induction false} AllEquivAppend(a: seq<Value>, b: seq<Value>, c: seq<Value>, d: seq<Value>)
    requires |a| == |b|
    ensures AllEquiv(a + c, b + d) <==> AllEquiv(a, b) && AllEquiv(c, d)
  {
    AllRelatedAppend((x: Value, y: Value) => Equiv(x, y), a, b, c, d);
  }

  lemma {:induction false} AllEquivOf2(a: seq<Value>, b: seq<Value>)
    requires |a| == |b| == 2
    ensures AllEquiv(a, b) <==> Equiv(a[0], b[0]) && Equiv(a[1], b[1])
  {
  }

  lemma {:induction false} AllEquivOf3(a: seq<Value>, b: seq<Value>)
    requires |a| == |b| == 3
    ensures AllEquiv(a, b) <==> Equiv(a[0], b[0]) && Equiv(a[1], b[1]) && Equiv(a[2], b[2])
  {
  }

  lemma {:induction false} AllEquivOf4(a: seq<Value>, b: seq<Value>)
    requires |a| == |b| == 4
    ensures AllEquiv(a, b) <==>
      Equiv(a[0], b[0]) && Equiv(a[1], b[1]) && Equiv(a[2], b[2]) && Equiv(a[3], b[3])
  {
    assert a == a[..2] + a[2..] && b == b[..2] + b[2..];
    AllEquivAppend(a[..2], b[..2], a[2..], b[2..]);
    AllEquivOf2(a[..2], b[..2]);
    AllEquivOf2(a[2..], b[2..]);
  }

  lemma {:induction false} AllEquivOf5(a: seq<Value>, b: seq<Value>)
    requires |a| == |b| == 5
    ensures AllEquiv(a, b) <==>
      Equiv(a[0], b[0]) && Equiv(a[1], b[1]) && Equiv(a[2], b[2]) && Equiv(a[3], b[3]) && Equiv(a[4], b[4])
  {
    assert a == a[..2] + a[2..] && b == b[..2] + b[2..];
    AllEquivAppend(a[..2], b[..2], a[2..], b[2..]);
    AllEquivOf2(a[..2], b[..2]);
    AllEquivOf3(a[2..], b[2..]);
  }

  lemma {:induction false} AllEquivOf6(a: seq<Value>, b: seq<Value>)
    requires |a| == |b| == 6
    ensures AllEquiv(a, b) <==>
      && Equiv(a[0], b[0]) && Equiv(a[1], b[1]) && Equiv(a[2], b[2])
      && Equiv(a[3], b[3]) && Equiv(a[4], b[4]) && Equiv(a[5], b[5])
  {
    assert a == a[..3] + a[3..] && b == b[..3] + b[3..];
    AllEquivAppend(a[..3], b[..3], a[3..], b[3..]);
    AllEquivOf3(a[..3], b[..3]);
    AllEquivOf3(a[3..], b[3..]);
  }

  lemma {:induction false} AllEquivOf8(a: seq<Value>, b: seq<Value>)
    requires |a| == |b| == 8
    ensures AllEquiv(a, b) <==>
      && Equiv(a[0], b[0]) && Equiv(a[1], b[1]) && Equiv(a[2], b[2]) && Equiv(a[3], b[3])
      && Equiv(a[4], b[4]) && Equiv(a[5], b[5]) && Equiv(a[6], b[6]) && Equiv(a[7], b[7])
  {
    assert a == a[..4] + a[4..] && b == b[..4] + b[4..];
    AllEquivAppend(a[..4], b[..4], a[4..], b[4..]);
    AllEquivOf4(a[..4], b[..4]);
    AllEquivOf4(a[4..], b[4..]);
  }

  lemma {:induction false} TextIff(a: Text, b: Text)
    ensures Equiv(Str(a), Str(b)) <==> a == b
  {
  }

  lemma {:induction false} FlagIff(a: bool, b: bool)
    ensures Equiv(Bool(a), Bool(b)) <==> a == b
  {
  }

  lemma {:induction false} ScaleIsInjective(a: nat, b: nat, k: nat)
    requires k > 0 && a != b
    ensures a * k != b * k
  {
  }

  lemma {:induction false} WholeIff(a: nat, b: nat)
    ensures Equiv(Whole(a), Whole(b)) <==> a == b
  {
    if a != b {
      assert a * One() != b * One() by {
        ScaleIsInjective(a, b, One());
      }
    }
  }

  lemma {:induction false} OptionalIff(a: Option<Text>, b: Option<Text>)
    ensures Equiv(Optional(a), Optional(b)) <==> a == b
  {
  }
}
