/** Which member paths are portable, and when two of them are the same file on some platform
    (protocol/operation.py:36-89). */
module MemberPaths {
  import opened Foundations
  import opened OperationRecords

  /** The characters between two slashes, or between a slash and an end of the path. */
  ghost predicate IsSegment(path: Text, p: nat, q: nat) {
    && p <= q <= |path|
    && (p > 0 ==> path[p - 1] == SLASH) && (q < |path| ==> path[q] == SLASH)
    && forall i :: p <= i < q ==> path[i] != SLASH
  }

  /** Letters, digits, `_`, `-`, with single dots inside; before the first dot no device name. */
  ghost predicate IsPortableSegment(s: Text) {
    SegmentShaped(s) && forall d :: 0 <= d < |DEVICES| ==> !IsDevice(s, DEVICES[d])
  }

  /** The name of a device, in any case, with or without extensions. */
  ghost predicate IsDevice(s: Text, device: string) {
    && |s| >= |device|
    && (forall i :: 0 <= i < |device| ==> SameLetter(s[i], device[i] as CodePoint))
    && (|s| > |device| ==> s[|device|] == DOT)
  }

  /** Equal, or the two cases of one ASCII letter. */
  predicate SameLetter(a: CodePoint, b: CodePoint) {
    a == b || (65 <= a <= 90 && b == a + 32) || (65 <= b <= 90 && a == b + 32)
  }

  lemma {:induction false} SegmentFrom(path: Text, p: nat, i: nat) returns (q: nat)
    requires p <= i <= |path| && (p > 0 ==> path[p - 1] == SLASH) && forall k :: p <= k < i ==> path[k] != SLASH
    ensures i <= q && IsSegment(path, p, q)
    decreases |path| - i
  {
    if i == |path| || path[i] == SLASH {
      q := i;
    } else {
      q := SegmentFrom(path, p, i + 1);
    }
  }

  lemma {:induction false} SegmentAround(path: Text, i: nat) returns (p: nat, q: nat)
    requires i < |path| && path[i] != SLASH
    ensures p <= i < q && IsSegment(path, p, q)
  {
    p := i;
    while p > 0 && path[p - 1] != SLASH
      invariant p <= i && forall k :: p <= k <= i ==> path[k] != SLASH
    {
      p := p - 1;
    }
    q := SegmentFrom(path, p, i + 1);
  }

  /** The shape of a segment without the device names. */
  ghost predicate SegmentShaped(s: Text) {
    && s != [] && s[0] != DOT && s[|s| - 1] != DOT
    && (forall i :: 0 <= i < |s| ==> WordCharacter(s[i]) || s[i] == DOT)
    && forall i :: 0 < i < |s| ==> s[i - 1] != DOT || s[i] != DOT
  }

  lemma {:induction false} ShapedSegments(path: Text, p: nat, q: nat)
    requires PathShaped(path) && IsSegment(path, p, q)
    ensures SegmentShaped(path[p..q])
  {
    var s := path[p..q];
    assert p > 0 ==> ShapedAt(path, p - 1);
    assert p < |path| ==> ShapedAt(path, p);
    assert q > p ==> ShapedAt(path, q - 1);
    forall i: nat | i < |s| ensures WordCharacter(s[i]) || s[i] == DOT {
      assert ShapedAt(path, p + i);
    }
    forall i: nat | 0 < i < |s| ensures s[i - 1] != DOT || s[i] != DOT {
      assert ShapedAt(path, p + i) && s[i - 1] == path[p + i - 1];
    }
  }

  lemma {:induction false} SegmentsShape(path: Text)
    requires 1 <= |path| <= 512
    requires forall p: nat, q: nat :: IsSegment(path, p, q) ==> SegmentShaped(path[p..q])
    ensures PathShaped(path)
  {
    forall i: nat | i < |path| ensures ShapedAt(path, i) {
      if path[i] == SLASH {
        SlashIsShaped(path, i);
      } else {
        var p, q := SegmentAround(path, i);
        var s := path[p..q];
        assert s[i - p] == path[i];
        if path[i] == DOT {
          assert 0 < i - p < |s| - 1;
          assert s[i - p - 1] == path[i - 1] && s[i - p + 1] == path[i + 1];
        }
      }
    }
  }

  lemma {:induction false} SlashIsShaped(path: Text, i: nat)
    requires i < |path| && path[i] == SLASH
    requires forall p: nat, q: nat :: IsSegment(path, p, q) ==> SegmentShaped(path[p..q])
    ensures ShapedAt(path, i)
  {
    var q := SegmentFrom(path, i + 1, i + 1);
    assert path[i + 1..q][0] == path[i + 1];
    if i == 0 || path[i - 1] == SLASH {
      assert IsSegment(path, i, i);
      assert false;
    } else {
      var p, r := SegmentAround(path, i - 1);
      assert r == i && path[p..i][i - p - 1] == path[i - 1];
    }
  }

  // ----- devices -----

  lemma {:induction false} FoldedLetters(a: CodePoint, b: CodePoint)
    ensures SameLetter(a, b) <==> FoldCharacter(a) == FoldCharacter(b)
  {
  }

  lemma {:induction false} DevicesAreFolded(d: nat)
    requires d < |DEVICES|
    ensures |DEVICES[d]| >= 3
    ensures forall i :: 0 <= i < |DEVICES[d]| ==>
              var c := DEVICES[d][i] as CodePoint; FoldCharacter(c) == c && c != SLASH && c != DOT
  {
  }

  lemma {:induction false} DeviceInSegment(path: Text, p: nat, q: nat, d: nat)
    requires IsSegment(path, p, q) && d < |DEVICES| && DeviceAt(Fold(path), DEVICES[d], p)
    ensures IsDevice(path[p..q], DEVICES[d])
  {
    DevicesAreFolded(d);
    var device, folded := DEVICES[d], Fold(path);
    var n := |device|;
    forall k: nat | p <= k < p + n
      ensures path[k] != SLASH && SameLetter(path[k], device[k - p] as CodePoint)
    {
      assert folded[k] == folded[p..p + n][k - p] == Lit(device)[k - p] == device[k - p] as int;
      assert folded[k] == FoldCharacter(path[k]);
      FoldedLetters(path[k], device[k - p] as CodePoint);
    }
    assert p + n <= q;
    assert p + n < |path| ==> folded[p + n] == FoldCharacter(path[p + n]);
  }

  lemma {:induction false} SegmentOfDevice(path: Text, p: nat, q: nat, d: nat)
    requires IsSegment(path, p, q) && d < |DEVICES| && IsDevice(path[p..q], DEVICES[d])
    ensures DeviceAt(Fold(path), DEVICES[d], p)
  {
    DevicesAreFolded(d);
    var device, folded, s := DEVICES[d], Fold(path), path[p..q];
    var n := |device|;
    assert p > 0 ==> folded[p - 1] == FoldCharacter(path[p - 1]);
    assert p + n < |path| ==> folded[p + n] == FoldCharacter(path[p + n]);
    forall i | 0 <= i < n ensures folded[p..p + n][i] == Lit(device)[i] {
      assert s[i] == path[p + i];
      FoldedLetters(s[i], device[i] as CodePoint);
    }
    assert folded[p..p + n] == Lit(device);
    assert |s| > n ==> s[n] == path[p + n];
  }

  // ----- main results -----

  /** A path is a member path exactly when it has 1 to 512 characters and each of its segments is
      portable. */
  lemma {:induction false} PortableIff(path: Text)
    ensures MemberKey(path).Some? <==>
              && 1 <= |path| <= 512
              && forall p: nat, q: nat :: IsSegment(path, p, q) ==> IsPortableSegment(path[p..q])
  {
    if MemberKey(path).Some? {
      forall p: nat, q: nat | IsSegment(path, p, q) ensures IsPortableSegment(path[p..q]) {
        ShapedSegments(path, p, q);
        forall d | 0 <= d < |DEVICES| ensures !IsDevice(path[p..q], DEVICES[d]) {
          if IsDevice(path[p..q], DEVICES[d]) {
            SegmentOfDevice(path, p, q, d);
          }
        }
      }
    }
    if 1 <= |path| <= 512 && forall p: nat, q: nat :: IsSegment(path, p, q) ==> IsPortableSegment(path[p..q]) {
      SegmentsShape(path);
      NoDevice(path);
    }
  }

  lemma {:induction false} NoDevice(path: Text)
    requires forall p: nat, q: nat :: IsSegment(path, p, q) ==> IsPortableSegment(path[p..q])
    ensures !NamesDevice(Fold(path))
  {
    forall d, i | 0 <= d < |DEVICES| && 0 <= i <= |Fold(path)| ensures !DeviceAt(Fold(path), DEVICES[d], i) {
      if DeviceAt(Fold(path), DEVICES[d], i) {
        assert i > 0 ==> Fold(path)[i - 1] == FoldCharacter(path[i - 1]);
        var q := SegmentFrom(path, i, i);
        DeviceInSegment(path, i, q, d);
      }
    }
  }

  /** Two member paths have one key exactly when they differ at most in the case of ASCII letters. */
  lemma {:induction false} SameKeyIff(a: Text, b: Text)
    requires MemberKey(a).Some? && MemberKey(b).Some?
    ensures MemberKey(a) == MemberKey(b) <==> |a| == |b| && forall i :: 0 <= i < |a| ==> SameLetter(a[i], b[i])
  {
    if |a| == |b| {
      forall i | 0 <= i < |a| ensures SameLetter(a[i], b[i]) <==> Fold(a)[i] == Fold(b)[i] {
        FoldedLetters(a[i], b[i]);
      }
      assert Fold(a) == Fold(b) <==> forall i :: 0 <= i < |a| ==> Fold(a)[i] == Fold(b)[i];
    }
  }
}
