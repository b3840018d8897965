// Record-layout arithmetic: how a message of a known length tiles into equal records.
module RecordGeometry {
  import opened Wire

  datatype Field = Field(offset: int, width: nat)

  /** The spacing at which `count` records fill the message, if the first one is as long as a single record. */
  function InferRepeatStride(messageLength: int, singleRecordLength: int, recordCount: int): (stride: Option<nat>)
  {
    if recordCount < 2 then None
    else
      var extra := messageLength - singleRecordLength;
      if extra <= 0 || extra % (recordCount - 1) != 0 then None else Some(extra / (recordCount - 1))
  }

  lemma ProductIsPositive(a: int, b: int)
    requires a > 0 && b > 0
    ensures a * b > 0
  {
  }

  lemma QuotientIsUnique(e: int, d: int, s: int)
    requires d > 0 && e == d * s
    ensures e % d == 0 && e / d == s
  {
    var q, r := e / d, e % d;
    assert e == d * q + r;
    assert d * (s - q) == r;
    SmallMultiple(d, s - q);
  }

  lemma SmallMultiple(d: int, x: int)
    requires d > 0 && -d < d * x < d
    ensures x == 0
  {
  }

  lemma MonotoneProduct(d: int, a: int, b: int)
    requires d >= 0 && a <= b
    ensures d * a <= d * b
  {
  }

  /** The stride found is the only positive solution, and one is found whenever there is any. */
  lemma StrideSolvesTheTiling(messageLength: int, singleRecordLength: int, recordCount: int, s: int)
    ensures InferRepeatStride(messageLength, singleRecordLength, recordCount) == Some(s) <==>
            recordCount >= 2 && s > 0 && messageLength == singleRecordLength + (recordCount - 1) * s
  {
    var d, extra := recordCount - 1, messageLength - singleRecordLength;
    if recordCount >= 2 {
      if s > 0 && extra == d * s {
        ProductIsPositive(d, s);
        QuotientIsUnique(extra, d, s);
      }
      if InferRepeatStride(messageLength, singleRecordLength, recordCount) == Some(s) {
        assert extra == d * (extra / d) + extra % d;
        assert extra == d * s;
        assert d * 0 == 0;
      }
    }
  }

  /** The common spacing of at least two offsets. */
  function UniformStride(offsets: seq<int>): (stride: Option<int>)
  {
    if |offsets| < 2 then None
    else
      var stride := offsets[1] - offsets[0];
      if forall i | 0 <= i < |offsets| - 1 :: offsets[i + 1] - offsets[i] == stride then Some(stride) else None
  }

  /** Spacing is uniform exactly when the offsets are an arithmetic progression. */
  lemma UniformIsArithmetic(offsets: seq<int>, s: int)
    requires |offsets| >= 2
    ensures UniformStride(offsets) == Some(s) <==> forall i :: 0 <= i < |offsets| ==> offsets[i] == offsets[0] + i * s
  {
    if UniformStride(offsets) == Some(s) {
      forall i | 0 <= i < |offsets| ensures offsets[i] == offsets[0] + i * s {
        Progression(offsets, s, i);
      }
    }
    if forall i :: 0 <= i < |offsets| ==> offsets[i] == offsets[0] + i * s {
      assert offsets[1] == offsets[0] + 1 * s;
      forall i | 0 <= i < |offsets| - 1 ensures offsets[i + 1] - offsets[i] == s {
        assert offsets[i + 1] == offsets[0] + (i + 1) * s;
        assert (i + 1) * s == i * s + s;
      }
    }
  }

  lemma {:induction false} Progression(offsets: seq<int>, s: int, i: nat)
    requires i < |offsets| && forall j :: 0 <= j < |offsets| - 1 ==> offsets[j + 1] - offsets[j] == s
    ensures offsets[i] == offsets[0] + i * s
  {
    if i > 0 {
      Progression(offsets, s, i - 1);
      assert offsets[i - 1 + 1] - offsets[i - 1] == s;
      assert i * s == (i - 1) * s + s;
    }
  }

  /** First-record fields, at absolute offsets, lie inside one record after the prefix. */
  predicate FieldsFitRecord(prefixLength: int, stride: int, fields: seq<Field>) {
    forall i | 0 <= i < |fields| ::
      fields[i].offset >= prefixLength && fields[i].offset - prefixLength + fields[i].width <= stride
  }

  /** `k` strides. */
  function Strides(stride: nat, k: nat): (d: nat) {
    k * stride
  }

  lemma NextStride(stride: nat, k: nat)
    ensures Strides(stride, 0) == 0 && Strides(stride, k + 1) == Strides(stride, k) + stride
  {
  }

  lemma StridesGrow(stride: nat, j: nat, k: nat)
    requires j <= k
    ensures Strides(stride, j) <= Strides(stride, k)
  {
    MonotoneProduct(stride, j, k);
  }

  /** Record `k` of a tiling occupies `[Window(k), Window(k + 1))`. */
  function Window(prefixLength: int, stride: int, k: int): (at: int) {
    prefixLength + k * stride
  }

  lemma WindowsAreOrdered(prefixLength: int, stride: int, j: int, k: int)
    requires stride >= 0 && j < k
    ensures Window(prefixLength, stride, j) + stride <= Window(prefixLength, stride, k)
  {
    MonotoneProduct(stride, j + 1, k);
    assert (j + 1) * stride == j * stride + stride;
  }

  /** In a tiling `prefix + count * stride = length` a field that fits the first record lies, in every
      record, inside that record's own window of the message; windows of different records are
      disjoint. */
  lemma FieldsStayInTheirRecords(prefixLength: nat, stride: nat, count: nat, length: nat, f: Field, j: nat, k: nat)
    requires prefixLength + count * stride == length
    requires FieldsFitRecord(prefixLength, stride, [f])
    requires j < count && k < count
    ensures Window(prefixLength, stride, k) <= f.offset + k * stride
    ensures f.offset + k * stride + f.width <= Window(prefixLength, stride, k) + stride <= length
    ensures j < k ==> Window(prefixLength, stride, j) + stride <= Window(prefixLength, stride, k)
  {
    assert f == [f][0];
    MonotoneProduct(stride, k + 1, count);
    assert (k + 1) * stride == k * stride + stride;
    if j < k {
      WindowsAreOrdered(prefixLength, stride, j, k);
    }
  }

  /** The places of `n` records `s` apart, the first at `at`. */
  ghost predicate Spaced(p: int, at: nat, s: nat, n: nat) {
    exists k: nat :: k < n && p == at + Strides(s, k)
  }

  lemma SpacedLater(p: int, at: nat, s: nat, n: nat)
    requires n > 0 && (n > 1 ==> s > 0)
    ensures Spaced(p, at, s, n) <==> p == at || Spaced(p, at + s, s, n - 1)
    ensures Spaced(p, at + s, s, n - 1) ==> p > at
  {
    hide Strides;
    NextStride(s, 0);
    if k: nat :| k < n && p == at + Strides(s, k) {
      if k > 0 {
        NextStride(s, k - 1);
        assert p == at + s + Strides(s, k - 1);
      }
    }
    if k: nat :| k < n - 1 && p == at + s + Strides(s, k) {
      NextStride(s, k);
      assert p == at + Strides(s, k + 1);
    }
    assert at == at + Strides(s, 0);
  }

  lemma NowhereSpaced(p: int, at: nat, s: nat)
    ensures !Spaced(p, at, s, 0)
  {
  }

  lemma TilingFirst(at: nat, s: nat, n: nat)
    requires n > 0
    ensures seq(n, (k: nat) requires k < n => at + Strides(s, k)) ==
            [at] + seq(n - 1, (k: nat) requires k < n - 1 => at + s + Strides(s, k))
  {
    hide Strides;
    NextStride(s, 0);
    forall k | 0 < k < n ensures Strides(s, k) == s + Strides(s, k - 1) {
      NextStride(s, k - 1);
    }
  }

  lemma TilingIsUniform(offsets: seq<int>, at: nat, s: nat, n: nat)
    requires n > 1 && |offsets| == n && forall k :: 0 <= k < n ==> offsets[k] == at + Strides(s, k)
    ensures UniformStride(offsets) == Some(s)
  {
    forall i | 0 <= i < n ensures offsets[i] == offsets[0] + i * s {
    }
    UniformIsArithmetic(offsets, s);
  }

  lemma UniformIsSpaced(offsets: seq<int>, at: nat, s: nat)
    requires offsets != [] && offsets[0] == at
    requires if |offsets| > 1 then UniformStride(offsets) == Some(s) else s == 0
    ensures forall k :: 0 <= k < |offsets| ==> offsets[k] == at + Strides(s, k)
  {
    if |offsets| > 1 {
      UniformIsArithmetic(offsets, s);
    }
  }

  lemma PlaceIsSpaced(p: int, at: nat, s: nat, n: nat, k: nat)
    requires k < n && p == at + Strides(s, k)
    ensures Spaced(p, at, s, n)
  {
  }

  lemma SpacedPlace(p: int, at: nat, s: nat, n: nat) returns (k: nat)
    requires Spaced(p, at, s, n)
    ensures k < n && p == at + Strides(s, k)
  {
    k :| k < n && p == at + Strides(s, k);
  }

  /** Ascending offsets that are just these places are these places in order. */
  lemma {:induction false} AscendingIsSpaced(offsets: seq<nat>, at: nat, s: nat, n: nat)
    requires n > 1 ==> s > 0
    requires forall i, j :: 0 <= i < j < |offsets| ==> offsets[i] < offsets[j]
    requires forall p: nat :: p in offsets <==> Spaced(p, at, s, n)
    ensures |offsets| == n && forall k :: 0 <= k < n ==> offsets[k] == at + Strides(s, k)
    decreases n
  {
    hide Spaced, Strides;
    NextStride(s, 0);
    if n == 0 {
      NowhereAtAll(at, s);
      SomeMember(offsets);
    } else {
      PlaceIsSpaced(at, at, s, n, 0);
      var rest := offsets[1..];
      forall p: nat
        ensures Spaced(p, at, s, n) <==> p == at || Spaced(p, at + s, s, n - 1)
        ensures Spaced(p, at + s, s, n - 1) ==> p > at
      {
        SpacedLater(p, at, s, n);
      }
      assert at in offsets && offsets[0] in offsets;
      assert offsets[0] == at;
      forall p: nat ensures p in rest <==> Spaced(p, at + s, s, n - 1) {
        assert p in rest <==> p in offsets && p != at;
      }
      if n > 1 {
        AscendingIsSpaced(rest, at + s, s, n - 1);
        forall k | 0 < k < n ensures offsets[k] == at + Strides(s, k) {
          NextStride(s, k - 1);
          assert offsets[k] == rest[k - 1];
        }
      } else {
        AscendingIsSpaced(rest, at + s, s, 0);
      }
    }
  }

  lemma SomeMember(offsets: seq<nat>)
    ensures offsets != [] ==> exists p: nat :: p in offsets
  {
    if offsets != [] {
      assert offsets[0] in offsets;
    }
  }

  lemma NowhereAtAll(at: nat, s: nat)
    ensures forall p: nat :: !Spaced(p, at, s, 0)
  {
  }
}
