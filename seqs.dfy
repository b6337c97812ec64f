/** Sequence utilities shared by the track and packet models: numpy-style
    boolean selection (`a[mask]`) and scatter (`a[mask] = v`), counting,
    order-preserving filtering, prefix sums and concatenation. */
module Seqs {

  datatype Option<T> = None | Some(value: T)

  /** The number of true entries of a boolean mask (`np.count_nonzero`). */
  function Count(m: seq<bool>): (r: nat)
    ensures r <= |m|
  {
    if |m| == 0 then 0 else (if m[0] then 1 else 0) + Count(m[1..])
  }

  lemma {:induction false} CountZero(m: seq<bool>)
    ensures Count(m) == 0 <==> forall k :: 0 <= k < |m| ==> !m[k]
  {
    if |m| > 0 {
      CountZero(m[1..]);
      if Count(m) == 0 {
        forall k | 0 <= k < |m| ensures !m[k] {
          if k > 0 { assert m[k] == m[1..][k - 1]; }
        }
      } else if !m[0] {
        var j :| 0 <= j < |m[1..]| && m[1..][j];
        assert m[j + 1];
      }
    }
  }

  lemma {:induction false} CountFull(m: seq<bool>)
    ensures Count(m) == |m| <==> forall k :: 0 <= k < |m| ==> m[k]
  {
    if |m| > 0 {
      CountFull(m[1..]);
      if Count(m) == |m| {
        forall k | 0 <= k < |m| ensures m[k] {
          if k > 0 { assert m[k] == m[1..][k - 1]; }
        }
      } else if m[0] {
        var j :| 0 <= j < |m[1..]| && !m[1..][j];
        assert !m[j + 1];
      }
    }
  }

  /** Counting is additive over concatenation. */
  lemma {:induction false} CountConcat(a: seq<bool>, b: seq<bool>)
    ensures Count(a + b) == Count(a) + Count(b)
  {
    if |a| == 0 {
      assert a + b == b;
    } else {
      assert (a + b)[0] == a[0] && (a + b)[1..] == a[1..] + b;
      CountConcat(a[1..], b);
    }
  }

  /** Extending a prefix by one entry adds that entry to the count, and the
      count of a prefix never exceeds the count of the whole. */
  lemma CountPrefix(m: seq<bool>, j: nat)
    requires j < |m|
    ensures Count(m[..j + 1]) == Count(m[..j]) + (if m[j] then 1 else 0)
    ensures Count(m[..j + 1]) <= Count(m)
  {
    CountPrefixStep(m, j);
    CountPrefixBound(m, j + 1);
  }

  lemma CountPrefixStep(m: seq<bool>, j: nat)
    requires j < |m|
    ensures Count(m[..j + 1]) == Count(m[..j]) + (if m[j] then 1 else 0)
  {
    var a, b := m[..j], [m[j]];
    assert m[..j + 1] == a + b;
    CountConcat(a, b);
  }

  lemma CountPrefixBound(m: seq<bool>, j: nat)
    requires j <= |m|
    ensures Count(m[..j]) <= Count(m)
  {
    var a, b := m[..j], m[j..];
    assert m == a + b;
    CountConcat(a, b);
  }

  /** Pointwise `a & ~b`: the mask `a` with the entries of `b` switched off. */
  function AndNot(a: seq<bool>, b: seq<bool>): (r: seq<bool>)
    requires |a| == |b|
    ensures |r| == |a|
    ensures forall k :: 0 <= k < |a| ==> (r[k] <==> a[k] && !b[k])
  {
    seq(|a|, k requires 0 <= k < |a| => a[k] && !b[k])
  }

  /** Switching off entries that are on removes exactly their number. */
  lemma {:induction false} CountAndNot(a: seq<bool>, b: seq<bool>)
    requires |a| == |b|
    requires forall k :: 0 <= k < |b| && b[k] ==> a[k]
    ensures Count(AndNot(a, b)) == Count(a) - Count(b)
  {
    if |a| > 0 {
      assert AndNot(a, b)[1..] == AndNot(a[1..], b[1..]);
      CountAndNot(a[1..], b[1..]);
    }
  }

  /** Boolean indexing `s[m]`: the entries of `s` where `m` holds, in order. */
  function Select<T>(s: seq<T>, m: seq<bool>): (r: seq<T>)
    requires |s| == |m|
    ensures |r| == Count(m)
  {
    if |s| == 0 then []
    else (if m[0] then [s[0]] else []) + Select(s[1..], m[1..])
  }

  /** Boolean-index assignment `r = full(fill); r[m] = vals`. */
  function Scatter<T>(m: seq<bool>, vals: seq<T>, fill: T): (r: seq<T>)
    requires |vals| == Count(m)
    ensures |r| == |m|
    ensures forall k :: 0 <= k < |m| && !m[k] ==> r[k] == fill
    ensures forall k :: 0 <= k < |m| && m[k] ==> r[k] in vals
  {
    if |m| == 0 then []
    else if m[0] then
      var rest := Scatter(m[1..], vals[1..], fill);
      assert forall k :: 1 <= k < |m| ==> m[k] == m[1..][k - 1];
      [vals[0]] + rest
    else
      var rest := Scatter(m[1..], vals, fill);
      assert forall k :: 1 <= k < |m| ==> m[k] == m[1..][k - 1];
      [fill] + rest
  }

  /** Reading back what was scattered returns exactly the scattered values. */
  lemma {:induction false} SelectScatter<T>(m: seq<bool>, vals: seq<T>, fill: T)
    requires |vals| == Count(m)
    ensures Select(Scatter(m, vals, fill), m) == vals
  {
    if |m| > 0 {
      if m[0] {
        SelectScatter(m[1..], vals[1..], fill);
        assert Scatter(m, vals, fill)[1..] == Scatter(m[1..], vals[1..], fill);
      } else {
        SelectScatter(m[1..], vals, fill);
        assert Scatter(m, vals, fill)[1..] == Scatter(m[1..], vals, fill);
      }
    }
  }

  /** The selected entries are exactly the entries at the mask's true positions. */
  lemma {:induction false} SelectMembership<T>(s: seq<T>, m: seq<bool>)
    requires |s| == |m|
    ensures forall k :: 0 <= k < |s| && m[k] ==> s[k] in Select(s, m)
    ensures forall x :: x in Select(s, m) ==> exists k :: 0 <= k < |s| && m[k] && s[k] == x
  {
    if |s| > 0 {
      SelectMembership(s[1..], m[1..]);
      var rest := Select(s[1..], m[1..]);
      assert Select(s, m) == (if m[0] then [s[0]] else []) + rest;
      forall k | 1 <= k < |s| && m[k] ensures s[k] in Select(s, m) {
        assert s[1..][k - 1] == s[k] && m[1..][k - 1];
      }
      forall x | x in rest ensures exists k :: 0 <= k < |s| && m[k] && s[k] == x {
        var j :| 0 <= j < |s[1..]| && m[1..][j] && s[1..][j] == x;
        assert m[j + 1] && s[j + 1] == x;
      }
    }
  }

  /** Indexing a concatenation with a concatenated mask indexes each part. */
  lemma {:induction false} SelectConcat<T>(a: seq<T>, b: seq<T>, ma: seq<bool>, mb: seq<bool>)
    requires |a| == |ma| && |b| == |mb|
    ensures Select(a + b, ma + mb) == Select(a, ma) + Select(b, mb)
  {
    if |a| > 0 {
      assert (a + b)[1..] == a[1..] + b;
      assert (ma + mb)[1..] == ma[1..] + mb;
      SelectConcat(a[1..], b, ma[1..], mb);
    } else {
      assert a + b == b;
      assert ma + mb == mb;
    }
  }

  /** An all-true mask selects everything. */
  lemma {:induction false} SelectAll<T>(s: seq<T>, m: seq<bool>)
    requires |s| == |m|
    requires forall k :: 0 <= k < |m| ==> m[k]
    ensures Select(s, m) == s
  {
    if |s| > 0 {
      SelectAll(s[1..], m[1..]);
    }
  }

  /** The entry at a true position `j` of the mask lands at position
      `Count(m[..j])` of the selection. */
  lemma {:induction false} SelectAt<T>(s: seq<T>, m: seq<bool>, j: nat)
    requires |s| == |m| && j < |s| && m[j]
    ensures Count(m[..j]) < Count(m) && Select(s, m)[Count(m[..j])] == s[j]
  {
    assert Select(s, m) == (if m[0] then [s[0]] else []) + Select(s[1..], m[1..]);
    if j > 0 {
      SelectAt(s[1..], m[1..], j - 1);
      assert m[..j][1..] == m[1..][..j - 1];
    } else {
      assert m[..0] == [];
    }
  }

  /** Every selected entry sits at the count of the true positions before it. */
  lemma SelectPositions<T>(s: seq<T>, m: seq<bool>)
    requires |s| == |m|
    ensures forall j :: 0 <= j < |s| && m[j] ==>
              Count(m[..j]) < |Select(s, m)| && Select(s, m)[Count(m[..j])] == s[j]
  {
    forall j | 0 <= j < |s| && m[j]
      ensures Count(m[..j]) < |Select(s, m)| && Select(s, m)[Count(m[..j])] == s[j]
    {
      SelectAt(s, m, j);
    }
  }

  /** The last selected entry sits at the last true position of the mask. */
  lemma {:induction false} SelectLast<T>(s: seq<T>, m: seq<bool>)
    requires |s| == |m| && Count(m) > 0
    ensures exists p :: 0 <= p < |s| && m[p] && (forall q :: p < q < |s| ==> !m[q])
                        && Select(s, m)[Count(m) - 1] == s[p]
  {
    var rest := Select(s[1..], m[1..]);
    assert Select(s, m) == (if m[0] then [s[0]] else []) + rest;
    if Count(m[1..]) > 0 {
      SelectLast(s[1..], m[1..]);
      var p :| 0 <= p < |s[1..]| && m[1..][p] && (forall q :: p < q < |s[1..]| ==> !m[1..][q])
               && rest[Count(m[1..]) - 1] == s[1..][p];
      assert forall q :: p + 1 < q < |s| ==> m[q] == m[1..][q - 1];
      assert m[p + 1] && Select(s, m)[Count(m) - 1] == s[p + 1];
    } else {
      CountZero(m[1..]);
      assert forall q :: 0 < q < |s| ==> m[q] == m[1..][q - 1];
      assert m[0] && Select(s, m)[Count(m) - 1] == s[0];
    }
  }

  /** Pairs the entries of two sequences of equal length. */
  function Zip<A, B>(a: seq<A>, b: seq<B>): (r: seq<(A, B)>)
    requires |a| == |b|
    ensures |r| == |a|
    ensures forall k :: 0 <= k < |a| ==> r[k].0 == a[k] && r[k].1 == b[k]
  {
    seq(|a|, k requires 0 <= k < |a| => (a[k], b[k]))
  }

  /** Indexing two arrays with one mask keeps them paired entry by entry. */
  lemma {:induction false} SelectLockstep<A, B>(a: seq<A>, b: seq<B>, m: seq<bool>)
    requires |a| == |b| == |m|
    ensures |Select(a, m)| == |Select(b, m)|
    ensures Select(Zip(a, b), m) == Zip(Select(a, m), Select(b, m))
  {
    if |a| > 0 {
      assert Zip(a, b)[1..] == Zip(a[1..], b[1..]);
      SelectLockstep(a[1..], b[1..], m[1..]);
    }
  }

  /** A property of each entry of two sequences in lockstep, with its
      index, survives appending one more pair that has it. */
  lemma AppendPointwise<A, B>(p: (int, A, B) -> bool, xs: seq<A>, ys: seq<B>, x: A, y: B)
    requires |xs| == |ys|
    requires forall e :: 0 <= e < |xs| ==> p(e, xs[e], ys[e])
    requires p(|xs|, x, y)
    ensures forall e :: 0 <= e < |xs + [x]| ==> p(e, (xs + [x])[e], (ys + [y])[e])
  {
    forall e | 0 <= e < |xs + [x]| ensures p(e, (xs + [x])[e], (ys + [y])[e]) {
      if e < |xs| {
        assert (xs + [x])[e] == xs[e] && (ys + [y])[e] == ys[e];
      }
    }
  }

  /** The entries of `s` that satisfy `keep`, in their original order. */
  function Filter<T>(s: seq<T>, keep: T -> bool): (r: seq<T>)
    ensures |r| <= |s|
  {
    if |s| == 0 then []
    else (if keep(s[0]) then [s[0]] else []) + Filter(s[1..], keep)
  }

  lemma {:induction false} FilterMembership<T>(s: seq<T>, keep: T -> bool, x: T)
    ensures x in Filter(s, keep) <==> x in s && keep(x)
  {
    if |s| > 0 {
      FilterMembership(s[1..], keep, x);
      assert s == [s[0]] + s[1..];
    }
  }

  /** Filtering commutes with concatenation, so relative order is kept. */
  lemma {:induction false} FilterConcat<T>(a: seq<T>, b: seq<T>, keep: T -> bool)
    ensures Filter(a + b, keep) == Filter(a, keep) + Filter(b, keep)
  {
    if |a| == 0 {
      assert a + b == b;
    } else {
      var head := if keep(a[0]) then [a[0]] else [];
      assert (a + b)[0] == a[0];
      assert (a + b)[1..] == a[1..] + b;
      FilterConcat(a[1..], b, keep);
      calc {
        Filter(a + b, keep);
        head + Filter(a[1..] + b, keep);
        head + (Filter(a[1..], keep) + Filter(b, keep));
        (head + Filter(a[1..], keep)) + Filter(b, keep);
      }
    }
  }

  /** A sequence whose entries all pass is left as it is. */
  lemma {:induction false} FilterAllKept<T>(s: seq<T>, keep: T -> bool)
    requires forall k :: 0 <= k < |s| ==> keep(s[k])
    ensures Filter(s, keep) == s
  {
    if |s| > 0 {
      FilterAllKept(s[1..], keep);
    }
  }

  lemma {:induction false} FilterIdempotent<T>(s: seq<T>, keep: T -> bool)
    ensures Filter(Filter(s, keep), keep) == Filter(s, keep)
  {
    var r := Filter(s, keep);
    forall k | 0 <= k < |r| ensures keep(r[k]) {
      FilterMembership(s, keep, r[k]);
    }
    FilterAllKept(r, keep);
  }

  /** Indexing with the mask `keep(s[k])` is the same as filtering by `keep`. */
  lemma {:induction false} SelectIsFilter<T>(s: seq<T>, m: seq<bool>, keep: T -> bool)
    requires |s| == |m|
    requires forall k :: 0 <= k < |s| ==> (m[k] <==> keep(s[k]))
    ensures Select(s, m) == Filter(s, keep)
  {
    if |s| > 0 {
      SelectIsFilter(s[1..], m[1..], keep);
    }
  }

  /** Smallest entry of a non-empty sequence of integers (`np.min`). */
  function MinInt(s: seq<int>): (r: int)
    requires |s| > 0
    ensures forall k :: 0 <= k < |s| ==> r <= s[k]
    ensures exists k :: 0 <= k < |s| && r == s[k]
  {
    if |s| == 1 then s[0]
    else
      var rest := MinInt(s[1..]);
      assert forall k :: 1 <= k < |s| ==> s[k] == s[1..][k - 1];
      if s[0] <= rest then s[0] else rest
  }

  /** Largest entry of a non-empty sequence of integers (`np.max`). */
  function MaxInt(s: seq<int>): (r: int)
    requires |s| > 0
    ensures forall k :: 0 <= k < |s| ==> s[k] <= r
    ensures exists k :: 0 <= k < |s| && r == s[k]
  {
    if |s| == 1 then s[0]
    else
      var rest := MaxInt(s[1..]);
      assert forall k :: 1 <= k < |s| ==> s[k] == s[1..][k - 1];
      if s[0] >= rest then s[0] else rest
  }

  /** Sum of a sequence of integers (`sum(xs)`), peeled from the back so that
      `Sum(xs[..i+1]) == Sum(xs[..i]) + xs[i]` unfolds directly. */
  function Sum(xs: seq<int>): int
  {
    if |xs| == 0 then 0 else Sum(xs[..|xs| - 1]) + xs[|xs| - 1]
  }

  lemma {:induction false} SumNonNegative(xs: seq<int>)
    requires forall k :: 0 <= k < |xs| ==> xs[k] >= 0
    ensures Sum(xs) >= 0
  {
    if |xs| > 0 {
      SumNonNegative(xs[..|xs| - 1]);
    }
  }

  /** Prefix sums of non-negative entries never decrease. */
  lemma {:induction false} SumPrefixMonotone(xs: seq<int>, i: nat, j: nat)
    requires i <= j <= |xs|
    requires forall k :: 0 <= k < |xs| ==> xs[k] >= 0
    ensures Sum(xs[..i]) <= Sum(xs[..j])
  {
    if i < j {
      SumPrefixMonotone(xs, i, j - 1);
      assert xs[..j][..j - 1] == xs[..j - 1];
    }
  }

  /** The lengths of the parts of a sequence of sequences. */
  function Lens<T>(ss: seq<seq<T>>): (r: seq<int>)
    ensures |r| == |ss|
    ensures forall i :: 0 <= i < |ss| ==> r[i] == |ss[i]|
  {
    seq(|ss|, i requires 0 <= i < |ss| => |ss[i]|)
  }

  /** `np.concatenate(ss)`, peeled from the back like `Sum`. */
  function Concat<T>(ss: seq<seq<T>>): seq<T>
  {
    if |ss| == 0 then [] else Concat(ss[..|ss| - 1]) + ss[|ss| - 1]
  }

  lemma {:induction false} ConcatLength<T>(ss: seq<seq<T>>)
    ensures |Concat(ss)| == Sum(Lens(ss))
  {
    if |ss| > 0 {
      ConcatLength(ss[..|ss| - 1]);
      assert Lens(ss)[..|ss| - 1] == Lens(ss[..|ss| - 1]);
    }
  }

  /** Part `i` of a concatenation starts at the sum of the lengths before it. */
  lemma {:induction false} ConcatIndex<T>(ss: seq<seq<T>>, i: nat, k: nat)
    requires i < |ss| && k < |ss[i]|
    ensures 0 <= Sum(Lens(ss)[..i]) && Sum(Lens(ss)[..i]) + k < |Concat(ss)|
    ensures Concat(ss)[Sum(Lens(ss)[..i]) + k] == ss[i][k]
  {
    var n := |ss| - 1;
    var front := ss[..n];
    assert Lens(ss)[..n] == Lens(front);
    ConcatLength(front);
    if i == n {
      assert Lens(ss)[..i] == Lens(front);
    } else {
      ConcatIndex(front, i, k);
      assert Lens(ss)[..i] == Lens(front)[..i];
    }
  }

  /** `sum(xs[:i])`. */
  function PrefixSum(xs: seq<int>, i: nat): int
    requires i <= |xs|
  {
    Sum(xs[..i])
  }

  /** Part `i` is `ids[sum(lens[:i]):sum(lens[:i+1])]`. */
  ghost predicate SliceAt<T>(ids: seq<T>, lens: seq<int>, blocks: seq<seq<T>>, i: nat)
    requires i < |lens| && i < |blocks|
  {
    0 <= PrefixSum(lens, i) <= PrefixSum(lens, i + 1) <= |ids|
    && blocks[i] == ids[PrefixSum(lens, i)..PrefixSum(lens, i + 1)]
  }

  /** Parts that are consecutive slices of `ids`, cut at the prefix sums of
      `lens`, concatenate back to the prefix of `ids` they cover. */
  lemma {:induction false} ConcatSlices<T>(ids: seq<T>, lens: seq<int>, blocks: seq<seq<T>>)
    requires |blocks| == |lens|
    requires forall i :: 0 <= i < |blocks| ==> SliceAt(ids, lens, blocks, i)
    ensures 0 <= Sum(lens) <= |ids| && Concat(blocks) == ids[..Sum(lens)]
  {
    var n := |blocks|;
    if n > 0 {
      var front, fl := blocks[..n - 1], lens[..n - 1];
      forall i | 0 <= i < |front| ensures SliceAt(ids, fl, front, i) {
        assert fl[..i] == lens[..i];
        assert fl[..i + 1] == lens[..i + 1];
        assert SliceAt(ids, lens, blocks, i);
      }
      ConcatSlices(ids, fl, front);
      assert SliceAt(ids, lens, blocks, n - 1);
      assert lens[..n] == lens;
      var a, b := PrefixSum(lens, n - 1), PrefixSum(lens, n);
      assert a == Sum(fl) && b == Sum(lens);
      assert ids[..a] + ids[a..b] == ids[..b];
    } else {
      assert ids[..0] == [];
    }
  }

  const U32Modulus: int := 0x1_0000_0000

  /** A Python integer stored into a numpy `u4` field (`astype('u4')`). */
  function U32(x: int): (r: int)
    ensures 0 <= r < U32Modulus
    ensures 0 <= x < U32Modulus ==> r == x
  {
    x % U32Modulus
  }

  /** Storing `start + k` for `k < n <= 2^32` never makes two ids collide. */
  lemma U32Injective(start: int, a: int, b: int, n: int)
    requires 0 <= a < n && 0 <= b < n && n <= U32Modulus
    requires U32(start + a) == U32(start + b)
    ensures a == b
  {
    var qa, qb := (start + a) / U32Modulus, (start + b) / U32Modulus;
    assert start + a == qa * U32Modulus + U32(start + a);
    assert start + b == qb * U32Modulus + U32(start + b);
    assert a - b == (qa - qb) * U32Modulus;
  }
}
