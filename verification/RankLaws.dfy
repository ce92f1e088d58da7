/** Laws of the exact rank test: which splits it visits, its symmetry, its range and
    the smallest p-value a sample size allows. */
module RankLaws {
  import opened Basics
  import opened Binomial
  import opened RankTest

  // ------------------------------------------------- the splits, exactly once

  function Trues(m: Mask): nat {
    if m == [] then 0 else (if m[0] then 1 else 0) + Trues(m[1..])
  }

  lemma {:induction false} FalsesHaveNone(n: nat)
    ensures Trues(Falses(n)) == 0
  {
    if n > 0 {
      assert Falses(n)[1..] == Falses(n - 1);
      FalsesHaveNone(n - 1);
    }
  }

  lemma {:induction false} OnlyFalses(m: Mask)
    requires Trues(m) == 0
    ensures m == Falses(|m|)
  {
    if m != [] {
      OnlyFalses(m[1..]);
      assert m == [m[0]] + m[1..];
    }
  }

  lemma ExtendHas(bit: bool, masks: seq<Mask>, m: Mask)
    ensures m in Extend([bit], masks) <==> m != [] && m[0] == bit && m[1..] in masks
  {
    if m in Extend([bit], masks) {
      var i :| 0 <= i < |masks| && Extend([bit], masks)[i] == m;
      assert m[1..] == masks[i];
    }
    if m != [] && m[0] == bit && m[1..] in masks {
      var i :| 0 <= i < |masks| && masks[i] == m[1..];
      assert m == [bit] + masks[i] == Extend([bit], masks)[i];
    }
  }

  /** The walk over n values visits this mask when it chooses k of them. */
  ghost predicate Visits(n: nat, k: nat, m: Mask) {
    m in Masks(n, k)
  }

  lemma FirstBit(n: nat, k: nat, m: Mask)
    requires n > 0 && k > 0
    ensures Visits(n, k, m) <==> m != [] && Visits(n - 1, if m[0] then k - 1 else k, m[1..])
  {
    ExtendHas(true, Masks(n - 1, k - 1), m);
    ExtendHas(false, Masks(n - 1, k), m);
    assert Masks(n, k) == Extend([true], Masks(n - 1, k - 1)) + Extend([false], Masks(n - 1, k));
    hide Masks, Extend;
  }

  lemma NoBits(n: nat, m: Mask)
    ensures Visits(n, 0, m) <==> |m| == n && Trues(m) == 0
  {
    FalsesHaveNone(n);
    assert m in Masks(n, 0) <==> m == Falses(n);
    hide Masks, Trues;
    if |m| == n && Trues(m) == 0 {
      OnlyFalses(m);
    }
  }

  /** The walk visits exactly the masks with k bits set. */
  lemma {:induction false} VisitsIff(n: nat, k: nat, m: Mask)
    ensures Visits(n, k, m) <==> |m| == n && Trues(m) == k
  {
    if k == 0 {
      NoBits(n, m);
    } else if n == 0 {
      assert Masks(n, k) == [];
    } else {
      FirstBit(n, k, m);
      hide Visits, Masks;
      if m != [] {
        var left := if m[0] then k - 1 else k;
        assert Trues(m) == k <==> Trues(m[1..]) == left;
        hide Trues;
        VisitsIff(n - 1, left, m[1..]);
      }
    }
  }

  lemma ExtendDistinct(bit: bool, masks: seq<Mask>)
    requires Distinct(masks)
    ensures Distinct(Extend([bit], masks))
  {
    forall i, j | 0 <= i < j < |masks|
      ensures [bit] + masks[i] != [bit] + masks[j]
    {
      assert ([bit] + masks[i])[1..] == masks[i] && ([bit] + masks[j])[1..] == masks[j];
    }
  }

  /** No mask is listed twice. With VisitsIff and MasksCount: the enumeration
      visits every way to split exactly once, Choose(n, k) in all. */
  lemma {:induction false} MasksDistinct(n: nat, k: nat)
    ensures Distinct(Masks(n, k))
  {
    if k > 0 && n > 0 {
      MasksDistinct(n - 1, k - 1);
      MasksDistinct(n - 1, k);
      ExtendDistinct(true, Masks(n - 1, k - 1));
      ExtendDistinct(false, Masks(n - 1, k));
      var first, second := Extend([true], Masks(n - 1, k - 1)), Extend([false], Masks(n - 1, k));
      forall i, j | 0 <= i < |first| && 0 <= j < |second|
        ensures first[i] != second[j]
      {
        assert first[i][0] && !second[j][0];
      }
    }
  }

  // ----------------------------------------------------- the statistic's algebra

  lemma {:induction false} RowConcat(x: real, y1: seq<real>, y2: seq<real>)
    ensures Row(x, y1 + y2) == Row(x, y1) + Row(x, y2)
  {
    if y2 == [] {
      assert y1 + y2 == y1;
    } else {
      assert (y1 + y2)[..|y1 + y2| - 1] == y1 + y2[..|y2| - 1];
      RowConcat(x, y1, y2[..|y2| - 1]);
    }
  }

  lemma {:induction false} UConcatLeft(x1: seq<real>, x2: seq<real>, y: seq<real>)
    ensures U(x1 + x2, y) == U(x1, y) + U(x2, y)
  {
    if x2 == [] {
      assert x1 + x2 == x1;
    } else {
      assert (x1 + x2)[..|x1 + x2| - 1] == x1 + x2[..|x2| - 1];
      UConcatLeft(x1, x2[..|x2| - 1], y);
    }
  }

  lemma {:induction false} UConcatRight(x: seq<real>, y1: seq<real>, y2: seq<real>)
    ensures U(x, y1 + y2) == U(x, y1) + U(x, y2)
  {
    if x != [] {
      UConcatRight(x[..|x| - 1], y1, y2);
      RowConcat(x[|x| - 1], y1, y2);
    }
  }

  lemma {:induction false} UOne(x: real, ys: seq<real>)
    ensures U([x], ys) == Row(x, ys)
    ensures U(ys, [x]) + Row(x, ys) == |ys| as real
  {
    assert [x][..0] == [];
    if ys != [] {
      var y := ys[|ys| - 1];
      UOne(x, ys[..|ys| - 1]);
      assert [x][..0] == [] && Row(y, [x]) == Row(y, []) + Beats(y, x);
    }
  }

  /** Every pair is counted once from each side. */
  lemma {:induction false} UComplement(x: seq<real>, y: seq<real>)
    ensures U(x, y) + U(y, x) == |x| as real * |y| as real
  {
    if x == [] {
      NoRows(y);
    } else {
      var init, last := x[..|x| - 1], x[|x| - 1];
      UComplement(init, y);
      assert x == init + [last];
      UConcatRight(y, init, [last]);
      UOne(last, y);
      assert |x| as real == |init| as real + 1.0;
      Spread(|init| as real, |y| as real);
    }
  }

  lemma Spread(a: real, b: real)
    ensures (a + 1.0) * b == a * b + b
  {
  }

  lemma {:induction false} NoRows(y: seq<real>)
    ensures U(y, []) == 0.0
  {
    if y != [] {
      NoRows(y[..|y| - 1]);
    }
  }

  lemma {:induction false} RowRange(x: real, ys: seq<real>)
    ensures 0.0 <= Row(x, ys) <= |ys| as real
    ensures Row(x, ys) == |ys| as real <==> forall j :: 0 <= j < |ys| ==> x < ys[j]
  {
    if ys != [] {
      RowRange(x, ys[..|ys| - 1]);
    }
  }

  /** The statistic lies between 0 and the number of pairs. */
  lemma {:induction false} URange(x: seq<real>, y: seq<real>)
    ensures 0.0 <= U(x, y) <= |x| as real * |y| as real
  {
    if x != [] {
      hide Row;
      var init := x[..|x| - 1];
      URange(init, y);
      RowRange(x[|x| - 1], y);
      assert |x| as real == |init| as real + 1.0;
      Spread(|init| as real, |y| as real);
    }
  }

  ghost predicate AllBelow(x: seq<real>, y: seq<real>) {
    forall i, j :: 0 <= i < |x| && 0 <= j < |y| ==> x[i] < y[j]
  }

  /** It reaches the top exactly when every value of x lies below every value of y. */
  lemma {:induction false} UTopIff(x: seq<real>, y: seq<real>, top: real)
    requires top == |x| as real * |y| as real
    ensures U(x, y) == top <==> AllBelow(x, y)
  {
    if x != [] {
      hide Row;
      var init, last := x[..|x| - 1], x[|x| - 1];
      var below := |init| as real * |y| as real;
      assert |x| as real == |init| as real + 1.0;
      Spread(|init| as real, |y| as real);
      assert top == below + |y| as real;
      URange(init, y);
      RowRange(last, y);
      UTopIff(init, y, below);
      assert forall i :: 0 <= i < |init| ==> x[i] == init[i];
      assert AllBelow(x, y) <==> AllBelow(init, y) && forall j :: 0 <= j < |y| ==> last < y[j];
    }
  }

  // ------------------------------------------------------------------- picks

  function Not(m: Mask): (r: Mask)
    ensures |r| == |m| && forall i :: 0 <= i < |m| ==> r[i] == !m[i]
  {
    seq(|m|, i requires 0 <= i < |m| => !m[i])
  }

  lemma {:induction false} PickNot(v: seq<real>, m: Mask, bit: bool)
    requires |m| == |v|
    ensures Pick(v, Not(m), bit) == Pick(v, m, !bit)
  {
    if v != [] {
      var n := |v| - 1;
      assert Not(m)[..n] == Not(m[..n]);
      PickNot(v[..n], m[..n], bit);
    }
  }

  lemma {:induction false} PickConcat(v1: seq<real>, v2: seq<real>, m1: Mask, m2: Mask, bit: bool)
    requires |m1| == |v1| && |m2| == |v2|
    ensures Pick(v1 + v2, m1 + m2, bit) == Pick(v1, m1, bit) + Pick(v2, m2, bit)
    decreases |v2|
  {
    if v2 == [] {
      assert v1 + v2 == v1 && m1 + m2 == m1;
      assert Pick(v2, m2, bit) == [];
    } else {
      var n := |v2| - 1;
      assert (v1 + v2)[..|v1| + n] == v1 + v2[..n];
      assert (m1 + m2)[..|v1| + n] == m1 + m2[..n];
      PickConcat(v1, v2[..n], m1, m2[..n], bit);
    }
  }

  lemma {:induction false} TruesConcat(m1: Mask, m2: Mask)
    ensures Trues(m1 + m2) == Trues(m1) + Trues(m2)
  {
    if m1 == [] {
      assert m1 + m2 == m2;
    } else {
      assert (m1 + m2)[1..] == m1[1..] + m2;
      TruesConcat(m1[1..], m2);
    }
  }

  lemma {:induction false} TruesNot(m: Mask)
    ensures Trues(Not(m)) == |m| - Trues(m)
  {
    if m != [] {
      assert Not(m)[1..] == Not(m[1..]);
      TruesNot(m[1..]);
    }
  }

  lemma {:induction false} PickLength(v: seq<real>, m: Mask)
    requires |m| == |v|
    ensures |Pick(v, m, true)| == Trues(m) && |Pick(v, m, false)| == |m| - Trues(m)
  {
    if v != [] {
      var n := |v| - 1;
      PickLength(v[..n], m[..n]);
      TruesConcat(m[..n], [m[n]]);
      assert m == m[..n] + [m[n]];
      assert [m[n]][1..] == [];
    }
  }

  lemma {:induction false} PickHas(v: seq<real>, m: Mask, bit: bool, i: nat)
    requires |m| == |v| && i < |v| && m[i] == bit
    ensures v[i] in Pick(v, m, bit)
  {
    var n := |v| - 1;
    if i < n {
      PickHas(v[..n], m[..n], bit, i);
      assert v[..n][i] == v[i];
    }
  }

  // ---------------------------------------------------------------- symmetry

  /** A split of a + b, seen as the opposite split of b + a. */
  function Flip(m: Mask, na: nat): (r: Mask)
    requires na <= |m|
    ensures |r| == |m|
  {
    Not(m[na..]) + Not(m[..na])
  }

  lemma FlipBack(m: Mask, na: nat)
    requires na <= |m|
    ensures Flip(Flip(m, na), |m| - na) == m
  {
    var f := Flip(m, na);
    assert f[|m| - na..] == Not(m[..na]) && f[..|m| - na] == Not(m[na..]);
    assert Not(Not(m[..na])) == m[..na] && Not(Not(m[na..])) == m[na..];
  }

  lemma FlipTrues(m: Mask, na: nat)
    requires na <= |m|
    ensures Trues(Flip(m, na)) == |m| - Trues(m)
  {
    hide Trues;
    TruesConcat(Not(m[na..]), Not(m[..na]));
    TruesNot(m[na..]);
    TruesNot(m[..na]);
    TruesConcat(m[..na], m[na..]);
    assert m == m[..na] + m[na..];
  }

  /** Swapping the order of the pieces on both sides does not change the statistic. */
  lemma UReorder(x1: seq<real>, x2: seq<real>, y1: seq<real>, y2: seq<real>)
    ensures U(x1 + x2, y1 + y2) == U(x2 + x1, y2 + y1)
  {
    UConcatLeft(x1, x2, y1 + y2);
    UConcatLeft(x2, x1, y2 + y1);
    UConcatRight(x1, y1, y2);
    UConcatRight(x2, y1, y2);
    UConcatRight(x1, y2, y1);
    UConcatRight(x2, y2, y1);
  }

  lemma AbsMirror(u: real, w: real, p: real)
    requires u + w == p
    ensures Abs(w - p / 2.0) == Abs(u - p / 2.0)
  {
  }

  lemma MirrorDeviation(x: seq<real>, y: seq<real>)
    ensures Abs(U(y, x) - Center(|x|, |y|)) == Abs(U(x, y) - Center(|x|, |y|))
  {
    hide U, Abs;
    UComplement(x, y);
    RealProduct(|x|, |y|);
    AbsMirror(U(x, y), U(y, x), (|x| * |y|) as real);
  }

  lemma CenterSwap(na: nat, nb: nat)
    ensures Center(na, nb) == Center(nb, na)
  {
    assert na * nb == nb * na;
  }

  lemma FlipDeviation(a: seq<real>, b: seq<real>, m: Mask)
    requires |m| == |a| + |b| && Trues(m) == |a|
    ensures Deviation(b + a, Flip(m, |a|), Center(|a|, |b|)) == Deviation(a + b, m, Center(|a|, |b|))
  {
    hide Pick, U, Trues, Center;
    var ma, mb := m[..|a|], m[|a|..];
    assert m == ma + mb;
    var a1, a0, b1, b0 := Pick(a, ma, true), Pick(a, ma, false), Pick(b, mb, true), Pick(b, mb, false);
    PickConcat(a, b, ma, mb, true);
    PickConcat(a, b, ma, mb, false);
    PickConcat(b, a, Not(mb), Not(ma), true);
    PickConcat(b, a, Not(mb), Not(ma), false);
    PickNot(a, ma, true);
    PickNot(a, ma, false);
    PickNot(b, mb, true);
    PickNot(b, mb, false);
    UReorder(b0, a0, b1, a1);
    PickLength(a + b, m);
    assert |a1 + b1| == |a| && |a0 + b0| == |b|;
    MirrorDeviation(a1 + b1, a0 + b0);
  }

  /** The splits of a list that deviate at least so much. */
  ghost function Deviating(masks: seq<Mask>, values: seq<real>, center: real, least: real): set<Mask>
    requires forall i :: 0 <= i < |masks| ==> |masks[i]| == |values|
  {
    set m | m in masks && Deviation(values, m, center) >= least
  }

  /** The splits counted as extreme. */
  ghost function ExtremeSet(a: seq<real>, b: seq<real>): set<Mask> {
    var na, nb := |a|, |b|;
    MasksLength(na + nb, na);
    Deviating(Masks(na + nb, na), a + b, Center(na, nb), Abs(U(a, b) - Center(na, nb)))
  }

  lemma DeviatingNext(init: seq<Mask>, last: Mask, values: seq<real>, center: real, least: real)
    requires (forall i :: 0 <= i < |init| ==> |init[i]| == |values|) && |last| == |values|
    requires last !in init
    ensures |Deviating(init + [last], values, center, least)|
      == |Deviating(init, values, center, least)| + if Deviation(values, last, center) >= least then 1 else 0
  {
    hide Deviation;
    var before, all := Deviating(init, values, center, least), Deviating(init + [last], values, center, least);
    if Deviation(values, last, center) >= least {
      assert all == before + {last};
    } else {
      assert all == before;
    }
  }

  lemma {:induction false} CountIsSize(masks: seq<Mask>, values: seq<real>, center: real, least: real)
    requires Distinct(masks) && forall i :: 0 <= i < |masks| ==> |masks[i]| == |values|
    ensures CountExtreme(masks, values, center, least) == |Deviating(masks, values, center, least)|
  {
    if masks != [] {
      hide Deviation, Deviating;
      var init, last := masks[..|masks| - 1], masks[|masks| - 1];
      CountIsSize(init, values, center, least);
      assert masks == init + [last];
      DeviatingNext(init, last, values, center, least);
    }
  }

  lemma ExtremesIsSize(a: seq<real>, b: seq<real>)
    ensures Extremes(a, b) == |ExtremeSet(a, b)|
  {
    hide Deviation, Masks, CountExtreme, U, Center;
    var na, nb := |a|, |b|;
    MasksLength(na + nb, na);
    MasksDistinct(na + nb, na);
    CountIsSize(Masks(na + nb, na), a + b, Center(na, nb), Abs(U(a, b) - Center(na, nb)));
  }

  lemma ExtremeIff(a: seq<real>, b: seq<real>, m: Mask)
    ensures m in ExtremeSet(a, b) <==>
      |m| == |a| + |b| && Trues(m) == |a|
      && Deviation(a + b, m, Center(|a|, |b|)) >= Abs(U(a, b) - Center(|a|, |b|))
  {
    hide Deviation, Masks, U;
    VisitsIff(|a| + |b|, |a|, m);
  }

  /** An injection cannot land in a smaller set. */
  lemma {:induction false} FlipIsInjective(from: set<Mask>, to: set<Mask>, n: nat, na: nat)
    requires na <= n && forall m :: m in from ==> |m| == n && Flip(m, na) in to
    ensures |from| <= |to|
    decreases |from|
  {
    if from != {} {
      var m :| m in from;
      forall k | k in from - {m}
        ensures Flip(k, na) in to - {Flip(m, na)}
      {
        FlipBack(k, na);
        FlipBack(m, na);
      }
      FlipIsInjective(from - {m}, to - {Flip(m, na)}, n, na);
    }
  }

  lemma NoMoreExtremes(a: seq<real>, b: seq<real>)
    ensures |ExtremeSet(a, b)| <= |ExtremeSet(b, a)|
  {
    hide ExtremeSet, Deviation, Flip, Trues, U, Center;
    forall m | m in ExtremeSet(a, b)
      ensures |m| == |a| + |b| && Flip(m, |a|) in ExtremeSet(b, a)
    {
      ExtremeIff(a, b, m);
      FlipDeviation(a, b, m);
      FlipTrues(m, |a|);
      ExtremeIff(b, a, Flip(m, |a|));
      CenterSwap(|a|, |b|);
      MirrorDeviation(a, b);
    }
    FlipIsInjective(ExtremeSet(a, b), ExtremeSet(b, a), |a| + |b|, |a|);
  }

  lemma {:induction false} ChooseMirror(n: nat, k: nat)
    requires k <= n
    ensures Choose(n, k) == Choose(n, n - k)
  {
    if n > 0 {
      if k > 0 {
        ChooseMirror(n - 1, k - 1);
      }
      if k < n {
        ChooseMirror(n - 1, k);
      }
      if k == 0 {
        ChooseAll(n);
      } else if k == n {
        ChooseAll(n);
      }
    }
  }

  lemma {:induction false} ChooseAll(n: nat)
    ensures Choose(n, n) == 1 && Choose(n, n + 1) == 0
  {
    if n > 0 {
      ChooseAll(n - 1);
      ChoosePositive(n - 1, n + 1);
    }
  }

  /** The p-value does not depend on which group is called first. */
  lemma Symmetric(a: seq<real>, b: seq<real>)
    ensures PValue(a, b) == PValue(b, a)
  {
    hide ExtremeSet, Extremes, Choose;
    NoMoreExtremes(a, b);
    NoMoreExtremes(b, a);
    ExtremesIsSize(a, b);
    ExtremesIsSize(b, a);
    ChooseMirror(|a| + |b|, |a|);
    assert Splits(|a|, |b|) == Splits(|b|, |a|);
  }
}
