/** What the rank test lets a comparison of two series conclude. */
module SeriesVerdict {
  import opened Binomial
  import opened RankTest
  import opened RankLaws

  // ------------------------------------------------------------ the floor

  /** The split that was actually observed. */
  function Observed(na: nat, nb: nat): (m: Mask)
    ensures |m| == na + nb && forall i :: 0 <= i < na + nb ==> m[i] == (i < na)
  {
    seq(na + nb, i => i < na)
  }

  lemma {:induction false} PickAll(v: seq<real>, m: Mask, bit: bool)
    requires |m| == |v| && forall i :: 0 <= i < |m| ==> m[i] == bit
    ensures Pick(v, m, bit) == v && Pick(v, m, !bit) == []
  {
    if v != [] {
      PickAll(v[..|v| - 1], m[..|v| - 1], bit);
    }
  }

  lemma PickObserved(a: seq<real>, b: seq<real>)
    ensures Pick(a + b, Observed(|a|, |b|), true) == a && Pick(a + b, Observed(|a|, |b|), false) == b
  {
    hide Pick;
    var m := Observed(|a|, |b|);
    var ma, mb := m[..|a|], m[|a|..];
    assert m == ma + mb;
    PickAll(a, ma, true);
    PickAll(b, mb, false);
    PickConcat(a, b, ma, mb, true);
    PickConcat(a, b, ma, mb, false);
    assert a + [] == a && [] + b == b;
  }

  lemma ObservedIsExtreme(a: seq<real>, b: seq<real>)
    ensures Observed(|a|, |b|) in ExtremeSet(a, b)
    ensures |a| == |b| ==> Not(Observed(|a|, |b|)) in ExtremeSet(a, b)
  {
    hide ExtremeSet, Pick, U, Center;
    var m := Observed(|a|, |b|);
    PickObserved(a, b);
    PickLength(a + b, m);
    ExtremeIff(a, b, m);
    if |a| == |b| {
      PickNot(a + b, m, true);
      PickNot(a + b, m, false);
      TruesNot(m);
      MirrorDeviation(a, b);
      ExtremeIff(a, b, Not(m));
    }
  }

  lemma SizeAtLeast<T>(s: set<T>, x: T, y: T)
    requires x in s && y in s
    ensures |s| >= 1 && (x != y ==> |s| >= 2)
  {
    assert |{x}| <= |s| by {
      SubsetSize({x}, s);
    }
    if x != y {
      SubsetSize({x, y}, s);
      assert |{x, y}| == 2;
    }
  }

  lemma {:induction false} SubsetSize<T>(a: set<T>, b: set<T>)
    requires a <= b
    ensures |a| <= |b|
    decreases |a|
  {
    if a != {} {
      var x :| x in a;
      SubsetSize(a - {x}, b - {x});
    }
  }

  /** Some splits are extreme, and no more than there are. */
  lemma ExtremesRange(a: seq<real>, b: seq<real>)
    ensures 1 <= Extremes(a, b) <= Splits(|a|, |b|)
    ensures |a| == |b| > 0 ==> Extremes(a, b) >= 2
  {
    hide ExtremeSet, Extremes;
    ObservedIsExtreme(a, b);
    ExtremesIsSize(a, b);
    var m := Observed(|a|, |b|);
    SizeAtLeast(ExtremeSet(a, b), m, m);
    if |a| == |b| > 0 {
      assert m[0] && !Not(m)[0];
      SizeAtLeast(ExtremeSet(a, b), m, Not(m));
    }
    ExtremesAtMost(a, b);
  }

  lemma ExtremesAtMost(a: seq<real>, b: seq<real>)
    ensures Extremes(a, b) <= Splits(|a|, |b|)
  {
    hide Masks, Deviation;
    var na, nb := |a|, |b|;
    MasksLength(na + nb, na);
    MasksCount(na + nb, na);
    CountAtMost(Masks(na + nb, na), a + b, Center(na, nb), Abs(U(a, b) - Center(na, nb)));
  }

  lemma {:induction false} CountAtMost(masks: seq<Mask>, values: seq<real>, center: real, least: real)
    requires forall i :: 0 <= i < |masks| ==> |masks[i]| == |values|
    ensures CountExtreme(masks, values, center, least) <= |masks|
  {
    if masks != [] {
      hide Deviation;
      CountAtMost(masks[..|masks| - 1], values, center, least);
    }
  }

  /** The test ran: neither group is empty and the enumeration is not refused. */
  predicate Tested(a: seq<real>, b: seq<real>) {
    |a| > 0 && |b| > 0 && |a| + |b| <= LIMIT
  }

  lemma Fraction(x: nat, y: nat, total: nat)
    requires total > 0 && x <= y
    ensures x as real / total as real <= y as real / total as real
    ensures total as real / total as real == 1.0
    ensures x > 0 ==> x as real / total as real > 0.0
  {
  }

  /** The p-value is a probability, never 0. */
  lemma PValueRange(a: seq<real>, b: seq<real>)
    ensures 0.0 < PValue(a, b) <= 1.0
  {
    hide Extremes, Splits;
    if Tested(a, b) {
      ExtremesRange(a, b);
      Fraction(Extremes(a, b), Splits(|a|, |b|), Splits(|a|, |b|));
    }
  }

  /** The smallest p-value n runs a side can reach. */
  function Floor(n: nat): real {
    2.0 / Splits(n, n) as real
  }

  /** With equal groups the p-value never goes below the floor. */
  lemma FloorHolds(a: seq<real>, b: seq<real>)
    requires Tested(a, b)
    ensures PValue(a, b) >= 1.0 / Splits(|a|, |b|) as real
    ensures |a| == |b| ==> PValue(a, b) >= Floor(|a|)
  {
    hide Extremes, Splits;
    ExtremesRange(a, b);
    Fraction(1, Extremes(a, b), Splits(|a|, |b|));
    if |a| == |b| {
      Fraction(2, Extremes(a, b), Splits(|a|, |b|));
    }
  }

  // ---------------------------------------------------------- separated groups

  /** With every value of a below every value of b, a split of the top deviation
      puts all of a on one side. */
  lemma TopSplitIsObserved(a: seq<real>, b: seq<real>, m: Mask)
    requires |a| == |b| && AllBelow(a, b)
    requires |m| == |a| + |b| && Trues(m) == |a|
    requires AllBelow(Pick(a + b, m, true), Pick(a + b, m, false))
    ensures m == Observed(|a|, |b|)
  {
    hide Trues, Pick, AllBelow;
    var n := |a|;
    TruesConcat(m[..n], m[n..]);
    assert m == m[..n] + m[n..];
    forall i | 0 <= i < n
      ensures m[i]
    {
      if !m[i] {
        SkipsNone(a, b, m, i);
      }
    }
    NoFalse(m[..n]);
    OnlyFalses(m[n..]);
    assert forall j :: n <= j < |m| ==> m[j] == m[n..][j - n];
    assert m == Observed(n, n);
  }

  /** A split of the top deviation cannot leave out a value of a: a value of b
      would be chosen in its place, and lie below it. */
  lemma SkipsNone(a: seq<real>, b: seq<real>, m: Mask, i: nat)
    requires |a| == |b| && AllBelow(a, b)
    requires |m| == |a| + |b| && Trues(m[..|a|]) + Trues(m[|a|..]) == |a|
    requires AllBelow(Pick(a + b, m, true), Pick(a + b, m, false))
    requires i < |a|
    ensures m[i]
  {
    hide *;
    if !m[i] {
      var j := ChosenAbove(|a|, m, i);
      CrossesHalves(a, b, m, i, j);
      BelowAt(a, b, i, j);
    }
  }

  lemma CrossesHalves(a: seq<real>, b: seq<real>, m: Mask, i: nat, j: nat)
    requires |m| == |a| + |b| && i < |a| && j < |b| && m[|a| + j] && !m[i]
    requires AllBelow(Pick(a + b, m, true), Pick(a + b, m, false))
    ensures b[j] < a[i]
  {
    hide *;
    CrossesBelow(a + b, m, i, |a| + j);
  }

  /** Where a value of the first half is left out, one of the second is chosen. */
  lemma ChosenAbove(n: nat, m: Mask, i: nat) returns (j: nat)
    requires |m| == n + n && Trues(m[..n]) + Trues(m[n..]) == n && i < n && !m[i]
    ensures j < n && m[n + j]
  {
    hide Trues;
    SomeFalse(m[..n], i);
    SomeTrue(m[n..]);
    var k :| 0 <= k < |m[n..]| && m[n..][k];
    j := k;
  }

  /** A chosen value lies below every value left out. */
  lemma CrossesBelow(v: seq<real>, m: Mask, i: nat, j: nat)
    requires |m| == |v| && i < |v| && j < |v| && m[j] && !m[i]
    requires AllBelow(Pick(v, m, true), Pick(v, m, false))
    ensures v[j] < v[i]
  {
    hide Pick;
    PickHas(v, m, false, i);
    PickHas(v, m, true, j);
  }

  lemma BelowAt(a: seq<real>, b: seq<real>, i: nat, j: nat)
    requires AllBelow(a, b) && i < |a| && j < |b|
    ensures a[i] < b[j]
  {
  }

  lemma {:induction false} SomeFalse(m: Mask, i: nat)
    requires i < |m| && !m[i]
    ensures Trues(m) < |m|
  {
    TruesNot(m[1..]);
    if i > 0 {
      SomeFalse(m[1..], i - 1);
    }
  }

  lemma {:induction false} SomeTrue(m: Mask)
    requires Trues(m) > 0
    ensures exists j :: 0 <= j < |m| && m[j]
  {
    if !m[0] {
      SomeTrue(m[1..]);
      var j :| 0 <= j < |m[1..]| && m[1..][j];
      assert m[j + 1];
    }
  }

  lemma {:induction false} NoFalse(m: Mask)
    requires forall i :: 0 <= i < |m| ==> m[i]
    ensures Trues(m) == |m|
  {
    if m != [] {
      NoFalse(m[1..]);
    }
  }

  lemma TopOrBottom(u: real, p: real)
    requires 0.0 <= u <= p && Abs(u - p / 2.0) >= p / 2.0
    ensures u == p || u == 0.0
  {
  }

  lemma FullDeviation(p: real)
    requires p >= 0.0
    ensures Abs(p - p / 2.0) == p / 2.0
  {
  }

  /** Then only the observed split and its opposite are extreme. */
  lemma OnlyTwoExtremes(a: seq<real>, b: seq<real>, m: Mask)
    requires |a| == |b| && AllBelow(a, b) && m in ExtremeSet(a, b)
    ensures m == Observed(|a|, |b|) || m == Not(Observed(|a|, |b|))
  {
    hide ExtremeSet, U, Pick, Abs, AllBelow, Trues;
    var p := |a| as real * |b| as real;
    RealProduct(|a|, |b|);
    ExtremeIff(a, b, m);
    URange(a, b);
    UTopIff(a, b, p);
    FullDeviation(p);
    var group, rest := Pick(a + b, m, true), Pick(a + b, m, false);
    PickLength(a + b, m);
    assert |group| == |a| && |rest| == |b|;
    URange(group, rest);
    TopOrBottom(U(group, rest), p);
    UTopIff(group, rest, p);
    if U(group, rest) == p {
      TopSplitIsObserved(a, b, m);
    } else {
      UComplement(group, rest);
      UTopIff(rest, group, p);
      PickNot(a + b, m, true);
      PickNot(a + b, m, false);
      TruesNot(m);
      TopSplitIsObserved(a, b, Not(m));
      assert m == Not(Not(m));
    }
  }

  predicate Separated(a: seq<real>, b: seq<real>) {
    && |a| > 0 && |b| > 0
    && ((forall i, j :: 0 <= i < |a| && 0 <= j < |b| ==> a[i] < b[j])
        || (forall i, j :: 0 <= i < |a| && 0 <= j < |b| ==> b[j] < a[i]))
  }

  lemma BelowReachesFloor(a: seq<real>, b: seq<real>)
    requires Tested(a, b) && |a| == |b| && AllBelow(a, b)
    ensures PValue(a, b) == Floor(|a|)
  {
    hide ExtremeSet, Extremes, Splits;
    forall m | m in ExtremeSet(a, b)
      ensures m in {Observed(|a|, |b|), Not(Observed(|a|, |b|))}
    {
      OnlyTwoExtremes(a, b, m);
    }
    var two := {Observed(|a|, |b|), Not(Observed(|a|, |b|))};
    SubsetSize(ExtremeSet(a, b), two);
    assert |two| <= 2;
    ExtremesIsSize(a, b);
    ExtremesRange(a, b);
  }

  /** Groups that do not overlap reach the floor exactly. */
  lemma SeparatedReachesFloor(a: seq<real>, b: seq<real>)
    requires Tested(a, b) && |a| == |b| && Separated(a, b)
    ensures PValue(a, b) == Floor(|a|)
  {
    hide PValue, Floor;
    if AllBelow(a, b) {
      BelowReachesFloor(a, b);
    } else {
      assert AllBelow(b, a);
      BelowReachesFloor(b, a);
      Symmetric(a, b);
    }
  }

  /** Runs compared with themselves are no evidence of a difference. */
  lemma IdenticalIsOne(a: seq<real>)
    ensures PValue(a, a) == 1.0
  {
    if Tested(a, a) {
      hide Masks, U, CountExtreme, Deviation;
      UComplement(a, a);
      RealProduct(|a|, |a|);
      assert Abs(U(a, a) - Center(|a|, |a|)) == 0.0;
      MasksLength(|a| + |a|, |a|);
      AllCount(Masks(|a| + |a|, |a|), a + a, Center(|a|, |a|));
      MasksCount(|a| + |a|, |a|);
      Fraction(1, 1, Splits(|a|, |a|));
    }
  }

  lemma {:induction false} AllCount(masks: seq<Mask>, values: seq<real>, center: real)
    requires forall i :: 0 <= i < |masks| ==> |masks[i]| == |values|
    ensures CountExtreme(masks, values, center, 0.0) == |masks|
  {
    if masks != [] {
      AllCount(masks[..|masks| - 1], values, center);
    }
  }

  // ------------------------------------------------- the p-value by counting

  /** 1 if the first value is the smaller one, -1 if it is the larger. */
  function Sign(x: real, y: real): int {
    if x < y then 1 else if y < x then -1 else 0
  }

  function RowLead(x: real, ys: seq<real>): int {
    if ys == [] then 0 else RowLead(x, ys[..|ys| - 1]) + Sign(x, ys[|ys| - 1])
  }

  /** In how many more pairs the value of the first group is the smaller one than the
      larger one. */
  function Lead(xs: seq<real>, ys: seq<real>): int {
    if xs == [] then 0 else Lead(xs[..|xs| - 1], ys) + RowLead(xs[|xs| - 1], ys)
  }

  lemma {:induction false} RowIsLead(x: real, ys: seq<real>)
    ensures 2.0 * Row(x, ys) == (RowLead(x, ys) + |ys|) as real
  {
    if ys != [] {
      RowIsLead(x, ys[..|ys| - 1]);
    }
  }

  lemma {:induction false} UIsLead(xs: seq<real>, ys: seq<real>)
    ensures 2.0 * U(xs, ys) == (Lead(xs, ys) + |xs| * |ys|) as real
  {
    if xs != [] {
      var n := |xs| - 1;
      UIsLead(xs[..n], ys);
      RowIsLead(xs[n], ys);
      assert (n + 1) * |ys| == n * |ys| + |ys|;
    }
  }

  function Size(n: int): nat {
    if n < 0 then -n else n
  }

  /** The distance from the centre is half the lead. */
  lemma DistanceIsLead(xs: seq<real>, ys: seq<real>)
    ensures 2.0 * Abs(U(xs, ys) - Center(|xs|, |ys|)) == Size(Lead(xs, ys)) as real
  {
    UIsLead(xs, ys);
    hide U, Lead;
  }

  /** A split into groups of the two sizes whose lead, either way, is at least that of
      the runs as they came. */
  predicate FarSplit(a: seq<real>, b: seq<real>, m: Mask) {
    && |m| == |a + b| && Trues(m) == |a|
    && Size(Lead(Pick(a + b, m, true), Pick(a + b, m, false))) >= Size(Lead(a, b))
  }

  lemma FarIsExtreme(a: seq<real>, b: seq<real>, m: Mask)
    ensures m in ExtremeSet(a, b) <==> FarSplit(a, b, m)
  {
    ExtremeIff(a, b, m);
    hide ExtremeSet, U, Lead, Pick, Abs, Center, Size, Trues;
    DistanceIsLead(a, b);
    if |m| == |a + b| && Trues(m) == |a| {
      PickLength(a + b, m);
      DistanceIsLead(Pick(a + b, m, true), Pick(a + b, m, false));
    }
  }

  /** The p-value is the share, among all ways to split the runs into groups of these
      sizes, of those whose lead is at least as large: no ranks, no centre. */
  lemma PValueMeans(a: seq<real>, b: seq<real>) returns (far: set<Mask>)
    requires Tested(a, b)
    ensures forall m :: m in far <==> FarSplit(a, b, m)
    ensures Choose(|a| + |b|, |a|) > 0 && PValue(a, b) * Choose(|a| + |b|, |a|) as real == |far| as real
  {
    hide ExtremeSet, FarSplit, Choose, Extremes;
    far := ExtremeSet(a, b);
    forall m ensures m in far <==> FarSplit(a, b, m) {
      FarIsExtreme(a, b, m);
    }
    ExtremesIsSize(a, b);
    var all := Splits(|a|, |b|);
    Scaled(Extremes(a, b), all);
  }

  lemma Scaled(x: nat, all: nat)
    requires all > 0
    ensures x as real / all as real * all as real == x as real
  {
  }

  // ------------------------------------------------------------ runs needed

  const SIGNIFICANCE: real := 0.05

  lemma SmallCoefficients()
    ensures Choose(2, 1) == 2 && Choose(4, 2) == 6 && Choose(6, 3) == 20 && Choose(8, 4) == 70
    ensures Choose(3, 1) == 3 && Choose(4, 1) == 4 && Choose(5, 2) == 10
  {
    hide Choose;
    forall n: nat
      ensures Choose(n, 0) == 1
    {
      ChooseNone(n);
    }
    ChooseStep(2, 0);
    ChooseStep(3, 0);
    ChooseStep(4, 0);
    ChooseStep(4, 1);
    ChooseStep(5, 0);
    ChooseStep(5, 1);
    ChooseStep(6, 0);
    ChooseStep(6, 1);
    ChooseStep(6, 2);
    ChooseStep(8, 0);
    ChooseStep(8, 1);
    ChooseStep(8, 2);
    ChooseStep(8, 3);
  }

  lemma ChooseNone(n: nat)
    ensures Choose(n, 0) == 1
  {
  }

  lemma {:induction false} CentralGrows(m: nat, n: nat)
    requires m <= n
    ensures Choose(2 * m, m) <= Choose(2 * n, n)
    decreases n - m
  {
    if m < n {
      CentralGrows(m, n - 1);
      var k := n - 1;
      assert Choose(2 * k + 2, k + 1) == Choose(2 * k + 1, k) + Choose(2 * k + 1, k + 1);
      assert Choose(2 * k + 1, k) >= Choose(2 * k, k);
    }
  }

  lemma Clears(n: nat)
    requires n >= 1
    ensures Floor(n) <= SIGNIFICANCE <==> Splits(n, n) >= 40
  {
    hide Splits;
    if Splits(n, n) >= 40 {
      Fraction(2, 2, Splits(n, n));
    }
  }

  /** Four runs a side are the least that can reach the significance level. */
  lemma FourClear(n: nat)
    requires n >= 1
    ensures Floor(n) <= SIGNIFICANCE <==> n >= 4
  {
    hide Choose, Floor;
    SmallCoefficients();
    Clears(n);
    assert n + n == 2 * n;
    if n >= 4 {
      CentralGrows(4, n);
    } else {
      CentralGrows(n, 3);
    }
  }

  method NeededRuns(current: int) returns (n: int)
    ensures current >= 12 ==> n == 12
    ensures current < 12 ==> current < n <= 12 && n >= 1 && Floor(n) <= SIGNIFICANCE
    ensures forall m :: 1 <= m && current < m < n ==> Floor(m) > SIGNIFICANCE
  {
    hide Floor;
    n := current + 1;
    while n <= 12
      invariant current < n && (current < 12 ==> n <= 12)
      invariant forall m :: 1 <= m && current < m < n ==> Floor(m) > SIGNIFICANCE
      decreases 13 - n
    {
      var ways := BinomialOf(2 * n, n);
      NonZero(n, ways);
      if 2.0 / ways <= SIGNIFICANCE {
        return;
      }
      if n == 12 {
        FourClear(12);
      }
      n := n + 1;
    }
    n := 12;
  }

  lemma NonZero(n: int, ways: real)
    requires n >= 0 ==> ways == Choose(2 * n, n) as real
    requires n <= 0 ==> ways == 1.0
    ensures ways != 0.0
    ensures n >= 1 ==> 2.0 / ways == Floor(n)
    ensures n < 1 ==> 2.0 / ways > SIGNIFICANCE
  {
    hide Choose;
    if n >= 1 {
      ChoosePositive(2 * n, n);
      assert n + n == 2 * n;
    }
  }

  /** What the answer comes to. */
  lemma NeededRunsIs(current: int, n: int)
    requires current < 12 && current < n <= 12 && n >= 1 && Floor(n) <= SIGNIFICANCE
    requires forall m :: 1 <= m && current < m < n ==> Floor(m) > SIGNIFICANCE
    ensures n == if current < 4 then 4 else current + 1
  {
    hide Floor;
    FourClear(n);
    if n - 1 > current && n - 1 >= 1 {
      FourClear(n - 1);
    }
  }

  // ------------------------------------------------------------- summaries

  predicate Sorted(s: seq<real>) {
    forall i, j :: 0 <= i < j < |s| ==> s[i] <= s[j]
  }

  function Insert(x: real, s: seq<real>): (r: seq<real>)
    requires Sorted(s)
    ensures Sorted(r) && |r| == |s| + 1
    ensures forall k :: 0 <= k < |r| ==> r[k] == x || r[k] in s
    ensures multiset(r) == multiset(s) + multiset{x}
  {
    if s == [] || s[|s| - 1] <= x then s + [x]
    else
      var init, last := s[..|s| - 1], s[|s| - 1];
      assert s == init + [last];
      Insert(x, init) + [last]
  }

  /** Any correct sort gives this. */
  function Sort(s: seq<real>): (r: seq<real>)
    ensures Sorted(r) && multiset(r) == multiset(s) && |r| == |s|
  {
    if s == [] then []
    else
      var r := Insert(s[|s| - 1], Sort(s[..|s| - 1]));
      assert s == s[..|s| - 1] + [s[|s| - 1]];
      assert |multiset(r)| == |multiset(s)|;
      r
  }

  datatype Stat = Stat(median: real, min: real, max: real, n: nat)

  function StatOf(values: seq<real>): Stat {
    if values == [] then Stat(0.0, 0.0, 0.0, 0)
    else
      var s := Sort(values);
      var n := |s|;
      var median := if n % 2 == 1 then s[n / 2] else (s[n / 2 - 1] + s[n / 2]) / 2.0;
      Stat(median, s[0], s[n - 1], n)
  }

  /** The extremes are values, bound all values, and enclose the median. */
  lemma StatMeans(values: seq<real>)
    requires values != []
    ensures
      var st := StatOf(values);
      && st.min in values && st.max in values && st.min <= st.median <= st.max
      && forall v :: v in values ==> st.min <= v <= st.max
  {
    hide Sort;
    var s := Sort(values);
    SortHas(values);
    MiddleOf(s);
    assert s[0] in s && s[|s| - 1] in s;
    forall v | v in values
      ensures s[0] <= v <= s[|s| - 1]
    {
      var k :| 0 <= k < |s| && s[k] == v;
    }
  }

  lemma SortHas(values: seq<real>)
    ensures forall v :: v in values <==> v in Sort(values)
  {
    hide Sort;
    forall v
      ensures v in values <==> v in Sort(values)
    {
      assert v in values <==> v in multiset(values);
      assert v in Sort(values) <==> v in multiset(Sort(values));
    }
  }

  lemma MiddleOf(s: seq<real>)
    requires s != [] && Sorted(s)
    ensures
      var n := |s|;
      s[0] <= (if n % 2 == 1 then s[n / 2] else (s[n / 2 - 1] + s[n / 2]) / 2.0) <= s[n - 1]
  {
  }

  // ------------------------------------------------- the median, by counting

  /** How many values are at most x. */
  function AtMost(values: seq<real>, x: real): nat {
    if values == [] then 0 else AtMost(values[..|values| - 1], x) + if values[|values| - 1] <= x then 1 else 0
  }

  /** How many values are at least x. */
  function AtLeast(values: seq<real>, x: real): nat {
    if values == [] then 0 else AtLeast(values[..|values| - 1], x) + if values[|values| - 1] >= x then 1 else 0
  }

  /** The value in the middle: more than half of the values are at most, and more than
      half at least, this one. */
  predicate IsMiddle(values: seq<real>, m: real) {
    m in values && 2 * AtMost(values, m) > |values| && 2 * AtLeast(values, m) > |values|
  }

  /** The two values in the middle: each has half of the values on its own side, itself
      counted, and more than half on the other. */
  predicate AreMiddle(values: seq<real>, lo: real, hi: real) {
    && lo in values && 2 * AtMost(values, lo) >= |values| && 2 * AtLeast(values, lo) > |values|
    && hi in values && 2 * AtLeast(values, hi) >= |values| && 2 * AtMost(values, hi) > |values|
  }

  ghost predicate IsMedian(values: seq<real>, m: real) {
    if |values| % 2 == 1 then IsMiddle(values, m)
    else exists lo, hi :: AreMiddle(values, lo, hi) && lo <= hi && m == (lo + hi) / 2.0
  }

  lemma CountStep(init: seq<real>, v: real, x: real)
    ensures AtMost(init + [v], x) == AtMost(init, x) + if v <= x then 1 else 0
    ensures AtLeast(init + [v], x) == AtLeast(init, x) + if v >= x then 1 else 0
  {
    assert (init + [v])[..|init|] == init;
  }

  lemma {:induction false} InsertCounts(v: real, s: seq<real>, x: real)
    requires Sorted(s)
    ensures AtMost(Insert(v, s), x) == AtMost(s, x) + if v <= x then 1 else 0
    ensures AtLeast(Insert(v, s), x) == AtLeast(s, x) + if v >= x then 1 else 0
  {
    hide AtMost, AtLeast;
    if s == [] || s[|s| - 1] <= v {
      CountStep(s, v, x);
    } else {
      var init, last := s[..|s| - 1], s[|s| - 1];
      InsertCounts(v, init, x);
      CountStep(Insert(v, init), last, x);
      CountStep(init, last, x);
      assert s == init + [last];
    }
  }

  /** Sorting changes no count. */
  lemma {:induction false} SortCounts(values: seq<real>, x: real)
    ensures AtMost(Sort(values), x) == AtMost(values, x) && AtLeast(Sort(values), x) == AtLeast(values, x)
  {
    if values != [] {
      var init, v := values[..|values| - 1], values[|values| - 1];
      SortCounts(init, x);
      hide Insert;
      InsertCounts(v, Sort(init), x);
    }
  }

  lemma {:induction false} CountsAreFew(s: seq<real>, x: real)
    ensures AtMost(s, x) <= |s| && AtLeast(s, x) <= |s| && |s| <= AtMost(s, x) + AtLeast(s, x)
  {
    if s != [] {
      CountsAreFew(s[..|s| - 1], x);
    }
  }

  /** In a sorted series the k-th value has those before it below, and those from it on
      above. */
  lemma {:induction false} SortedCounts(s: seq<real>, k: nat)
    requires Sorted(s) && k < |s|
    ensures AtMost(s, s[k]) >= k + 1 && AtLeast(s, s[k]) >= |s| - k
  {
    var init := s[..|s| - 1];
    if k < |s| - 1 {
      SortedCounts(init, k);
    } else {
      AllAtMost(init, s[k]);
    }
  }

  lemma {:induction false} AllAtMost(s: seq<real>, x: real)
    requires forall i :: 0 <= i < |s| ==> s[i] <= x
    ensures AtMost(s, x) == |s|
  {
    if s != [] {
      AllAtMost(s[..|s| - 1], x);
    }
  }

  /** The reported median is the median by counting over the values as they came. */
  lemma MedianMeans(values: seq<real>)
    requires values != []
    ensures IsMedian(values, StatOf(values).median)
  {
    var s, n := Sort(values), |values|;
    SortHas(values);
    hide Sort, AtMost, AtLeast;
    MiddleCounts(values, s, n / 2);
    if n % 2 == 0 {
      MiddleCounts(values, s, n / 2 - 1);
      assert AreMiddle(values, s[n / 2 - 1], s[n / 2]);
    }
  }

  lemma MiddleCounts(values: seq<real>, s: seq<real>, k: nat)
    requires s == Sort(values) && k < |values| && forall v :: v in values <==> v in s
    ensures s[k] in values && AtMost(values, s[k]) >= k + 1 && AtLeast(values, s[k]) >= |values| - k
  {
    hide Sort, AtMost, AtLeast;
    SortedCounts(s, k);
    SortCounts(values, s[k]);
  }

  lemma {:induction false} CountsApart(values: seq<real>, x: real, y: real)
    requires x < y
    ensures AtMost(values, x) + AtLeast(values, y) <= |values|
  {
    if values != [] {
      CountsApart(values[..|values| - 1], x, y);
    }
  }

  /** Counting leaves only one median. */
  lemma MedianIsOne(values: seq<real>, a: real, b: real)
    requires IsMedian(values, a) && IsMedian(values, b)
    ensures a == b
  {
    hide AtMost, AtLeast;
    forall x, y | x < y ensures AtMost(values, x) + AtLeast(values, y) <= |values| {
      CountsApart(values, x, y);
    }
    if |values| % 2 == 0 {
      var lo, hi :| AreMiddle(values, lo, hi) && lo <= hi && a == (lo + hi) / 2.0;
      var lo', hi' :| AreMiddle(values, lo', hi') && lo' <= hi' && b == (lo' + hi') / 2.0;
      assert lo == lo' && hi == hi';
    }
  }

  /** More than half of the values below x put the median below x; more than half at
      least x put it there. */
  lemma MedianSide(values: seq<real>, x: real)
    requires values != []
    ensures 2 * AtLeast(values, x) < |values| ==> StatOf(values).median < x
    ensures 2 * AtLeast(values, x) > |values| ==> StatOf(values).median >= x
    ensures 2 * AtMost(values, x) > |values| ==> StatOf(values).median <= x
  {
    MedianMeans(values);
    hide AtMost, AtLeast, StatOf;
    forall y, z | y < z ensures AtMost(values, y) + AtLeast(values, z) <= |values| {
      CountsApart(values, y, z);
    }
    forall y, z | y <= z ensures AtLeast(values, z) <= AtLeast(values, y) {
      CountsFall(values, y, z);
    }
    if |values| % 2 == 0 {
      var lo, hi :| AreMiddle(values, lo, hi) && lo <= hi && StatOf(values).median == (lo + hi) / 2.0;
    }
  }

  lemma {:induction false} CountsFall(values: seq<real>, y: real, z: real)
    requires y <= z
    ensures AtLeast(values, z) <= AtLeast(values, y)
  {
    if values != [] {
      CountsFall(values[..|values| - 1], y, z);
    }
  }

  function SpreadOf(st: Stat): real {
    if st.median == 0.0 then 0.0 else (st.max - st.min) / st.median
  }

  ghost predicate LargestGap(values: seq<real>, gap: real) {
    && (forall x, y :: x in values && y in values ==> x - y <= gap)
    && exists x, y :: x in values && y in values && x - y == gap
  }

  lemma GapIs(values: seq<real>, lo: real, hi: real)
    requires lo in values && hi in values && forall v :: v in values ==> lo <= v <= hi
    ensures LargestGap(values, hi - lo)
  {
  }

  /** The spread times the median is the largest difference between two values. */
  lemma SpreadMeans(values: seq<real>, m: real) returns (gap: real)
    requires values != [] && IsMedian(values, m) && m != 0.0
    ensures LargestGap(values, gap) && SpreadOf(StatOf(values)) * m == gap
  {
    hide *;
    var st := StatOf(values);
    StatMeans(values);
    MedianMeans(values);
    MedianIsOne(values, m, st.median);
    SpreadProduct(st, m);
    GapIs(values, st.min, st.max);
    gap := st.max - st.min;
  }

  /** Without a median to compare with there is no spread. */
  lemma NoSpread(values: seq<real>)
    requires values == [] || IsMedian(values, 0.0)
    ensures SpreadOf(StatOf(values)) == 0.0
  {
    hide IsMedian;
    if values != [] {
      MedianMeans(values);
      MedianIsOne(values, 0.0, StatOf(values).median);
    }
  }

  lemma SpreadProduct(st: Stat, m: real)
    requires st.median == m && m != 0.0
    ensures SpreadOf(st) * m == st.max - st.min
  {
  }

  // ------------------------------------------------------------ comparison

  /** One suite run: its token total and its success rate. */
  datatype SuiteRun = SuiteRun(tokens: real, success: real)

  function Tokens(runs: seq<SuiteRun>): (r: seq<real>)
    ensures |r| == |runs| && forall i :: 0 <= i < |runs| ==> r[i] == runs[i].tokens
  {
    seq(|runs|, i requires 0 <= i < |runs| => runs[i].tokens)
  }

  function Successes(runs: seq<SuiteRun>): (r: seq<real>)
    ensures |r| == |runs| && forall i :: 0 <= i < |runs| ==> r[i] == runs[i].success
  {
    seq(|runs|, i requires 0 <= i < |runs| => runs[i].success)
  }

  method Disjoint(a: seq<real>, b: seq<real>) returns (apart: bool)
    ensures apart == Separated(a, b)
  {
    if |a| == 0 || |b| == 0 {
      return false;
    }
    var minA, maxA := Bounds(a);
    var minB, maxB := Bounds(b);
    assert (forall i, j :: 0 <= i < |a| && 0 <= j < |b| ==> a[i] < b[j]) <==> maxA < minB;
    assert (forall i, j :: 0 <= i < |a| && 0 <= j < |b| ==> b[j] < a[i]) <==> maxB < minA;
    apart := maxA < minB || maxB < minA;
  }

  method Bounds(a: seq<real>) returns (low: real, high: real)
    requires |a| > 0
    ensures exists i :: 0 <= i < |a| && a[i] == low
    ensures exists i :: 0 <= i < |a| && a[i] == high
    ensures forall i :: 0 <= i < |a| ==> low <= a[i] <= high
  {
    low, high := a[0], a[0];
    var k := 0;
    while k < |a|
      invariant 0 <= k <= |a|
      invariant exists i :: 0 <= i < |a| && a[i] == low
      invariant exists i :: 0 <= i < |a| && a[i] == high
      invariant forall i :: 0 <= i < k ==> low <= a[i] <= high
      invariant low <= high
    {
      if a[k] > high {
        high := a[k];
      }
      if a[k] < low {
        low := a[k];
      }
      k := k + 1;
    }
  }

  datatype Comparison = Comparison(
    tokenDelta: real, noiseFloor: real, p: real, conclusive: bool, separated: bool)

  /** When a comparison is reported as conclusive. */
  predicate Concludes(a: seq<SuiteRun>, b: seq<SuiteRun>) {
    && |a| >= 2 && |b| >= 2
    && PValue(Tokens(a), Tokens(b)) <= SIGNIFICANCE
    && StatOf(Successes(a)).median <= StatOf(Successes(b)).median
  }

  method CompareSeries(a: seq<SuiteRun>, b: seq<SuiteRun>) returns (c: Comparison)
    ensures c.p == PValue(Tokens(a), Tokens(b))
    ensures c.separated == Separated(Tokens(a), Tokens(b))
    ensures c.conclusive == Concludes(a, b)
    ensures c.noiseFloor >= SpreadOf(StatOf(Tokens(a))) && c.noiseFloor >= SpreadOf(StatOf(Tokens(b)))
    ensures c.noiseFloor == SpreadOf(StatOf(Tokens(a))) || c.noiseFloor == SpreadOf(StatOf(Tokens(b)))
    ensures
      var before, after := StatOf(Tokens(a)).median, StatOf(Tokens(b)).median;
      if before > 0.0 then c.tokenDelta * before == after - before else c.tokenDelta == 0.0
  {
    hide PValue, StatOf;
    var sa, sb := StatOf(Tokens(a)), StatOf(Tokens(b));
    var delta := 0.0;
    if sa.median > 0.0 {
      delta := (sb.median - sa.median) / sa.median;
    }
    var noise := SpreadOf(sa);
    if SpreadOf(sb) > noise {
      noise := SpreadOf(sb);
    }
    var p := MannWhitneyP(Tokens(a), Tokens(b));
    var conclusive := p <= SIGNIFICANCE;
    var separated := Disjoint(Tokens(a), Tokens(b));
    if |a| < 2 || |b| < 2 {
      conclusive := false;
    }
    if StatOf(Successes(b)).median < StatOf(Successes(a)).median {
      conclusive := false;
    }
    c := Comparison(delta, noise, p, conclusive, separated);
  }

  lemma FewSplits(na: nat, nb: nat)
    requires 1 <= na <= 3 && 1 <= nb <= 3
    ensures Splits(na, nb) <= 20 && (na != nb ==> Splits(na, nb) <= 10)
  {
    hide Choose;
    SmallCoefficients();
    ChooseMirror(na + nb, na);
  }

  lemma TenthAtLeast(x: nat)
    requires 1 <= x <= 10
    ensures 1.0 / x as real >= 0.1
  {
  }

  /** Three runs a side, or fewer, never conclude anything. */
  lemma ThreeRunsNeverConclude(a: seq<SuiteRun>, b: seq<SuiteRun>)
    requires |a| <= 3 && |b| <= 3
    ensures !Concludes(a, b)
  {
    hide PValue, StatOf, Floor, Splits;
    if |a| >= 2 && |b| >= 2 {
      FloorHolds(Tokens(a), Tokens(b));
      FewSplits(|a|, |b|);
      if |a| == |b| {
        FourClear(|a|);
      } else {
        TenthAtLeast(Splits(|a|, |b|));
      }
    }
  }

  /** Separated runs of equal number conclude exactly from four a side on, up to
      the size the enumeration accepts, provided no success was lost. */
  lemma SeparatedConcludesIff(a: seq<SuiteRun>, b: seq<SuiteRun>)
    requires |a| == |b| && Separated(Tokens(a), Tokens(b))
    requires StatOf(Successes(a)).median <= StatOf(Successes(b)).median
    ensures Concludes(a, b) <==> 4 <= |a| <= 12
  {
    hide StatOf, Floor;
    if |a| + |b| <= LIMIT {
      SeparatedReachesFloor(Tokens(a), Tokens(b));
      FourClear(|a|);
    }
  }

  /** How many runs reached at least this success rate. */
  function Reached(runs: seq<SuiteRun>, rate: real): nat {
    if runs == [] then 0
    else Reached(runs[..|runs| - 1], rate) + if runs[|runs| - 1].success >= rate then 1 else 0
  }

  lemma {:induction false} ReachedIsCount(runs: seq<SuiteRun>, rate: real)
    ensures Reached(runs, rate) == AtLeast(Successes(runs), rate)
  {
    if runs != [] {
      var init := runs[..|runs| - 1];
      ReachedIsCount(init, rate);
      assert Successes(runs) == Successes(init) + [runs[|runs| - 1].success];
      CountStep(Successes(init), runs[|runs| - 1].success, rate);
    }
  }

  /** The second series has lost success: at some rate most runs of the first reached
      it, and most runs of the second did not. */
  ghost predicate LosesSuccess(a: seq<SuiteRun>, b: seq<SuiteRun>) {
    exists rate: real :: 2 * Reached(a, rate) > |a| && 2 * Reached(b, rate) < |b|
  }

  /** The verdict in terms of the runs: enough of them, a p-value that clears the level,
      and medians of the success rates, by counting, that do not fall. */
  lemma ConcludesIff(a: seq<SuiteRun>, b: seq<SuiteRun>)
    ensures Concludes(a, b) <==>
      && |a| >= 2 && |b| >= 2 && PValue(Tokens(a), Tokens(b)) <= 0.05
      && exists before, after :: IsMedian(Successes(a), before) && IsMedian(Successes(b), after) && before <= after
  {
    hide PValue, StatOf, IsMedian;
    if |a| >= 2 && |b| >= 2 {
      MedianMeans(Successes(a));
      MedianMeans(Successes(b));
      forall m | IsMedian(Successes(a), m) ensures m == StatOf(Successes(a)).median {
        MedianIsOne(Successes(a), m, StatOf(Successes(a)).median);
      }
      forall m | IsMedian(Successes(b), m) ensures m == StatOf(Successes(b)).median {
        MedianIsOne(Successes(b), m, StatOf(Successes(b)).median);
      }
    }
  }

  lemma LossIsLower(a: seq<SuiteRun>, b: seq<SuiteRun>)
    requires LosesSuccess(a, b)
    ensures StatOf(Successes(b)).median < StatOf(Successes(a)).median
  {
    hide StatOf, AtLeast, AtMost, Reached;
    var rate: real :| 2 * Reached(a, rate) > |a| && 2 * Reached(b, rate) < |b|;
    ReachedIsCount(a, rate);
    ReachedIsCount(b, rate);
    if a == [] {
      assert Reached([], rate) == 0 by { NoneReached(rate); }
    } else {
      MedianSide(Successes(a), rate);
      MedianSide(Successes(b), rate);
    }
  }

  lemma NoneReached(rate: real)
    ensures Reached([], rate) == 0
  {
  }

  /** A series never differs from itself, and a series too large to enumerate, or
      one that lost success, never concludes. */
  lemma NeverConclusive(a: seq<SuiteRun>, b: seq<SuiteRun>)
    ensures Tokens(a) == Tokens(b) ==> !Concludes(a, b)
    ensures |a| + |b| > LIMIT ==> !Concludes(a, b)
    ensures StatOf(Successes(b)).median < StatOf(Successes(a)).median ==> !Concludes(a, b)
    ensures LosesSuccess(a, b) ==> !Concludes(a, b)
  {
    hide StatOf, LosesSuccess;
    IdenticalIsOne(Tokens(a));
    if LosesSuccess(a, b) {
      LossIsLower(a, b);
    }
  }
}
