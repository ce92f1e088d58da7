/** The exact two-sided rank test: enumerating every way to split the combined runs
    into two groups. A split is described by a mask over the combined values; the
    code describes it by a growing list of chosen indices in a shared buffer. */
module RankTest {
  import opened Binomial

  type Mask = seq<bool>

  // ------------------------------------------------------------- statistic

  /** Half-counts: 1 below, 1/2 tied, 0 above. */
  function Beats(x: real, y: real): real {
    if x < y then 1.0 else if x == y then 0.5 else 0.0
  }

  function Row(x: real, ys: seq<real>): real {
    if ys == [] then 0.0 else Row(x, ys[..|ys| - 1]) + Beats(x, ys[|ys| - 1])
  }

  function U(xs: seq<real>, ys: seq<real>): real {
    if xs == [] then 0.0 else U(xs[..|xs| - 1], ys) + Row(xs[|xs| - 1], ys)
  }

  method UStatistic(xs: seq<real>, ys: seq<real>) returns (u: real)
    ensures u == U(xs, ys)
  {
    u := 0.0;
    var i := 0;
    while i < |xs|
      invariant 0 <= i <= |xs|
      invariant u == U(xs[..i], ys)
    {
      var j := 0;
      while j < |ys|
        invariant 0 <= j <= |ys|
        invariant u == U(xs[..i], ys) + Row(xs[i], ys[..j])
      {
        assert ys[..j + 1][..j] == ys[..j];
        if xs[i] < ys[j] {
          u := u + 1.0;
        } else if xs[i] == ys[j] {
          u := u + 0.5;
        }
        j := j + 1;
      }
      assert ys[..j] == ys;
      assert xs[..i + 1][..i] == xs[..i];
      i := i + 1;
    }
    assert xs[..i] == xs;
  }

  // ------------------------------------------------------------------ splits

  /** The values whose mask bit is `bit`, in order. */
  function Pick(values: seq<real>, mask: Mask, bit: bool): seq<real>
    requires |mask| == |values|
  {
    if values == [] then []
    else
      var n := |values| - 1;
      Pick(values[..n], mask[..n], bit) + if mask[n] == bit then [values[n]] else []
  }

  function MaskOf(idx: seq<int>, n: nat): (m: Mask)
    ensures |m| == n && forall i :: 0 <= i < n ==> m[i] == (i in idx)
  {
    seq(n, i => i in idx)
  }

  method Split(values: seq<real>, idx: seq<int>) returns (group: seq<real>, rest: seq<real>)
    ensures group == Pick(values, MaskOf(idx, |values|), true)
    ensures rest == Pick(values, MaskOf(idx, |values|), false)
  {
    var chosen: set<int> := {};
    var k := 0;
    while k < |idx|
      invariant 0 <= k <= |idx|
      invariant forall i :: i in chosen <==> i in idx[..k]
    {
      chosen := chosen + {idx[k]};
      k := k + 1;
    }
    assert idx[..k] == idx;
    ghost var mask := MaskOf(idx, |values|);
    group, rest := [], [];
    var i := 0;
    while i < |values|
      invariant 0 <= i <= |values|
      invariant group == Pick(values[..i], mask[..i], true)
      invariant rest == Pick(values[..i], mask[..i], false)
    {
      assert values[..i + 1][..i] == values[..i] && mask[..i + 1][..i] == mask[..i];
      if i in chosen {
        group := group + [values[i]];
      } else {
        rest := rest + [values[i]];
      }
      i := i + 1;
    }
    assert values[..i] == values && mask[..i] == mask;
  }

  // ------------------------------------------------------------- enumeration

  function Falses(n: nat): (m: Mask)
    ensures |m| == n && forall i :: 0 <= i < n ==> !m[i]
  {
    seq(n, _ => false)
  }

  /** Each mask of the list after the prefix. */
  function Extend(prefix: Mask, masks: seq<Mask>): (r: seq<Mask>)
    ensures |r| == |masks| && forall i :: 0 <= i < |masks| ==> r[i] == prefix + masks[i]
  {
    seq(|masks|, i requires 0 <= i < |masks| => prefix + masks[i])
  }

  /** The masks of length n with k bits set, in the order the walk meets them. */
  function Masks(n: nat, k: nat): seq<Mask> {
    if k == 0 then [Falses(n)]
    else if n == 0 then []
    else Extend([true], Masks(n - 1, k - 1)) + Extend([false], Masks(n - 1, k))
  }

  function Abs(x: real): real {
    if x < 0.0 then -x else x
  }

  /** Half of all pairs: where the statistic centres when the groups do not differ. */
  function Center(na: nat, nb: nat): real {
    (na * nb) as real / 2.0
  }

  function Deviation(values: seq<real>, mask: Mask, center: real): real
    requires |mask| == |values|
  {
    Abs(U(Pick(values, mask, true), Pick(values, mask, false)) - center)
  }

  function CountExtreme(masks: seq<Mask>, values: seq<real>, center: real, least: real): nat
    requires forall i :: 0 <= i < |masks| ==> |masks[i]| == |values|
  {
    if masks == [] then 0
    else
      var n := |masks| - 1;
      CountExtreme(masks[..n], values, center, least) + if Deviation(values, masks[n], center) >= least then 1 else 0
  }

  lemma {:induction false} MasksLength(n: nat, k: nat)
    ensures forall i :: 0 <= i < |Masks(n, k)| ==> |Masks(n, k)[i]| == n
  {
    if n > 0 && k > 0 {
      MasksLength(n - 1, k - 1);
      MasksLength(n - 1, k);
    }
  }

  lemma {:induction false} MasksCount(n: nat, k: nat)
    ensures |Masks(n, k)| == Choose(n, k)
  {
    if n > 0 && k > 0 {
      MasksCount(n - 1, k - 1);
      MasksCount(n - 1, k);
    }
  }

  // ------------------------------------------------------------- the walk

  /** Go's append on a slice of length `len` over a buffer: in place while there is
      room, otherwise in a larger copy. Slices of one buffer share it. */
  method Append(buf: array<int>, len: nat, v: int) returns (out: array<int>)
    requires len <= buf.Length
    modifies buf
    ensures out == buf || fresh(out)
    ensures len < out.Length && out[..len] == old(buf[..len]) && out[len] == v
    ensures buf[..len] == old(buf[..len])
  {
    ghost var prefix := buf[..len];
    if len < buf.Length {
      buf[len] := v;
      assert buf[..len] == prefix;
      return buf;
    }
    var cap :| cap > len;
    out := new int[cap];
    var i := 0;
    while i < len
      invariant 0 <= i <= len && out[..i] == buf[..i]
      invariant buf[..len] == prefix && fresh(out)
    {
      out[i] := buf[i];
      i := i + 1;
    }
    ghost var copied := out[..len];
    out[len] := v;
    assert out[..len] == copied;
  }

  /** Strictly increasing indices below `bound`. */
  ghost predicate Ascending(idx: seq<int>, bound: int) {
    && (forall i :: 0 <= i < |idx| ==> 0 <= idx[i] < bound)
    && (forall i, j :: 0 <= i < j < |idx| ==> idx[i] < idx[j])
  }

  /** The variables the walk's closure captures. */
  class Enumeration {
    const combined: seq<real>
    const na: nat
    const center: real
    const observed: real
    var total: nat
    var atLeastAsExtreme: nat
    /** The splits looked at so far, in order. */
    ghost var visited: seq<Mask>

    ghost predicate Valid()
      reads this
    {
      && (forall i :: 0 <= i < |visited| ==> |visited[i]| == |combined|)
      && total == |visited|
      && atLeastAsExtreme == CountExtreme(visited, combined, center, observed)
    }

    constructor (combined: seq<real>, na: nat, center: real, observed: real)
      ensures Valid() && visited == []
      ensures this.combined == combined && this.na == na && this.center == center && this.observed == observed
    {
      this.combined, this.na, this.center, this.observed := combined, na, center, observed;
      total, atLeastAsExtreme, visited := 0, 0, [];
    }

    /** One complete choice. */
    method Visit(chosen: seq<int>)
      requires Valid()
      modifies this
      ensures Valid() && visited == old(visited) + [MaskOf(chosen, |combined|)]
    {
      var group, rest := Split(combined, chosen);
      total := total + 1;
      var u := UStatistic(group, rest);
      ghost var mask := MaskOf(chosen, |combined|);
      ghost var before := visited;
      if Abs(u - center) >= observed {
        atLeastAsExtreme := atLeastAsExtreme + 1;
      }
      visited := visited + [mask];
      assert visited[..|visited| - 1] == before;
    }

    /** All choices that extend the first `len` indices of the buffer by indices
        from `start` on. Whatever the callee writes into the shared buffer lies
        behind those indices. */
    method Walk(start: nat, chosen: array<int>, len: nat)
      requires Valid() && start <= |combined|
      requires len <= chosen.Length && len <= na && Ascending(chosen[..len], start)
      modifies this, chosen
      ensures Valid() && chosen[..len] == old(chosen[..len])
      ensures visited == old(visited) + Extend(MaskOf(old(chosen[..len]), start), Masks(|combined| - start, na - len))
      decreases |combined| - start
    {
      hide Masks, Extend, MaskOf, CountExtreme;
      ghost var picks := chosen[..len];
      ghost var n, k := |combined|, na - len;
      if len == na {
        LeafMask(picks, start, n);
        Visit(chosen[..len]);
        return;
      }
      var i := start;
      ghost var goal := visited + Extend(MaskOf(picks, start), Masks(n - start, k));
      while i < |combined|
        invariant start <= i <= |combined|
        invariant Valid() && chosen[..len] == picks
        invariant visited + Extend(MaskOf(picks, i), Masks(n - i, k)) == goal
      {
        NextChoice(picks, i, n, k, visited);
        var longer := Append(chosen, len, i);
        assert longer[..len + 1] == longer[..len] + [i] == picks + [i];
        Walk(i + 1, longer, len + 1);
        assert longer[..len + 1][..len] == picks;
        assert longer[..len] == longer[..len + 1][..len];
        i := i + 1;
      }
      NoneLeft(picks, n, k, visited);
    }
  }

  /** Past the last index nothing is left to choose. */
  lemma NoneLeft(picks: seq<int>, n: nat, k: nat, sofar: seq<Mask>)
    requires k > 0
    ensures sofar + Extend(MaskOf(picks, n), Masks(n - n, k)) == sofar
  {
    assert Extend(MaskOf(picks, n), []) == [];
  }

  /** A complete choice is the one mask left to extend it. */
  lemma LeafMask(picks: seq<int>, start: nat, n: nat)
    requires start <= n && Ascending(picks, start)
    ensures Extend(MaskOf(picks, start), Masks(n - start, 0)) == [MaskOf(picks, n)]
  {
    assert MaskOf(picks, start) + Falses(n - start) == MaskOf(picks, n);
  }

  /** Choices that take index i, then those that skip it. */
  lemma NextChoice(picks: seq<int>, i: nat, n: nat, k: nat, sofar: seq<Mask>)
    requires i < n && Ascending(picks, i) && k > 0
    ensures Ascending(picks + [i], i + 1)
    ensures
      (sofar + Extend(MaskOf(picks + [i], i + 1), Masks(n - i - 1, k - 1)))
        + Extend(MaskOf(picks, i + 1), Masks(n - i - 1, k))
      == sofar + Extend(MaskOf(picks, i), Masks(n - i, k))
  {
    var m := MaskOf(picks, i);
    assert MaskOf(picks + [i], i + 1) == m + [true];
    assert MaskOf(picks, i + 1) == m + [false];
    var taken, skipped := Masks(n - i - 1, k - 1), Masks(n - i - 1, k);
    Regroup(m, true, taken);
    Regroup(m, false, skipped);
    assert Extend(m, Extend([true], taken) + Extend([false], skipped))
      == Extend(m, Extend([true], taken)) + Extend(m, Extend([false], skipped));
  }

  lemma Regroup(m: Mask, bit: bool, masks: seq<Mask>)
    ensures Extend(m, Extend([bit], masks)) == Extend(m + [bit], masks)
  {
    forall i | 0 <= i < |masks|
      ensures Extend(m, Extend([bit], masks))[i] == Extend(m + [bit], masks)[i]
    {
      assert m + ([bit] + masks[i]) == m + [bit] + masks[i];
    }
  }

  // ---------------------------------------------------------------- p-value

  const LIMIT: nat := 24

  /** How many splits there are. */
  function Splits(na: nat, nb: nat): (r: nat)
    ensures r > 0 && r == Choose(na + nb, na)
  {
    MasksCount(na + nb, na);
    ChoosePositive(na + nb, na);
    |Masks(na + nb, na)|
  }

  /** How many of them deviate from the centre at least as much as the observed one. */
  function Extremes(a: seq<real>, b: seq<real>): nat {
    var na, nb := |a|, |b|;
    MasksLength(na + nb, na);
    CountExtreme(Masks(na + nb, na), a + b, Center(na, nb), Abs(U(a, b) - Center(na, nb)))
  }

  /** The fraction of all splits that deviate at least as much as the observed one. */
  function PValue(a: seq<real>, b: seq<real>): real {
    var na, nb := |a|, |b|;
    if na == 0 || nb == 0 || na + nb > LIMIT then 1.0
    else
      Extremes(a, b) as real / Splits(na, nb) as real
  }

  /** The walk from nothing chosen: how many splits there are, and how many are extreme. */
  method Enumerate(combined: seq<real>, na: nat, center: real, observed: real) returns (total: nat, extreme: nat)
    requires na <= |combined|
    ensures total == |Masks(|combined|, na)|
    ensures (forall i :: 0 <= i < |Masks(|combined|, na)| ==> |Masks(|combined|, na)[i]| == |combined|) &&
      extreme == CountExtreme(Masks(|combined|, na), combined, center, observed)
  {
    MasksLength(|combined|, na);
    hide Masks, Extend, CountExtreme, MaskOf;
    var e := new Enumeration(combined, na, center, observed);
    var nothing := new int[0];
    e.Walk(0, nothing, 0);
    NothingChosen(nothing[..0], |combined|, na, e.visited);
    total, extreme := e.total, e.atLeastAsExtreme;
  }

  method MannWhitneyP(a: seq<real>, b: seq<real>) returns (p: real)
    ensures p == PValue(a, b)
  {
    var na, nb := |a|, |b|;
    if na == 0 || nb == 0 {
      return 1.0;
    }
    if na + nb > LIMIT {
      return 1.0;
    }
    hide *;
    var combined := a + b;
    assert combined[..na] == a && combined[na..] == b;
    var observed := UStatistic(combined[..na], combined[na..]);
    var center := Center(na, nb);
    var total, extreme := Enumerate(combined, na, center, Abs(observed - center));
    CountsArePValue(a, b, total, extreme);
    if total == 0 {
      return 1.0;
    }
    p := extreme as real / total as real;
  }

  lemma CountsArePValue(a: seq<real>, b: seq<real>, total: nat, extreme: nat)
    requires 0 < |a| && 0 < |b| && |a| + |b| <= LIMIT
    requires total == |Masks(|a + b|, |a|)|
    requires forall i :: 0 <= i < |Masks(|a + b|, |a|)| ==> |Masks(|a + b|, |a|)[i]| == |a + b|
    requires extreme == CountExtreme(Masks(|a + b|, |a|), a + b, Center(|a|, |b|), Abs(U(a, b) - Center(|a|, |b|)))
    ensures total > 0 && extreme as real / total as real == PValue(a, b)
  {
    hide Masks, CountExtreme, Center, U, Abs, Choose;
    assert total == Splits(|a|, |b|);
  }

  lemma NothingChosen(picks: seq<int>, n: nat, k: nat, visited: seq<Mask>)
    requires picks == [] && visited == [] + Extend(MaskOf(picks, 0), Masks(n, k))
    ensures visited == Masks(n, k)
  {
    assert MaskOf(picks, 0) == [];
    forall i | 0 <= i < |visited|
      ensures visited[i] == Masks(n, k)[i]
    {
      assert [] + Masks(n, k)[i] == Masks(n, k)[i];
    }
  }
}
