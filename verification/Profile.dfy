/** The layered profile merge: layers in stable precedence order, one winner for each
    key with the lower contributions it overrode. */
module Profile {
  import opened Basics

  datatype Entry = Entry(
    kind: string, key: string, value: string, sourceType: string, sourceRef: string,
    confidence: real, tokens: int)

  datatype Layer = Layer(owner: string, precedence: int, entries: seq<Entry>)

  datatype Provenance = Provenance(owner: string, sourceType: string, sourceRef: string, value: string)

  datatype Effective = Effective(
    kind: string, key: string, value: string, owner: string, sourceType: string, sourceRef: string,
    confidence: real, tokens: int, overrides: seq<Provenance>, conflict: bool)

  // ---------------------------------------------------------- stable sorting

  predicate Ascending(layers: seq<Layer>) {
    forall i, j :: 0 <= i < j < |layers| ==> layers[i].precedence <= layers[j].precedence
  }

  /** The layer goes behind every layer of at most its precedence. */
  function Insert(sorted: seq<Layer>, layer: Layer): (r: seq<Layer>)
    ensures multiset(r) == multiset(sorted) + multiset{layer}
  {
    if sorted == [] || sorted[|sorted| - 1].precedence <= layer.precedence then sorted + [layer]
    else
      assert sorted == sorted[..|sorted| - 1] + [sorted[|sorted| - 1]];
      Insert(sorted[..|sorted| - 1], layer) + [sorted[|sorted| - 1]]
  }

  function StableSort(layers: seq<Layer>): (r: seq<Layer>)
    ensures multiset(r) == multiset(layers)
  {
    if layers == [] then []
    else
      assert layers == layers[..|layers| - 1] + [layers[|layers| - 1]];
      Insert(StableSort(layers[..|layers| - 1]), layers[|layers| - 1])
  }

  lemma {:induction false} InsertSorts(sorted: seq<Layer>, layer: Layer)
    requires Ascending(sorted)
    ensures Ascending(Insert(sorted, layer))
    ensures forall l :: l in Insert(sorted, layer) <==> l in sorted || l == layer
  {
    if !(sorted == [] || sorted[|sorted| - 1].precedence <= layer.precedence) {
      var init, last := sorted[..|sorted| - 1], sorted[|sorted| - 1];
      InsertSorts(init, layer);
      assert sorted == init + [last];
      forall l | l in Insert(init, layer) ensures l.precedence <= last.precedence {
        if l in init {
          var i :| 0 <= i < |init| && init[i] == l;
        }
      }
    }
  }

  lemma {:induction false} SortSorts(layers: seq<Layer>)
    ensures Ascending(StableSort(layers))
  {
    if layers != [] {
      SortSorts(layers[..|layers| - 1]);
      InsertSorts(StableSort(layers[..|layers| - 1]), layers[|layers| - 1]);
    }
  }

  /** The layers of one precedence, in order. */
  function Of(layers: seq<Layer>, precedence: int): seq<Layer> {
    if layers == [] then []
    else
      Of(layers[..|layers| - 1], precedence)
      + if layers[|layers| - 1].precedence == precedence then [layers[|layers| - 1]] else []
  }

  lemma OfStep(layers: seq<Layer>, last: Layer, precedence: int)
    ensures Of(layers + [last], precedence) == Of(layers, precedence) + if last.precedence == precedence then [last] else []
  {
    assert (layers + [last])[..|layers|] == layers;
  }

  lemma {:induction false} InsertIsStable(sorted: seq<Layer>, layer: Layer, precedence: int)
    ensures Of(Insert(sorted, layer), precedence) ==
      Of(sorted, precedence) + if layer.precedence == precedence then [layer] else []
  {
    hide Of;
    if sorted == [] || sorted[|sorted| - 1].precedence <= layer.precedence {
      OfStep(sorted, layer, precedence);
    } else {
      var init, last := sorted[..|sorted| - 1], sorted[|sorted| - 1];
      InsertIsStable(init, layer, precedence);
      OfStep(Insert(init, layer), last, precedence);
      OfStep(init, last, precedence);
      assert sorted == init + [last];
    }
  }

  /** Layers of equal precedence keep their order. */
  lemma {:induction false} SortIsStable(layers: seq<Layer>, precedence: int)
    ensures Of(StableSort(layers), precedence) == Of(layers, precedence)
  {
    if layers != [] {
      var init := layers[..|layers| - 1];
      SortIsStable(init, precedence);
      InsertIsStable(StableSort(init), layers[|layers| - 1], precedence);
    }
  }

  predicate DistinctPrecedences(layers: seq<Layer>) {
    forall i, j :: 0 <= i < j < |layers| ==> layers[i].precedence != layers[j].precedence
  }

  /** A precedence belongs to one layer. */
  predicate OnePerPrecedence(layers: seq<Layer>) {
    forall x, y :: x in layers && y in layers && x.precedence == y.precedence ==> x == y
  }

  lemma SameMembers(a: seq<Layer>, b: seq<Layer>)
    requires multiset(a) == multiset(b)
    ensures |a| == |b| && forall x :: x in a <==> x in b
  {
    assert |multiset(a)| == |a| && |multiset(b)| == |b|;
    forall x ensures x in a <==> x in b {
      assert x in a <==> x in multiset(a);
      assert x in b <==> x in multiset(b);
    }
  }

  lemma SameLast(a: seq<Layer>, b: seq<Layer>)
    requires a != [] && |a| == |b| && (forall x :: x in a <==> x in b) && Ascending(a) && Ascending(b) && OnePerPrecedence(a)
    ensures a[|a| - 1] == b[|b| - 1]
  {
    var x, y := a[|a| - 1], b[|b| - 1];
    assert x in b && y in a;
    LastIsGreatest(a, y);
    LastIsGreatest(b, x);
  }

  lemma LastIsGreatest(a: seq<Layer>, x: Layer)
    requires Ascending(a) && x in a
    ensures x.precedence <= a[|a| - 1].precedence
  {
    var i :| 0 <= i < |a| && a[i] == x;
  }

  lemma DropLast(a: seq<Layer>)
    requires a != []
    ensures multiset(a[..|a| - 1]) == multiset(a) - multiset{a[|a| - 1]}
    ensures forall x :: x in a[..|a| - 1] ==> x in a
  {
    assert a == a[..|a| - 1] + [a[|a| - 1]];
  }

  /** Sorted lists of the same layers with distinct precedences are equal. */
  lemma {:induction false} OneSorting(a: seq<Layer>, b: seq<Layer>)
    requires multiset(a) == multiset(b) && Ascending(a) && Ascending(b) && OnePerPrecedence(a)
    ensures a == b
  {
    hide Ascending, OnePerPrecedence;
    SameMembers(a, b);
    if a != [] {
      SameLast(a, b);
      DropLast(a);
      DropLast(b);
      InitKeeps(a);
      InitKeeps(b);
      OneSorting(a[..|a| - 1], b[..|b| - 1]);
      assert a == a[..|a| - 1] + [a[|a| - 1]];
      assert b == b[..|b| - 1] + [b[|b| - 1]];
    }
  }

  lemma InitKeeps(a: seq<Layer>)
    requires a != []
    ensures Ascending(a) ==> Ascending(a[..|a| - 1])
    ensures OnePerPrecedence(a) ==> OnePerPrecedence(a[..|a| - 1])
  {
  }

  /** With distinct precedences the order the layers come in makes no difference. */
  lemma SortIgnoresOrder(a: seq<Layer>, b: seq<Layer>)
    requires multiset(a) == multiset(b) && DistinctPrecedences(a)
    ensures StableSort(a) == StableSort(b)
  {
    SortSorts(a);
    SortSorts(b);
    SameMembers(a, StableSort(a));
    forall x, y | x in StableSort(a) && y in StableSort(a) && x.precedence == y.precedence ensures x == y {
      var i :| 0 <= i < |a| && a[i] == x;
      var j :| 0 <= j < |a| && a[j] == y;
      assert i == j;
    }
    OneSorting(StableSort(a), StableSort(b));
  }

  // ---------------------------------------------------------------- the merge

  /** One entry as its layer contributes it. */
  datatype Given = Given(owner: string, entry: Entry)

  const UNIT_SEPARATOR: char := '\U{1F}'

  function Joined(separator: char, kind: string, key: string): string {
    kind + [separator] + key
  }

  function KeyOf(e: Entry): string {
    Joined(UNIT_SEPARATOR, e.kind, e.key)
  }

  function Named(owner: string, entries: seq<Entry>): seq<Given> {
    if entries == [] then []
    else Named(owner, entries[..|entries| - 1]) + [Given(owner, entries[|entries| - 1])]
  }

  /** Every entry of every layer, in order. */
  function Contributions(layers: seq<Layer>): seq<Given> {
    if layers == [] then []
    else
      var last := layers[|layers| - 1];
      Contributions(layers[..|layers| - 1]) + Named(last.owner, last.entries)
  }

  /** The contributions to one key, in order. */
  function For(given: seq<Given>, k: string): seq<Given> {
    if given == [] then []
    else
      For(given[..|given| - 1], k)
      + if KeyOf(given[|given| - 1].entry) == k then [given[|given| - 1]] else []
  }

  function Overridden(g: Given): Provenance {
    Provenance(g.owner, g.entry.sourceType, g.entry.sourceRef, g.entry.value)
  }

  function AllOverridden(given: seq<Given>): (r: seq<Provenance>)
    ensures |r| == |given| && forall i :: 0 <= i < |given| ==> r[i] == Overridden(given[i])
  {
    seq(|given|, i requires 0 <= i < |given| => Overridden(given[i]))
  }

  /** The last contribution wins, the others are its overrides in order, and the
      conflict flag says whether one of them had another value. */
  ghost predicate Wins(e: Effective, given: seq<Given>)
    requires given != []
  {
    var last := given[|given| - 1];
    && e.kind == last.entry.kind && e.key == last.entry.key && e.value == last.entry.value
    && e.owner == last.owner && e.sourceType == last.entry.sourceType && e.sourceRef == last.entry.sourceRef
    && e.confidence == last.entry.confidence && e.tokens == last.entry.tokens
    && e.overrides == AllOverridden(given[..|given| - 1])
    && (e.conflict <==> exists i :: 0 <= i < |given| - 1 && given[i].entry.value != e.value)
  }

  function Candidate(g: Given): Effective {
    Effective(g.entry.kind, g.entry.key, g.entry.value, g.owner, g.entry.sourceType, g.entry.sourceRef,
              g.entry.confidence, g.entry.tokens, [], false)
  }

  function Above(existing: Effective, g: Given): Effective {
    var below := Provenance(existing.owner, existing.sourceType, existing.sourceRef, existing.value);
    Candidate(g).(overrides := existing.overrides + [below],
                  conflict := existing.value != g.entry.value || existing.conflict)
  }

  function MergeOne(winners: map<string, Effective>, g: Given): map<string, Effective> {
    var k := KeyOf(g.entry);
    winners[k := if k in winners then Above(winners[k], g) else Candidate(g)]
  }

  function Merge(given: seq<Given>): map<string, Effective> {
    if given == [] then map[] else MergeOne(Merge(given[..|given| - 1]), given[|given| - 1])
  }

  lemma FirstWins(g: Given)
    ensures Wins(Candidate(g), [g])
  {
    assert [g][..0] == [];
  }

  lemma NextWins(existing: Effective, given: seq<Given>, g: Given)
    requires given != [] && Wins(existing, given)
    ensures Wins(Above(existing, g), given + [g])
  {
    var all, e := given + [g], Above(existing, g);
    assert all[..|given|] == given;
    assert given == given[..|given| - 1] + [given[|given| - 1]];
    assert e.overrides == AllOverridden(given);
    ConflictStep(existing, given, g);
  }

  lemma ConflictStep(existing: Effective, given: seq<Given>, g: Given)
    requires given != [] && existing.value == given[|given| - 1].entry.value
    requires existing.conflict <==> exists i :: 0 <= i < |given| - 1 && given[i].entry.value != existing.value
    ensures (existing.value != g.entry.value || existing.conflict) <==>
      exists i :: 0 <= i < |given + [g]| - 1 && (given + [g])[i].entry.value != g.entry.value
  {
    var all := given + [g];
    if existing.value != g.entry.value {
      assert all[|given| - 1].entry.value != g.entry.value;
    } else if existing.conflict {
      var i :| 0 <= i < |given| - 1 && given[i].entry.value != existing.value;
      assert all[i].entry.value != g.entry.value;
    } else {
      forall i | 0 <= i < |all| - 1 ensures all[i].entry.value == g.entry.value {
        assert all[i] == given[i];
      }
    }
  }

  /** One entry for each joined key that is contributed to, taken from its last
      contribution. */
  lemma {:induction false} MergeByKey(given: seq<Given>, k: string)
    ensures k in Merge(given) <==> For(given, k) != []
    ensures k in Merge(given) ==> Wins(Merge(given)[k], For(given, k))
  {
    if given != [] {
      var init, g := given[..|given| - 1], given[|given| - 1];
      MergeByKey(init, k);
      if KeyOf(g.entry) == k {
        hide Wins, KeyOf, Above, Candidate;
        if k in Merge(init) {
          NextWins(Merge(init)[k], For(init, k), g);
        } else {
          FirstWins(g);
          assert For(init, k) + [g] == [g];
        }
      } else {
        hide Wins, KeyOf, Above, Candidate;
        assert For(init, k) + [] == For(init, k);
      }
    }
  }

  // ------------------------------------------------------------- conservation

  /** The keys in the order they first appear. */
  function Order(given: seq<Given>): seq<string> {
    if given == [] then []
    else
      var init, k := given[..|given| - 1], KeyOf(given[|given| - 1].entry);
      if k in Merge(init) then Order(init) else Order(init) + [k]
  }

  /** Winners and overrides together. */
  function Weight(winners: map<string, Effective>, order: seq<string>): nat {
    if order == [] then 0
    else
      var k := order[|order| - 1];
      Weight(winners, order[..|order| - 1]) + if k in winners then 1 + |winners[k].overrides| else 0
  }

  lemma {:induction false} WeightElsewhere(winners: map<string, Effective>, order: seq<string>, k: string, e: Effective)
    requires k !in order
    ensures Weight(winners[k := e], order) == Weight(winners, order)
  {
    if order != [] {
      var init, last := order[..|order| - 1], order[|order| - 1];
      assert order == init + [last];
      assert last in order && forall x :: x in init ==> x in order;
      WeightElsewhere(winners, init, k, e);
    }
  }

  lemma {:induction false} WeightGrows(winners: map<string, Effective>, order: seq<string>, k: string, e: Effective)
    requires Distinct(order) && k in order && k in winners && |e.overrides| == |winners[k].overrides| + 1
    ensures Weight(winners[k := e], order) == Weight(winners, order) + 1
  {
    var init, last := order[..|order| - 1], order[|order| - 1];
    assert order == init + [last];
    if last == k {
      WeightElsewhere(winners, init, k, e);
    } else {
      WeightGrows(winners, init, k, e);
    }
  }

  /** Every contributed entry is a winner or an override, none twice. */
  lemma {:induction false} EntriesAreConserved(given: seq<Given>)
    ensures Distinct(Order(given)) && (forall k :: k in Order(given) <==> k in Merge(given))
    ensures Weight(Merge(given), Order(given)) == |given|
  {
    if given != [] {
      var init, g := given[..|given| - 1], given[|given| - 1];
      EntriesAreConserved(init);
      var k, m, order := KeyOf(g.entry), Merge(init), Order(init);
      if k in m {
        WeightGrows(m, order, k, Above(m[k], g));
      } else {
        hide KeyOf;
        WeightElsewhere(m, order, k, Candidate(g));
        assert (order + [k])[..|order|] == order;
      }
    }
  }

  // -------------------------------------------------------------- the compiler

  /** Strings in the order in which they are sorted. */
  predicate AtMost(a: string, b: string) {
    a == "" || (b != "" && (a[0] < b[0] || (a[0] == b[0] && AtMost(a[1..], b[1..]))))
  }

  lemma {:induction false} AtMostTotal(a: string, b: string)
    ensures AtMost(a, b) || AtMost(b, a)
  {
    if a != "" && b != "" && a[0] == b[0] {
      AtMostTotal(a[1..], b[1..]);
    }
  }

  lemma {:induction false} AtMostChains(a: string, b: string, c: string)
    requires AtMost(a, b) && AtMost(b, c)
    ensures AtMost(a, c)
  {
    if a != "" && a[0] == b[0] == c[0] {
      AtMostChains(a[1..], b[1..], c[1..]);
    }
  }

  function InsertKey(sorted: seq<string>, key: string): (r: seq<string>)
    ensures multiset(r) == multiset(sorted) + multiset{key}
  {
    if sorted == [] || AtMost(sorted[|sorted| - 1], key) then sorted + [key]
    else
      assert sorted == sorted[..|sorted| - 1] + [sorted[|sorted| - 1]];
      InsertKey(sorted[..|sorted| - 1], key) + [sorted[|sorted| - 1]]
  }

  function SortKeys(keys: seq<string>): (r: seq<string>)
    ensures multiset(r) == multiset(keys)
  {
    if keys == [] then []
    else
      assert keys == keys[..|keys| - 1] + [keys[|keys| - 1]];
      InsertKey(SortKeys(keys[..|keys| - 1]), keys[|keys| - 1])
  }

  predicate Sorted(keys: seq<string>) {
    forall i, j :: 0 <= i < j < |keys| ==> AtMost(keys[i], keys[j])
  }

  lemma {:induction false} InsertKeySorts(sorted: seq<string>, key: string)
    requires Sorted(sorted)
    ensures Sorted(InsertKey(sorted, key))
  {
    if sorted != [] {
      var init, last := sorted[..|sorted| - 1], sorted[|sorted| - 1];
      forall i | 0 <= i < |sorted| ensures AtMost(last, key) ==> AtMost(sorted[i], key) {
        if AtMost(last, key) && i < |sorted| - 1 {
          AtMostChains(sorted[i], last, key);
        }
      }
      if !AtMost(last, key) {
        InsertKeySorts(init, key);
        AtMostTotal(last, key);
        var r := InsertKey(init, key);
        forall i | 0 <= i < |r| ensures AtMost(r[i], last) {
          assert r[i] in multiset(r);
          assert r[i] in init || r[i] == key;
        }
      }
    }
  }

  lemma {:induction false} SortKeysSorts(keys: seq<string>)
    ensures Sorted(SortKeys(keys))
  {
    if keys != [] {
      SortKeysSorts(keys[..|keys| - 1]);
      InsertKeySorts(SortKeys(keys[..|keys| - 1]), keys[|keys| - 1]);
    }
  }

  lemma SortedKeys(keys: seq<string>)
    ensures |SortKeys(keys)| == |keys| && (forall k :: k in SortKeys(keys) <==> k in keys)
    ensures Distinct(keys) ==> Distinct(SortKeys(keys))
  {
    var sorted := SortKeys(keys);
    assert |multiset(sorted)| == |sorted| && |multiset(keys)| == |keys|;
    forall k ensures k in sorted <==> k in keys {
      assert k in sorted <==> k in multiset(sorted);
      assert k in keys <==> k in multiset(keys);
    }
    if Distinct(keys) {
      DistinctCounts(keys);
      CountsDistinct(sorted);
    }
  }

  lemma {:induction false} DistinctCounts(keys: seq<string>)
    requires Distinct(keys)
    ensures forall k :: multiset(keys)[k] <= 1
  {
    if keys != [] {
      var init := keys[..|keys| - 1];
      assert keys == init + [keys[|keys| - 1]];
      DistinctCounts(init);
      assert keys[|keys| - 1] !in multiset(init);
    }
  }

  lemma {:induction false} CountsDistinct(keys: seq<string>)
    requires forall k :: multiset(keys)[k] <= 1
    ensures Distinct(keys)
  {
    if keys != [] {
      var init, last := keys[..|keys| - 1], keys[|keys| - 1];
      assert keys == init + [last];
      assert multiset(keys) == multiset(init) + multiset{last};
      forall k ensures multiset(init)[k] + (if k == last then 1 else 0) <= 1 {
        assert multiset(keys)[k] <= 1;
      }
      CountsDistinct(init);
      assert last !in multiset(init);
      assert forall i :: 0 <= i < |init| ==> init[i] in multiset(init);
    }
  }

  datatype Winners = Winners(winners: map<string, Effective>, order: seq<string>)

  function WinnersOf(given: seq<Given>): Winners {
    Winners(Merge(given), Order(given))
  }

  function Listed(winners: map<string, Effective>, keys: seq<string>): (r: seq<Effective>)
    requires forall k :: k in keys ==> k in winners
    ensures |r| == |keys| && forall i :: 0 <= i < |keys| ==> r[i] == winners[keys[i]]
  {
    seq(|keys|, i requires 0 <= i < |keys| => winners[keys[i]])
  }

  /** The entries, in the order of their joined keys. */
  function EntriesOf(given: seq<Given>): seq<Effective> {
    EntriesAreConserved(given);
    SortedKeys(Order(given));
    Listed(Merge(given), SortKeys(Order(given)))
  }

  function CompiledFrom(layers: seq<Layer>): seq<Effective> {
    EntriesOf(Contributions(StableSort(layers)))
  }

  /** With distinct precedences the profile does not depend on the order of layers. */
  lemma LayerOrderDoesNotMatter(a: seq<Layer>, b: seq<Layer>)
    requires multiset(a) == multiset(b) && DistinctPrecedences(a)
    ensures CompiledFrom(a) == CompiledFrom(b)
  {
    SortIgnoresOrder(a, b);
  }

  /** Two layers of equal precedence: the later one in the list wins. */
  lemma EqualPrecedenceDependsOnOrder(a: Layer, b: Layer, x: Entry, y: Entry)
    requires a.precedence == b.precedence && a.entries == [x] && b.entries == [y] && KeyOf(x) == KeyOf(y)
    ensures |CompiledFrom([a, b])| == 1 && CompiledFrom([a, b])[0].value == y.value
    ensures |CompiledFrom([b, a])| == 1 && CompiledFrom([b, a])[0].value == x.value
  {
    TwoLayers(a, b, x, y);
    TwoLayers(b, a, y, x);
  }

  lemma TwoLayers(a: Layer, b: Layer, x: Entry, y: Entry)
    requires a.precedence == b.precedence && a.entries == [x] && b.entries == [y] && KeyOf(x) == KeyOf(y)
    ensures CompiledFrom([a, b]) == [Above(Candidate(Given(a.owner, x)), Given(b.owner, y))]
  {
    hide Above, Candidate, KeyOf;
    SortedPair(a, b);
    GivenPair(a, b, x, y);
    var g, h := Given(a.owner, x), Given(b.owner, y);
    MergedPair(g, h);
    SortedKeys([KeyOf(x)]);
    hide Merge, Order, SortKeys;
    assert EntriesOf([g, h]) == [Merge([g, h])[KeyOf(x)]];
  }

  lemma SortedPair(a: Layer, b: Layer)
    requires a.precedence == b.precedence
    ensures StableSort([a, b]) == [a, b]
  {
    assert [a, b][..1] == [a] && [a][..0] == [];
    assert StableSort([a]) == [a];
  }

  lemma GivenPair(a: Layer, b: Layer, x: Entry, y: Entry)
    requires a.entries == [x] && b.entries == [y]
    ensures Contributions([a, b]) == [Given(a.owner, x), Given(b.owner, y)]
  {
    assert [a, b][..1] == [a] && [a][..0] == [];
    assert [x][..0] == [] && [y][..0] == [];
    assert Named(a.owner, [x]) == [Given(a.owner, x)] && Named(b.owner, [y]) == [Given(b.owner, y)];
    assert Contributions([a]) == [Given(a.owner, x)];
  }

  lemma MergedPair(g: Given, h: Given)
    requires KeyOf(g.entry) == KeyOf(h.entry)
    ensures Merge([g, h]) == map[KeyOf(g.entry) := Above(Candidate(g), h)] && Order([g, h]) == [KeyOf(g.entry)]
  {
    hide Above, Candidate, KeyOf;
    assert [g, h][..1] == [g] && [g][..0] == [];
    assert Merge([g]) == map[KeyOf(g.entry) := Candidate(g)];
    assert Order([g]) == [KeyOf(g.entry)];
  }

  method Compile(layers: seq<Layer>) returns (entries: seq<Effective>)
    ensures entries == CompiledFrom(layers)
  {
    hide Merge, Order, SortKeys;
    var sorted := StableSort(layers);
    var w := Winners(map[], []);
    assert w == WinnersOf([]) by { NothingMerged(); }
    var l := 0;
    assert sorted[..0] == [];
    while l < |sorted|
      invariant l <= |sorted| && w == WinnersOf(Contributions(sorted[..l]))
    {
      assert sorted[..l + 1][..l] == sorted[..l];
      w := AddLayer(sorted[l], w, Contributions(sorted[..l]));
      l := l + 1;
    }
    assert sorted[..l] == sorted;
    entries := List(w, Contributions(sorted));
  }

  /** The winners in the order of their keys. */
  method List(w: Winners, ghost given: seq<Given>) returns (entries: seq<Effective>)
    requires w == WinnersOf(given)
    ensures entries == EntriesOf(given)
  {
    EntriesAreConserved(given);
    SortedKeys(w.order);
    hide Merge, Order, SortKeys;
    var keys := SortKeys(w.order);
    entries := [];
    var i := 0;
    while i < |keys|
      invariant i <= |keys| == |EntriesOf(given)| && entries == EntriesOf(given)[..i]
    {
      entries := entries + [w.winners[keys[i]]];
      i := i + 1;
    }
  }

  lemma NothingMerged()
    ensures Merge([]) == map[] && Order([]) == []
  {
  }

  lemma OneMore(given: seq<Given>, g: Given)
    ensures Merge(given + [g]) == MergeOne(Merge(given), g)
    ensures Order(given + [g]) == if KeyOf(g.entry) in Merge(given) then Order(given) else Order(given) + [KeyOf(g.entry)]
  {
    hide MergeOne, KeyOf;
    assert (given + [g])[..|given|] == given;
  }

  /** The entries of one layer, over everything below it. */
  method AddLayer(layer: Layer, before: Winners, ghost given: seq<Given>) returns (r: Winners)
    requires before == WinnersOf(given)
    ensures r == WinnersOf(given + Named(layer.owner, layer.entries))
  {
    hide Merge, Order, KeyOf;
    var winners, order := before.winners, before.order;
    var i := 0;
    ghost var now := given;
    assert layer.entries[..0] == [];
    while i < |layer.entries|
      invariant i <= |layer.entries| && now == given + Named(layer.owner, layer.entries[..i])
      invariant winners == Merge(now) && order == Order(now)
    {
      var e := layer.entries[i];
      var k, g := KeyOf(e), Given(layer.owner, e);
      OneMore(now, g);
      assert layer.entries[..i + 1][..i] == layer.entries[..i];
      if k in winners {
        winners := winners[k := Above(winners[k], g)];
      } else {
        winners := winners[k := Candidate(g)];
        order := order + [k];
      }
      now := now + [g];
      i := i + 1;
    }
    assert layer.entries[..i] == layer.entries;
    r := Winners(winners, order);
  }

  // ------------------------------------------------------------- joined keys

  /** One kind goes on behind another and the separator. */
  predicate Continues(separator: char, kind: string, other: string) {
    kind + [separator] <= other
  }

  ghost predicate Unambiguous(separator: char, kinds: set<string>) {
    forall kind, key, other, otherKey | kind in kinds && other in kinds ::
      Joined(separator, kind, key) == Joined(separator, other, otherKey) ==> kind == other && key == otherKey
  }

  /** Joined keys of a set of kinds never collide, whatever the keys hold, exactly when
      no kind continues another. */
  lemma JoinedIsUniqueIff(separator: char, kinds: set<string>)
    ensures Unambiguous(separator, kinds) <==>
      forall kind, other :: kind in kinds && other in kinds ==> !Continues(separator, kind, other)
  {
    if kind, other :| kind in kinds && other in kinds && Continues(separator, kind, other) {
      var more := other[|kind| + 1..];
      assert other == kind + [separator] + more;
      assert Joined(separator, other, "") == Joined(separator, kind, more + [separator]);
      assert |other| > |kind|;
    } else {
      forall kind, key, other, otherKey |
        kind in kinds && other in kinds && Joined(separator, kind, key) == Joined(separator, other, otherKey)
        ensures kind == other && key == otherKey
      {
        OneContinues(separator, kind, key, other, otherKey);
        OneContinues(separator, other, otherKey, kind, key);
      }
    }
  }

  lemma OneContinues(separator: char, kind: string, key: string, other: string, otherKey: string)
    requires Joined(separator, kind, key) == Joined(separator, other, otherKey)
    ensures |kind| < |other| ==> Continues(separator, kind, other)
    ensures |kind| == |other| ==> kind == other && key == otherKey
  {
    var j := Joined(separator, kind, key);
    assert kind == j[..|kind|] && key == j[|kind| + 1..];
    assert other == j[..|other|] && otherKey == j[|other| + 1..];
    if |kind| < |other| {
      assert kind + [separator] == j[..|kind| + 1];
    }
  }

  /** Kinds free of the separator never collide. */
  lemma FreeKindsNeverCollide(separator: char, kinds: set<string>)
    requires forall kind :: kind in kinds ==> separator !in kind
    ensures Unambiguous(separator, kinds)
  {
    forall kind, other | Continues(separator, kind, other) ensures separator in other {
      assert (kind + [separator])[|kind|] == other[|kind|];
    }
    JoinedIsUniqueIff(separator, kinds);
  }

  /** The kinds the program defines. */
  const KINDS: set<string> := {
    "language", "framework", "validation_command", "build_command", "convention", "constraint",
    "instruction", "workspace", "architecture", "tool", "skill"}

  predicate LowerCase(s: string) {
    forall i :: 0 <= i < |s| ==> 'a' <= s[i] <= 'z' || s[i] == '_'
  }

  lemma KindsAreFree()
    ensures Unambiguous(UNIT_SEPARATOR, KINDS) && Unambiguous('/', KINDS)
  {
    forall kind | kind in KINDS ensures UNIT_SEPARATOR !in kind && '/' !in kind {
      assert LowerCase(kind);
    }
    FreeKindsNeverCollide(UNIT_SEPARATOR, KINDS);
    FreeKindsNeverCollide('/', KINDS);
  }

  // ----------------------------------------------------------- one entry a pair

  /** The contributions to one type and key, in order. */
  function ForPair(given: seq<Given>, kind: string, key: string): seq<Given> {
    if given == [] then []
    else
      var e := given[|given| - 1].entry;
      ForPair(given[..|given| - 1], kind, key)
      + if e.kind == kind && e.key == key then [given[|given| - 1]] else []
  }

  predicate OfKinds(given: seq<Given>, kinds: set<string>) {
    forall i :: 0 <= i < |given| ==> given[i].entry.kind in kinds
  }

  lemma {:induction false} ForPairIsFor(given: seq<Given>, kinds: set<string>, kind: string, key: string)
    requires Unambiguous(UNIT_SEPARATOR, kinds) && OfKinds(given, kinds) && kind in kinds
    ensures ForPair(given, kind, key) == For(given, Joined(UNIT_SEPARATOR, kind, key))
  {
    if given != [] {
      ForPairIsFor(given[..|given| - 1], kinds, kind, key);
      var e := given[|given| - 1].entry;
      assert KeyOf(e) == Joined(UNIT_SEPARATOR, kind, key) <==> e.kind == kind && e.key == key;
    }
  }

  predicate IsAt(entries: seq<Effective>, i: int, kind: string, key: string) {
    0 <= i < |entries| && entries[i].kind == kind && entries[i].key == key
  }

  /** A winner is at its own joined key, and is some contribution's. */
  lemma EntryAt(given: seq<Given>, k: string)
    requires k in Merge(given)
    ensures
      var e := Merge(given)[k];
      k == Joined(UNIT_SEPARATOR, e.kind, e.key) && exists i :: 0 <= i < |given| && given[i].entry.kind == e.kind
  {
    MergeByKey(given, k);
    ForMembers(given, k);
    var last := For(given, k)[|For(given, k)| - 1];
    assert last in For(given, k);
  }

  lemma {:induction false} ForMembers(given: seq<Given>, k: string)
    ensures forall g :: g in For(given, k) ==> g in given && KeyOf(g.entry) == k
  {
    if given != [] {
      ForMembers(given[..|given| - 1], k);
    }
  }

  /** The list is the winners at the distinct keys, sorted. */
  lemma ListShape(given: seq<Given>)
    ensures
      var keys, entries := SortKeys(Order(given)), EntriesOf(given);
      && Distinct(keys) && |entries| == |keys| && (forall k :: k in keys <==> k in Merge(given))
      && forall i :: 0 <= i < |keys| ==> entries[i] == Merge(given)[keys[i]]
  {
    EntriesAreConserved(given);
    SortedKeys(Order(given));
    hide Merge, Order, SortKeys;
  }

  lemma PairAt(given: seq<Given>, kinds: set<string>, kind: string, key: string, i: nat)
    requires Unambiguous(UNIT_SEPARATOR, kinds) && OfKinds(given, kinds) && kind in kinds
    requires i < |EntriesOf(given)| == |SortKeys(Order(given))|
    ensures IsAt(EntriesOf(given), i, kind, key) <==> SortKeys(Order(given))[i] == Joined(UNIT_SEPARATOR, kind, key)
  {
    ListShape(given);
    hide Merge, Order, SortKeys, EntriesOf;
    EntryAt(given, SortKeys(Order(given))[i]);
  }

  /** At most one entry for the type and key. */
  ghost predicate OneEach(entries: seq<Effective>) {
    forall i, j :: 0 <= i < j < |entries| ==> entries[i].kind != entries[j].kind || entries[i].key != entries[j].key
  }

  /** No type and key has two entries, whatever the kinds. */
  lemma OneEntryEach(given: seq<Given>)
    ensures OneEach(EntriesOf(given))
  {
    ListShape(given);
    hide Merge, Order, SortKeys, EntriesOf, Joined;
    var keys, entries := SortKeys(Order(given)), EntriesOf(given);
    forall i | 0 <= i < |keys| ensures keys[i] == Joined(UNIT_SEPARATOR, entries[i].kind, entries[i].key) {
      EntryAt(given, keys[i]);
    }
  }

  lemma Listing(entries: seq<Effective>, keys: seq<string>, winners: map<string, Effective>, kind: string, key: string, k: string)
    requires |entries| == |keys| && Distinct(keys) && (forall x :: x in keys <==> x in winners)
    requires forall i :: 0 <= i < |keys| ==> entries[i] == winners[keys[i]]
    requires forall i :: 0 <= i < |keys| ==> (IsAt(entries, i, kind, key) <==> keys[i] == k)
    ensures k in winners <==> exists i :: IsAt(entries, i, kind, key)
    ensures forall i, j :: IsAt(entries, i, kind, key) && IsAt(entries, j, kind, key) ==> i == j
    ensures forall i :: IsAt(entries, i, kind, key) ==> entries[i] == winners[k]
  {
    if k in keys {
      var i :| 0 <= i < |keys| && keys[i] == k;
      assert IsAt(entries, i, kind, key);
    }
  }

  /** The list has exactly one entry for each type and key that some layer contributes
      to: the last contribution, over all the others. */
  lemma MergeMeans(given: seq<Given>, kinds: set<string>, kind: string, key: string)
    requires Unambiguous(UNIT_SEPARATOR, kinds) && OfKinds(given, kinds) && kind in kinds
    ensures ForPair(given, kind, key) != [] <==> exists i :: IsAt(EntriesOf(given), i, kind, key)
    ensures forall i, j :: IsAt(EntriesOf(given), i, kind, key) && IsAt(EntriesOf(given), j, kind, key) ==> i == j
    ensures forall i :: IsAt(EntriesOf(given), i, kind, key) ==> Wins(EntriesOf(given)[i], ForPair(given, kind, key))
  {
    var k := Joined(UNIT_SEPARATOR, kind, key);
    ListShape(given);
    ForPairIsFor(given, kinds, kind, key);
    hide *;
    forall i | 0 <= i < |EntriesOf(given)| ensures IsAt(EntriesOf(given), i, kind, key) <==> SortKeys(Order(given))[i] == k {
      PairAt(given, kinds, kind, key, i);
    }
    Listing(EntriesOf(given), SortKeys(Order(given)), Merge(given), kind, key, k);
    MergeByKey(given, k);
  }

  /** The list is in the order of its joined keys. */
  lemma ListIsSorted(given: seq<Given>)
    ensures forall i, j :: 0 <= i < j < |EntriesOf(given)| ==>
      AtMost(Joined(UNIT_SEPARATOR, EntriesOf(given)[i].kind, EntriesOf(given)[i].key),
             Joined(UNIT_SEPARATOR, EntriesOf(given)[j].kind, EntriesOf(given)[j].key))
  {
    var keys := SortKeys(Order(given));
    ListShape(given);
    SortKeysSorts(Order(given));
    forall i | 0 <= i < |keys|
      ensures keys[i] == Joined(UNIT_SEPARATOR, EntriesOf(given)[i].kind, EntriesOf(given)[i].key)
    {
      EntryAt(given, keys[i]);
    }
    hide EntriesOf, Joined, SortKeys, Order, AtMost;
  }

  // ------------------------------------------------------- the highest layer wins

  predicate IsFor(e: Entry, kind: string, key: string) {
    e.kind == kind && e.key == key
  }

  predicate SomeFor(entries: seq<Entry>, kind: string, key: string) {
    exists j :: 0 <= j < |entries| && IsFor(entries[j], kind, key)
  }

  /** Entry j is the last for the type and key. */
  predicate LastFor(entries: seq<Entry>, j: nat, kind: string, key: string) {
    j < |entries| && IsFor(entries[j], kind, key) && forall i :: j < i < |entries| ==> !IsFor(entries[i], kind, key)
  }

  predicate Contributes(l: Layer, kind: string, key: string) {
    SomeFor(l.entries, kind, key)
  }

  lemma {:induction false} ForPairJoins(a: seq<Given>, b: seq<Given>, kind: string, key: string)
    ensures ForPair(a + b, kind, key) == ForPair(a, kind, key) + ForPair(b, kind, key)
  {
    if b == [] {
      assert a + b == a;
    } else {
      var init, last := b[..|b| - 1], b[|b| - 1];
      ForPairJoins(a, init, kind, key);
      assert (a + b)[..|a + b| - 1] == a + init;
    }
  }

  lemma OneMoreFor(init: seq<Entry>, e: Entry, kind: string, key: string)
    ensures SomeFor(init + [e], kind, key) <==> SomeFor(init, kind, key) || IsFor(e, kind, key)
    ensures forall j: nat :: LastFor(init + [e], j, kind, key) <==>
      if IsFor(e, kind, key) then j == |init| else LastFor(init, j, kind, key)
  {
    hide IsFor;
    var all := init + [e];
    assert all[|init|] == e && forall k :: 0 <= k < |init| ==> all[k] == init[k];
  }

  lemma NamedNext(owner: string, init: seq<Entry>, e: Entry, kind: string, key: string)
    ensures ForPair(Named(owner, init + [e]), kind, key) ==
      ForPair(Named(owner, init), kind, key) + if IsFor(e, kind, key) then [Given(owner, e)] else []
  {
    assert (init + [e])[..|init|] == init;
    var given := Named(owner, init);
    assert (given + [Given(owner, e)])[..|given|] == given;
  }

  /** What one layer contributes to a type and key ends in its last entry for them. */
  lemma {:induction false} LayerLast(owner: string, entries: seq<Entry>, kind: string, key: string)
    ensures ForPair(Named(owner, entries), kind, key) == [] <==> !SomeFor(entries, kind, key)
    ensures forall j: nat :: LastFor(entries, j, kind, key) ==>
      var given := ForPair(Named(owner, entries), kind, key);
      given != [] && given[|given| - 1] == Given(owner, entries[j])
    ensures SomeFor(entries, kind, key) ==> exists j: nat :: LastFor(entries, j, kind, key)
  {
    if entries == [] {
      assert Named(owner, entries) == [];
    } else {
      var init, e := entries[..|entries| - 1], entries[|entries| - 1];
      assert entries == init + [e];
      LayerLast(owner, init, kind, key);
      OneMoreFor(init, e, kind, key);
      NamedNext(owner, init, e, kind, key);
      hide ForPair, Named, SomeFor, IsFor;
      if IsFor(e, kind, key) {
        assert LastFor(entries, |init|, kind, key);
      } else {
        assert forall j: nat :: LastFor(entries, j, kind, key) ==> entries[j] == init[j];
      }
    }
  }

  /** The last contribution to a type and key: the last entry for them of layer i, above
      which no layer has one. */
  lemma {:induction false} LastContribution(layers: seq<Layer>, kind: string, key: string) returns (i: nat, j: nat)
    ensures ForPair(Contributions(layers), kind, key) == [] <==>
      forall k :: 0 <= k < |layers| ==> !Contributes(layers[k], kind, key)
    ensures ForPair(Contributions(layers), kind, key) != [] ==>
      && i < |layers| && LastFor(layers[i].entries, j, kind, key)
      && (forall k :: i < k < |layers| ==> !Contributes(layers[k], kind, key))
      && var given := ForPair(Contributions(layers), kind, key);
         given[|given| - 1] == Given(layers[i].owner, layers[i].entries[j])
  {
    hide SomeFor, LastFor, Named, ForPair;
    i, j := 0, 0;
    if layers == [] {
      assert ForPair([], kind, key) == [] by { NothingFor(kind, key); }
    } else {
      var init, last := layers[..|layers| - 1], layers[|layers| - 1];
      i, j := LastContribution(init, kind, key);
      ForPairJoins(Contributions(init), Named(last.owner, last.entries), kind, key);
      LayerLast(last.owner, last.entries, kind, key);
      assert layers == init + [last];
      if Contributes(last, kind, key) {
        i := |init|;
        var x: nat :| LastFor(last.entries, x, kind, key);
        j := x;
      }
    }
  }

  lemma NothingFor(kind: string, key: string)
    ensures ForPair([], kind, key) == []
  {
  }

  predicate LayersOfKinds(layers: seq<Layer>, kinds: set<string>) {
    forall l, i :: l in layers && 0 <= i < |l.entries| ==> l.entries[i].kind in kinds
  }

  lemma {:induction false} GivenOfKinds(layers: seq<Layer>, kinds: set<string>)
    requires LayersOfKinds(layers, kinds)
    ensures OfKinds(Contributions(layers), kinds)
  {
    if layers != [] {
      var last := layers[|layers| - 1];
      GivenOfKinds(layers[..|layers| - 1], kinds);
      assert last in layers;
      NamedOfKinds(last.owner, last.entries, kinds);
    }
  }

  lemma {:induction false} NamedOfKinds(owner: string, entries: seq<Entry>, kinds: set<string>)
    requires forall i :: 0 <= i < |entries| ==> entries[i].kind in kinds
    ensures OfKinds(Named(owner, entries), kinds)
  {
    if entries != [] {
      NamedOfKinds(owner, entries[..|entries| - 1], kinds);
    }
  }

  /** The compiled entry is that of a layer with the highest precedence of all layers
      that have an entry for its type and key. */
  ghost predicate FromHighest(layers: seq<Layer>, e: Effective) {
    exists l: Layer, j: nat :: l in layers && LastFor(l.entries, j, e.kind, e.key)
      && e.value == l.entries[j].value && e.owner == l.owner && e.sourceRef == l.entries[j].sourceRef
      && forall k :: k in layers && Contributes(k, e.kind, e.key) ==> k.precedence <= l.precedence
  }

  /** Of the profile's own layers, in whatever order they come: a type and key has an
      entry exactly if some layer contributes one, and it is the highest layer's. */
  lemma HighestPrecedenceWins(layers: seq<Layer>, kinds: set<string>, kind: string, key: string)
    requires Unambiguous(UNIT_SEPARATOR, kinds) && LayersOfKinds(layers, kinds) && kind in kinds
    ensures (exists i :: IsAt(CompiledFrom(layers), i, kind, key)) <==> exists l :: l in layers && Contributes(l, kind, key)
    ensures forall i :: IsAt(CompiledFrom(layers), i, kind, key) ==> FromHighest(layers, CompiledFrom(layers)[i])
  {
    var sorted := StableSort(layers);
    SortSorts(layers);
    SameMembers(layers, sorted);
    hide StableSort, Contributes, LastFor, Unambiguous, Contributions, EntriesOf, ForPair, Wins;
    SortedOfKinds(layers, sorted, kinds);
    GivenOfKinds(sorted, kinds);
    MergeMeans(Contributions(sorted), kinds, kind, key);
    var x, y := LastContribution(sorted, kind, key);
    forall i | IsAt(CompiledFrom(layers), i, kind, key) ensures FromHighest(layers, CompiledFrom(layers)[i]) {
      WinnerIs(CompiledFrom(layers)[i], ForPair(Contributions(sorted), kind, key));
      HighestLayer(layers, sorted, x, y, CompiledFrom(layers)[i]);
    }
  }

  lemma SortedOfKinds(layers: seq<Layer>, sorted: seq<Layer>, kinds: set<string>)
    requires LayersOfKinds(layers, kinds) && forall l :: l in layers <==> l in sorted
    ensures LayersOfKinds(sorted, kinds)
  {
  }

  lemma WinnerIs(e: Effective, given: seq<Given>)
    requires given != [] && Wins(e, given)
    ensures
      var last := given[|given| - 1];
      e.value == last.entry.value && e.owner == last.owner && e.sourceRef == last.entry.sourceRef
  {
  }

  lemma HighestLayer(layers: seq<Layer>, sorted: seq<Layer>, x: nat, y: nat, e: Effective)
    requires Ascending(sorted) && (forall l :: l in layers <==> l in sorted)
    requires x < |sorted| && LastFor(sorted[x].entries, y, e.kind, e.key)
    requires forall k :: x < k < |sorted| ==> !Contributes(sorted[k], e.kind, e.key)
    requires y < |sorted[x].entries| && e.value == sorted[x].entries[y].value && e.owner == sorted[x].owner
    requires e.sourceRef == sorted[x].entries[y].sourceRef
    ensures FromHighest(layers, e)
  {
    hide Contributes, LastFor;
    var l := sorted[x];
    forall k | k in layers && Contributes(k, e.kind, e.key) ensures k.precedence <= l.precedence {
      var i :| 0 <= i < |sorted| && sorted[i] == k;
    }
    assert l in layers;
  }

  // ------------------------------------------------------------------ the diff

  datatype Diff = Diff(added: set<string>, removed: set<string>, changed: set<string>)

  function Index(entries: seq<Effective>): map<string, string> {
    if entries == [] then map[]
    else
      var last := entries[|entries| - 1];
      Index(entries[..|entries| - 1])[Joined('/', last.kind, last.key) := last.value]
  }

  function DiffOf(a: map<string, string>, b: map<string, string>): Diff {
    Diff(set k | k in b && k !in a, set k | k in a && k !in b, set k | k in a && k in b && a[k] != b[k])
  }

  method DiffEffective(a: seq<Effective>, b: seq<Effective>) returns (d: Diff)
    ensures d == DiffOf(Index(a), Index(b))
  {
    var am := BuildIndex(a);
    var bm := BuildIndex(b);
    var added, removed, changed := {}, {}, {};
    var left := bm.Keys;
    while left != {}
      invariant left <= bm.Keys
      invariant added == set k | k in bm.Keys - left && k !in am
      invariant changed == set k | k in bm.Keys - left && k in am && am[k] != bm[k]
      decreases left
    {
      var k :| k in left;
      left := left - {k};
      if k !in am {
        added := added + {k};
      } else if am[k] != bm[k] {
        changed := changed + {k};
      }
    }
    left := am.Keys;
    while left != {}
      invariant left <= am.Keys
      invariant removed == set k | k in am.Keys - left && k !in bm
      decreases left
    {
      var k :| k in left;
      left := left - {k};
      if k !in bm {
        removed := removed + {k};
      }
    }
    d := Diff(added, removed, changed);
  }

  method BuildIndex(entries: seq<Effective>) returns (m: map<string, string>)
    ensures m == Index(entries)
  {
    m := map[];
    var k := 0;
    assert entries[..0] == [];
    while k < |entries|
      invariant k <= |entries| && m == Index(entries[..k])
    {
      assert entries[..k + 1][..k] == entries[..k];
      m := m[Joined('/', entries[k].kind, entries[k].key) := entries[k].value];
      k := k + 1;
    }
    assert entries[..k] == entries;
  }

  /** Applying a diff's classification turns one index into the other. */
  lemma DiffMeans(a: map<string, string>, b: map<string, string>)
    ensures
      var d := DiffOf(a, b);
      && b.Keys == a.Keys - d.removed + d.added && d.changed <= a.Keys * b.Keys
      && (forall k :: k in a && k in b && k !in d.changed ==> a[k] == b[k])
      && (d == Diff({}, {}, {}) <==> a == b)
      && DiffOf(b, a) == Diff(d.removed, d.added, d.changed)
  {
    var d := DiffOf(a, b);
    if d == Diff({}, {}, {}) {
      forall k ensures (k in a <==> k in b) && (k in a ==> a[k] == b[k]) {
        assert k !in d.added && k !in d.removed && k !in d.changed;
      }
    }
  }

  predicate EntriesOfKinds(entries: seq<Effective>, kinds: set<string>) {
    forall i :: 0 <= i < |entries| ==> entries[i].kind in kinds
  }

  lemma {:induction false} IndexMeans(entries: seq<Effective>, kinds: set<string>, kind: string, key: string)
    requires Unambiguous('/', kinds) && EntriesOfKinds(entries, kinds) && kind in kinds && OneEach(entries)
    ensures
      var k := Joined('/', kind, key);
      && (k in Index(entries) <==> exists i :: IsAt(entries, i, kind, key))
      && forall i :: IsAt(entries, i, kind, key) ==> Index(entries)[k] == entries[i].value
  {
    if entries != [] {
      var init, last := entries[..|entries| - 1], entries[|entries| - 1];
      IndexMeans(init, kinds, kind, key);
      var k := Joined('/', kind, key);
      assert Joined('/', last.kind, last.key) == k <==> last.kind == kind && last.key == key;
      hide Joined, Unambiguous;
      forall i ensures IsAt(entries, i, kind, key) <==>
        IsAt(init, i, kind, key) || (i == |init| && last.kind == kind && last.key == key)
      {
      }
      if last.kind == kind && last.key == key {
        assert IsAt(entries, |init|, kind, key);
      }
    }
  }

  /** The diff of two lists with one entry a pair: an entry is added or removed when
      only one list has its type and key, and changed when both have them with
      different values. */
  lemma DiffByPair(a: seq<Effective>, b: seq<Effective>, kinds: set<string>, kind: string, key: string)
    requires Unambiguous('/', kinds) && EntriesOfKinds(a, kinds) && EntriesOfKinds(b, kinds) && kind in kinds
    requires OneEach(a) && OneEach(b)
    ensures
      var d, k := DiffOf(Index(a), Index(b)), Joined('/', kind, key);
      && (k in d.added <==> (exists j :: IsAt(b, j, kind, key)) && !exists i :: IsAt(a, i, kind, key))
      && (k in d.removed <==> (exists i :: IsAt(a, i, kind, key)) && !exists j :: IsAt(b, j, kind, key))
      && (k in d.changed <==> exists i, j :: IsAt(a, i, kind, key) && IsAt(b, j, kind, key) && a[i].value != b[j].value)
  {
    IndexMeans(a, kinds, kind, key);
    IndexMeans(b, kinds, kind, key);
    hide Index, Joined, Unambiguous, IsAt;
  }
}
