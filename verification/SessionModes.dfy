/** Session modes: which linked session decides for a session. */
module SessionModes {

  datatype Mode = AutoApproved(session: string) | DeniedBy(session: string) | NoMode

  /** The three session tables of the permission service. */
  datatype Modes = Modes(auto: seq<string>, deny: seq<string>, parents: map<string, string>)

  predicate HasMode(m: Modes, id: string) {
    id != "" && (id in m.auto || id in m.deny)
  }

  function ModeOf(m: Modes, id: string): Mode {
    if id in m.auto then AutoApproved(id) else DeniedBy(id)
  }

  function Parent(parents: map<string, string>, id: string): string {
    if id in parents then parents[id] else ""
  }

  /** The session's k-th ancestor; the empty id once the links run out. */
  function Ancestor(parents: map<string, string>, id: string, k: nat): string {
    if k == 0 then id
    else
      var below := Ancestor(parents, id, k - 1);
      if below == "" then "" else Parent(parents, below)
  }

  /** The walk over parent links, from `id` on, past the sessions already seen. */
  function Walk(m: Modes, id: string, seen: set<string>): Mode
    decreases |m.parents.Keys - seen|
  {
    if id == "" || id in seen then NoMode
    else if id in m.auto then AutoApproved(id)
    else if id in m.deny then DeniedBy(id)
    else if id !in m.parents then NoMode
    else
      Smaller(m.parents.Keys, seen, id);
      Walk(m, m.parents[id], seen + {id})
  }

  lemma Smaller(keys: set<string>, seen: set<string>, id: string)
    requires id in keys && id !in seen
    ensures |keys - (seen + {id})| < |keys - seen|
  {
    assert keys - (seen + {id}) == (keys - seen) - {id};
  }

  function SessionMode(m: Modes, id: string): Mode {
    Walk(m, id, {})
  }

  /** The k-th ancestor is the first of the chain that has a mode. */
  ghost predicate Nearest(m: Modes, id: string, k: nat) {
    && HasMode(m, Ancestor(m.parents, id, k))
    && forall j :: 0 <= j < k ==> !HasMode(m, Ancestor(m.parents, id, j))
  }

  lemma {:induction false} EmptyStays(parents: map<string, string>, id: string, k: nat, j: nat)
    requires k <= j && Ancestor(parents, id, k) == ""
    ensures Ancestor(parents, id, j) == ""
    decreases j
  {
    if k < j {
      EmptyStays(parents, id, k, j - 1);
    }
  }

  /** One of the first k sessions of the chain. */
  ghost predicate Among(parents: map<string, string>, id: string, k: nat, x: string) {
    exists j: nat :: j < k && Ancestor(parents, id, j) == x
  }

  ghost predicate ListsFirst(parents: map<string, string>, id: string, k: nat, seen: set<string>) {
    forall x :: x in seen <==> Among(parents, id, k, x)
  }

  /** Links that come back to a session already seen never leave the seen ones. */
  lemma {:induction false} CycleStays(parents: map<string, string>, id: string, k: nat, j: nat)
    requires Among(parents, id, k, Ancestor(parents, id, k)) && !Among(parents, id, k, "")
    ensures Among(parents, id, k, Ancestor(parents, id, j))
    decreases j
  {
    if j >= k && j > 0 {
      CycleStays(parents, id, k, j - 1);
      var i: nat :| i < k && Ancestor(parents, id, i) == Ancestor(parents, id, j - 1);
      assert Ancestor(parents, id, i + 1) == Ancestor(parents, id, j);
      hide Ancestor;
      if i + 1 < k {
        assert Among(parents, id, k, Ancestor(parents, id, i + 1));
      }
    }
  }

  lemma SeenGrows(parents: map<string, string>, id: string, k: nat, seen: set<string>)
    requires ListsFirst(parents, id, k, seen)
    ensures ListsFirst(parents, id, k + 1, seen + {Ancestor(parents, id, k)})
  {
    hide Ancestor;
    forall x ensures x in seen + {Ancestor(parents, id, k)} <==> Among(parents, id, k + 1, x) {
      if Among(parents, id, k + 1, x) {
        var j: nat :| j < k + 1 && Ancestor(parents, id, j) == x;
        if j < k {
          assert Among(parents, id, k, x);
        }
      }
      if x in seen {
        assert Among(parents, id, k, x);
        var j: nat :| j < k && Ancestor(parents, id, j) == x;
      } else if x == Ancestor(parents, id, k) {
        assert Among(parents, id, k + 1, x);
      }
    }
  }

  /** None of the first k sessions of the chain has a mode. */
  ghost predicate BareBelow(m: Modes, id: string, k: nat) {
    forall j: nat :: j < k ==> !HasMode(m, Ancestor(m.parents, id, j))
  }

  ghost predicate Bare(m: Modes, id: string) {
    forall j: nat :: !HasMode(m, Ancestor(m.parents, id, j))
  }

  /** What the walk found is the whole chain's answer. */
  ghost predicate Answers(m: Modes, id: string, r: Mode) {
    if r.NoMode? then Bare(m, id)
    else exists j: nat :: Nearest(m, id, j) && r == ModeOf(m, Ancestor(m.parents, id, j))
  }

  lemma EmptyEnds(m: Modes, id: string, k: nat)
    requires BareBelow(m, id, k) && Ancestor(m.parents, id, k) == ""
    ensures Bare(m, id)
  {
    forall j: nat | k <= j ensures !HasMode(m, Ancestor(m.parents, id, j)) {
      EmptyStays(m.parents, id, k, j);
    }
  }

  lemma CycleEnds(m: Modes, id: string, k: nat)
    requires BareBelow(m, id, k) && Among(m.parents, id, k, Ancestor(m.parents, id, k)) && !Among(m.parents, id, k, "")
    ensures Bare(m, id)
  {
    hide Ancestor;
    forall j: nat ensures !HasMode(m, Ancestor(m.parents, id, j)) {
      CycleStays(m.parents, id, k, j);
    }
  }

  lemma OneFurther(m: Modes, id: string, k: nat)
    requires BareBelow(m, id, k) && !HasMode(m, Ancestor(m.parents, id, k))
    ensures BareBelow(m, id, k + 1)
  {
    hide Ancestor;
  }

  lemma NextAncestor(parents: map<string, string>, id: string, k: nat)
    requires Ancestor(parents, id, k) != ""
    ensures Ancestor(parents, id, k + 1) == Parent(parents, Ancestor(parents, id, k))
  {
  }

  lemma {:induction false} WalkFinds(m: Modes, id: string, k: nat, seen: set<string>)
    requires ListsFirst(m.parents, id, k, seen) && "" !in seen && BareBelow(m, id, k)
    ensures Answers(m, id, Walk(m, Ancestor(m.parents, id, k), seen))
    decreases |m.parents.Keys - seen|
  {
    hide Ancestor, Bare, ListsFirst, BareBelow, Among, Nearest;
    var here := Ancestor(m.parents, id, k);
    if here == "" {
      EmptyEnds(m, id, k);
    } else if here in seen {
      SeenMeansAmong(m.parents, id, k, seen);
      CycleEnds(m, id, k);
    } else if here in m.auto || here in m.deny {
      NearestHere(m, id, k);
    } else {
      NextAncestor(m.parents, id, k);
      OneFurther(m, id, k);
      if here !in m.parents {
        EmptyEnds(m, id, k + 1);
      } else {
        Smaller(m.parents.Keys, seen, here);
        SeenGrows(m.parents, id, k, seen);
        WalkFinds(m, id, k + 1, seen + {here});
      }
    }
  }

  lemma NearestHere(m: Modes, id: string, k: nat)
    requires BareBelow(m, id, k) && HasMode(m, Ancestor(m.parents, id, k))
    ensures Nearest(m, id, k)
  {
    hide Ancestor;
  }

  lemma SeenMeansAmong(parents: map<string, string>, id: string, k: nat, seen: set<string>)
    requires ListsFirst(parents, id, k, seen)
    ensures forall x :: x in seen <==> Among(parents, id, k, x)
  {
    hide Ancestor, Among;
  }

  lemma NoneNearer(m: Modes, id: string, j: nat, k: nat)
    requires HasMode(m, Ancestor(m.parents, id, j)) && Nearest(m, id, k)
    ensures k <= j
  {
    hide Ancestor;
  }

  lemma StartsBare(m: Modes, id: string)
    ensures ListsFirst(m.parents, id, 0, {}) && BareBelow(m, id, 0)
  {
  }

  /** The walk answers for the whole chain of ancestors, cyclic or not: no mode
      exactly when no ancestor has one, and otherwise the nearest one's mode. */
  lemma NearestModeWins(m: Modes, id: string)
    ensures SessionMode(m, id).NoMode? <==> Bare(m, id)
    ensures forall k: nat :: Nearest(m, id, k) ==> SessionMode(m, id) == ModeOf(m, Ancestor(m.parents, id, k))
    ensures Answers(m, id, SessionMode(m, id))
  {
    StartsBare(m, id);
    WalkFinds(m, id, 0, {});
    hide Ancestor, Walk;
    forall k: nat | Nearest(m, id, k)
      ensures SessionMode(m, id) == ModeOf(m, Ancestor(m.parents, id, k))
    {
      if !SessionMode(m, id).NoMode? {
        var j: nat :| Nearest(m, id, j) && SessionMode(m, id) == ModeOf(m, Ancestor(m.parents, id, j));
        NoneNearer(m, id, j, k);
        NoneNearer(m, id, k, j);
      }
    }
  }

  function Link(m: Modes, child: string, parent: string): Modes {
    if child == "" || parent == "" || child == parent then m
    else m.(parents := m.parents[child := parent])
  }

  lemma {:induction false} AncestorShift(parents: map<string, string>, id: string, k: nat)
    requires id != ""
    ensures Ancestor(parents, id, k + 1) == Ancestor(parents, Parent(parents, id), k)
  {
    if k > 0 {
      AncestorShift(parents, id, k - 1);
    }
  }

  /** A linked child without a mode of its own follows its parent, whatever other
      links there are. */
  lemma LinkedChildFollows(m: Modes, child: string, parent: string)
    requires child != "" && parent != "" && child != parent && !HasMode(m, child)
    ensures SessionMode(Link(m, child, parent), child) == SessionMode(Link(m, child, parent), parent)
  {
    SameAsParent(Link(m, child, parent), child, parent);
  }

  /** The walk from one session to the next: a session's own mode decides, approval
      first; without one its parent's answer is its own, also around a cycle. */
  lemma ModeUnfolds(m: Modes, id: string)
    ensures SessionMode(m, id) ==
      if id == "" then NoMode
      else if id in m.auto then AutoApproved(id)
      else if id in m.deny then DeniedBy(id)
      else if id in m.parents then SessionMode(m, m.parents[id])
      else NoMode
  {
    if id != "" && !HasMode(m, id) && id in m.parents {
      SameAsParent(m, id, m.parents[id]);
    }
  }

  lemma SameAsParent(t: Modes, child: string, parent: string)
    requires child != "" && Parent(t.parents, child) == parent && !HasMode(t, child)
    ensures SessionMode(t, child) == SessionMode(t, parent)
  {
    NearestModeWins(t, child);
    NearestModeWins(t, parent);
    hide Ancestor, SessionMode, Nearest, BareBelow;
    if SessionMode(t, parent).NoMode? {
      BareAbove(t, child, parent);
    } else {
      var k: nat :| Nearest(t, parent, k) && SessionMode(t, parent) == ModeOf(t, Ancestor(t.parents, parent, k));
      NearestAbove(t, child, parent, k);
      AncestorShift(t.parents, child, k);
    }
  }

  lemma BareAbove(t: Modes, child: string, parent: string)
    requires child != "" && Parent(t.parents, child) == parent && !HasMode(t, child) && Bare(t, parent)
    ensures Bare(t, child)
  {
    forall k: nat ensures !HasMode(t, Ancestor(t.parents, child, k)) {
      if k > 0 {
        AncestorShift(t.parents, child, k - 1);
      }
    }
  }

  lemma NearestAbove(t: Modes, child: string, parent: string, k: nat)
    requires child != "" && Parent(t.parents, child) == parent && !HasMode(t, child) && Nearest(t, parent, k)
    ensures Nearest(t, child, k + 1)
  {
    AncestorShift(t.parents, child, k);
    forall j | 0 <= j < k + 1 ensures !HasMode(t, Ancestor(t.parents, child, j)) {
      if j > 0 {
        AncestorShift(t.parents, child, j - 1);
      }
    }
  }
}
