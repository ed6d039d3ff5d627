/**
 The credential type hierarchy and the walk over a type's ancestors.

 `GetParentTypes` appends to the array it is iterating, and the iteration is live: entries
 appended during the walk are visited as well. The walk therefore terminates only because the
 hierarchy has no cycle, and its result repeats ancestors. Both facts are made precise here.
 */
module CredentialTypes {

  type Name = string

  /** The `extends` list of every known credential type. */
  type Hierarchy = map<Name, seq<Name>>

  function Parents(known: Hierarchy, t: Name): seq<Name> {
    if t in known then known[t] else []
  }

  // ---------- Reachability ----------

  ghost predicate IsPath(known: Hierarchy, path: seq<Name>) {
    |path| >= 2 && forall i :: 0 <= i < |path| - 1 ==> path[i] in known && path[i + 1] in known[path[i]]
  }

  ghost predicate PathBetween(known: Hierarchy, path: seq<Name>, t: Name, u: Name) {
    IsPath(known, path) && path[0] == t && path[|path| - 1] == u
  }

  ghost predicate Reaches(known: Hierarchy, t: Name, u: Name) {
    exists path :: PathBetween(known, path, t, u)
  }

  /** No cycle can be reached from the type. */
  ghost predicate AcyclicFrom(known: Hierarchy, t: Name) {
    !Reaches(known, t, t) && forall u :: Reaches(known, t, u) ==> !Reaches(known, u, u)
  }

  ghost function AllParents(known: Hierarchy): set<Name> {
    set t, p | t in known && p in known[t] :: p
  }

  /** The proper ancestors of a type. */
  ghost function Ancestors(known: Hierarchy, t: Name): set<Name> {
    set u | u in AllParents(known) && Reaches(known, t, u)
  }

  ghost function Rank(known: Hierarchy, t: Name): nat {
    |Ancestors(known, t)|
  }

  lemma ReachesIsAncestor(known: Hierarchy, t: Name, u: Name)
    requires Reaches(known, t, u)
    ensures u in Ancestors(known, t)
  {
    var path :| PathBetween(known, path, t, u);
    assert path[|path| - 2 + 1] in Parents(known, path[|path| - 2]);
  }

  lemma ParentIsAncestor(known: Hierarchy, t: Name, p: Name)
    requires p in Parents(known, t)
    ensures p in Ancestors(known, t)
  {
    assert PathBetween(known, [t, p], t, p);
    ReachesIsAncestor(known, t, p);
  }

  lemma ParentsAreAncestors(known: Hierarchy, t: Name)
    ensures forall p :: p in Parents(known, t) ==> p in Ancestors(known, t)
  {
    forall p | p in Parents(known, t) ensures p in Ancestors(known, t) {
      ParentIsAncestor(known, t, p);
    }
  }

  lemma NoParentsNoAncestors(known: Hierarchy, t: Name)
    requires Parents(known, t) == []
    ensures Ancestors(known, t) == {}
  {
    if Ancestors(known, t) != {} {
      var u :| u in Ancestors(known, t);
      var p := AncestorIsViaParent(known, t, u);
    }
  }

  lemma AncestorsAreTransitive(known: Hierarchy, t: Name, u: Name)
    requires u in Ancestors(known, t)
    ensures Ancestors(known, u) <= Ancestors(known, t)
  {
    forall v | v in Ancestors(known, u) ensures v in Ancestors(known, t) {
      var p :| PathBetween(known, p, t, u);
      var q :| PathBetween(known, q, u, v);
      var r := p + q[1..];
      forall i | 0 <= i < |r| - 1 ensures r[i + 1] in Parents(known, r[i]) {
        if i >= |p| - 1 {
          assert r[i] == q[i - (|p| - 1)] && r[i + 1] == q[i - (|p| - 1) + 1];
        }
      }
      assert PathBetween(known, r, t, v);
    }
  }

  lemma AncestorIsViaParent(known: Hierarchy, t: Name, u: Name) returns (p: Name)
    requires u in Ancestors(known, t)
    ensures p in Parents(known, t) && (u == p || u in Ancestors(known, p))
  {
    var path :| PathBetween(known, path, t, u);
    p := path[0 + 1];
    if u != p {
      var rest := path[1..];
      forall i | 0 <= i < |rest| - 1 ensures rest[i + 1] in Parents(known, rest[i]) {
        assert path[(i + 1) + 1] in Parents(known, path[i + 1]);
      }
      assert PathBetween(known, rest, p, u);
    }
  }

  lemma SubsetSize<T>(a: set<T>, b: set<T>)
    requires a < b
    ensures |a| < |b|
  {
    assert exists x :: x in b && x !in a;
    var x :| x in b && x !in a;
    assert |b| == |b - {x}| + 1;
    if a != b - {x} {
      SubsetSize(a, b - {x});
    }
  }

  /** Where no cycle lies ahead, none lies ahead of an ancestor, whose rank is strictly smaller. */
  lemma RankDecreases(known: Hierarchy, t: Name, u: Name)
    requires AcyclicFrom(known, t) && u in Ancestors(known, t)
    ensures AcyclicFrom(known, u) && Rank(known, u) < Rank(known, t)
  {
    AncestorsAreTransitive(known, t, u);
    forall v | Reaches(known, u, v) ensures !Reaches(known, v, v) {
      ReachesIsAncestor(known, u, v);
    }
    assert u !in Ancestors(known, u);
    SubsetSize(Ancestors(known, u), Ancestors(known, t));
  }

  // ---------- When the walk ends ----------

  /** The recursion of the walk from the type goes at most `depth` calls deep. */
  ghost predicate EndsWithin(known: Hierarchy, t: Name, depth: nat)
    decreases depth
  {
    depth > 0 && forall p :: p in Parents(known, t) ==> EndsWithin(known, p, depth - 1)
  }

  lemma {:induction false} EndsWithinMore(known: Hierarchy, t: Name, depth: nat)
    requires EndsWithin(known, t, depth)
    ensures EndsWithin(known, t, depth + 1)
    decreases depth
  {
    forall p | p in Parents(known, t) ensures EndsWithin(known, p, depth) {
      EndsWithinMore(known, p, depth - 1);
    }
  }

  lemma {:induction false} AncestorEndsSooner(known: Hierarchy, t: Name, u: Name, depth: nat)
    requires EndsWithin(known, t, depth) && u in Ancestors(known, t)
    ensures EndsWithin(known, u, depth - 1)
    decreases depth
  {
    var p := AncestorIsViaParent(known, t, u);
    if u != p {
      AncestorEndsSooner(known, p, u, depth - 1);
      EndsWithinMore(known, u, depth - 2);
    }
  }

  lemma {:induction false} NoEndOnCycle(known: Hierarchy, t: Name, depth: nat)
    requires t in Ancestors(known, t)
    ensures !EndsWithin(known, t, depth)
    decreases depth
  {
    if EndsWithin(known, t, depth) {
      AncestorEndsSooner(known, t, t, depth);
      NoEndOnCycle(known, t, depth - 1);
    }
  }

  lemma EndsWithinRank(known: Hierarchy, t: Name)
    requires AcyclicFrom(known, t)
    ensures EndsWithin(known, t, Rank(known, t) + 1)
    decreases Rank(known, t)
  {
    forall p | p in Parents(known, t) ensures EndsWithin(known, p, Rank(known, t)) {
      ParentIsAncestor(known, t, p);
      RankDecreases(known, t, p);
      EndsWithinRank(known, p);
      EndsWithinUpTo(known, p, Rank(known, p) + 1, Rank(known, t));
    }
  }

  lemma EndsWithinUpTo(known: Hierarchy, t: Name, depth: nat, more: nat)
    requires EndsWithin(known, t, depth) && depth <= more
    ensures EndsWithin(known, t, more)
    decreases more
  {
    if depth < more {
      EndsWithinUpTo(known, t, depth, more - 1);
      EndsWithinMore(known, t, more - 1);
    }
  }

  /** The recursion from a type is bounded if and only if no cycle lies ahead of it, wherever else there may be one. */
  lemma WalkEndsIffNoCycleAhead(known: Hierarchy, t: Name)
    ensures (exists depth: nat :: EndsWithin(known, t, depth)) <==> AcyclicFrom(known, t)
  {
    if AcyclicFrom(known, t) {
      EndsWithinRank(known, t);
      var depth: nat := Rank(known, t) + 1;
      assert EndsWithin(known, t, depth);
    } else if exists depth: nat :: EndsWithin(known, t, depth) {
      var depth: nat :| EndsWithin(known, t, depth);
      var u :| (u == t || Reaches(known, t, u)) && Reaches(known, u, u);
      ReachesIsAncestor(known, u, u);
      if u != t {
        ReachesIsAncestor(known, t, u);
        AncestorEndsSooner(known, t, u, depth);
        NoEndOnCycle(known, u, depth - 1);
      } else {
        NoEndOnCycle(known, u, depth);
      }
    }
  }

  // ---------- The measure of the live iteration ----------

  ghost function Breadth(known: Hierarchy): (b: nat)
    ensures forall t :: |Parents(known, t)| <= b
  {
    if known == map[] then 0
    else
      var t :| t in known;
      var rest := known - {t};
      var b := Breadth(rest);
      assert forall u :: u != t ==> Parents(known, u) == Parents(rest, u);
      if |known[t]| <= b then b else |known[t]|
  }

  ghost function Bound(d: nat, k: nat): (w: nat)
    ensures w >= 1
  {
    if k == 0 then 1 else 1 + d * (Bound(d, k - 1) * Bound(d, k - 1))
  }

  lemma TimesMonotone(a: nat, b: nat, c: nat)
    requires a <= b
    ensures a * c <= b * c
  {
  }

  lemma BoundStep(d: nat, k: nat)
    ensures Bound(d, k) <= Bound(d, k + 1)
  {
    var w := Bound(d, k);
    if d == 0 {
      assert Bound(d, k + 1) == 1 + 0 * (w * w);
    } else {
      TimesMonotone(1, w, w);
      TimesMonotone(1, d, w * w);
    }
  }

  lemma BoundMonotone(d: nat, j: nat, k: nat)
    requires j <= k
    ensures Bound(d, j) <= Bound(d, k)
    decreases k
  {
    if j < k {
      BoundMonotone(d, j, k - 1);
      BoundStep(d, k - 1);
    }
  }

  /** What a pending entry costs the iteration: itself and everything it will append. */
  ghost function Cost(known: Hierarchy, t: Name): nat {
    Bound(Breadth(known), Rank(known, t))
  }

  ghost function Total(known: Hierarchy, s: seq<Name>): nat {
    if s == [] then 0 else Cost(known, s[0]) + Total(known, s[1..])
  }

  lemma TotalConcat(known: Hierarchy, a: seq<Name>, b: seq<Name>)
    ensures Total(known, a + b) == Total(known, a) + Total(known, b)
  {
    if a == [] {
      assert a + b == b;
    } else {
      assert (a + b)[1..] == a[1..] + b;
      TotalConcat(known, a[1..], b);
    }
  }

  /** Visiting an entry pays for it and for what it appends. */
  lemma VisitCost(known: Hierarchy, s: seq<Name>, i: nat, more: seq<Name>)
    requires i < |s|
    ensures Total(known, (s + more)[i + 1..]) == Total(known, s[i..]) - Cost(known, s[i]) + Total(known, more)
  {
    assert s[i..][0] == s[i] && (s + more)[i + 1..] == s[i..][1..] + more;
    TotalConcat(known, s[i..][1..], more);
  }

  lemma TotalAtMost(known: Hierarchy, s: seq<Name>, c: nat)
    requires forall x :: x in s ==> Cost(known, x) <= c
    ensures Total(known, s) <= |s| * c
  {
    if s != [] {
      TotalAtMost(known, s[1..], c);
      assert |s| * c == c + (|s| - 1) * c;
    }
  }

  /** If the walk visited no more entries than its first entries pay for, it stayed within its cost. */
  lemma WalkWithinCost(known: Hierarchy, t: Name, s: seq<Name>)
    requires AcyclicFrom(known, t) && Parents(known, t) != []
    requires forall x :: x in s ==> x in Ancestors(known, t)
    requires |s| <= Total(known, Parents(known, t))
    ensures Total(known, s) < Cost(known, t)
  {
    var d, k, first := Breadth(known), Rank(known, t), Parents(known, t);
    ParentIsAncestor(known, t, first[0]);
    RankDecreases(known, t, first[0]);
    var w := Bound(d, k - 1);
    forall x | x in s || x in first ensures Cost(known, x) <= w {
      ParentsCostLess(known, t, x, w);
    }
    TotalAtMost(known, first, w);
    TotalAtMost(known, s, w);
    SquareBound(|s|, |first|, d, w, Total(known, first), Total(known, s));
  }

  lemma SquareBound(n: nat, f: nat, d: nat, w: nat, first: nat, total: nat)
    requires f <= d && first <= f * w && n <= first && total <= n * w
    ensures total <= d * (w * w)
  {
    TimesMonotone(f, d, w);
    TimesMonotone(n, d * w, w);
    assert (d * w) * w == d * (w * w);
  }

  lemma ParentsCostLess(known: Hierarchy, t: Name, x: Name, w: nat)
    requires AcyclicFrom(known, t) && (x in Parents(known, t) || x in Ancestors(known, t))
    requires Rank(known, t) > 0 && w == Bound(Breadth(known), Rank(known, t) - 1)
    ensures Cost(known, x) <= w
  {
    if x in Parents(known, t) { ParentIsAncestor(known, t, x); }
    RankDecreases(known, t, x);
    BoundMonotone(Breadth(known), Rank(known, x), Rank(known, t) - 1);
  }

  // ---------- Order of first occurrences ----------

  ghost predicate SingleInheritance(known: Hierarchy) {
    forall t :: |Parents(known, t)| <= 1
  }

  /** The ancestors of a type under single inheritance, nearest first. */
  ghost function Chain(known: Hierarchy, t: Name): seq<Name>
    requires AcyclicFrom(known, t)
    decreases Rank(known, t)
  {
    var ps := Parents(known, t);
    if ps == [] then []
    else
      ParentIsAncestor(known, t, ps[0]);
      RankDecreases(known, t, ps[0]);
      [ps[0]] + Chain(known, ps[0])
  }

  /** `s` without repetitions, each element at its first occurrence. */
  function FirstOccurrences<T(==)>(s: seq<T>): seq<T> {
    if s == [] then []
    else
      var init, last := s[..|s| - 1], s[|s| - 1];
      if last in init then FirstOccurrences(init) else FirstOccurrences(init) + [last]
  }

  lemma AppendSeen<T>(a: seq<T>, b: seq<T>)
    requires forall x :: x in b ==> x in a
    ensures FirstOccurrences(a + b) == FirstOccurrences(a)
  {
    if b == [] {
      assert a + b == a;
    } else {
      assert (a + b)[..|a + b| - 1] == a + b[..|b| - 1];
      AppendSeen(a, b[..|b| - 1]);
    }
  }

  lemma PrependUnseen<T>(x: T, s: seq<T>)
    requires x !in s
    ensures FirstOccurrences([x] + s) == [x] + FirstOccurrences(s)
  {
    if s == [] {
      assert [x] + s == [x];
    } else {
      var init, last := s[..|s| - 1], s[|s| - 1];
      PrependUnseen(x, init);
      assert ([x] + s)[..|[x] + s| - 1] == [x] + init;
      assert last in [x] + init <==> last in init;
    }
  }

  lemma AcyclicAncestor(known: Hierarchy, t: Name)
    requires AcyclicFrom(known, t)
    ensures t !in Ancestors(known, t)
  {
  }

  // ---------- The walk ----------

  /** The parents come first, then the parents of the first of them. */
  function FirstVisits(known: Hierarchy, t: Name): seq<Name> {
    var ps := Parents(known, t);
    if ps == [] then [] else ps + Parents(known, ps[0])
  }

  /** What the walk promises: the proper ancestors, the nearest first as far as one can tell. */
  ghost predicate IsWalk(known: Hierarchy, t: Name, walk: seq<Name>)
    requires AcyclicFrom(known, t)
  {
    && (forall u :: u in walk <==> u in Ancestors(known, t))
    && FirstVisits(known, t) <= walk
    && (SingleInheritance(known) ==> FirstOccurrences(walk) == Chain(known, t))
  }

  /**
   All ancestors of a type, in the order of the live walk. If a cycle lies ahead of the type, the
   source recurses without end; otherwise the walk ends, finds exactly the proper ancestors, and
   under single inheritance meets them nearest first.
   */
  method GetParentTypes(known: Hierarchy, typeName: Name) returns (parents: seq<Name>)
    requires AcyclicFrom(known, typeName)
    ensures IsWalk(known, typeName, parents)
    ensures Total(known, parents) < Cost(known, typeName)
    decreases Rank(known, typeName)
  {
    parents := Parents(known, typeName);
    if |parents| == 0 {
      NoParentsNoAncestors(known, typeName);
      return;
    }
    ParentsAreAncestors(known, typeName);
    var i := 0;
    assert parents[i..] == parents;
    while i < |parents|
      invariant Visiting(known, typeName, parents, i)
      invariant i + Total(known, parents[i..]) <= Total(known, Parents(known, typeName))
      decreases Total(known, parents[i..])
    {
      var x := parents[i];
      RankDecreases(known, typeName, x);
      var more := GetParentTypes(known, x);
      VisitOne(known, typeName, parents, i, more);
      VisitCost(known, parents, i, more);
      parents := parents + more;
      i := i + 1;
    }
    VisitedAll(known, typeName, parents);
    WalkWithinCost(known, typeName, parents);
  }

  /** The state of the iteration before its entry `i`: what it appended so far, and for whom. */
  ghost predicate Visiting(known: Hierarchy, t: Name, s: seq<Name>, i: nat)
    requires AcyclicFrom(known, t)
  {
    && i <= |s| && Parents(known, t) != [] && Parents(known, t) <= s
    && (if i == 0 then s == Parents(known, t) else FirstVisits(known, t) <= s)
    && (forall x :: x in s ==> x in Ancestors(known, t))
    && (forall j :: 0 <= j < i ==> forall u :: u in Ancestors(known, s[j]) ==> u in s)
    && (SingleInheritance(known) && i > 0 ==> FirstOccurrences(s) == Chain(known, t))
  }

  lemma VisitOne(known: Hierarchy, t: Name, s: seq<Name>, i: nat, more: seq<Name>)
    requires AcyclicFrom(known, t) && Visiting(known, t, s, i) && i < |s|
    requires AcyclicFrom(known, s[i]) && IsWalk(known, s[i], more)
    ensures Visiting(known, t, s + more, i + 1)
  {
    assert s[i] in s;
    AncestorsAreTransitive(known, t, s[i]);
    if i == 0 { assert Parents(known, s[0]) <= FirstVisits(known, s[0]) <= more; }
    if SingleInheritance(known) { NextOccurrences(known, t, s, i, more); }
    forall j | 0 <= j < i + 1 ensures forall u :: u in Ancestors(known, (s + more)[j]) ==> u in s + more {
    }
  }

  /** Once every entry's ancestors are present, the array holds every ancestor of the type. */
  lemma VisitedAll(known: Hierarchy, t: Name, s: seq<Name>)
    requires AcyclicFrom(known, t) && Visiting(known, t, s, |s|)
    ensures IsWalk(known, t, s)
  {
    forall u | u in Ancestors(known, t) ensures u in s {
      var p := AncestorIsViaParent(known, t, u);
      var j :| 0 <= j < |Parents(known, t)| && Parents(known, t)[j] == p;
      assert s[j] == p;
    }
  }

  /** Under single inheritance the first visit adds the whole chain; later visits add only repetitions. */
  lemma NextOccurrences(known: Hierarchy, t: Name, s: seq<Name>, i: nat, more: seq<Name>)
    requires AcyclicFrom(known, t) && SingleInheritance(known)
    requires i < |s| && Parents(known, t) != [] && Parents(known, t) <= s
    requires i == 0 ==> s == Parents(known, t)
    requires forall x :: x in s ==> x in Ancestors(known, t)
    requires forall j :: 0 <= j < i ==> forall u :: u in Ancestors(known, s[j]) ==> u in s
    requires i > 0 ==> FirstOccurrences(s) == Chain(known, t)
    requires forall u :: u in more <==> u in Ancestors(known, s[i])
    requires AcyclicFrom(known, s[i]) && FirstOccurrences(more) == Chain(known, s[i])
    ensures FirstOccurrences(s + more) == Chain(known, t)
  {
    if i == 0 {
      assert s == [s[0]];
      AcyclicAncestor(known, s[0]);
      PrependUnseen(s[0], more);
    } else {
      forall u | u in more ensures u in s {
        AncestorSeen(known, t, s, i, u);
      }
      AppendSeen(s, more);
    }
  }

  lemma AncestorSeen(known: Hierarchy, t: Name, s: seq<Name>, i: nat, u: Name)
    requires SingleInheritance(known)
    requires 0 < i < |s| && Parents(known, t) != [] && s[0] == Parents(known, t)[0]
    requires s[i] in Ancestors(known, t) && u in Ancestors(known, s[i])
    requires forall v :: v in Ancestors(known, s[0]) ==> v in s
    ensures u in s
  {
    AncestorsAreTransitive(known, t, s[i]);
    var q := AncestorIsViaParent(known, t, u);
    assert q == s[0];
  }
}
