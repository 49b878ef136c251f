/** The execution order of the case runner, as a function: a topological sort that always takes the ready case
    of highest priority, followed by whatever a dependency cycle left over. */
module CaseOrder {

  type Name = string

  /** Prerequisite lists by case name; duplicates, self-dependencies and unknown names may occur. */
  type Prereqs = map<Name, seq<Name>>

  function PrereqsOf(pre: Prereqs, n: Name): seq<Name> {
    if n in pre then pre[n] else []
  }

  /** The elements of `s` that are in `keep`, in order. */
  function Filter(s: seq<Name>, keep: set<Name>): seq<Name> {
    if s == [] then []
    else
      var rest := Filter(s[..|s| - 1], keep);
      if s[|s| - 1] in keep then rest + [s[|s| - 1]] else rest
  }

  /** First occurrences only, in order. */
  function Dedup(s: seq<Name>): seq<Name> {
    if s == [] then []
    else
      var rest := Dedup(s[..|s| - 1]);
      if s[|s| - 1] in s[..|s| - 1] then rest else rest + [s[|s| - 1]]
  }

  function Elements(s: seq<Name>): set<Name> {
    set n | n in s
  }

  predicate Distinct(s: seq<Name>) {
    forall i, j :: 0 <= i < j < |s| ==> s[i] != s[j]
  }

  lemma ElementsSnoc(t: seq<Name>, x: Name)
    ensures Elements(t + [x]) == Elements(t) + {x}
  {
  }

  lemma {:induction false} FilterContents(s: seq<Name>, keep: set<Name>)
    ensures Elements(Filter(s, keep)) == Elements(s) * keep
    ensures Distinct(s) ==> Distinct(Filter(s, keep))
  {
    if s != [] {
      var t, x := s[..|s| - 1], s[|s| - 1];
      FilterContents(t, keep);
      assert s == t + [x];
      ElementsSnoc(t, x);
      ElementsSnoc(Filter(t, keep), x);
      assert x in Filter(t, keep) <==> x in Elements(Filter(t, keep));
    }
  }

  lemma {:induction false} DedupContents(s: seq<Name>)
    ensures Elements(Dedup(s)) == Elements(s) && Distinct(Dedup(s))
  {
    if s != [] {
      var t, x := s[..|s| - 1], s[|s| - 1];
      DedupContents(t);
      assert s == t + [x];
      ElementsSnoc(t, x);
      ElementsSnoc(Dedup(t), x);
      assert x in Dedup(t) <==> x in Elements(Dedup(t));
    }
  }

  lemma {:induction false} DedupDistinct(s: seq<Name>)
    requires Distinct(s)
    ensures Dedup(s) == s
  {
    if s != [] {
      var t := s[..|s| - 1];
      DedupDistinct(t);
      assert s == t + [s[|s| - 1]];
    }
  }

  lemma {:induction false} FilterAll(s: seq<Name>, keep: set<Name>)
    requires Elements(s) <= keep
    ensures Filter(s, keep) == s
  {
    if s != [] {
      var t, x := s[..|s| - 1], s[|s| - 1];
      assert s == t + [x];
      assert x in Elements(s) && Elements(t) <= Elements(s);
      FilterAll(t, keep);
    }
  }

  lemma {:induction false} FilterNone(s: seq<Name>, keep: set<Name>)
    requires Elements(s) !! keep
    ensures Filter(s, keep) == []
  {
    if s != [] {
      var t, x := s[..|s| - 1], s[|s| - 1];
      assert s == t + [x];
      assert x in Elements(s) && Elements(t) <= Elements(s);
      FilterNone(t, keep);
    }
  }

  // ---- The selection: least closed set ----

  predicate Closed(t: set<Name>, pre: Prereqs, registered: set<Name>) {
    forall n, q :: n in t && q in PrereqsOf(pre, n) && q in registered ==> q in t
  }

  /** The least set that holds the chosen cases and, with a case, its registered prerequisites. */
  ghost function Closure(chosen: set<Name>, pre: Prereqs, registered: set<Name>): set<Name> {
    set n | n in registered && forall t: set<Name> :: chosen <= t && Closed(t, pre, registered) ==> n in t
  }

  /** The closure is itself closed, so it is the least closed set. */
  lemma ClosureIsLeast(chosen: set<Name>, pre: Prereqs, registered: set<Name>, t: set<Name>)
    requires chosen <= registered
    ensures var c := Closure(chosen, pre, registered);
            && chosen <= c <= registered && Closed(c, pre, registered)
            && (chosen <= t && Closed(t, pre, registered) ==> c <= t)
  {
  }

  /** Priorities: plan order of first appearance, then registration order. */
  function Priority(plan: seq<Name>, registered: seq<Name>, selected: set<Name>): seq<Name> {
    Dedup(Filter(plan, selected)) + Filter(registered, selected - Elements(plan))
  }

  lemma PriorityContents(plan: seq<Name>, registered: seq<Name>, selected: set<Name>)
    requires Distinct(registered) && selected <= Elements(registered)
    ensures Distinct(Priority(plan, registered, selected))
    ensures Elements(Priority(plan, registered, selected)) == selected
  {
    FilterContents(plan, selected);
    DedupContents(Filter(plan, selected));
    FilterContents(registered, selected - Elements(plan));
    var a, b := Dedup(Filter(plan, selected)), Filter(registered, selected - Elements(plan));
    assert forall i :: 0 <= i < |a| ==> a[i] in Elements(a);
    assert forall i :: 0 <= i < |b| ==> b[i] in Elements(b);
    assert Elements(a + b) == Elements(a) + Elements(b);
  }

  // ---- The sort ----

  /** All selected prerequisites of n are done. */
  predicate Unblocked(priority: seq<Name>, pre: Prereqs, done: seq<Name>, n: Name) {
    forall q :: q in PrereqsOf(pre, n) && q in priority ==> q in done
  }

  predicate IsReady(priority: seq<Name>, pre: Prereqs, done: seq<Name>, n: Name) {
    n in priority && n !in done && Unblocked(priority, pre, done, n)
  }

  /** Index of the highest-priority ready case at or after i, or the length when there is none. */
  function FirstReady(priority: seq<Name>, pre: Prereqs, done: seq<Name>, i: nat): (r: nat)
    requires i <= |priority|
    ensures i <= r <= |priority|
    ensures r < |priority| ==> IsReady(priority, pre, done, priority[r])
    ensures forall j :: i <= j < r ==> !IsReady(priority, pre, done, priority[j])
    decreases |priority| - i
  {
    if i == |priority| then i
    else if IsReady(priority, pre, done, priority[i]) then i
    else FirstReady(priority, pre, done, i + 1)
  }

  /** Extends `done` by ready cases, highest priority first, as long as there is one. */
  function Sort(priority: seq<Name>, pre: Prereqs, done: seq<Name>): seq<Name>
    decreases |Elements(priority) - Elements(done)|
  {
    var r := FirstReady(priority, pre, done, 0);
    if r == |priority| then done
    else
      var n := priority[r];
      Shrinks(priority, done, n);
      Sort(priority, pre, done + [n])
  }

  lemma Shrinks(priority: seq<Name>, done: seq<Name>, n: Name)
    requires n in priority && n !in done
    ensures |Elements(priority) - Elements(done + [n])| < |Elements(priority) - Elements(done)|
  {
    var a, b := Elements(priority) - Elements(done), Elements(priority) - Elements(done + [n]);
    assert n in a && b == a - {n};
  }

  /** The whole order: the sorted part, then the leftovers by priority. */
  function Order(priority: seq<Name>, pre: Prereqs): seq<Name> {
    var sorted := Sort(priority, pre, []);
    sorted + Filter(priority, Elements(priority) - Elements(sorted))
  }

  // ---- What the sort guarantees ----

  /** Every case follows all its selected prerequisites. */
  predicate Topological(priority: seq<Name>, pre: Prereqs, s: seq<Name>) {
    forall i :: 0 <= i < |s| ==> Unblocked(priority, pre, s[..i], s[i])
  }

  ghost predicate Progress(priority: seq<Name>, pre: Prereqs, s: seq<Name>) {
    Distinct(s) && Elements(s) <= Elements(priority) && Topological(priority, pre, s)
  }

  lemma ProgressSnoc(priority: seq<Name>, pre: Prereqs, s: seq<Name>, n: Name)
    requires Progress(priority, pre, s) && IsReady(priority, pre, s, n)
    ensures Progress(priority, pre, s + [n])
  {
    var t := s + [n];
    assert t[..|s|] == s;
    forall i | 0 <= i < |s|
      ensures t[..i] == s[..i]
    {
    }
    assert Elements(t) == Elements(s) + {n};
  }

  /** The sorted part is duplicate-free and in dependency order, and nothing outside it is ready. */
  lemma {:induction false} SortProgress(priority: seq<Name>, pre: Prereqs, done: seq<Name>)
    requires Progress(priority, pre, done)
    ensures var s := Sort(priority, pre, done);
            && Progress(priority, pre, s)
            && done <= s
            && forall n :: !IsReady(priority, pre, s, n)
    decreases |Elements(priority) - Elements(done)|
  {
    var r := FirstReady(priority, pre, done, 0);
    if r < |priority| {
      var n := priority[r];
      Shrinks(priority, done, n);
      ProgressSnoc(priority, pre, done, n);
      SortProgress(priority, pre, done + [n]);
    }
  }

  lemma EmptyProgress(priority: seq<Name>, pre: Prereqs)
    ensures Progress(priority, pre, [])
  {
  }

  /** The order is a permutation of the selection: every selected case once. */
  lemma OrderPermutes(priority: seq<Name>, pre: Prereqs)
    requires Distinct(priority)
    ensures Distinct(Order(priority, pre)) && Elements(Order(priority, pre)) == Elements(priority)
  {
    var sorted := Sort(priority, pre, []);
    EmptyProgress(priority, pre);
    SortProgress(priority, pre, []);
    var left := Filter(priority, Elements(priority) - Elements(sorted));
    FilterContents(priority, Elements(priority) - Elements(sorted));
    assert forall i :: 0 <= i < |sorted| ==> sorted[i] in Elements(sorted);
    assert forall i :: 0 <= i < |left| ==> left[i] in Elements(left);
    assert Elements(sorted + left) == Elements(sorted) + Elements(left);
  }

  // ---- Lexicographic optimality ----

  function Position(priority: seq<Name>, n: Name): (i: nat)
    requires n in priority
    ensures i < |priority| && priority[i] == n
    ensures forall j :: 0 <= j < i ==> priority[j] != n
  {
    if priority[0] == n then 0 else 1 + Position(priority[1..], n)
  }

  /** At the first place where they differ, `a` has the case of higher priority. */
  predicate Precedes(priority: seq<Name>, a: seq<Name>, b: seq<Name>, i: nat) {
    && i < |a| && i < |b| && a[..i] == b[..i]
    && a[i] in priority && b[i] in priority && Position(priority, a[i]) < Position(priority, b[i])
  }

  /** The sort extends `done` in the least way: any other dependency order of the selection that begins with
      `done` is the same or later. */
  lemma {:induction false} SortLeast(priority: seq<Name>, pre: Prereqs, done: seq<Name>, other: seq<Name>)
    requires Distinct(priority) && Progress(priority, pre, done)
    requires Progress(priority, pre, other) && Elements(other) == Elements(priority)
    requires done <= other
    ensures var s := Sort(priority, pre, done);
            s == other || exists i :: Precedes(priority, s, other, i)
    decreases |Elements(priority) - Elements(done)|
  {
    hide Progress, Topological, Distinct, Unblocked, Precedes;
    var s := Sort(priority, pre, done);
    var r := FirstReady(priority, pre, done, 0);
    var k := |done|;
    if k == |other| {
      assert done == other;
      AllDone(priority, pre, done, r);
    } else {
      var b := other[k];
      NextOfOther(priority, pre, done, other);
      var n := priority[r];
      Shrinks(priority, done, n);
      ProgressSnoc(priority, pre, done, n);
      assert s == Sort(priority, pre, done + [n]);
      hide Sort, FirstReady;
      if n == b {
        assert other[..k + 1] == done + [n];
        SortLeast(priority, pre, done + [n], other);
      } else {
        SortProgress(priority, pre, done + [n]);
        Diverges(priority, done, n, s, other);
      }
    }
  }

  lemma Diverges(priority: seq<Name>, done: seq<Name>, n: Name, s: seq<Name>, other: seq<Name>)
    requires done + [n] <= s && done <= other && |done| < |other|
    requires n in priority && other[|done|] in priority
    requires Position(priority, n) < Position(priority, other[|done|])
    ensures Precedes(priority, s, other, |done|)
  {
    var k := |done|;
    assert s[k] == (done + [n])[k];
    assert s[..k] == done;
  }

  lemma AllDone(priority: seq<Name>, pre: Prereqs, done: seq<Name>, r: nat)
    requires Elements(done) == Elements(priority)
    ensures r < |priority| ==> !IsReady(priority, pre, done, priority[r])
  {
    if r < |priority| {
      assert priority[r] in Elements(done);
    }
  }

  /** The next case of another dependency order is ready too, so the first ready one is no later. */
  lemma NextOfOther(priority: seq<Name>, pre: Prereqs, done: seq<Name>, other: seq<Name>)
    requires Distinct(priority) && Progress(priority, pre, other) && Elements(other) == Elements(priority)
    requires done <= other && |done| < |other|
    ensures var r, b := FirstReady(priority, pre, done, 0), other[|done|];
            && r < |priority| && b in priority && r <= Position(priority, b)
            && Position(priority, priority[r]) == r
  {
    var k := |done|;
    var b := other[k];
    assert other[..k] == done;
    assert b in Elements(other);
    assert forall j :: 0 <= j < k ==> done[j] == other[j];
    assert IsReady(priority, pre, done, b);
    assert priority[Position(priority, b)] == b;
  }

  /** Without a cycle the order is the lexicographically least dependency order of the selection. */
  lemma OrderLeast(priority: seq<Name>, pre: Prereqs, other: seq<Name>)
    requires Distinct(priority)
    requires Distinct(other) && Elements(other) == Elements(priority) && Topological(priority, pre, other)
    ensures var s := Order(priority, pre);
            && Topological(priority, pre, s)
            && (s == other || exists i :: Precedes(priority, s, other, i))
  {
    hide Topological, Distinct, Precedes;
    var sorted := Sort(priority, pre, []);
    EmptyProgress(priority, pre);
    SortProgress(priority, pre, []);
    SortLeast(priority, pre, [], other);
    AcyclicSortsAll(priority, pre, sorted, other, |other|);
    assert Elements(priority) - Elements(sorted) == {};
    FilterNone(priority, {});
    assert Order(priority, pre) == sorted;
  }

  lemma UnblockedMonotone(priority: seq<Name>, pre: Prereqs, a: seq<Name>, b: seq<Name>, n: Name)
    requires Elements(a) <= Elements(b) && Unblocked(priority, pre, a, n)
    ensures Unblocked(priority, pre, b, n)
  {
    forall q | q in PrereqsOf(pre, n) && q in priority
      ensures q in b
    {
      assert q in Elements(a);
    }
  }

  /** When a dependency order of the selection exists, the sort leaves nothing over. */
  lemma {:induction false} AcyclicSortsAll(priority: seq<Name>, pre: Prereqs, sorted: seq<Name>, other: seq<Name>, k: nat)
    requires k <= |other| && Topological(priority, pre, other) && Elements(other) == Elements(priority)
    requires forall n :: !IsReady(priority, pre, sorted, n)
    ensures Elements(other[..k]) <= Elements(sorted)
  {
    if k > 0 {
      AcyclicSortsAll(priority, pre, sorted, other, k - 1);
      var n := other[k - 1];
      assert other[..k] == other[..k - 1] + [n];
      ElementsSnoc(other[..k - 1], n);
      assert n in Elements(other);
      assert Unblocked(priority, pre, other[..k - 1], n);
      UnblockedMonotone(priority, pre, other[..k - 1], sorted, n);
      assert !IsReady(priority, pre, sorted, n);
    }
    assert other[..|other|] == other;
  }

  // ---- Cycles ----

  /** A walk from a case to a prerequisite, to a prerequisite of that one, and so on. */
  predicate Chain(priority: seq<Name>, pre: Prereqs, c: seq<Name>) {
    && c != []
    && (forall i :: 0 <= i < |c| ==> c[i] in priority)
    && (forall i :: 0 <= i < |c| - 1 ==> c[i + 1] in PrereqsOf(pre, c[i]))
  }

  /** `up` leads from n to a case from which `loop` leads back to itself. */
  predicate LeadsToCycle(priority: seq<Name>, pre: Prereqs, n: Name, up: seq<Name>, loop: seq<Name>) {
    && Chain(priority, pre, up) && up[0] == n
    && Chain(priority, pre, loop) && |loop| >= 2
    && loop[0] == loop[|loop| - 1] == up[|up| - 1]
  }

  /** n has an ancestor, possibly itself, on a dependency cycle. */
  ghost predicate CycleAbove(priority: seq<Name>, pre: Prereqs, n: Name) {
    exists up, loop :: LeadsToCycle(priority, pre, n, up, loop)
  }

  /** A chain whose last case depends on one of its own closes a cycle. */
  lemma CloseCycle(priority: seq<Name>, pre: Prereqs, c: seq<Name>, j: nat)
    requires Chain(priority, pre, c) && j < |c| && c[j] in PrereqsOf(pre, c[|c| - 1])
    ensures CycleAbove(priority, pre, c[0])
  {
    assert LeadsToCycle(priority, pre, c[0], c[..j + 1], c[j..] + [c[j]]);
  }

  lemma ChainSnoc(priority: seq<Name>, pre: Prereqs, c: seq<Name>, q: Name)
    requires Chain(priority, pre, c) && Distinct(c) && q in priority && q !in c && q in PrereqsOf(pre, c[|c| - 1])
    ensures Chain(priority, pre, c + [q]) && Distinct(c + [q]) && (c + [q])[0] == c[0]
  {
  }

  /** From an unsorted case one can walk up through unsorted cases until one repeats. */
  lemma {:induction false} Walk(priority: seq<Name>, pre: Prereqs, sorted: seq<Name>, c: seq<Name>)
    requires forall n :: !IsReady(priority, pre, sorted, n)
    requires Chain(priority, pre, c) && Distinct(c) && forall i :: 0 <= i < |c| ==> c[i] !in sorted
    ensures CycleAbove(priority, pre, c[0])
    decreases |Elements(priority) - Elements(c)|
  {
    var last := c[|c| - 1];
    assert !IsReady(priority, pre, sorted, last);
    var q :| q in PrereqsOf(pre, last) && q in priority && q !in sorted;
    if q in c {
      var j :| 0 <= j < |c| && c[j] == q;
      CloseCycle(priority, pre, c, j);
      hide CycleAbove;
    } else {
      Shrinks(priority, c, q);
      ChainSnoc(priority, pre, c, q);
      hide Chain, Distinct, IsReady;
      Walk(priority, pre, sorted, c + [q]);
    }
  }

  /** In dependency order every step up a walk goes strictly to the left. */
  lemma {:induction false} WalkLeft(priority: seq<Name>, pre: Prereqs, sorted: seq<Name>, c: seq<Name>, i: nat) returns (j: nat)
    requires Topological(priority, pre, sorted) && Chain(priority, pre, c)
    requires i < |sorted| && sorted[i] == c[0]
    ensures j <= i && sorted[j] == c[|c| - 1] && (|c| >= 2 ==> j < i)
    decreases |c|
  {
    if |c| == 1 {
      j := i;
    } else {
      assert Unblocked(priority, pre, sorted[..i], sorted[i]);
      assert c[1] in PrereqsOf(pre, c[0]) && c[1] in priority;
      var k :| 0 <= k < i && sorted[..i][k] == c[1];
      j := WalkLeft(priority, pre, sorted, c[1..], k);
    }
  }

  /** The cases appended by priority are exactly those with a cycle among their ancestors. */
  lemma LeftoverExact(priority: seq<Name>, pre: Prereqs, n: Name)
    requires n in priority
    ensures n !in Sort(priority, pre, []) <==> CycleAbove(priority, pre, n)
  {
    var sorted := Sort(priority, pre, []);
    EmptyProgress(priority, pre);
    SortProgress(priority, pre, []);
    if n !in sorted {
      Walk(priority, pre, sorted, [n]);
    } else if CycleAbove(priority, pre, n) {
      var up, loop :| LeadsToCycle(priority, pre, n, up, loop);
      var i :| 0 <= i < |sorted| && sorted[i] == n;
      var j := WalkLeft(priority, pre, sorted, up, i);
      var k := WalkLeft(priority, pre, sorted, loop, j);
      assert false;
    }
  }

  // ---- A plan that needs no change ----

  lemma {:induction false} SortKeeps(priority: seq<Name>, pre: Prereqs, k: nat)
    requires Distinct(priority) && Topological(priority, pre, priority) && k <= |priority|
    ensures Sort(priority, pre, priority[..k]) == priority
    decreases |priority| - k
  {
    var done := priority[..k];
    var r := FirstReady(priority, pre, done, 0);
    if k < |priority| {
      assert IsReady(priority, pre, done, priority[k]);
      hide Topological;
      assert forall j :: 0 <= j < k ==> priority[j] == done[j];
      assert r == k;
      assert done + [priority[k]] == priority[..k + 1];
      SortKeeps(priority, pre, k + 1);
    } else {
      assert done == priority;
      if r < |priority| {
        assert false;
      }
    }
  }

  /** A plan that names its whole closure in dependency order is run as it stands, later duplicates and
      unregistered names removed. */
  lemma PlanUnchanged(plan: seq<Name>, registered: seq<Name>, selected: set<Name>, pre: Prereqs)
    requires selected <= Elements(plan)
    requires var p := Dedup(Filter(plan, selected)); Topological(p, pre, p)
    ensures Order(Priority(plan, registered, selected), pre) == Dedup(Filter(plan, selected))
  {
    var p := Dedup(Filter(plan, selected));
    assert selected - Elements(plan) == {};
    FilterNone(registered, {});
    assert p + [] == p;
    DedupContents(Filter(plan, selected));
    SortKeeps(p, pre, 0);
    assert p[..0] == [];
    assert Elements(p) - Elements(p) == {};
    FilterNone(p, {});
  }

  // ---- Ranks ----

  /** `rank` numbers exactly the cases of `priority`, in their order. */
  predicate Ranked(rank: map<Name, nat>, priority: seq<Name>) {
    && rank.Keys == Elements(priority)
    && (forall i :: 0 <= i < |priority| ==> priority[i] in rank)
    && forall i, j :: 0 <= i < j < |priority| ==> rank[priority[i]] < rank[priority[j]]
  }

  predicate RankSorted(rank: map<Name, nat>, s: seq<Name>) {
    && (forall i :: 0 <= i < |s| ==> s[i] in rank)
    && forall i, j :: 0 <= i < j < |s| ==> rank[s[i]] < rank[s[j]]
  }

  lemma RankedSnoc(rank: map<Name, nat>, priority: seq<Name>, n: Name, r: nat)
    requires Ranked(rank, priority) && n !in rank && forall m :: m in rank ==> rank[m] < r
    ensures Ranked(rank[n := r], priority + [n])
  {
    ElementsSnoc(priority, n);
    forall i | 0 <= i < |priority|
      ensures priority[i] in rank && priority[i] != n
    {
    }
  }

  lemma {:induction false} FilterRankSorted(rank: map<Name, nat>, s: seq<Name>, keep: set<Name>)
    requires RankSorted(rank, s)
    ensures RankSorted(rank, Filter(s, keep))
  {
    if s != [] {
      var t, x := s[..|s| - 1], s[|s| - 1];
      FilterRankSorted(rank, t, keep);
      FilterContents(t, keep);
      var f := Filter(t, keep);
      forall i | 0 <= i < |f|
        ensures rank[f[i]] < rank[x]
      {
        assert f[i] in Elements(f);
        assert f[i] in t;
      }
    }
  }

  lemma NonEmpty(s: seq<Name>)
    requires s != []
    ensures Elements(s) != {}
  {
    assert s[0] in Elements(s);
  }

  /** A list sorted by rank is determined by its elements. */
  lemma {:induction false} RankSortedUnique(rank: map<Name, nat>, a: seq<Name>, b: seq<Name>)
    requires RankSorted(rank, a) && RankSorted(rank, b) && Elements(a) == Elements(b)
    ensures a == b
  {
    if a == [] {
      if b != [] {
        NonEmpty(b);
      }
    } else {
      assert a[0] in Elements(a);
      var k, l := |a| - 1, |b| - 1;
      assert a[k] in Elements(b) && b[l] in Elements(a);
      assert a[k] == b[l];
      assert a == a[..k] + [a[k]] && b == b[..l] + [b[l]];
      ElementsSnoc(a[..k], a[k]);
      ElementsSnoc(b[..l], b[l]);
      assert a[k] !in Elements(a[..k]) && b[l] !in Elements(b[..l]);
      assert Elements(a[..k]) == Elements(a) - {a[k]};
      RankSortedUnique(rank, a[..k], b[..l]);
    }
  }

  // ---- Open prerequisites ----

  /** Prerequisite entries of n, counted with multiplicity, that are selected and not done. */
  function Open(pre: Prereqs, selected: set<Name>, done: seq<Name>, n: Name): nat {
    |Filter(PrereqsOf(pre, n), selected - Elements(done))|
  }

  lemma OpenZero(priority: seq<Name>, pre: Prereqs, done: seq<Name>, n: Name)
    ensures Open(pre, Elements(priority), done, n) == 0 <==> Unblocked(priority, pre, done, n)
  {
    var s, keep := PrereqsOf(pre, n), Elements(priority) - Elements(done);
    FilterContents(s, keep);
    if Filter(s, keep) == [] {
      assert Elements(Filter(s, keep)) == {};
      assert Elements(s) * keep == {};
      forall q | q in s && q in priority
        ensures q in done
      {
        assert q in Elements(s) && q in Elements(priority);
        assert q !in Elements(s) * keep;
      }
    } else {
      var q := Filter(s, keep)[0];
      assert q in Elements(Filter(s, keep));
    }
  }

  /** Doing n closes exactly the entries that name it. */
  lemma {:induction false} FilterWithout(s: seq<Name>, keep: set<Name>, n: Name)
    requires n in keep
    ensures |Filter(s, keep)| == |Filter(s, keep - {n})| + multiset(s)[n]
  {
    if s != [] {
      var t, x := s[..|s| - 1], s[|s| - 1];
      FilterWithout(t, keep, n);
      assert s == t + [x];
    }
  }

  lemma OpenStep(pre: Prereqs, selected: set<Name>, done: seq<Name>, n: Name, m: Name)
    requires n in selected && n !in done
    ensures Open(pre, selected, done, m) == Open(pre, selected, done + [n], m) + multiset(PrereqsOf(pre, m))[n]
  {
    FilterWithout(PrereqsOf(pre, m), selected - Elements(done), n);
    ElementsSnoc(done, n);
    assert selected - Elements(done + [n]) == selected - Elements(done) - {n};
  }

  /** Among the ready cases the one of least rank is the first in priority order. */
  lemma LeastRankIsFirst(rank: map<Name, nat>, priority: seq<Name>, pre: Prereqs, done: seq<Name>, n: Name)
    requires Ranked(rank, priority) && IsReady(priority, pre, done, n)
    requires forall m :: IsReady(priority, pre, done, m) && m in rank ==> rank[n] <= rank[m]
    ensures var r := FirstReady(priority, pre, done, 0); r < |priority| && priority[r] == n
  {
    var r := FirstReady(priority, pre, done, 0);
    var i :| 0 <= i < |priority| && priority[i] == n;
    assert r <= i;
    assert IsReady(priority, pre, done, priority[r]) && priority[r] in rank;
  }
}
