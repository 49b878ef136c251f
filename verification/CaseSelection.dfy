/** Which cases run and in which order, in terms of what was registered, planned and declared. */
module CaseSelection {
  import opened CaseOrder

  datatype CaseDesc = CaseDesc(name: Name, enabledByDefault: bool)

  function Names(cases: seq<CaseDesc>): (s: seq<Name>)
    ensures |s| == |cases| && forall i :: 0 <= i < |s| ==> s[i] == cases[i].name
  {
    seq(|cases|, i requires 0 <= i < |cases| => cases[i].name)
  }

  function EnabledNames(cases: seq<CaseDesc>): seq<Name> {
    if cases == [] then []
    else
      var rest := EnabledNames(cases[..|cases| - 1]);
      var c := cases[|cases| - 1];
      if c.enabledByDefault then rest + [c.name] else rest
  }

  /** What the run starts from: the plan, or all enabled cases; unregistered names are skipped. */
  function Chosen(cases: seq<CaseDesc>, plan: seq<Name>): seq<Name> {
    Filter(if plan != [] then plan else EnabledNames(cases), Elements(Names(cases)))
  }

  /** The specified order. */
  ghost function ExecutionOrder(cases: seq<CaseDesc>, plan: seq<Name>, pre: Prereqs): seq<Name> {
    var registered := Names(cases);
    var selected := Closure(Elements(Chosen(cases, plan)), pre, Elements(registered));
    Order(Priority(plan, registered, selected), pre)
  }

  // ---- Which cases run ----

  predicate Registered(cases: seq<CaseDesc>, n: Name) {
    exists i :: 0 <= i < |cases| && cases[i].name == n
  }

  /** A run starts from the registered names of the plan; without a plan, from the cases enabled by default. */
  predicate StartsFrom(cases: seq<CaseDesc>, plan: seq<Name>, n: Name) {
    if plan != [] then n in plan && Registered(cases, n)
    else exists i :: 0 <= i < |cases| && cases[i].name == n && cases[i].enabledByDefault
  }

  /** A walk from a case to a prerequisite, to a prerequisite of that, and so on, all registered. */
  predicate Walks(cases: seq<CaseDesc>, pre: Prereqs, path: seq<Name>) {
    && path != []
    && (forall i :: 0 <= i < |path| ==> Registered(cases, path[i]))
    && (forall i :: 0 <= i < |path| - 1 ==> path[i] in pre && path[i + 1] in pre[path[i]])
  }

  predicate WalksTo(cases: seq<CaseDesc>, plan: seq<Name>, pre: Prereqs, path: seq<Name>, n: Name) {
    Walks(cases, pre, path) && StartsFrom(cases, plan, path[0]) && path[|path| - 1] == n
  }

  ghost predicate Reached(cases: seq<CaseDesc>, plan: seq<Name>, pre: Prereqs, n: Name) {
    exists path :: WalksTo(cases, plan, pre, path, n)
  }

  lemma RegisteredNames(cases: seq<CaseDesc>, n: Name)
    ensures n in Elements(Names(cases)) <==> Registered(cases, n)
  {
    if n in Names(cases) {
      var i :| 0 <= i < |cases| && Names(cases)[i] == n;
      assert cases[i].name == n;
    }
    if Registered(cases, n) {
      var i :| 0 <= i < |cases| && cases[i].name == n;
      assert Names(cases)[i] == n;
    }
  }

  lemma {:induction false} EnabledExact(cases: seq<CaseDesc>, n: Name)
    ensures n in EnabledNames(cases) <==> exists i :: 0 <= i < |cases| && cases[i].name == n && cases[i].enabledByDefault
  {
    if cases != [] {
      var m := |cases| - 1;
      EnabledExact(cases[..m], n);
      if n in EnabledNames(cases[..m]) {
        var i :| 0 <= i < m && cases[..m][i].name == n && cases[..m][i].enabledByDefault;
        assert cases[i].name == n;
      }
      if exists i :: 0 <= i < |cases| && cases[i].name == n && cases[i].enabledByDefault {
        var i :| 0 <= i < |cases| && cases[i].name == n && cases[i].enabledByDefault;
        if i < m {
          assert cases[..m][i].name == n;
        }
      }
    }
  }

  /** The specification starts from exactly those cases. */
  lemma ChosenExact(cases: seq<CaseDesc>, plan: seq<Name>, n: Name)
    ensures n in Elements(Chosen(cases, plan)) <==> StartsFrom(cases, plan, n)
  {
    var initial := if plan != [] then plan else EnabledNames(cases);
    FilterContents(initial, Elements(Names(cases)));
    EnabledExact(cases, n);
    RegisteredNames(cases, n);
    hide EnabledNames, Names, Filter;
    assert n in initial <==> n in Elements(initial);
  }

  /** Reached cases are closed under registered prerequisites. */
  lemma ReachedClosed(cases: seq<CaseDesc>, plan: seq<Name>, pre: Prereqs, n: Name, q: Name)
    requires Reached(cases, plan, pre, n) && q in PrereqsOf(pre, n) && Registered(cases, q)
    ensures Reached(cases, plan, pre, q)
  {
    var path :| WalksTo(cases, plan, pre, path, n);
    hide StartsFrom, Registered;
    assert WalksTo(cases, plan, pre, path + [q], q);
  }

  lemma {:induction false} WalkStays(cases: seq<CaseDesc>, plan: seq<Name>, pre: Prereqs, path: seq<Name>, t: set<Name>)
    requires Walks(cases, pre, path) && StartsFrom(cases, plan, path[0])
    requires Elements(Chosen(cases, plan)) <= t && Closed(t, pre, Elements(Names(cases)))
    ensures path[|path| - 1] in t
    decreases |path|
  {
    var m := |path| - 1;
    if m == 0 {
      ChosenExact(cases, plan, path[0]);
    } else {
      hide StartsFrom, Registered, Chosen;
      WalkStays(cases, plan, pre, path[..m], t);
      RegisteredNames(cases, path[m]);
      assert path[m] in PrereqsOf(pre, path[m - 1]);
    }
  }

  /** The selected cases are exactly the reached ones. */
  lemma SelectedExact(cases: seq<CaseDesc>, plan: seq<Name>, pre: Prereqs, n: Name)
    ensures n in Closure(Elements(Chosen(cases, plan)), pre, Elements(Names(cases))) <==> Reached(cases, plan, pre, n)
  {
    var chosen, registered := Elements(Chosen(cases, plan)), Elements(Names(cases));
    ChosenRegistered(cases, plan);
    hide Chosen, Names, Closure, Elements;
    if Reached(cases, plan, pre, n) {
      var path :| WalksTo(cases, plan, pre, path, n);
      ClosureIsLeast(chosen, pre, registered, {});
      WalkStays(cases, plan, pre, path, Closure(chosen, pre, registered));
    } else {
      ReachedLeast(cases, plan, pre, n);
    }
  }

  lemma ReachedLeast(cases: seq<CaseDesc>, plan: seq<Name>, pre: Prereqs, n: Name)
    requires !Reached(cases, plan, pre, n)
    ensures n !in Closure(Elements(Chosen(cases, plan)), pre, Elements(Names(cases)))
  {
    var chosen, registered := Elements(Chosen(cases, plan)), Elements(Names(cases));
    var t := set m | m in registered && Reached(cases, plan, pre, m);
    ChosenRegistered(cases, plan);
    hide Chosen, Names, Closure, Elements, StartsFrom, Registered;
    forall m | m in chosen
      ensures m in t
    {
      ChosenExact(cases, plan, m);
      RegisteredNames(cases, m);
      assert WalksTo(cases, plan, pre, [m], m);
    }
    forall m, q | m in t && q in PrereqsOf(pre, m) && q in registered
      ensures q in t
    {
      RegisteredNames(cases, q);
      ReachedClosed(cases, plan, pre, m, q);
    }
    assert Closed(t, pre, registered);
    ClosureIsLeast(chosen, pre, registered, t);
  }

  lemma ChosenRegistered(cases: seq<CaseDesc>, plan: seq<Name>)
    ensures Elements(Chosen(cases, plan)) <= Elements(Names(cases))
  {
    FilterContents(if plan != [] then plan else EnabledNames(cases), Elements(Names(cases)));
  }

  /** Every reached case is run once, and no other case is run. */
  lemma RunsReached(cases: seq<CaseDesc>, plan: seq<Name>, pre: Prereqs)
    requires Distinct(Names(cases))
    ensures Distinct(ExecutionOrder(cases, plan, pre))
    ensures forall n :: n in ExecutionOrder(cases, plan, pre) <==> Reached(cases, plan, pre, n)
  {
    var registered := Names(cases);
    var selected := Closure(Elements(Chosen(cases, plan)), pre, Elements(registered));
    ChosenRegistered(cases, plan);
    ClosureIsLeast(Elements(Chosen(cases, plan)), pre, Elements(registered), {});
    PriorityContents(plan, registered, selected);
    OrderPermutes(Priority(plan, registered, selected), pre);
    var order := ExecutionOrder(cases, plan, pre);
    assert order == Order(Priority(plan, registered, selected), pre);
    hide Chosen, Names, Closure, Order, Priority, Distinct, Reached, ExecutionOrder;
    forall n
      ensures n in order <==> Reached(cases, plan, pre, n)
    {
      SelectedExact(cases, plan, pre, n);
      assert n in order <==> n in Elements(order);
    }
  }

  // ---- In which order ----

  /** a occurs in s before any b does. */
  predicate Earlier(s: seq<Name>, a: Name, b: Name) {
    exists k :: 0 <= k < |s| && s[k] == a && b !in s[..k]
  }

  /** Planned cases go by their first place in the plan, the others behind them in the order of registration. */
  predicate Before(cases: seq<CaseDesc>, plan: seq<Name>, a: Name, b: Name) {
    if a in plan then Earlier(plan, a, b) else b !in plan && Earlier(Names(cases), a, b)
  }

  lemma EarlierGrows(t: seq<Name>, x: Name, a: Name, b: Name)
    requires Earlier(t, a, b)
    ensures Earlier(t + [x], a, b)
  {
    var k :| 0 <= k < |t| && t[k] == a && b !in t[..k];
    assert (t + [x])[k] == a && (t + [x])[..k] == t[..k];
  }

  lemma {:induction false} DedupEarlier(s: seq<Name>, i: nat, j: nat)
    requires i < j < |Dedup(s)|
    ensures Earlier(s, Dedup(s)[i], Dedup(s)[j])
  {
    var t, x := s[..|s| - 1], s[|s| - 1];
    var d := Dedup(t);
    assert s == t + [x];
    if j < |d| {
      DedupEarlier(t, i, j);
      EarlierGrows(t, x, d[i], d[j]);
    } else {
      DedupContents(t);
      assert d[i] in Elements(d);
      var k :| 0 <= k < |t| && t[k] == d[i];
      assert s[k] == d[i] && x !in s[..k];
    }
  }

  lemma {:induction false} FilterEarlier(s: seq<Name>, keep: set<Name>, a: Name, b: Name)
    requires Earlier(Filter(s, keep), a, b) && b in keep
    ensures Earlier(s, a, b)
  {
    var t, x := s[..|s| - 1], s[|s| - 1];
    var f := Filter(t, keep);
    assert s == t + [x];
    var k :| 0 <= k < |Filter(s, keep)| && Filter(s, keep)[k] == a && b !in Filter(s, keep)[..k];
    if k < |f| {
      assert f[k] == a && f[..k] == Filter(s, keep)[..k];
      FilterEarlier(t, keep, a, b);
      EarlierGrows(t, x, a, b);
    } else {
      FilterContents(t, keep);
      assert Filter(s, keep)[..k] == f;
      assert b !in Elements(f);
      assert s[|t|] == a && s[..|t|] == t;
    }
  }

  /** The priority list is in this order. */
  lemma PriorityBefore(cases: seq<CaseDesc>, plan: seq<Name>, selected: set<Name>, i: nat, j: nat)
    requires Distinct(Names(cases)) && selected <= Elements(Names(cases))
    requires i < j < |Priority(plan, Names(cases), selected)|
    ensures var p := Priority(plan, Names(cases), selected); Before(cases, plan, p[i], p[j])
  {
    var names := Names(cases);
    var f, keep := Filter(plan, selected), selected - Elements(plan);
    var a, b := Dedup(f), Filter(names, keep);
    var p := Priority(plan, names, selected);
    FilterContents(plan, selected);
    DedupContents(f);
    FilterContents(names, keep);
    assert forall k :: 0 <= k < |a| ==> a[k] in Elements(a);
    assert forall k :: 0 <= k < |b| ==> b[k] in Elements(b);
    if j < |a| {
      DedupEarlier(f, i, j);
      FilterEarlier(plan, selected, a[i], a[j]);
    } else if i < |a| {
      var k :| 0 <= k < |plan| && plan[k] == a[i];
      assert b[j - |a|] !in plan[..k];
    } else {
      var x, y := i - |a|, j - |a|;
      assert b[x] == p[i] && b[y] !in b[..x];
      FilterEarlier(names, keep, b[x], b[y]);
    }
  }

  lemma {:induction false} SortTakes(priority: seq<Name>, pre: Prereqs, done: seq<Name>, i: nat)
    requires |done| <= i <= |Sort(priority, pre, done)|
    ensures var s := Sort(priority, pre, done);
            var r := FirstReady(priority, pre, s[..i], 0);
            if i < |s| then r < |priority| && s[i] == priority[r] else r == |priority|
    decreases |Elements(priority) - Elements(done)|
  {
    var r := FirstReady(priority, pre, done, 0);
    SortExtends(priority, pre, done);
    var s := Sort(priority, pre, done);
    assert s[..|done|] == done;
    if r < |priority| {
      Shrinks(priority, done, priority[r]);
      SortExtends(priority, pre, done + [priority[r]]);
      if i > |done| {
        SortTakes(priority, pre, done + [priority[r]], i);
      } else {
        assert s[i] == (done + [priority[r]])[i];
      }
    }
  }

  lemma {:induction false} SortExtends(priority: seq<Name>, pre: Prereqs, done: seq<Name>)
    ensures done <= Sort(priority, pre, done)
    decreases |Elements(priority) - Elements(done)|
  {
    var r := FirstReady(priority, pre, done, 0);
    if r < |priority| {
      Shrinks(priority, done, priority[r]);
      SortExtends(priority, pre, done + [priority[r]]);
    }
  }

  // ---- The order, in full ----

  /** Walking up the prerequisites of n one can meet a case twice: n is on a dependency cycle or above one. */
  ghost predicate Cyclic(cases: seq<CaseDesc>, pre: Prereqs, n: Name) {
    exists path :: Circles(cases, pre, path, n)
  }

  predicate Circles(cases: seq<CaseDesc>, pre: Prereqs, path: seq<Name>, n: Name) {
    Walks(cases, pre, path) && path[0] == n && exists i, j :: 0 <= i < j < |path| && path[i] == path[j]
  }

  /** All registered prerequisites of n are in s. */
  predicate Satisfied(cases: seq<CaseDesc>, pre: Prereqs, n: Name, s: seq<Name>) {
    n in pre ==> forall k :: 0 <= k < |pre[n]| && Registered(cases, pre[n][k]) ==> pre[n][k] in s
  }

  /** What a run promises: every reached case once and no other; a case without a cycle above it runs after all
      its registered prerequisites; whenever two cases could run, the one of higher rank does; cases with a cycle
      above them come last, by rank. */
  ghost predicate Proper(cases: seq<CaseDesc>, plan: seq<Name>, pre: Prereqs, order: seq<Name>) {
    && Distinct(order)
    && (forall n :: n in order <==> Reached(cases, plan, pre, n))
    && (forall j :: 0 <= j < |order| && !Cyclic(cases, pre, order[j]) ==> Satisfied(cases, pre, order[j], order[..j]))
    && (forall i, j :: 0 <= i < j < |order| && Satisfied(cases, pre, order[j], order[..i]) ==>
          Before(cases, plan, order[i], order[j]))
    && (forall i, j :: 0 <= i < j < |order| && Cyclic(cases, pre, order[i]) ==>
          Cyclic(cases, pre, order[j]) && Before(cases, plan, order[i], order[j]))
  }

  lemma BeforeOneWay(cases: seq<CaseDesc>, plan: seq<Name>, a: Name, b: Name)
    requires Before(cases, plan, a, b) && Before(cases, plan, b, a)
    ensures a == b
  {
    var s := if a in plan then plan else Names(cases);
    var k :| 0 <= k < |s| && s[k] == a && b !in s[..k];
    var m :| 0 <= m < |s| && s[m] == b && a !in s[..m];
  }

  /** The promise leaves one order only. */
  lemma {:induction false} ProperAgree(cases: seq<CaseDesc>, plan: seq<Name>, pre: Prereqs, s: seq<Name>, t: seq<Name>,
                                       i: nat)
    requires Proper(cases, plan, pre, s) && Proper(cases, plan, pre, t)
    requires i < |s| && i < |t| && s[..i] == t[..i]
    ensures s[i] == t[i]
  {
    var a, b := s[i], t[i];
    if a != b {
      var j := LaterPlace(cases, plan, pre, s, t, i);
      var k := LaterPlace(cases, plan, pre, t, s, i);
      assert s[j] == b && t[k] == a && i < j && i < k;
      hide Reached, Satisfied, Before, Cyclic;
      assert Before(cases, plan, a, b);
      assert Before(cases, plan, b, a);
      BeforeOneWay(cases, plan, a, b);
    }
  }

  /** Where the other order's case stands in this one. */
  lemma LaterPlace(cases: seq<CaseDesc>, plan: seq<Name>, pre: Prereqs, s: seq<Name>, t: seq<Name>, i: nat)
    returns (j: nat)
    requires Proper(cases, plan, pre, s) && Proper(cases, plan, pre, t)
    requires i < |s| && i < |t| && s[..i] == t[..i] && s[i] != t[i]
    ensures i < j < |s| && s[j] == t[i]
  {
    hide Satisfied, Before, Cyclic;
    assert t[i] in t;
    assert t[i] in s;
    j :| 0 <= j < |s| && s[j] == t[i];
  }

  lemma ProperUnique(cases: seq<CaseDesc>, plan: seq<Name>, pre: Prereqs, s: seq<Name>, t: seq<Name>)
    requires Proper(cases, plan, pre, s) && Proper(cases, plan, pre, t)
    ensures s == t
  {
    SameLength(cases, plan, pre, s, t);
    hide Proper;
    var i := 0;
    while i < |s|
      invariant i <= |s| == |t| && s[..i] == t[..i]
    {
      ProperAgree(cases, plan, pre, s, t, i);
      i := i + 1;
    }
  }

  lemma SameLength(cases: seq<CaseDesc>, plan: seq<Name>, pre: Prereqs, s: seq<Name>, t: seq<Name>)
    requires Proper(cases, plan, pre, s) && Proper(cases, plan, pre, t)
    ensures |s| == |t|
  {
    hide Satisfied, Before, Cyclic, Reached;
    assert forall n :: n in s <==> n in t;
    assert Elements(s) == Elements(t);
    DistinctSize(s);
    DistinctSize(t);
  }

  lemma {:induction false} DistinctSize(s: seq<Name>)
    requires Distinct(s)
    ensures |Elements(s)| == |s|
  {
    if s != [] {
      var t, x := s[..|s| - 1], s[|s| - 1];
      DistinctSize(t);
      assert s == t + [x];
      ElementsSnoc(t, x);
      assert x !in t;
    }
  }

  // ---- The specified order keeps the promise ----

  lemma {:induction false} WalkReached(cases: seq<CaseDesc>, plan: seq<Name>, pre: Prereqs, path: seq<Name>, i: nat)
    requires Walks(cases, pre, path) && Reached(cases, plan, pre, path[0]) && i < |path|
    ensures Reached(cases, plan, pre, path[i])
  {
    if i > 0 {
      WalkReached(cases, plan, pre, path, i - 1);
      hide Reached;
      assert path[i] in PrereqsOf(pre, path[i - 1]);
      ReachedClosed(cases, plan, pre, path[i - 1], path[i]);
    }
  }

  lemma ReachedRegistered(cases: seq<CaseDesc>, plan: seq<Name>, pre: Prereqs, n: Name)
    requires Reached(cases, plan, pre, n)
    ensures Registered(cases, n)
  {
    var path :| WalksTo(cases, plan, pre, path, n);
    assert Registered(cases, path[|path| - 1]);
  }

  lemma ChainJoin(priority: seq<Name>, pre: Prereqs, up: seq<Name>, loop: seq<Name>)
    requires Chain(priority, pre, up) && Chain(priority, pre, loop) && |loop| >= 2
    requires loop[0] == loop[|loop| - 1] == up[|up| - 1]
    ensures var path := up + loop[1..];
            && Chain(priority, pre, path) && path[0] == up[0]
            && |path| > |up| && path[|up| - 1] == path[|path| - 1]
  {
    var path := up + loop[1..];
    forall k | 0 <= k < |path|
      ensures path[k] in priority
    {
      assert path[k] == if k < |up| then up[k] else loop[k - |up| + 1];
    }
    forall k | 0 <= k < |path| - 1
      ensures path[k + 1] in PrereqsOf(pre, path[k])
    {
      if k >= |up| - 1 {
        var m := k - |up| + 1;
        assert path[k] == loop[m] && path[k + 1] == loop[m + 1];
      }
    }
  }

  /** Cyclic in terms of registration is a cycle above in terms of the priority list. */
  lemma CyclicAbove(cases: seq<CaseDesc>, plan: seq<Name>, pre: Prereqs, priority: seq<Name>, n: Name)
    requires forall m :: m in priority <==> Reached(cases, plan, pre, m)
    requires n in priority
    ensures Cyclic(cases, pre, n) <==> CycleAbove(priority, pre, n)
  {
    hide Reached, Registered;
    if Cyclic(cases, pre, n) {
      var path :| Circles(cases, pre, path, n);
      var i, j :| 0 <= i < j < |path| && path[i] == path[j];
      forall k | 0 <= k < |path|
        ensures path[k] in priority
      {
        WalkReached(cases, plan, pre, path, k);
      }
      assert LeadsToCycle(priority, pre, n, path[..i + 1], path[i..j + 1]);
    }
    if CycleAbove(priority, pre, n) {
      var up, loop :| LeadsToCycle(priority, pre, n, up, loop);
      var path := up + loop[1..];
      ChainJoin(priority, pre, up, loop);
      forall k | 0 <= k < |path|
        ensures Registered(cases, path[k])
      {
        ReachedRegistered(cases, plan, pre, path[k]);
      }
      forall k | 0 <= k < |path| - 1
        ensures path[k] in pre && path[k + 1] in pre[path[k]]
      {
        assert path[k + 1] in PrereqsOf(pre, path[k]);
      }
      assert path[|up| - 1] == path[|path| - 1] && |up| - 1 < |path| - 1;
      assert Circles(cases, pre, path, n);
    }
  }

  /** Satisfied in terms of registration is unblocked in terms of the priority list. */
  lemma SatisfiedUnblocked(cases: seq<CaseDesc>, plan: seq<Name>, pre: Prereqs, priority: seq<Name>, n: Name, s: seq<Name>)
    requires forall m :: m in priority <==> Reached(cases, plan, pre, m)
    requires n in priority
    ensures Satisfied(cases, pre, n, s) <==> Unblocked(priority, pre, s, n)
  {
    hide Reached, Registered;
    if Satisfied(cases, pre, n, s) {
      forall q | q in PrereqsOf(pre, n) && q in priority
        ensures q in s
      {
        ReachedRegistered(cases, plan, pre, q);
        var k :| 0 <= k < |pre[n]| && pre[n][k] == q;
      }
    }
    if Unblocked(priority, pre, s, n) && n in pre {
      forall k | 0 <= k < |pre[n]| && Registered(cases, pre[n][k])
        ensures pre[n][k] in s
      {
        ReachedClosed(cases, plan, pre, n, pre[n][k]);
      }
    }
  }

  lemma RankBefore(cases: seq<CaseDesc>, plan: seq<Name>, selected: set<Name>, a: Name, b: Name)
    requires Distinct(Names(cases)) && selected <= Elements(Names(cases))
    requires var p := Priority(plan, Names(cases), selected); a != b && b in p && Earlier(p, a, b)
    ensures Before(cases, plan, a, b)
  {
    var p := Priority(plan, Names(cases), selected);
    var k :| 0 <= k < |p| && p[k] == a && b !in p[..k];
    var m :| 0 <= m < |p| && p[m] == b;
    PriorityBefore(cases, plan, selected, k, m);
  }

  lemma SortedTakes(priority: seq<Name>, pre: Prereqs, i: nat, n: Name)
    requires i < |Sort(priority, pre, [])| && IsReady(priority, pre, Sort(priority, pre, [])[..i], n)
    requires n != Sort(priority, pre, [])[i]
    ensures Earlier(priority, Sort(priority, pre, [])[i], n)
  {
    var sorted := Sort(priority, pre, []);
    SortTakes(priority, pre, [], i);
    hide Sort, IsReady;
    var r := FirstReady(priority, pre, sorted[..i], 0);
    assert forall m :: 0 <= m < r ==> priority[m] != n;
    assert priority[r] == sorted[i] && n !in priority[..r];
  }

  lemma LeftTakes(priority: seq<Name>, keep: set<Name>, x: nat, y: nat)
    requires Distinct(priority) && x < y < |Filter(priority, keep)|
    ensures var left := Filter(priority, keep); left[x] != left[y] && Earlier(priority, left[x], left[y])
  {
    var left := Filter(priority, keep);
    FilterContents(priority, keep);
    assert left[y] in Elements(left);
    assert left[y] !in left[..x];
    FilterEarlier(priority, keep, left[x], left[y]);
  }

  /** Both parts of an order, by position. */
  lemma OrderShape(priority: seq<Name>, pre: Prereqs, i: nat, j: nat)
    requires Distinct(priority) && i < j < |Order(priority, pre)|
    ensures var s, sorted := Order(priority, pre), Sort(priority, pre, []);
            var left := Filter(priority, Elements(priority) - Elements(sorted));
            && s[j] in priority && s[j] !in s[..i] && s[i] != s[j]
            && (i < |sorted| ==> s[..i] == sorted[..i] && s[i] == sorted[i])
            && (i >= |sorted| ==> j - |sorted| < |left| && s[i] == left[i - |sorted|] && s[j] == left[j - |sorted|])
  {
    hide Sort, Filter;
    var sorted, s := Sort(priority, pre, []), Order(priority, pre);
    assert s == sorted + Filter(priority, Elements(priority) - Elements(sorted));
    OrderPermutes(priority, pre);
    assert s[j] in Elements(s);
    NotBefore(s, i, j);
    hide Order, Distinct, Elements;
  }

  /** Of two cases that could run, the one placed first has the higher priority. */
  lemma OrderTakes(priority: seq<Name>, pre: Prereqs, i: nat, j: nat)
    requires Distinct(priority) && i < j < |Order(priority, pre)|
    requires var s := Order(priority, pre); Unblocked(priority, pre, s[..i], s[j]) || i >= |Sort(priority, pre, [])|
    ensures var s := Order(priority, pre); s[i] != s[j] && s[j] in priority && Earlier(priority, s[i], s[j])
  {
    hide Sort, Order, Filter, Earlier, Unblocked, Distinct, Elements;
    var sorted, s := Sort(priority, pre, []), Order(priority, pre);
    OrderShape(priority, pre, i, j);
    if i < |sorted| {
      SortedTakes(priority, pre, i, s[j]);
    } else {
      LeftTakes(priority, Elements(priority) - Elements(sorted), i - |sorted|, j - |sorted|);
    }
  }

  lemma NotBefore(s: seq<Name>, i: nat, j: nat)
    requires Distinct(s) && i < j < |s|
    ensures s[j] !in s[..i] && s[i] != s[j]
  {
  }

  /** Sorted cases are those without a cycle above them. */
  lemma SortedPart(priority: seq<Name>, pre: Prereqs, j: nat)
    requires Distinct(priority) && j < |Order(priority, pre)|
    ensures var s := Order(priority, pre);
            && s[j] in priority
            && (j < |Sort(priority, pre, [])| <==> !CycleAbove(priority, pre, s[j]))
            && (j < |Sort(priority, pre, [])| ==> Unblocked(priority, pre, s[..j], s[j]))
  {
    var sorted, s := Sort(priority, pre, []), Order(priority, pre);
    OrderPermutes(priority, pre);
    assert s[j] in Elements(s);
    LeftoverExact(priority, pre, s[j]);
    EmptyProgress(priority, pre);
    SortProgress(priority, pre, []);
    hide CycleAbove;
    if j < |sorted| {
      assert s[..j] == sorted[..j];
    } else {
      FilterContents(priority, Elements(priority) - Elements(sorted));
      assert s[j] in Elements(Filter(priority, Elements(priority) - Elements(sorted)));
    }
  }

  /** The priority list of a run. */
  ghost predicate Lists(cases: seq<CaseDesc>, plan: seq<Name>, pre: Prereqs, selected: set<Name>, priority: seq<Name>) {
    && Distinct(Names(cases)) && selected <= Elements(Names(cases))
    && priority == Priority(plan, Names(cases), selected) && Distinct(priority)
    && forall n :: n in priority <==> Reached(cases, plan, pre, n)
  }

  lemma RunLists(cases: seq<CaseDesc>, plan: seq<Name>, pre: Prereqs) returns (selected: set<Name>, priority: seq<Name>)
    requires Distinct(Names(cases))
    ensures Lists(cases, plan, pre, selected, priority) && ExecutionOrder(cases, plan, pre) == Order(priority, pre)
  {
    selected := Closure(Elements(Chosen(cases, plan)), pre, Elements(Names(cases)));
    priority := Priority(plan, Names(cases), selected);
    assert ExecutionOrder(cases, plan, pre) == Order(priority, pre);
    ChosenRegistered(cases, plan);
    ClosureIsLeast(Elements(Chosen(cases, plan)), pre, Elements(Names(cases)), {});
    PriorityContents(plan, Names(cases), selected);
    hide Reached, Chosen, Closure, Priority, Order, ExecutionOrder;
    forall n
      ensures n in priority <==> Reached(cases, plan, pre, n)
    {
      SelectedExact(cases, plan, pre, n);
      assert n in priority <==> n in Elements(priority);
    }
  }

  lemma AfterPrereqs(cases: seq<CaseDesc>, plan: seq<Name>, pre: Prereqs, selected: set<Name>, priority: seq<Name>, j: nat)
    requires Lists(cases, plan, pre, selected, priority) && j < |Order(priority, pre)|
    requires !Cyclic(cases, pre, Order(priority, pre)[j])
    ensures Satisfied(cases, pre, Order(priority, pre)[j], Order(priority, pre)[..j])
  {
    var order := Order(priority, pre);
    hide Reached, Priority, Order, Cyclic, CycleAbove, Satisfied, Unblocked;
    SortedPart(priority, pre, j);
    CyclicAbove(cases, plan, pre, priority, order[j]);
    SatisfiedUnblocked(cases, plan, pre, priority, order[j], order[..j]);
  }

  lemma ByRank(cases: seq<CaseDesc>, plan: seq<Name>, pre: Prereqs, selected: set<Name>, priority: seq<Name>, i: nat, j: nat)
    requires Lists(cases, plan, pre, selected, priority) && i < j < |Order(priority, pre)|
    requires Satisfied(cases, pre, Order(priority, pre)[j], Order(priority, pre)[..i])
    ensures Before(cases, plan, Order(priority, pre)[i], Order(priority, pre)[j])
  {
    var order := Order(priority, pre);
    hide Reached, Priority, Order, Satisfied, Unblocked, Before, Sort, CycleAbove;
    SortedPart(priority, pre, j);
    SatisfiedUnblocked(cases, plan, pre, priority, order[j], order[..i]);
    OrderTakes(priority, pre, i, j);
    RankBefore(cases, plan, selected, order[i], order[j]);
  }

  lemma CyclesLast(cases: seq<CaseDesc>, plan: seq<Name>, pre: Prereqs, selected: set<Name>, priority: seq<Name>, i: nat,
                   j: nat)
    requires Lists(cases, plan, pre, selected, priority) && i < j < |Order(priority, pre)|
    requires Cyclic(cases, pre, Order(priority, pre)[i])
    ensures Cyclic(cases, pre, Order(priority, pre)[j])
    ensures Before(cases, plan, Order(priority, pre)[i], Order(priority, pre)[j])
  {
    var order := Order(priority, pre);
    hide Reached, Priority, Order, Unblocked, Before, Sort, CycleAbove, Cyclic;
    SortedPart(priority, pre, i);
    SortedPart(priority, pre, j);
    CyclicAbove(cases, plan, pre, priority, order[i]);
    CyclicAbove(cases, plan, pre, priority, order[j]);
    OrderTakes(priority, pre, i, j);
    RankBefore(cases, plan, selected, order[i], order[j]);
  }

  /** The specified order keeps the promise, and so it is the only one that does. */
  lemma OrderProper(cases: seq<CaseDesc>, plan: seq<Name>, pre: Prereqs)
    requires Distinct(Names(cases))
    ensures Proper(cases, plan, pre, ExecutionOrder(cases, plan, pre))
  {
    var order := ExecutionOrder(cases, plan, pre);
    RunsReached(cases, plan, pre);
    var selected, priority := RunLists(cases, plan, pre);
    hide Reached, Lists, Cyclic, Satisfied, Before, ExecutionOrder, Order;
    forall j | 0 <= j < |order| && !Cyclic(cases, pre, order[j])
      ensures Satisfied(cases, pre, order[j], order[..j])
    {
      AfterPrereqs(cases, plan, pre, selected, priority, j);
    }
    forall i, j | 0 <= i < j < |order| && Satisfied(cases, pre, order[j], order[..i])
      ensures Before(cases, plan, order[i], order[j])
    {
      ByRank(cases, plan, pre, selected, priority, i, j);
    }
    forall i, j | 0 <= i < j < |order| && Cyclic(cases, pre, order[i])
      ensures Cyclic(cases, pre, order[j]) && Before(cases, plan, order[i], order[j])
    {
      CyclesLast(cases, plan, pre, selected, priority, i, j);
    }
  }

  // ---- Without plan and prerequisites ----

  /** Without a plan and without prerequisites the enabled cases run, in the order of registration. */
  lemma PlainOrder(cases: seq<CaseDesc>, pre: Prereqs, order: seq<nat>, names: seq<Name>)
    requires Distinct(Names(cases)) && (forall n :: n in pre ==> pre[n] == []) && Proper(cases, [], pre, names)
    requires |order| == |names| && forall k :: 0 <= k < |order| ==> order[k] < |cases| && cases[order[k]].name == names[k]
    ensures forall i, j :: 0 <= i < j < |order| ==> order[i] < order[j]
    ensures forall c :: 0 <= c < |cases| ==> (c in order <==> cases[c].enabledByDefault)
  {
    forall i, j | 0 <= i < j < |order|
      ensures order[i] < order[j]
    {
      assert Satisfied(cases, pre, names[j], names[..i]);
      assert Before(cases, [], names[i], names[j]);
      EarlierIndex(cases, order[i], order[j]);
    }
    forall c | 0 <= c < |cases|
      ensures c in order <==> cases[c].enabledByDefault
    {
      PlainReached(cases, pre, c);
      if c in order {
        var k :| 0 <= k < |order| && order[k] == c;
        assert names[k] in names;
      }
      if cases[c].name in names {
        var k :| 0 <= k < |names| && names[k] == cases[c].name;
        SameName(cases, order[k], c);
        assert order[k] == c;
      }
    }
  }

  lemma SameName(cases: seq<CaseDesc>, a: nat, b: nat)
    requires Distinct(Names(cases)) && a < |cases| && b < |cases| && cases[a].name == cases[b].name
    ensures a == b
  {
    assert Names(cases)[a] == Names(cases)[b];
  }

  lemma EarlierIndex(cases: seq<CaseDesc>, a: nat, b: nat)
    requires Distinct(Names(cases)) && a < |cases| && b < |cases|
    requires Earlier(Names(cases), cases[a].name, cases[b].name)
    ensures a <= b
  {
    var names := Names(cases);
    var k :| 0 <= k < |names| && names[k] == cases[a].name && cases[b].name !in names[..k];
    assert names[k] == names[a] && names[b] == cases[b].name;
  }

  lemma FirstStep(cases: seq<CaseDesc>, pre: Prereqs, path: seq<Name>)
    requires Walks(cases, pre, path) && |path| > 1
    ensures path[0] in pre && pre[path[0]] != []
  {
    assert path[0 + 1] in pre[path[0]];
  }

  lemma PlainReached(cases: seq<CaseDesc>, pre: Prereqs, c: nat)
    requires Distinct(Names(cases)) && (forall n :: n in pre ==> pre[n] == []) && c < |cases|
    ensures Reached(cases, [], pre, cases[c].name) <==> cases[c].enabledByDefault
  {
    var n := cases[c].name;
    if Reached(cases, [], pre, n) {
      var path :| WalksTo(cases, [], pre, path, n);
      if |path| > 1 {
        FirstStep(cases, pre, path);
      }
      var i :| 0 <= i < |cases| && cases[i].name == n && cases[i].enabledByDefault;
      SameName(cases, i, c);
    }
    if cases[c].enabledByDefault {
      assert WalksTo(cases, [], pre, [n], n);
    }
  }

  /** The cases behind a list of indices. */
  function NamesAt(cases: seq<CaseDesc>, order: seq<nat>): (s: seq<Name>)
    requires forall i :: 0 <= i < |order| ==> order[i] < |cases|
    ensures |s| == |order| && forall i :: 0 <= i < |s| ==> s[i] == cases[order[i]].name
  {
    seq(|order|, i requires 0 <= i < |order| => cases[order[i]].name)
  }

  /** What indices of the specified order promise. */
  lemma OrderPromise(cases: seq<CaseDesc>, plan: seq<Name>, pre: Prereqs, order: seq<nat>)
    requires Distinct(Names(cases)) && forall i :: 0 <= i < |order| ==> order[i] < |cases|
    requires NamesAt(cases, order) == ExecutionOrder(cases, plan, pre)
    ensures Proper(cases, plan, pre, NamesAt(cases, order))
    ensures plan == [] && (forall n :: n in pre ==> pre[n] == []) ==>
              && (forall i, j :: 0 <= i < j < |order| ==> order[i] < order[j])
              && forall c :: 0 <= c < |cases| ==> (c in order <==> cases[c].enabledByDefault)
  {
    hide Proper, ExecutionOrder;
    OrderProper(cases, plan, pre);
    if plan == [] && forall n :: n in pre ==> pre[n] == [] {
      PlainOrder(cases, pre, order, NamesAt(cases, order));
    }
  }
}
