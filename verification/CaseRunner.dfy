/** runner.cpp: registration of cases and the computation of their execution order. Unordered containers are
    sets and maps whose iteration order is left open. */
module CaseRunner {
  import opened CaseOrder
  import opened CaseSelection

  class Runner {
    var cases: seq<CaseDesc>
    var nameToIndex: map<Name, nat>
    var plan: seq<Name>
    var prereq: Prereqs

    ghost predicate Valid()
      reads this
    {
      && Distinct(Names(cases))
      && nameToIndex.Keys == Elements(Names(cases))
      && forall i :: 0 <= i < |cases| ==> cases[i].name in nameToIndex && nameToIndex[cases[i].name] == i
    }

    constructor ()
      ensures Valid() && cases == [] && plan == [] && prereq == map[]
    {
      cases, nameToIndex, plan, prereq := [], map[], [], map[];
    }

    /** A second case of the same name is refused. */
    method AddCase(c: CaseDesc)
      requires Valid()
      modifies `cases, `nameToIndex
      ensures Valid()
      ensures cases == if c.name in Names(old(cases)) then old(cases) else old(cases) + [c]
    {
      if c.name in nameToIndex {
        assert c.name in Elements(Names(cases));
        return;
      }
      assert c.name !in Names(cases) by {
        assert c.name !in Elements(Names(cases));
      }
      ghost var before := Names(cases);
      nameToIndex := nameToIndex[c.name := |cases|];
      cases := cases + [c];
      assert Names(cases) == before + [c.name];
      ElementsSnoc(before, c.name);
    }

    method SetPlan(names: seq<Name>)
      modifies `plan
      ensures plan == names
    {
      plan := names;
    }

    method AddAfter(caseName: Name, afterName: Name)
      modifies `prereq
      ensures PrereqsOf(prereq, caseName) == PrereqsOf(old(prereq), caseName) + [afterName]
      ensures forall n :: n != caseName ==> PrereqsOf(prereq, n) == PrereqsOf(old(prereq), n)
    {
      prereq := prereq[caseName := PrereqsOf(prereq, caseName) + [afterName]];
    }

    predicate CaseExists(name: Name)
      reads this
    {
      name in nameToIndex
    }

    /** Step 1: the plan or the enabled cases, without unregistered names. */
    method InitialSelection() returns (filtered: seq<Name>)
      requires Valid()
      ensures filtered == Chosen(cases, plan)
      ensures forall n :: n in filtered <==> StartsFrom(cases, plan, n)
    {
      var initial: seq<Name> := plan;
      if plan == [] {
        initial := [];
        for i := 0 to |cases|
          invariant initial == EnabledNames(cases[..i])
        {
          assert cases[..i + 1][..i] == cases[..i];
          if cases[i].enabledByDefault {
            initial := initial + [cases[i].name];
          }
        }
        assert cases[..|cases|] == cases;
      }
      filtered := [];
      for i := 0 to |initial|
        invariant filtered == Filter(initial[..i], Elements(Names(cases)))
      {
        assert initial[..i + 1][..i] == initial[..i];
        if CaseExists(initial[i]) {
          filtered := filtered + [initial[i]];
        }
      }
      assert initial[..|initial|] == initial;
      hide Chosen, StartsFrom;
      forall n
        ensures n in filtered <==> StartsFrom(cases, plan, n)
      {
        ChosenExact(cases, plan, n);
        assert n in filtered <==> n in Elements(filtered);
      }
    }

    /** Step 2: adds registered prerequisites, breadth first, until nothing is missing. */
    method SelectClosure(filtered: seq<Name>) returns (selected: set<Name>)
      requires Valid() && Elements(filtered) <= Elements(Names(cases))
      ensures selected == Closure(Elements(filtered), prereq, Elements(Names(cases)))
    {
      ghost var registered := Elements(Names(cases));
      selected := set n | n in filtered;
      var q := filtered;
      assert selected == Elements(filtered);
      while q != []
        invariant Elements(filtered) <= selected <= registered && Elements(q) <= selected
        invariant forall n, p :: n in selected && n !in q && p in PrereqsOf(prereq, n) && p in registered ==> p in selected
        invariant Least(Elements(filtered), prereq, registered, selected)
        decreases registered - selected, |q|
      {
        var cur := q[0];
        ghost var before, queue := selected, q;
        assert cur in Elements(q);
        q := q[1..];
        var pres := PrereqsOf(prereq, cur);
        for i := 0 to |pres|
          invariant before <= selected <= registered && Elements(q) <= selected
          invariant queue[1..] <= q && (selected == before ==> q == queue[1..])
          invariant forall n :: n in selected && n !in before ==> n in q
          invariant forall p :: p in pres[..i] && p in registered ==> p in selected
          invariant Least(Elements(filtered), prereq, registered, selected)
        {
          var p := pres[i];
          assert pres[..i + 1] == pres[..i] + [p];
          if CaseExists(p) && p !in selected {
            LeastGrows(Elements(filtered), prereq, registered, selected, cur, p);
            ElementsSnoc(q, p);
            selected := selected + {p};
            q := q + [p];
          }
        }
        assert pres[..|pres|] == pres;
        assert forall n :: n in queue && n != cur ==> n in queue[1..];
      }
      ClosureUnique(Elements(filtered), prereq, registered, selected);
    }
  
    /** Step 3: plan positions first, then registration order behind them. */
    method AssignRanks(selected: set<Name>) returns (rank: map<Name, nat>)
      requires Valid()
      ensures Ranked(rank, Priority(plan, Names(cases), selected))
    {
      var base;
      rank, base := RankPlan(selected);
      rank := RankRest(selected, rank, base);
    }

    /** Planned cases get the position of their first appearance. */
    method RankPlan(selected: set<Name>) returns (rank: map<Name, nat>, base: nat)
      ensures Ranked(rank, Dedup(Filter(plan, selected)))
      ensures forall m :: m in rank ==> rank[m] < base
    {
      rank, base := map[], 0;
      assert Dedup(Filter(plan[..0], selected)) == [];
      hide Dedup, Filter;
      assert Ranked(rank, []);
      hide Ranked;
      for i := 0 to |plan|
        invariant Ranked(rank, Dedup(Filter(plan[..i], selected)))
        invariant base <= i && forall m :: m in rank ==> rank[m] < base
      {
        var n := plan[i];
        PlanRank(plan, i, selected, rank, base);
        if n in selected && n !in rank {
          rank := rank[n := i];
          base := Max(base, i + 1);
        }
      }
      assert plan[..|plan|] == plan;
    }

    /** The other selected cases follow in registration order. */
    method RankRest(selected: set<Name>, planned: map<Name, nat>, base: nat) returns (rank: map<Name, nat>)
      requires Valid() && Ranked(planned, Dedup(Filter(plan, selected)))
      requires forall m :: m in planned ==> planned[m] < base
      ensures Ranked(rank, Priority(plan, Names(cases), selected))
    {
      hide Dedup, Filter, Ranked;
      ghost var names, head, keep := Names(cases), Dedup(Filter(plan, selected)), selected - Elements(plan);
      rank := planned;
      var r := base;
      FilterEmpty(keep);
      RankedKeys(planned, head);
      assert names[..0] == [] && head + [] == head;
      for i := 0 to |cases|
        invariant Ranked(rank, head + Filter(names[..i], keep))
        invariant rank.Keys == Elements(head + Filter(names[..i], keep))
        invariant forall m :: m in rank ==> rank[m] < r
      {
        var n := cases[i].name;
        RegistrationStep(names, i, selected, plan);
        ghost var list := head + Filter(names[..i], keep);
        if n in selected && n !in rank {
          RankedSnoc(rank, list, n, r);
          RankedKeys(rank[n := r], list + [n]);
          assert list + [n] == head + Filter(names[..i + 1], keep);
          rank := rank[n := r];
          r := r + 1;
        }
      }
      assert names[..|cases|] == names;
    }

    /** Step 4: one edge from every selected prerequisite entry to its case. */
    method BuildGraph(selected: set<Name>) returns (adj: map<Name, seq<Name>>, indeg: map<Name, nat>)
      ensures Graph(prereq, selected, adj, indeg)
    {
      indeg := map n | n in selected :: 0;
      adj := map n | n in selected :: [];
      var todo := selected;
      while todo != {}
        invariant todo <= selected && PartialGraph(prereq, selected, todo, adj, indeg)
        decreases todo
      {
        var n :| n in todo;
        ghost var before, counts := adj, indeg;
        adj, indeg := AddEdges(selected, n, adj, indeg);
        GraphStep(prereq, selected, todo, n, before, counts, adj, indeg);
        todo := todo - {n};
      }
    }

    method AddEdges(selected: set<Name>, n: Name, adj: map<Name, seq<Name>>, indeg: map<Name, nat>)
      returns (adj': map<Name, seq<Name>>, indeg': map<Name, nat>)
      requires adj.Keys == selected == indeg.Keys && n in selected
      ensures adj'.Keys == selected
      ensures indeg' == indeg[n := indeg[n] + |Filter(PrereqsOf(prereq, n), selected)|]
      ensures forall p :: p in selected ==> MoreEdges(adj[p], adj'[p], n, multiset(PrereqsOf(prereq, n))[p])
    {
      hide MoreEdges, Filter, Occurrences;
      adj', indeg' := adj, indeg;
      var pres := PrereqsOf(prereq, n);
      OccurrencesFacts(pres);
      FilterEmpty(selected);
      forall p | p in selected
        ensures MoreEdges(adj[p], adj[p], n, 0)
      {
        NoMoreEdges(adj[p], n);
      }
      for i := 0 to |pres|
        invariant adj'.Keys == selected
        invariant indeg' == indeg[n := indeg[n] + |Filter(pres[..i], selected)|]
        invariant forall p :: p in selected ==> MoreEdges(adj[p], adj'[p], n, Occurrences(pres, i, p))
      {
        var p := pres[i];
        assert pres[..i + 1] == pres[..i] + [p];
        FilterSnoc(pres[..i], p, selected);
        OccurrencesNext(pres, i);
        if p in selected {
          OneMoreEdge(adj[p], adj'[p], n, Occurrences(pres, i, p));
          adj' := adj'[p := adj'[p] + [n]];
          indeg' := indeg'[n := indeg'[n] + 1];
        }
      }
      assert pres[..|pres|] == pres;
    }

    /** The cases without open prerequisites, in whatever order the map yields them. */
    method InitialReady(indeg: map<Name, nat>) returns (ready: seq<Name>)
      ensures ReadyList(indeg.Keys, [], ready, indeg)
    {
      ready := [];
      var todo := indeg.Keys;
      while todo != {}
        invariant todo <= indeg.Keys && Distinct(ready)
        invariant forall m :: m in ready <==> m in indeg && m !in todo && indeg[m] == 0
        decreases todo
      {
        var n :| n in todo;
        if indeg[n] == 0 {
          ready := ready + [n];
        }
        todo := todo - {n};
      }
    }

    /** `pick_min_rank`: the position of the least rank; -1 stands for the largest size_t. */
    method PickMinRank(rank: map<Name, nat>, v: seq<Name>) returns (bestI: nat)
      requires v != [] && forall i :: 0 <= i < |v| ==> v[i] in rank
      ensures bestI < |v| && forall i :: 0 <= i < |v| ==> rank[v[bestI]] <= rank[v[i]]
    {
      bestI := 0;
      var bestR: int := -1;
      for i := 0 to |v|
        invariant if i == 0 then bestR == -1 && bestI == 0 else bestI < i && bestR == rank[v[bestI]]
        invariant forall j :: 0 <= j < i ==> rank[v[bestI]] <= rank[v[j]]
      {
        if bestR == -1 || rank[v[i]] < bestR {
          bestR, bestI := rank[v[i]], i;
        }
      }
    }

    /** Step 5: Kahn's sort, always taking the ready case of least rank. */
    method KahnSort(ghost priority: seq<Name>, rank: map<Name, nat>, adj: map<Name, seq<Name>>, indeg0: map<Name, nat>)
      returns (ordered: seq<Name>)
      requires Distinct(priority) && Ranked(rank, priority)
      requires Graph(prereq, Elements(priority), adj, indeg0)
      ensures ordered == Sort(priority, prereq, [])
    {
      hide Counted, ReadyList, Progress, Graph, PartialGraph, Ranked, Open, Distinct, EdgeList, Sort, IsReady;
      ghost var selected := Elements(priority);
      var indeg := indeg0;
      GraphCounted(prereq, selected, adj, indeg);
      var ready := InitialReady(indeg);
      ordered := [];
      EmptyProgress(priority, prereq);
      while ready != []
        invariant Counted(prereq, selected, ordered, indeg)
        invariant ReadyList(selected, ordered, ready, indeg)
        invariant Progress(priority, prereq, ordered)
        invariant Sort(priority, prereq, ordered) == Sort(priority, prereq, [])
        decreases |selected - Elements(ordered)|
      {
        ReadyRanked(rank, priority, ordered, ready, indeg);
        var bestI := PickMinRank(rank, ready);
        var n := ready[bestI];
        PickIsFirst(prereq, rank, priority, ordered, ready, indeg, n);
        ProgressSnoc(priority, prereq, ordered, n);
        Shrinks(priority, ordered, n);
        AdjacencyOf(prereq, selected, adj, indeg0, n);
        ReadyErase(selected, ordered, ready, indeg, bestI);
        ready := ready[..bestI] + ready[bestI + 1..];
        indeg, ready := Release(priority, ordered, n, adj[n], indeg, ready);
        ordered := ordered + [n];
      }
      NoneReady(prereq, priority, ordered, ready, indeg);
    }

    /** The cases that wait for n have one entry less open each time they are listed. */
    method Release(ghost priority: seq<Name>, ghost ordered: seq<Name>, n: Name, list: seq<Name>,
                   indeg0: map<Name, nat>, ready0: seq<Name>) returns (indeg: map<Name, nat>, ready: seq<Name>)
      requires n in Elements(priority) && n !in ordered
      requires Counted(prereq, Elements(priority), ordered, indeg0)
      requires Progress(priority, prereq, ordered + [n])
      requires EdgeList(prereq, Elements(priority), {}, n, list)
      requires ReadyList(Elements(priority), ordered + [n], ready0, indeg0)
      ensures Counted(prereq, Elements(priority), ordered + [n], indeg)
      ensures ReadyList(Elements(priority), ordered + [n], ready, indeg)
    {
      hide Open, Progress, EdgeList, ReadyList, Remaining, Counted;
      ghost var selected := Elements(priority);
      indeg, ready := indeg0, ready0;
      RemainingStart(prereq, selected, ordered, indeg);
      assert list[..0] == [];
      for k := 0 to |list|
        invariant Remaining(prereq, selected, ordered, list[..k], indeg)
        invariant ReadyList(selected, ordered + [n], ready, indeg)
      {
        var nxt := list[k];
        StillOpen(prereq, priority, ordered, n, list, k);
        RemainingStep(prereq, selected, ordered, list[..k], nxt, indeg);
        ReadyStep(selected, ordered + [n], ready, indeg, nxt);
        assert list[..k + 1] == list[..k] + [nxt];
        indeg := indeg[nxt := indeg[nxt] - 1];
        if indeg[nxt] == 0 {
          ready := ready + [nxt];
        }
      }
      assert list[..|list|] == list;
      AllReleased(prereq, selected, ordered, n, list, indeg);
    }

    /** The cases a cycle kept from being sorted, by rank. */
    method Leftover(ghost priority: seq<Name>, rank: map<Name, nat>, selected: set<Name>, ordered: seq<Name>)
      returns (leftover: seq<Name>)
      requires Distinct(priority) && Ranked(rank, priority) && selected == Elements(priority)
      ensures leftover == Filter(priority, selected - Elements(ordered))
    {
      ghost var missing := selected - Elements(ordered);
      var unsorted := Collect(selected, ordered);
      RankedInjective(rank, priority);
      assert forall i :: 0 <= i < |unsorted| ==> unsorted[i] in Elements(unsorted);
      leftover := SortByRank(rank, unsorted);
      FilterRankSorted(rank, priority, missing);
      FilterContents(priority, missing);
      RankSortedUnique(rank, leftover, Filter(priority, missing));
    }

    method Collect(selected: set<Name>, ordered: seq<Name>) returns (leftover: seq<Name>)
      ensures Distinct(leftover) && Elements(leftover) == selected - Elements(ordered)
    {
      leftover := [];
      var todo := selected;
      while todo != {}
        invariant todo <= selected && Distinct(leftover)
        invariant Elements(leftover) == selected - todo - Elements(ordered)
        decreases todo
      {
        var n :| n in todo;
        if n !in ordered {
          assert n !in Elements(leftover);
          ElementsSnoc(leftover, n);
          leftover := leftover + [n];
        }
        todo := todo - {n};
      }
    }

    method SortByRank(rank: map<Name, nat>, s: seq<Name>) returns (sorted: seq<Name>)
      requires Distinct(s) && (forall i :: 0 <= i < |s| ==> s[i] in rank)
      requires forall a, b :: a in rank && b in rank && rank[a] == rank[b] ==> a == b
      ensures RankSorted(rank, sorted) && Elements(sorted) == Elements(s)
    {
      sorted := [];
      var rest := s;
      while rest != []
        invariant Distinct(rest) && (forall i :: 0 <= i < |rest| ==> rest[i] in rank)
        invariant RankSorted(rank, sorted)
        invariant forall i, j :: 0 <= i < |sorted| && 0 <= j < |rest| ==> rank[sorted[i]] < rank[rest[j]]
        invariant Elements(s) == Elements(sorted) + Elements(rest)
        decreases |rest|
      {
        var bestI := PickMinRank(rank, rest);
        var n := rest[bestI];
        Erase(rest, bestI);
        ElementsSnoc(sorted, n);
        sorted := sorted + [n];
        rest := rest[..bestI] + rest[bestI + 1..];
      }
      assert Elements([]) == {};
    }

    /** The whole computation. It keeps the promise of a run, which leaves one order only, so its result does not
        depend on how any unordered container is iterated; without a plan and without prerequisites it runs the
        enabled cases in the order of registration. */
    method ComputeExecutionOrder() returns (order: seq<nat>)
      requires Valid()
      ensures forall i :: 0 <= i < |order| ==> order[i] < |cases|
      ensures Proper(cases, plan, prereq, NamesAt(cases, order))
      ensures plan == [] && (forall n :: n in prereq ==> prereq[n] == []) ==>
                && (forall i, j :: 0 <= i < j < |order| ==> order[i] < order[j])
                && forall c :: 0 <= c < |cases| ==> (c in order <==> cases[c].enabledByDefault)
    {
      hide Proper, Ranked, Graph, Sort, Filter, Dedup, Closed;
      ghost var registered, want := Names(cases), ExecutionOrder(cases, plan, prereq);
      ChosenRegistered(cases, plan);
      var filtered := InitialSelection();
      if filtered == [] {
        NothingSelected(cases, plan, prereq);
        order := [];
        assert NamesAt(cases, order) == want;
        OrderPromise(cases, plan, prereq, order);
        return;
      }
      var selected := SelectClosure(filtered);
      ghost var priority := Priority(plan, registered, selected);
      PriorityContents(plan, registered, selected);
      var rank := AssignRanks(selected);
      var adj, indeg := BuildGraph(selected);
      var ordered := KahnSort(priority, rank, adj, indeg);
      if |ordered| != |selected| {
        var leftover := Leftover(priority, rank, selected, ordered);
        ordered := ordered + leftover;
      } else {
        AllSorted(priority, prereq);
      }
      assert ordered == want;
      OrderPermutes(priority, prereq);
      order := ToIndices(ordered);
      assert NamesAt(cases, order) == want;
      OrderPromise(cases, plan, prereq, order);
    }

    method ToIndices(ordered: seq<Name>) returns (order: seq<nat>)
      requires Valid() && Elements(ordered) <= Elements(Names(cases))
      ensures |order| == |ordered|
      ensures forall i :: 0 <= i < |order| ==> order[i] < |cases| && cases[order[i]].name == ordered[i]
    {
      order := [];
      for i := 0 to |ordered|
        invariant |order| == i
        invariant forall j :: 0 <= j < i ==> order[j] < |cases| && cases[order[j]].name == ordered[j]
      {
        assert ordered[i] in Elements(ordered);
        ghost var k :| 0 <= k < |cases| && Names(cases)[k] == ordered[i];
        if ordered[i] in nameToIndex {
          order := order + [nameToIndex[ordered[i]]];
        }
      }
    }
  }

  lemma Erase(s: seq<Name>, i: nat)
    requires i < |s| && Distinct(s)
    ensures var t := s[..i] + s[i + 1..];
            Distinct(t) && Elements(s) == Elements(t) + {s[i]} && s[i] !in Elements(t)
  {
    assert s == s[..i] + [s[i]] + s[i + 1..];
  }

  lemma RankedInjective(rank: map<Name, nat>, priority: seq<Name>)
    requires Ranked(rank, priority)
    ensures forall a, b :: a in rank && b in rank && rank[a] == rank[b] ==> a == b
  {
    forall a, b | a in rank && b in rank && rank[a] == rank[b]
      ensures a == b
    {
      assert a in Elements(priority) && b in Elements(priority);
      var i :| 0 <= i < |priority| && priority[i] == a;
      var j :| 0 <= j < |priority| && priority[j] == b;
    }
  }

  lemma NothingSelected(cases: seq<CaseDesc>, plan: seq<Name>, pre: Prereqs)
    requires Chosen(cases, plan) == []
    ensures ExecutionOrder(cases, plan, pre) == []
  {
    var registered := Elements(Names(cases));
    assert Elements([]) == {} && Closed({}, pre, registered);
    assert Closure({}, pre, registered) == {};
    FilterNone(plan, {});
    FilterNone(Names(cases), {});
    assert {} - Elements(plan) == {};
    assert Priority(plan, Names(cases), {}) == [];
  }

  lemma {:induction false} Cardinality(s: seq<Name>)
    requires Distinct(s)
    ensures |Elements(s)| == |s|
  {
    if s != [] {
      var t, x := s[..|s| - 1], s[|s| - 1];
      Cardinality(t);
      assert s == t + [x];
      ElementsSnoc(t, x);
      assert x !in Elements(t);
    } else {
      assert Elements(s) == {};
    }
  }

  /** Equal counts mean the sort is complete. */
  lemma AllSorted(priority: seq<Name>, pre: Prereqs)
    requires Distinct(priority) && |Sort(priority, pre, [])| == |Elements(priority)|
    ensures Order(priority, pre) == Sort(priority, pre, [])
  {
    var sorted := Sort(priority, pre, []);
    EmptyProgress(priority, pre);
    SortProgress(priority, pre, []);
    Cardinality(sorted);
    SubsetOfSameSize(Elements(sorted), Elements(priority));
    FilterNone(priority, {});
    assert Elements(priority) - Elements(sorted) == {};
  }

  lemma SubsetOfSameSize(a: set<Name>, b: set<Name>)
    requires a <= b && |a| == |b|
    ensures a == b
  {
    assert |b - a| == 0;
  }

  /** `indeg` counts the open entries but for those already taken off. */
  ghost predicate Remaining(pre: Prereqs, selected: set<Name>, done: seq<Name>, taken: seq<Name>, indeg: map<Name, nat>) {
    && indeg.Keys == selected
    && forall m :: m in selected ==> indeg[m] + multiset(taken)[m] == Open(pre, selected, done, m)
  }

  lemma RemainingStart(pre: Prereqs, selected: set<Name>, done: seq<Name>, indeg: map<Name, nat>)
    requires Counted(pre, selected, done, indeg)
    ensures Remaining(pre, selected, done, [], indeg)
  {
    hide Open;
  }

  lemma RemainingStep(pre: Prereqs, selected: set<Name>, done: seq<Name>, taken: seq<Name>, n: Name, indeg: map<Name, nat>)
    requires Remaining(pre, selected, done, taken, indeg)
    requires n in selected && Open(pre, selected, done, n) > multiset(taken)[n]
    ensures n in indeg && indeg[n] > 0
    ensures Remaining(pre, selected, done, taken + [n], indeg[n := indeg[n] - 1])
  {
    hide Open;
  }

  lemma ReadyStep(selected: set<Name>, done: seq<Name>, ready: seq<Name>, indeg: map<Name, nat>, n: Name)
    requires ReadyList(selected, done, ready, indeg)
    requires n in selected && n !in done && n in indeg && indeg[n] > 0
    ensures var left := indeg[n] - 1;
            ReadyList(selected, done, if left == 0 then ready + [n] else ready, indeg[n := left])
  {
  }

  /** `indeg` counts the open prerequisite entries. */
  ghost predicate Counted(pre: Prereqs, selected: set<Name>, done: seq<Name>, indeg: map<Name, nat>) {
    indeg.Keys == selected && forall m :: m in selected ==> indeg[m] == Open(pre, selected, done, m)
  }

  /** `ready` lists, once each, the cases that are not done and have nothing open. */
  ghost predicate ReadyList(selected: set<Name>, done: seq<Name>, ready: seq<Name>, indeg: map<Name, nat>) {
    && Distinct(ready)
    && forall m :: m in ready <==> m in selected && m !in done && m in indeg && indeg[m] == 0
  }

  lemma ReadyRanked(rank: map<Name, nat>, priority: seq<Name>, done: seq<Name>, ready: seq<Name>, indeg: map<Name, nat>)
    requires Ranked(rank, priority) && ReadyList(Elements(priority), done, ready, indeg)
    ensures forall i :: 0 <= i < |ready| ==> ready[i] in rank
  {
    forall i | 0 <= i < |ready|
      ensures ready[i] in rank
    {
      assert ready[i] in ready;
    }
  }

  /** Being in the ready list is being ready. */
  lemma ReadyListed(pre: Prereqs, priority: seq<Name>, done: seq<Name>, ready: seq<Name>, indeg: map<Name, nat>, m: Name)
    requires Counted(pre, Elements(priority), done, indeg) && ReadyList(Elements(priority), done, ready, indeg)
    ensures m in ready <==> IsReady(priority, pre, done, m)
  {
    OpenZero(priority, pre, done, m);
    assert m in Elements(priority) <==> m in priority;
  }

  lemma PickIsFirst(pre: Prereqs, rank: map<Name, nat>, priority: seq<Name>, done: seq<Name>, ready: seq<Name>,
                    indeg: map<Name, nat>, n: Name)
    requires Ranked(rank, priority) && n in ready
    requires Counted(pre, Elements(priority), done, indeg) && ReadyList(Elements(priority), done, ready, indeg)
    requires forall i :: 0 <= i < |ready| ==> ready[i] in rank && n in rank && rank[n] <= rank[ready[i]]
    ensures IsReady(priority, pre, done, n) && n in priority && n !in done && n in Elements(priority)
    ensures Sort(priority, pre, done) == Sort(priority, pre, done + [n])
  {
    ReadyListed(pre, priority, done, ready, indeg, n);
    forall m | IsReady(priority, pre, done, m) && m in rank
      ensures rank[n] <= rank[m]
    {
      ReadyListed(pre, priority, done, ready, indeg, m);
    }
    LeastRankIsFirst(rank, priority, pre, done, n);
  }

  lemma NoneReady(pre: Prereqs, priority: seq<Name>, done: seq<Name>, ready: seq<Name>, indeg: map<Name, nat>)
    requires ready == []
    requires Counted(pre, Elements(priority), done, indeg) && ReadyList(Elements(priority), done, ready, indeg)
    ensures Sort(priority, pre, done) == done
  {
    var r := FirstReady(priority, pre, done, 0);
    if r < |priority| {
      ReadyListed(pre, priority, done, ready, indeg, priority[r]);
    }
  }

  lemma AdjacencyOf(pre: Prereqs, selected: set<Name>, adj: map<Name, seq<Name>>, indeg: map<Name, nat>, n: Name)
    requires Graph(pre, selected, adj, indeg) && n in selected
    ensures n in adj && EdgeList(pre, selected, {}, n, adj[n])
  {
  }

  lemma GraphCounted(pre: Prereqs, selected: set<Name>, adj: map<Name, seq<Name>>, indeg: map<Name, nat>)
    requires Graph(pre, selected, adj, indeg)
    ensures indeg.Keys == selected && Counted(pre, selected, [], indeg)
  {
    hide Open;
  }

  lemma ReadyErase(selected: set<Name>, done: seq<Name>, ready: seq<Name>, indeg: map<Name, nat>, i: nat)
    requires i < |ready| && ReadyList(selected, done, ready, indeg)
    ensures ReadyList(selected, done + [ready[i]], ready[..i] + ready[i + 1..], indeg)
  {
    var n, rest := ready[i], ready[..i] + ready[i + 1..];
    forall m
      ensures m in rest <==> m in ready && m != n
    {
      assert ready == ready[..i] + [n] + ready[i + 1..];
    }
  }

  /** A listed case still has an open entry and is not done. */
  lemma StillOpen(pre: Prereqs, priority: seq<Name>, done: seq<Name>, n: Name, list: seq<Name>, k: nat)
    requires k < |list| && n in Elements(priority) && n !in done
    requires EdgeList(pre, Elements(priority), {}, n, list) && Progress(priority, pre, done + [n])
    ensures list[k] in Elements(priority) && list[k] !in done + [n]
    ensures Open(pre, Elements(priority), done, list[k]) > multiset(list[..k])[list[k]]
  {
    var m, selected := list[k], Elements(priority);
    assert list == list[..k] + [m] + list[k + 1..];
    assert multiset(list)[m] > multiset(list[..k])[m];
    OpenStep(pre, selected, done, n, m);
    if m in done + [n] {
      var i :| 0 <= i <= |done| && (done + [n])[i] == m;
      DoneHasNothingOpen(pre, priority, done + [n], i, done);
    }
  }

  lemma DoneHasNothingOpen(pre: Prereqs, priority: seq<Name>, s: seq<Name>, i: nat, done: seq<Name>)
    requires Progress(priority, pre, s) && i < |s| && i <= |done| && done <= s
    ensures Open(pre, Elements(priority), done, s[i]) == 0
  {
    assert Unblocked(priority, pre, s[..i], s[i]);
    assert s[..i] == done[..i];
    OpenZero(priority, pre, done, s[i]);
    assert forall q :: q in done[..i] ==> q in done;
  }

  lemma AllReleased(pre: Prereqs, selected: set<Name>, done: seq<Name>, n: Name, list: seq<Name>, indeg: map<Name, nat>)
    requires n in selected && n !in done
    requires EdgeList(pre, selected, {}, n, list)
    requires Remaining(pre, selected, done, list, indeg)
    ensures Counted(pre, selected, done + [n], indeg)
  {
    forall m | m in selected
      ensures indeg[m] == Open(pre, selected, done + [n], m)
    {
      OpenStep(pre, selected, done, n, m);
    }
  }

  /** `after` has k more edges to n than `before`, and otherwise the same. */
  ghost predicate MoreEdges(before: seq<Name>, after: seq<Name>, n: Name, k: nat) {
    forall m :: multiset(after)[m] == multiset(before)[m] + if m == n then k else 0
  }

  /** How often p stands in the first i places. */
  function Occurrences(s: seq<Name>, i: nat, p: Name): nat
    requires i <= |s|
  {
    multiset(s[..i])[p]
  }

  lemma OccurrencesFacts(s: seq<Name>)
    ensures forall p :: Occurrences(s, 0, p) == 0 && Occurrences(s, |s|, p) == multiset(s)[p]
  {
    assert s[..|s|] == s;
  }

  lemma OccurrencesNext(s: seq<Name>, i: nat)
    requires i < |s|
    ensures forall p :: Occurrences(s, i + 1, p) == Occurrences(s, i, p) + if p == s[i] then 1 else 0
  {
    assert s[..i + 1] == s[..i] + [s[i]];
  }

  lemma NoMoreEdges(s: seq<Name>, n: Name)
    ensures MoreEdges(s, s, n, 0)
  {
  }

  lemma OneMoreEdge(before: seq<Name>, after: seq<Name>, n: Name, k: nat)
    requires MoreEdges(before, after, n, k)
    ensures MoreEdges(before, after + [n], n, k + 1)
  {
  }

  lemma EdgeCount(before: seq<Name>, after: seq<Name>, n: Name, k: nat, m: Name)
    requires MoreEdges(before, after, n, k)
    ensures multiset(after)[m] == multiset(before)[m] + if m == n then k else 0
  {
  }

  function Max(a: nat, b: nat): nat {
    if a > b then a else b
  }

  lemma FilterEmpty(keep: set<Name>)
    ensures Filter([], keep) == []
  {
  }

  lemma FilterSnoc(s: seq<Name>, x: Name, keep: set<Name>)
    ensures Filter(s + [x], keep) == if x in keep then Filter(s, keep) + [x] else Filter(s, keep)
  {
    assert (s + [x])[..|s|] == s;
  }

  lemma RankedKeys(rank: map<Name, nat>, priority: seq<Name>)
    requires Ranked(rank, priority)
    ensures rank.Keys == Elements(priority)
  {
  }

  /** The adjacency lists count, with multiplicity, the prerequisite entries; the in-degrees sum them up. */
  ghost predicate Graph(pre: Prereqs, selected: set<Name>, adj: map<Name, seq<Name>>, indeg: map<Name, nat>) {
    PartialGraph(pre, selected, {}, adj, indeg)
  }

  /** The same while the cases in `todo` have not been looked at. */
  ghost predicate PartialGraph(pre: Prereqs, selected: set<Name>, todo: set<Name>, adj: map<Name, seq<Name>>,
                               indeg: map<Name, nat>)
  {
    && adj.Keys == selected && indeg.Keys == selected
    && (forall m :: m in selected ==> indeg[m] == if m in todo then 0 else Open(pre, selected, [], m))
    && (forall p :: p in selected ==> EdgeList(pre, selected, todo, p, adj[p]))
  }

  /** `list` names every selected case outside `todo` as often as that case lists p as a prerequisite. */
  ghost predicate EdgeList(pre: Prereqs, selected: set<Name>, todo: set<Name>, p: Name, list: seq<Name>) {
    forall m :: multiset(list)[m] == if m in selected && m !in todo then multiset(PrereqsOf(pre, m))[p] else 0
  }

  lemma EdgeListStep(pre: Prereqs, selected: set<Name>, todo: set<Name>, n: Name, p: Name, before: seq<Name>,
                     after: seq<Name>)
    requires n in todo && todo <= selected && EdgeList(pre, selected, todo, p, before)
    requires MoreEdges(before, after, n, multiset(PrereqsOf(pre, n))[p])
    ensures EdgeList(pre, selected, todo - {n}, p, after)
  {
    forall m
      ensures multiset(after)[m] == if m in selected && m !in todo - {n} then multiset(PrereqsOf(pre, m))[p] else 0
    {
      EdgeCount(before, after, n, multiset(PrereqsOf(pre, n))[p], m);
    }
  }

  lemma GraphStep(pre: Prereqs, selected: set<Name>, todo: set<Name>, n: Name, adj: map<Name, seq<Name>>,
                  indeg: map<Name, nat>, adj': map<Name, seq<Name>>, indeg': map<Name, nat>)
    requires n in todo && todo <= selected && PartialGraph(pre, selected, todo, adj, indeg)
    requires adj'.Keys == selected
    requires indeg' == indeg[n := indeg[n] + |Filter(PrereqsOf(pre, n), selected)|]
    requires forall p :: p in selected ==> MoreEdges(adj[p], adj'[p], n, multiset(PrereqsOf(pre, n))[p])
    ensures PartialGraph(pre, selected, todo - {n}, adj', indeg')
  {
    hide Filter, MoreEdges, EdgeList;
    assert selected - Elements([]) == selected;
    forall p | p in selected
      ensures EdgeList(pre, selected, todo - {n}, p, adj'[p])
    {
      EdgeListStep(pre, selected, todo, n, p, adj[p], adj'[p]);
    }
  }

  lemma PlanStep(plan: seq<Name>, i: nat, selected: set<Name>)
    requires i < |plan|
    ensures var d, n := Dedup(Filter(plan[..i], selected)), plan[i];
            Dedup(Filter(plan[..i + 1], selected))
              == if n in selected && n !in Elements(d) then d + [n] else d
  {
    var f, n := Filter(plan[..i], selected), plan[i];
    assert plan[..i + 1][..i] == plan[..i];
    DedupContents(f);
    if n in selected {
      assert (f + [n])[..|f|] == f;
      assert n in f <==> n in Elements(f);
    }
  }

  /** A planned case that has no rank yet gets its position. */
  lemma PlanRank(plan: seq<Name>, i: nat, selected: set<Name>, rank: map<Name, nat>, base: nat)
    requires i < |plan| && Ranked(rank, Dedup(Filter(plan[..i], selected)))
    requires base <= i && forall m :: m in rank ==> rank[m] < base
    ensures var rank' := if plan[i] in selected && plan[i] !in rank then rank[plan[i] := i] else rank;
            Ranked(rank', Dedup(Filter(plan[..i + 1], selected)))
  {
    hide Dedup, Filter;
    var d := Dedup(Filter(plan[..i], selected));
    PlanStep(plan, i, selected);
    RankedKeys(rank, d);
    hide Ranked;
    if plan[i] !in rank {
      RankedSnoc(rank, d, plan[i], i);
    }
  }

  lemma RegistrationStep(names: seq<Name>, i: nat, selected: set<Name>, plan: seq<Name>)
    requires i < |names| && Distinct(names)
    ensures var d, n := Dedup(Filter(plan, selected)), names[i];
            var f, keep := Filter(names[..i], selected - Elements(plan)), selected - Elements(plan);
            && (n in selected && n !in Elements(d + f) <==> n in keep)
            && Filter(names[..i + 1], keep) == (if n in keep then f + [n] else f)
  {
    var d, n, keep := Dedup(Filter(plan, selected)), names[i], selected - Elements(plan);
    var f := Filter(names[..i], keep);
    assert names[..i + 1][..i] == names[..i];
    DedupContents(Filter(plan, selected));
    FilterContents(plan, selected);
    FilterContents(names[..i], keep);
    assert Elements(d + f) == Elements(d) + Elements(f);
    assert n !in Elements(names[..i]);
  }

  /** `s` is contained in every closed set around the chosen cases. */
  ghost predicate Least(chosen: set<Name>, pre: Prereqs, registered: set<Name>, s: set<Name>) {
    forall t: set<Name> :: chosen <= t && Closed(t, pre, registered) ==> s <= t
  }

  lemma LeastGrows(chosen: set<Name>, pre: Prereqs, registered: set<Name>, s: set<Name>, n: Name, p: Name)
    requires Least(chosen, pre, registered, s) && n in s && p in PrereqsOf(pre, n) && p in registered
    ensures Least(chosen, pre, registered, s + {p})
  {
  }

  lemma ClosureUnique(chosen: set<Name>, pre: Prereqs, registered: set<Name>, s: set<Name>)
    requires chosen <= s <= registered && Closed(s, pre, registered) && Least(chosen, pre, registered, s)
    ensures s == Closure(chosen, pre, registered)
  {
  }
}
