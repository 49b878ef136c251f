/** What becomes of every element offered to a bounded queue. Elements are known by their serial number, the
    order in which they arrived. */
module Ledger {
  import ByteFifo

  datatype Book = Book(arrivals: nat, queued: seq<nat>, served: seq<nat>, dropped: seq<nat>, cleared: seq<nat>)

  const EMPTY := Book(0, [], [], [], [])

  /** One clock: the head may be served, an element may arrive and is queued, dropped when there is no room, or
      lost to a clear together with everything that waited. */
  function Next(b: Book, depth: nat, clear: bool, arrives: bool, popReady: bool): Book {
    var pops := ByteFifo.PopFires(b.queued, popReady);
    var served := if pops then b.served + [b.queued[0]] else b.served;
    var rest := if pops then b.queued[1..] else b.queued;
    var fresh' := if arrives then [b.arrivals] else [];
    var arrivals := b.arrivals + |fresh'|;
    if clear then Book(arrivals, [], served, b.dropped, b.cleared + rest + fresh')
    else if ByteFifo.PushReady(b.queued, depth, popReady) then
      Book(arrivals, rest + fresh', served, b.dropped, b.cleared)
    else Book(arrivals, rest, served, b.dropped + fresh', b.cleared)
  }

  predicate Increasing(s: seq<nat>) {
    forall i, j :: 0 <= i < j < |s| ==> s[i] < s[j]
  }

  function Everything(b: Book): multiset<nat> {
    multiset(b.served) + multiset(b.queued) + multiset(b.dropped) + multiset(b.cleared)
  }

  /** Every arrival has exactly one fate, and those served or still queued keep their order of arrival. */
  ghost predicate Balanced(b: Book) {
    && Increasing(b.served + b.queued)
    && (forall n: nat :: Everything(b)[n] == if n < b.arrivals then 1 else 0)
  }

  lemma InBook(b: Book, n: nat)
    requires Balanced(b) && (n in b.served || n in b.queued || n in b.dropped || n in b.cleared)
    ensures n < b.arrivals
  {
    assert Everything(b)[n] > 0;
  }

  lemma MoveHead(served: seq<nat>, queued: seq<nat>)
    requires queued != []
    ensures (served + [queued[0]]) + queued[1..] == served + queued
    ensures multiset(served + [queued[0]]) + multiset(queued[1..]) == multiset(served) + multiset(queued)
  {
    assert queued == [queued[0]] + queued[1..];
  }

  lemma IncreasingSnoc(s: seq<nat>, n: nat)
    requires Increasing(s) && forall i :: 0 <= i < |s| ==> s[i] < n
    ensures Increasing(s + [n])
  {
  }

  lemma IncreasingPrefix(a: seq<nat>, b: seq<nat>)
    requires Increasing(a + b)
    ensures Increasing(a)
  {
    forall i, j | 0 <= i < j < |a|
      ensures a[i] < a[j]
    {
      assert (a + b)[i] < (a + b)[j];
    }
  }

  lemma Regroup(a: multiset<nat>, b: multiset<nat>, c: multiset<nat>, d: multiset<nat>, all: multiset<nat>)
    requires forall n: nat :: a[n] + b[n] + c[n] + d[n] == all[n]
    ensures a + b + c + d == all
  {
  }

  lemma NextEverything(b: Book, depth: nat, clear: bool, arrives: bool, popReady: bool)
    ensures Everything(Next(b, depth, clear, arrives, popReady))
         == Everything(b) + (if arrives then multiset{b.arrivals} else multiset{})
  {
    var pops := ByteFifo.PopFires(b.queued, popReady);
    if pops {
      MoveHead(b.served, b.queued);
    }
    var served := if pops then b.served + [b.queued[0]] else b.served;
    var rest := if pops then b.queued[1..] else b.queued;
    var fresh' := if arrives then [b.arrivals] else [];
    var s, r, f := multiset(served), multiset(rest), multiset(fresh');
    assert f == if arrives then multiset{b.arrivals} else multiset{};
    assert s + r == multiset(b.served) + multiset(b.queued);
    var d, c := multiset(b.dropped), multiset(b.cleared);
    if clear {
      assert multiset(b.cleared + rest + fresh') == c + r + f;
      Regroup(s, multiset{}, d, c + r + f, s + r + d + c + f);
    } else if ByteFifo.PushReady(b.queued, depth, popReady) {
      assert multiset(rest + fresh') == r + f;
      Regroup(s, r + f, d, c, s + r + d + c + f);
    } else {
      assert multiset(b.dropped + fresh') == d + f;
      Regroup(s, r, d + f, c, s + r + d + c + f);
    }
  }

  /** Serving the head keeps order, and so does queueing the newest arrival. */
  lemma NextIncreasing(b: Book, depth: nat, clear: bool, arrives: bool, popReady: bool)
    requires Balanced(b)
    ensures var b' := Next(b, depth, clear, arrives, popReady); Increasing(b'.served + b'.queued)
  {
    var b' := Next(b, depth, clear, arrives, popReady);
    var pops := ByteFifo.PopFires(b.queued, popReady);
    if pops {
      MoveHead(b.served, b.queued);
    }
    var rest := if pops then b.queued[1..] else b.queued;
    var all := b'.served + rest;
    assert all == b.served + b.queued;
    forall i | 0 <= i < |all|
      ensures all[i] < b.arrivals
    {
      InBook(b, all[i]);
    }
    IncreasingSnoc(all, b.arrivals);
    assert all + [b.arrivals] == b'.served + (rest + [b.arrivals]);
    assert rest + [] == rest;
    IncreasingPrefix(b'.served, rest);
    assert b'.served + [] == b'.served;
  }

  /** The books stay balanced whatever happens. */
  lemma NextBalanced(b: Book, depth: nat, clear: bool, arrives: bool, popReady: bool)
    requires Balanced(b)
    ensures Balanced(Next(b, depth, clear, arrives, popReady))
  {
    NextIncreasing(b, depth, clear, arrives, popReady);
    NextEverything(b, depth, clear, arrives, popReady);
    hide Everything, Increasing;
  }

  /** The elements behind a list of serial numbers. */
  function Select<T>(items: seq<T>, serials: seq<nat>): (s: seq<T>)
    requires forall i :: 0 <= i < |serials| ==> serials[i] < |items|
    ensures |s| == |serials|
    ensures forall i :: 0 <= i < |s| ==> s[i] == items[serials[i]]
  {
    seq(|serials|, i requires 0 <= i < |serials| => items[serials[i]])
  }

  ghost predicate Known(b: Book) {
    && (forall i :: 0 <= i < |b.queued| ==> b.queued[i] < b.arrivals)
    && (forall i :: 0 <= i < |b.served| ==> b.served[i] < b.arrivals)
    && (forall i :: 0 <= i < |b.dropped| ==> b.dropped[i] < b.arrivals)
    && (forall i :: 0 <= i < |b.cleared| ==> b.cleared[i] < b.arrivals)
  }

  lemma ListKnown(b: Book, s: seq<nat>)
    requires Balanced(b) && (s == b.queued || s == b.served || s == b.dropped || s == b.cleared)
    ensures forall i :: 0 <= i < |s| ==> s[i] < b.arrivals
  {
    forall i | 0 <= i < |s|
      ensures s[i] < b.arrivals
    {
      assert s[i] in s;
      InBook(b, s[i]);
    }
  }

  lemma BalancedKnown(b: Book)
    requires Balanced(b)
    ensures Known(b)
  {
    ListKnown(b, b.queued);
    ListKnown(b, b.served);
    ListKnown(b, b.dropped);
    ListKnown(b, b.cleared);
  }

  /** The book describes real sequences: each real sequence holds the elements its serial numbers name. */
  ghost predicate Describes<T>(b: Book, items: seq<T>, queue: seq<T>, served: seq<T>, dropped: seq<T>, cleared: seq<T>) {
    && Balanced(b) && Known(b) && |items| == b.arrivals
    && queue == Select(items, b.queued)
    && served == Select(items, b.served)
    && dropped == Select(items, b.dropped)
    && cleared == Select(items, b.cleared)
  }

  /** One clock of a real bounded queue stays described by one clock of the book. */
  lemma NextDescribes<T>(b: Book, items: seq<T>, queue: seq<T>, served: seq<T>, dropped: seq<T>, cleared: seq<T>,
                         depth: nat, clear: bool, arrives: bool, data: T, popReady: bool)
    requires Describes(b, items, queue, served, dropped, cleared)
    ensures var pops := ByteFifo.PopFires(queue, popReady);
            var room := ByteFifo.PushReady(queue, depth, popReady);
            var rest := if pops then queue[1..] else queue;
            var new' := if arrives then [data] else [];
            Describes(Next(b, depth, clear, arrives, popReady),
                      items + new',
                      ByteFifo.Next(queue, depth, clear, arrives && !clear, data, popReady),
                      served + (if pops then [queue[0]] else []),
                      dropped + (if !clear && !room then new' else []),
                      cleared + (if clear then rest + new' else []))
  {
    NextBalanced(b, depth, clear, arrives, popReady);
    BalancedKnown(Next(b, depth, clear, arrives, popReady));
  }

  // ---- Counting, and the case where nothing is lost ----

  function Upto(n: nat): multiset<nat> {
    if n == 0 then multiset{} else Upto(n - 1) + multiset{n - 1}
  }

  lemma {:induction false} UptoContents(n: nat)
    ensures |Upto(n)| == n
    ensures forall k: nat :: Upto(n)[k] == if k < n then 1 else 0
  {
    if n > 0 {
      UptoContents(n - 1);
    }
  }

  /** Conservation of numbers. */
  lemma BalancedCount(b: Book)
    requires Balanced(b)
    ensures b.arrivals == |b.served| + |b.queued| + |b.dropped| + |b.cleared|
  {
    UptoContents(b.arrivals);
    assert Everything(b) == Upto(b.arrivals);
  }

  /** An increasing list of n numbers below n is 0, 1, .., n - 1. */
  lemma {:induction false} FullIncreasing(s: seq<nat>, n: nat, i: nat)
    requires Increasing(s) && |s| == n && i < n
    requires forall k :: 0 <= k < n ==> s[k] < n
    ensures s[i] == i
  {
    AtLeast(s, i);
    AtMost(s, n, i);
  }

  lemma {:induction false} AtLeast(s: seq<nat>, i: nat)
    requires Increasing(s) && i < |s|
    ensures s[i] >= i
  {
    if i > 0 {
      AtLeast(s, i - 1);
      assert s[i - 1] < s[i];
    }
  }

  lemma {:induction false} AtMost(s: seq<nat>, n: nat, i: nat)
    requires Increasing(s) && i < |s| == n
    requires forall k :: 0 <= k < n ==> s[k] < n
    ensures s[i] <= i
    decreases n - i
  {
    if i + 1 < n {
      AtMost(s, n, i + 1);
      assert s[i] < s[i + 1];
    }
  }

  /** When nothing was dropped or cleared, the arrivals are exactly what was served followed by what waits. */
  lemma NothingLost<T>(b: Book, items: seq<T>, queue: seq<T>, served: seq<T>)
    requires Describes(b, items, queue, served, [], [])
    ensures items == served + queue
  {
    BalancedCount(b);
    var all := b.served + b.queued;
    forall i | 0 <= i < |all|
      ensures all[i] < |items|
    {
      InBook(b, all[i]);
    }
    forall i | 0 <= i < |items|
      ensures items[i] == (served + queue)[i]
    {
      FullIncreasing(all, |items|, i);
    }
  }
}
