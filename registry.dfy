/**
 * The abstract state of a worker manager: `workers`, used as a stack, and
 * `queue`, used as a queue, together with the effect of each operation on them.
 * The class in module Manager is proved against these functions.
 */
module Registry {
  import opened Wrappers
  import ListOps

  datatype Lists<T> = Lists(workers: seq<T>, queue: seq<T>)

  /** One call on the manager: `add_worker(w)` or `remove_worker()`. */
  datatype Op<T> = Add(w: T) | Remove

  /** Both lists hold the same elements, each as often in one as in the other. */
  ghost predicate Consistent<T>(l: Lists<T>)
  {
    multiset(l.workers) == multiset(l.queue)
  }

  /** No element occurs twice in the list. */
  ghost predicate Distinct<T>(s: seq<T>)
  {
    forall i, j :: 0 <= i < j < |s| ==> s[i] != s[j]
  }

  /** The two lists are the same sequence and no worker occurs in it twice. */
  ghost predicate Mirrored<T>(l: Lists<T>)
  {
    l.workers == l.queue && Distinct(l.workers)
  }

  function Empty<T>(): (l: Lists<T>)
    ensures Consistent(l) && |l.workers| == 0
  {
    Lists([], [])
  }

  /** `add_worker(w)`: `w` is appended to both lists. */
  function Added<T>(l: Lists<T>, w: T): (r: Lists<T>)
    ensures Consistent(l) ==> Consistent(r)
  {
    Lists(l.workers + [w], l.queue + [w])
  }

  /**
   * `remove_worker()`: on an empty manager, `None` and nothing changes; otherwise the
   * last element of `workers` is popped and its first occurrence is removed from `queue`.
   */
  function Removed<T(==)>(l: Lists<T>): (r: (Option<T>, Lists<T>))
    requires Consistent(l)
    ensures Consistent(r.1)
    ensures |l.workers| == 0 ==> r == (None, l)
    ensures |l.workers| > 0 ==> r.0 == Some(l.workers[|l.workers| - 1])
    ensures |l.workers| > 0 ==> r.1.workers == l.workers[..|l.workers| - 1]
    ensures |l.workers| > 0 ==> |r.1.queue| == |l.queue| - 1
    ensures |l.workers| > 0 ==>
              l.workers[|l.workers| - 1] in l.queue &&
              r.1.queue == ListOps.RemoveFirst(l.queue, l.workers[|l.workers| - 1])
  {
    if |l.workers| == 0 then (None, l)
    else
      var n := |l.workers|;
      var w := l.workers[n - 1];
      assert l.workers == l.workers[..n - 1] + [w];
      assert w in multiset(l.queue);
      ListOps.RemoveFirstCounts(l.queue, w);
      (Some(w), Lists(l.workers[..n - 1], ListOps.RemoveFirst(l.queue, w)))
  }

  function Step<T(==)>(l: Lists<T>, op: Op<T>): (r: Lists<T>)
    requires Consistent(l)
    ensures Consistent(r)
  {
    match op
    case Add(w) => Added(l, w)
    case Remove => Removed(l).1
  }

  /** The state after performing `ops` in order, starting from `l`. */
  function Run<T(==)>(l: Lists<T>, ops: seq<Op<T>>): (r: Lists<T>)
    requires Consistent(l)
    ensures Consistent(r)
    decreases |ops|
  {
    if |ops| == 0 then l else Step(Run(l, ops[..|ops| - 1]), ops[|ops| - 1])
  }

  /** The operations `add_worker(ws[0])`, ..., `add_worker(ws[|ws| - 1])`. */
  function Adds<T>(ws: seq<T>): (ops: seq<Op<T>>)
    ensures |ops| == |ws|
  {
    seq(|ws|, i requires 0 <= i < |ws| => Add(ws[i]))
  }

  /** After a run of adds and no removals, both lists hold exactly the added workers, in order. */
  lemma {:induction false} AddsInOrder<T>(l: Lists<T>, ws: seq<T>)
    requires Consistent(l)
    ensures Run(l, Adds(ws)) == Lists(l.workers + ws, l.queue + ws)
  {
    if |ws| > 0 {
      var n := |ws|;
      assert Adds(ws)[..n - 1] == Adds(ws[..n - 1]);
      AddsInOrder(l, ws[..n - 1]);
      assert ws == ws[..n - 1] + [ws[n - 1]];
    }
  }

  /** From an empty manager, `get_all_workers` after N adds yields those N workers in insertion order. */
  lemma AddsFromEmpty<T>(ws: seq<T>)
    ensures Run(Empty(), Adds(ws)).workers == ws
  {
    AddsInOrder(Empty(), ws);
  }

  /**
   * A remove right after `add_worker(w)` returns `w` and restores `workers`; it also
   * restores `queue` when `w` was not already in the manager.
   */
  lemma RemoveAfterAdd<T>(l: Lists<T>, w: T)
    requires Consistent(l)
    ensures Removed(Added(l, w)).0 == Some(w)
    ensures Removed(Added(l, w)).1.workers == l.workers
    ensures w !in l.queue ==> Removed(Added(l, w)) == (Some(w), l)
  {
    var a := Added(l, w);
    assert a.workers[..|a.workers| - 1] == l.workers;
    if w !in l.queue {
      ListOps.RemoveFirstAt(a.queue, w, |l.queue|);
      assert a.queue[..|l.queue|] + a.queue[|l.queue| + 1..] == l.queue;
    }
  }

  /**
   * Adding the same worker twice lets the two lists drift into different orders:
   * after add(a), add(b), add(a), remove, `workers` is [a, b] and `queue` is [b, a].
   */
  lemma DuplicateReorders<T>(a: T, b: T)
    requires a != b
    ensures var l := Removed(Added(Added(Added(Empty(), a), b), a)).1;
            l.workers == [a, b] && l.queue == [b, a] && l.workers != l.queue
  {
    var l3 := Added(Added(Added(Empty(), a), b), a);
    assert l3.workers == [a, b, a] && l3.queue == [a, b, a];
    ListOps.RemoveFirstAt(l3.queue, a, 0);
    assert l3.workers[..2] == [a, b];
    assert l3.queue[1..] == [b, a];
  }

  /** Adding a worker that is not yet present keeps the lists equal and duplicate-free. */
  lemma AddFreshKeepsMirrored<T>(l: Lists<T>, w: T)
    requires Mirrored(l) && w !in l.workers
    ensures Mirrored(Added(l, w))
  {
  }

  /** When the lists are equal and duplicate-free, a remove keeps them so. */
  lemma {:induction false} RemoveKeepsMirrored<T>(l: Lists<T>)
    requires Mirrored(l)
    ensures Consistent(l) && Mirrored(Removed(l).1)
  {
    var n := |l.workers|;
    if n > 0 {
      var w := l.workers[n - 1];
      ListOps.RemoveFirstAt(l.queue, w, n - 1);
      assert l.queue[n..] == [];
      assert l.queue[..n - 1] + [] == l.queue[..n - 1];
    }
  }
}
