/** The worker manager: two lists of the same workers, one used as a stack and one as a queue. */
module Manager {
  import opened Wrappers
  import opened Workers
  import Registry
  import ListOps

  class WorkerManager {
    var workers: seq<Worker>
    var queue: seq<Worker>

    /** The state as a value, for the functions and lemmas of module Registry. */
    function State(): Registry.Lists<Worker>
      reads this
    {
      Registry.Lists(workers, queue)
    }

    /** The object invariant: both lists hold the same workers, each equally often. */
    ghost predicate Valid()
      reads this
    {
      Registry.Consistent(State())
    }

    /** As long as only the application adds workers, the two lists are in fact the same sequence. */
    ghost predicate Mirrored()
      reads this
    {
      Registry.Mirrored(State())
    }

    constructor ()
      ensures Valid() && Mirrored()
      ensures workers == [] && queue == []
      ensures State() == Registry.Empty()
    {
      workers := [];
      queue := [];
    }

    /** `add_worker`: appends `w` to both lists. */
    method AddWorker(w: Worker)
      requires Valid()
      modifies this
      ensures Valid()
      ensures workers == old(workers) + [w] && queue == old(queue) + [w]
      ensures State() == Registry.Added(old(State()), w)
      ensures old(Mirrored()) && w !in old(workers) ==> Mirrored()
    {
      workers := workers + [w];
      queue := queue + [w];
    }

    /**
     * `remove_worker`: on an empty manager returns `None` and changes nothing;
     * otherwise pops the last worker of `workers`, deletes its first occurrence
     * from `queue` and returns it.
     */
    method RemoveWorker() returns (r: Option<Worker>)
      requires Valid()
      modifies this
      ensures Valid()
      ensures old(|workers|) == 0 ==> r == None && workers == old(workers) && queue == old(queue)
      ensures old(|workers|) > 0 ==> r == Some(old(workers[|workers| - 1]))
      ensures old(|workers|) > 0 ==> workers == old(workers[..|workers| - 1])
      ensures old(|workers|) > 0 ==>
                old(workers[|workers| - 1] in queue) && queue == ListOps.RemoveFirst(old(queue), r.value)
      ensures (r, State()) == Registry.Removed(old(State()))
      ensures old(Mirrored()) ==> Mirrored()
    {
      if |workers| == 0 {
        return None;
      }
      ghost var before := State();
      var n := |workers|;
      var w := workers[n - 1];
      assert w in multiset(queue) by {
        assert workers == workers[..n - 1] + [w];
      }
      workers := workers[..n - 1];
      var rest := ListOps.ListRemove(queue, w);
      queue := rest.value;
      r := Some(w);
      assert (r, State()) == Registry.Removed(before);
      if Registry.Mirrored(before) {
        Registry.RemoveKeepsMirrored(before);
      }
    }

    /** `get_all_workers`: the workers in insertion order, without changing anything. */
    method GetAllWorkers() returns (ws: seq<Worker>)
      ensures ws == workers
    {
      ws := workers;
    }
  }
}
