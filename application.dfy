/** What the application window does with the worker manager, without the window itself. */
module Application {
  import opened Wrappers
  import opened Workers
  import Validation
  import Manager

  /** The outcome of "show all workers": the empty-list notice, or a table of these workers. */
  datatype View = EmptyNotice | Listing(shown: seq<Worker>)

  /**
   * "Add worker": validates the form; on success creates a new worker from the
   * resolved values and adds it to the manager, on failure leaves the manager as it was.
   */
  method AddWorker(m: Manager.WorkerManager, f: Validation.Form) returns (added: Option<Worker>)
    requires m.Valid()
    modifies m
    ensures m.Valid()
    ensures added.None? <==> Validation.Validate(f).None?
    ensures added.None? ==> m.workers == old(m.workers) && m.queue == old(m.queue)
    ensures added.Some? ==> fresh(added.value) && added.value.Fields() == Validation.Validate(f).value
    ensures added.Some? ==> m.workers == old(m.workers) + [added.value] && m.queue == old(m.queue) + [added.value]
    ensures old(m.Mirrored()) ==> m.Mirrored()
  {
    match Validation.Validate(f)
    case None =>
      added := None;
    case Some(rec) =>
      var w := new Worker(rec.id, rec.name, rec.age, rec.position, rec.salary);
      m.AddWorker(w);
      added := Some(w);
  }

  /** "Show all workers": the notice exactly when the manager holds no worker, else all workers in order. */
  method ShowWorkers(m: Manager.WorkerManager) returns (v: View)
    ensures v.EmptyNotice? <==> |m.workers| == 0
    ensures v.Listing? ==> v.shown == m.workers
  {
    var ws := m.GetAllWorkers();
    if |ws| > 0 {
      v := Listing(ws);
    } else {
      v := EmptyNotice;
    }
  }

  /**
   * Workers are told apart by identity, not by their fields: of two workers entered
   * with the same values, `remove_worker` takes the one added last out of both lists.
   */
  method SameFieldsScenario() returns (a: Worker, b: Worker, m: Manager.WorkerManager, r: Option<Worker>)
    ensures a.Fields() == b.Fields() && a != b
    ensures r == Some(b) && m.workers == [a] && m.queue == [a]
  {
    m := new Manager.WorkerManager();
    a := new Worker("1", "Ana", 30, "Manajer", 5000000);
    b := new Worker("1", "Ana", 30, "Manajer", 5000000);
    m.AddWorker(a);
    m.AddWorker(b);
    r := m.RemoveWorker();
  }
}
