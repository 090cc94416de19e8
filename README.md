# Worker registry of ManajemenPendataanPekerja, modelled in Dafny

The program is a desktop form for recording workers (id, name, age, position,
salary) in memory and showing them in a table. Its logic sits in
`worker_manager.py`:

- `Worker`, a record whose five fields are set when it is created;
- `WorkerManager`, which keeps every worker in two lists: `workers`, used as a
  stack, and `queue`, used as a queue. `add_worker` appends to both lists.
  `remove_worker` pops the last element of `workers` and then deletes the first
  occurrence of that worker from `queue`. `get_all_workers` returns `workers`;
- the non-interface part of the window's "add worker" action. It resolves the
  position: the choice `"Lainnya"` ("other") means the hand-typed text is used.
  It then checks the fields and builds a `Worker` with `int(age)` and
  `int(salary)`;
- the decision of "show all workers" between the empty-list notice and the table.

Modules, one per concept:

- `Wrappers` (`wrappers.dfy`): `Option`, for Python's `None`.
- `ListOps` (`list_ops.dfy`): Python's `list.remove`. `RemoveFirst` is its
  reference definition. `IndexOf` and `ListRemove` are the search for the first
  occurrence, with a loop. `ListRemove` returns `None` where Python raises
  `ValueError`.
- `Registry` (`registry.dfy`): the two lists as a value (`Lists`), the effect of
  each operation (`Added`, `Removed`), runs of operations (`Run`) and lemmas
  about them.
- `Workers` (`workers.dfy`): the `Worker` class. `Worker` defines no `__eq__`, so
  Python compares workers by identity. In the model, `Worker` is a Dafny class
  with constant fields, and Dafny compares class references by identity too.
- `Manager` (`manager.dfy`): `WorkerManager`, a class whose two `seq` fields the
  methods reassign. Its object invariant `Valid()` says that both lists hold the
  same multiset of workers. The constructor, `AddWorker` and `RemoveWorker`
  are proved against the matching function of `Registry` (`Empty`, `Added`,
  `Removed`). `GetAllWorkers` changes nothing and returns `workers`.
- `Validation` (`validation.dfy`): position resolution, the `isdigit` check, the
  decimal value of a digit string (`DecimalValue`) and the whole check
  (`Validate`), as pure functions.
- `Application` (`application.dfy`): "add worker" and "show all workers" as
  methods over a `WorkerManager`.

The two lists are not always equal. `pop` takes the last occurrence of a worker
and `remove` its first, so when the same worker object is added twice the lists
can end up holding the same workers in different orders: after adding a, b, a
and removing once, `workers` is [a, b] and `queue` is [b, a]
(`Registry.DuplicateReorders`). The
application itself always adds a freshly created worker, and then the two lists
stay one duplicate-free sequence (`Mirrored`, kept by `Application.AddWorker`
and `WorkerManager.RemoveWorker`).

## Model

| member | source | states |
|---|---|---|
| `Workers.Worker.constructor` | worker_manager.py:5-10 | a new worker carries exactly the five values it was created with |
| `Manager.WorkerManager.constructor` | worker_manager.py:13-15 | a new manager has two empty lists, its state is `Registry.Empty()`, and the invariant holds from the start |
| `Manager.WorkerManager.AddWorker` | worker_manager.py:17-19 | both lists grow by the given worker at the end and keep all earlier elements; both lists keep the same multiset; a worker that was not yet present keeps the lists equal |
| `Manager.WorkerManager.RemoveWorker` | worker_manager.py:21-26 | on an empty manager it returns `None` and changes nothing; otherwise it returns the last element of `workers`, and `workers` loses exactly that element; the worker is present in `queue`, and `queue` loses its first occurrence; both lists keep the same multiset |
| `Manager.WorkerManager.GetAllWorkers` | worker_manager.py:28-29 | returns the workers in insertion order and changes nothing |
| `ListOps.RemoveFirst` | worker_manager.py:24 | the reference definition of what `list.remove` leaves behind: the list without the first element equal to the given one, one element shorter; `RemoveFirstCounts` and `RemoveFirstAt` carry its meaning |
| `ListOps.IndexOf` | worker_manager.py:24 | the result is -1 exactly when the worker is absent; otherwise it is the first position holding that worker |
| `ListOps.ListRemove` | worker_manager.py:24 | `list.remove`: without the worker it fails; with it, the result is the list without the worker's first occurrence |
| `ListOps.RemoveFirstCounts` | worker_manager.py:24 | removing a present element shortens the list by one and takes exactly one copy of it out of the multiset |
| `ListOps.RemoveFirstAt` | worker_manager.py:24 | removing the element whose first occurrence is at position i is the same as cutting position i out of the list |
| `Registry.Empty` | worker_manager.py:14-15 | the initial state: both lists empty, same multiset |
| `Registry.Added` | worker_manager.py:17-19 | appending one worker to both lists preserves "same multiset" |
| `Registry.Removed` | worker_manager.py:21-26 | an empty state gives `None` and is unchanged; otherwise the result is the last worker, `workers` loses its last element, that worker is in `queue` and `queue` loses its first occurrence, and "same multiset" is preserved |
| `Registry.Step` | worker_manager.py:17-26 | every operation preserves "same multiset" |
| `Registry.Run` | worker_manager.py:17-26 | every run of operations preserves "same multiset" |
| `Registry.AddsInOrder` | worker_manager.py:17-19 | after a run of adds and no removals, both lists hold the earlier contents followed by exactly the added workers, in order |
| `Registry.AddsFromEmpty` | worker_manager.py:14-19 | from an empty manager, N adds leave `workers`, which `get_all_workers` returns, equal to those N workers in insertion order |
| `Registry.RemoveAfterAdd` | worker_manager.py:17-25 | a remove right after adding a worker returns that worker and restores `workers`; it also restores `queue` when the worker was not already present |
| `Registry.DuplicateReorders` | worker_manager.py:23-24 | after adding a, b, a and removing once, `workers` is [a, b] and `queue` is [b, a]: the lists hold the same multiset but are no longer equal |
| `Registry.AddFreshKeepsMirrored` | worker_manager.py:17-19 | adding a worker that is not yet present keeps the two lists equal and duplicate-free |
| `Registry.RemoveKeepsMirrored` | worker_manager.py:22-24 | when the lists are equal and duplicate-free, a remove keeps them equal and duplicate-free |
| `Validation.ResolvePosition` | worker_manager.py:113-114 | the stored position is the hand-typed text when the choice is "Lainnya", and the choice itself otherwise |
| `Validation.IsDigitString` | worker_manager.py:116 | `str.isdigit()` on ASCII text: an accepted string is non-empty and holds no sign, blank or `_`, so text such as "-5" that `int()` would read is rejected |
| `Validation.DecimalValue` | worker_manager.py:117 | the reference definition of `int()` on a digit string; a string of n digits denotes less than 10 to the n; `DecimalValueOfDecimal`, `DecimalOfDecimalValue` and `LeadingZeroIgnored` carry its meaning |
| `Validation.Validate` | worker_manager.py:113-117 | a record is produced if and only if id and name are non-empty, age and salary are non-empty digit strings and the resolved position is non-empty; the record holds id, name, the resolved position, and the decimal values of age and salary |
| `Validation.DecimalValueOfDecimal` | worker_manager.py:117 | reading back the decimal numeral of any number gives that number |
| `Validation.DecimalOfDecimalValue` | worker_manager.py:117 | a digit string without leading zeros is the decimal numeral of its own value |
| `Validation.LeadingZeroIgnored` | worker_manager.py:117 | a leading zero does not change the value of a digit string |
| `Validation.ValidateFormFor` | worker_manager.py:106-117 | for every record with non-empty id, name and position, the form that spells it out is accepted and gives back that record; this holds for a chosen position other than "Lainnya", and for any non-empty position typed after choosing "Lainnya" |
| `Validation.RejectedForms` | worker_manager.py:116 | submissions are rejected with an empty id, an empty name, age "abc", an empty age, salary "-5", an empty position, and "Lainnya" with no typed text |
| `Validation.AcceptedForms` | worker_manager.py:113-117 | id "1", name "Ana", age "30", position "Manajer" and salary "5000000" give that worker with age 30 and salary 5000000; "Lainnya" with the typed text "Konsultan" stores "Konsultan"; age "041" is 41 |
| `Application.AddWorker` | worker_manager.py:106-122 | a worker is created and added exactly when validation accepts the form; the new worker is a new object carrying the validated values and is appended to both lists; on rejection both lists are unchanged; when the lists are equal and duplicate-free before, they stay so |
| `Application.ShowWorkers` | worker_manager.py:139-144 | the empty-list notice is shown exactly when the manager holds no worker; otherwise the table lists all workers in insertion order |
| `Application.SameFieldsScenario` | worker_manager.py:21-25 | two workers entered with the same values are still different workers; removing takes the one added last out of both lists |

## Left out

- The window: theme, widgets, layout, the combobox list of positions and its event binding, showing and hiding the hand-typed position field, both popups, the message boxes and their texts, the table window, `clear_entries` and the main loop. They are presentation over the tkinter library, which is not part of this model. What the form holds when "add worker" is pressed is the parameter `Form`.
- `str.isdigit` is modelled on ASCII `'0'..'9'` only. Python also accepts other Unicode digits. For superscript digits, `int` then raises an error. For the decimal digits of other scripts, such as fullwidth "３０", `int` succeeds (giving 30) and the program stores the worker, while the model rejects that form.
- `Validation.Validate`: accepts digit strings of any length. From CPython 3.11, and the 3.7.14, 3.8.14, 3.9.14 and 3.10.7 security releases onward, `int()` by default refuses a string of more than 4300 digits with `ValueError`. At worker_manager.py:117 that aborts the callback, and no worker is created. The model has no such limit and returns a record for these inputs. The repository does not fix a Python version, so the limit is not modelled.
- `Manager.WorkerManager.GetAllWorkers`: Python returns the list object itself, so a caller could change the manager through it. The model returns the sequence as a value and does not capture that aliasing.
- `Manager.WorkerManager.RemoveWorker`: requires the invariant `Valid()`. The Python lists are public attributes, so code outside the class could break the invariant and make `remove` raise `ValueError`. The model does not capture changes made from outside the class.
- Python does not constrain the types of a worker's fields. The model gives age and salary the type `nat`, which is what the application always stores.
