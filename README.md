# RunForrest, modelled in Dafny

RunForrest runs Python functions as batch jobs. `defer(fun, *args, **kwargs)`
builds a graph of deferred calls instead of calling `fun`. Indexing an
unevaluated result or reading one of its attributes gives a projection node.
(A third projection class, `ResultCall`, is still handled by `evaluate`, but
`Result.__call__` is commented out, so nothing builds one; the model keeps it
as the node `Call`.) A worker process walks the graph with `evaluate` and memoises
every node it has computed under the node's `_id`. An `Executor` stores
scheduled tasks as files in a todo directory. It runs each one in its own worker
process, with at most `nprocesses` workers at once. It then moves the task to a
done or a fail directory and yields the values of the tasks that succeeded.

The model has five modules, one per file.

- `Values` (values.dfy): the Python values the model distinguishes; the
  exceptions; Python's indexing (negative indices included), attribute lookup
  and zero-argument call; and `str` of an index (`KeyStr`, with `Digits`).
- `Graph` (graph.dfy): the node datatype, which replaces the class-name
  dispatch of the source. It also holds the `_id` as the source computes it
  (`Id`), a structural memo key (`NodeKey`), the set of a graph's nodes, and
  `Result.__eq__`.
- `Evaluator` (evaluator.dfy): three definitions of what a graph means.
  - `Denote` is the value with no memo table.
  - `Eval` is the memoised walk. It is generic in the memo key, so it serves
    both `Id` and `NodeKey`.
  - `Evaluate` is the recursive method with its argument loops. It is proved to
    compute `Eval`, and its result is tied to `Denote`.
- `Worker` (worker.dfy): `run_task` turns the outcome into a record
  (`_value`/`_error`) and an exit status.
- `Executor` (executor.dfy): the `Executor` class. Its fields are the three
  directories, the process table and a poll-round clock. The operating system
  (when a worker exits, its exit status, what it wrote) is a `World` of oracles.

User functions are a parameter `ap: Apply`. It maps a function name, the
positional values and the keyword values to a value or an exception. Object
identity (`str(id(self))`) and `uuid4` file names are parameters that the
caller supplies fresh.

The model follows the code as written. Points worth knowing:
- `Result.__eq__` raises `AttributeError` when the `_id`s are equal and either
  side is an index or attribute projection, and it never compares keyword
  arguments. It is not a structural equality.
- `defer` wraps whatever it is given. `schedule` defers only callables; a
  result passed to it is stored as it is, and its extra arguments are ignored.
- Projection `_id`s are plain string concatenations. They are not a structural
  identity, and they collide (see Findings).
- The executor has no per-worker time limit and never kills a worker; it waits
  for each one to exit. A worker's record holds no running time.
- When a worker leaves no output file, the task file is moved to fail and
  nothing is recorded for it.
- `run` yields the values of the successful tasks, not records. Failures are
  yielded nothing.

## Model

| member | source | states |
|---|---|---|
| Values.Position | runforrest.py:363 | Python's index position: defined exactly when `-len <= i < len`, and then it is `i` or `i + len` |
| Values.Index | runforrest.py:363 | `v[k]`: a dict gives the stored value for a key it holds and raises `KeyError(k)` otherwise; a list or a string takes only int indices (`TypeError` for a str key), succeeds exactly for `-len <= i < len` with the element at `Position(i, len)` (a one-character string for a string) and raises `IndexError` otherwise; other values raise `TypeError` |
| Values.Digits | runforrest.py:67 | `str` of a non-negative int: at least one character, all decimal digits, no leading zero, and `0` is the single character "0" |
| Values.DigitsRoundTrip | runforrest.py:67 | reading the decimal string of `n` back, most significant digit first, gives `n` |
| Values.DigitsInjective | runforrest.py:67 | distinct non-negative ints have distinct decimal strings |
| Values.KeyStrInts | runforrest.py:67 | `str` of an index (`KeyStr`) tells int indices apart, negative ones included |
| Graph.ProjectionIds | runforrest.py:56-83 | the `_id` (`Graph.Id`) of a projection is its parent's `_id` followed by `str(index)`, the attribute name, or `_call_`; so projections of parents with equal `_id` by the same accessor get equal `_id`s |
| Graph.IdCollisions | runforrest.py:67 | `_id` is not injective: `r[1]` and `r['1']` share it, so do `r.x` and `r['x']`, so do the nested `r[1][2]` and `r[12]`, and so do `a[23]` and `b[3]` when `a` has id "1" and `b` has id "12" |
| Graph.SameKeySameNode | runforrest.py:37 | in a graph whose application ids are distinct, equal structural keys mean equal nodes |
| Graph.NodeKeyInjective | runforrest.py:37 | the structural key is injective on every graph whose application ids (object identities) are distinct |
| Graph.Equals | runforrest.py:39-45 | `__eq__`: different `_id`s give False, and so does an object whose `_id` attribute differs; an operand without `_id` raises; two applications are equal exactly when id, args and fun agree; with equal `_id`s, an index or attribute projection on either side (for the right side, a deferred one) raises `AttributeError`; True only for an application, against an application with its `_id` or an object carrying its `_id` and `_fun` |
| Evaluator.EvalProjectionStep | runforrest.py:360-367 | `Eval` on a projection whose key is not in the table: the parent is evaluated first, and its exception is the projection's; otherwise the one accessor (`Access`: index, `getattr` or a call without arguments) runs once, after everything the parent ran, and a value is stored under the projection's key |
| Evaluator.EvalApplicationStep | runforrest.py:369-374 | `Eval` on an application whose key is not in the table: positional then keyword arguments against the threaded table, the first exception stops; otherwise the function runs once, last, on the argument values with the keyword names, and a value is stored under the application's key |
| Evaluator.DenoteArgs | runforrest.py:370-371 | successfully evaluated argument lists have one value per argument |
| Evaluator.EvalArgs | runforrest.py:370-371 | the memo walk over an argument list yields one value per argument |
| Evaluator.Evaluate | runforrest.py:338-376 | `evaluate` computes `Eval`. A plain value is returned unchanged and leaves the table untouched. A key already in the table returns the stored value and runs nothing. Every entry of the given table is kept unchanged. Nothing that runs had its key in the given table. On success the node's value is stored under its key |
| Evaluator.EvaluateAll | runforrest.py:370-371 | the argument comprehension evaluates left to right, each argument against the table the previous one left; it stops at the first exception; it computes `EvalArgs` |
| Evaluator.EvalFootprint | runforrest.py:359-376 | the memo walk keeps every table entry. What runs belongs to the graph and had no key in the table. New keys are keys of nodes that ran. On success every node that ran is stored, and so is the root under its key |
| Evaluator.EvalAgreesWithDenote | runforrest.py:338-376 | with a key injective on the graph, the memoised walk returns what the graph means, and the table stays consistent |
| Evaluator.StoreConsistent | runforrest.py:367-374 | storing a node's true value under its key keeps a consistent table consistent |
| Evaluator.EvalOnce | runforrest.py:341-345 | with a key injective on the graph, no memo key is computed twice in one walk |
| Evaluator.EvalNodesOnce | runforrest.py:341-345 | for every memo key, the string `_id` included, no node's function or accessor runs twice in one walk |
| Evaluator.StaleMemoHit | runforrest.py:359-367 | a concrete graph `pair(r[1], r['1'])` with `r = mk()` and distinct ids. The walk keyed by `_id` returns `[10, 10]`, but the graph means `[10, 20]`. The walk keyed structurally returns `[10, 20]` |
| Evaluator.IdComputedTwice | runforrest.py:359-374 | a concrete graph `f(r[1])` with distinct application ids "1" and "11": walked by `_id`, the item and the application both compute the `_id` "11", and the application's store overwrites the item's entry |
| Worker.Finished | runforrest.py:319-324 | success gives `_error` None and `_value` the result; an exception gives `_error` the exception and `_value` None; the record gives back the outcome it was made from |
| Worker.ExitStatus | runforrest.py:329-335 | status 0 exactly when `_error` is None; 1 when the error is raised (`-r`); otherwise 255 (`sys.exit(-1)`) |
| Worker.RunTask | runforrest.py:308-335 | for any memo key: the record holds the memoised walk's outcome, and the status is 0 exactly when no error was recorded; when the key tells the graph's nodes apart, the record holds what the graph means |
| Worker.RunTaskStructural | runforrest.py:338-376 | with the structural key, the walk of every graph whose application ids are distinct gives what the graph means |
| Executor.Classify | runforrest.py:194-216 | a value is yielded exactly when the output exists, loads and the status is 0, and it is the stored `_value`; a missing and an unloadable output are told apart |
| Executor.CompletedWorker | runforrest.py:212-216 | for a worker that ran to completion, whatever its flags, the task is yielded exactly when its evaluation succeeded, with that value; otherwise it fails with its exception |
| Executor.YieldsOfConcat | runforrest.py:168-171 | the values yielded by two stretches of finishing are those of the first followed by those of the second |
| Executor.YieldsOfSuccesses | runforrest.py:165-171 | one value is yielded per successful task, and every yielded value is a success's value |
| Executor.SettleSnoc | runforrest.py:194-216 | finishing tasks one at a time, in order, settles them all: each leaves todo and lands in done or fail by its verdict |
| Executor.SettleConcat | runforrest.py:186-192 | settling one stretch of tasks and then another is settling both together |
| Executor.Executor.constructor | runforrest.py:108-113 | the executor starts over the given directories, with an empty process table |
| Executor.Executor.Schedule | runforrest.py:119-139 | the task is added to todo under a fresh name; nothing else changes |
| Executor.Executor.StartTask | runforrest.py:178-184 | the task gets an entry in the process table; a new entry grows the table by one; the peak table size is updated; the directories do not change |
| Executor.Executor.FinishTask | runforrest.py:194-216 | the task leaves the process table and todo and lands in done (yielding its value) or in fail, by its verdict; the partitions stay disjoint |
| Executor.Executor.Visit | runforrest.py:189-190 | a worker is finished exactly when it has exited in this round |
| Executor.Executor.Poll | runforrest.py:188-192 | one round finishes workers of the table, once each and in some order, and accounts for each by its verdict; every worker finished had exited in that round, and every worker left had not; one round passes |
| Executor.Executor.Wait | runforrest.py:186-192 | `_wait(n)` returns only when fewer than `n` workers run; each finished task is accounted once and yields by its verdict, and had exited in one of the rounds polled during the call |
| Executor.Executor.Admit | runforrest.py:167-169 | after waiting, the next task starts, and at most `n` workers run; the peak never exceeds `n` or the peak before it |
| Executor.Executor.Run | runforrest.py:141-176 | fully consumed: todo and the process table end empty; every listed task is finished exactly once and lands in done or fail by its verdict; the yielded values are the successes' values in completion order; never more than `n` workers at once during this run |
| Executor.Executor.Clean | runforrest.py:233-241 | the three directories are empty afterwards |

Plain definitions without a row of their own: `Values.GetAttr`,
`Values.CallValue` and `Values.KeyStr` are Python's `getattr`, `v()` and `str`
of an index; `Graph.Id` is the `_id` (its properties are on
`Graph.ProjectionIds` and `Graph.IdCollisions`); `Graph.KwArgs` and `Graph.Zip`
take a keyword dictionary apart and put it back together; `Evaluator.Access` is
the accessor a projection applies and `Evaluator.Eval` the memoised walk (their
steps are `Evaluator.EvalProjectionStep` and `Evaluator.EvalApplicationStep`);
`Executor.Scheduled` is the node `schedule` writes: `defer(fun, *args,
**kwargs)` for a callable, the result itself otherwise.

`Evaluator.Evaluate` and `Evaluator.EvaluateAll` return the memo table they
leave. The source mutates the dictionary it is given in place; the table the
model returns is that dictionary after the call. The helpers `Accounted`,
`AccountedNil`, `AccountedSnoc`, `AccountedConcat`, `AccountedStart`,
`ListingStep` and `ListingDone` in `Executor` package the bookkeeping of a
stretch of finished tasks. They say that the tasks `fs` were finished once
each, and that they left the table and todo. They also say that done, fail and
the yielded values are `Settle` and `YieldsOf` of `fs`.

## Left out

- Serialisation with `dill`, file reads and writes, `mkdir`/`rename`/`unlink`: directories are sets of names, and what a worker wrote is the oracle `World.output`.
- `Popen`, `poll()`, `time.sleep`: process control is the oracles `World.exited` and `World.status`, and a sleep is one tick of `clock`.
- `SSHExecutor`, `main` and its argument parsing, `tqdm`, `__del__` with `autoclean`, and every `print` message are not part of this model.
- The reserved-name guard of `Result.__getattr__` (a pickling workaround) is not modelled. `Graph.Equals` uses its effect: reading `_args` or `_fun` from a projection that lacks it raises `AttributeError`.
- `todo_tasks`, `done_tasks`, `fail_tasks` and `ResultIterator.__len__` only read directories, and are not modelled.
- Executor.Executor.Run: `run` returns a lazy iterator; the model consumes it to the end, so stopping part-way through is not modelled.
- Executor.Executor.Poll: the source visits the workers in the table's insertion order; the model visits them in an arbitrary order, so the order of yielded values within one round is not pinned down.
- Executor.Executor.Wait: requires every worker to exit by some round (`Terminates`), and `n >= 1`; with `n = 0` the source's loop never ends.
- Executor.Executor.Run: requires an empty process table at the start, a listing without repeats that is exactly todo, and fresh names; tasks already running from an earlier, unconsumed run are not modelled.
- Executor.Executor.Clean: requires an empty process table; cleaning while workers run is not modelled.
- Executor.Executor.constructor: requires todo, done and fail to be disjoint. On disk a task's name is in both the todo and the done directory from the moment its worker writes its output until `_finish_task` unlinks the todo copy; a run abandoned in between leaves both behind for the next executor, which the model does not represent.
- Executor.Executor.Run: on a todo directory that does not exist (before the first `schedule`, or after `clean`) `run` raises `FileNotFoundError` when it lists it; the model's todo always exists, and an empty one yields nothing.
- Executor.Executor.Schedule: a non-callable that is not a result is not modelled. An object that accepts new attributes evaluates to itself and is yielded; any other value makes the worker fail on setting `_value` and exit with status 1, and `_finish_task` then fails on printing `_error`.
- Evaluator.Evaluate: the source tells a result node from a plain value by whether its class name contains "Result" (runforrest.py:353). A plain value of a class whose name contains "Result" (say, a `ParseResult`) would be taken for a node, and reading its `_id` would raise `AttributeError` unless it has one. The model does not represent class names: `Plain` values are never taken for nodes.
- Graph.Equals: compares argument lists as values; the source's `==` on argument tuples would call `__eq__` on nested results. Against a plain object's `_args`, the arguments count as equal only when all are plain and the object's `_args` lists their values; lists and tuples are not told apart.
- Results nested inside a list, dict or other value, given as an argument or returned by a user function, are not evaluated by the source (only top-level arguments are, runforrest.py:371-372); a `Value` cannot hold a node, so such values are not represented.
- Values.GetAttr: only `Obj` values have attributes; built-in attributes of lists, strings and other values are not modelled.
- Values.Index: slices and tuple keys are not modelled; the keys are ints and strings.
- Values.Index and Values.CallValue: `Obj` stands for an object without `__getitem__` or `__call__`, so indexing or calling it raises `TypeError`; user objects that define these (a numpy array, say) are not modelled.
- User functions are modelled as deterministic and free of side effects, because `ap` is a mathematical function; `Evaluator.EvalAgreesWithDenote` compares the memoised walk with the memo-free `Denote` on that basis. For impure functions the guarantee that carries over is `Evaluator.EvalNodesOnce` (and `Evaluator.EvalOnce`): each node runs at most once per walk.
- Exceptions that are not `Exception` subclasses, for example `KeyboardInterrupt`, are not modelled.

## Findings

| source | as written | input that shows it | evidently intended | confidence | as-written member | corrected member |
|---|---|---|---|---|---|---|
| runforrest.py:67 | a projection's `_id` is `parent._id + str(index)`, a plain concatenation that `evaluate` uses as its memo key | `r = defer(mk)` returning `{1: 10, '1': 20}`; `defer(pair, r[1], r['1'])` evaluates to `[10, 10]`, because `r['1']` hits the memo entry "11" of `r[1]` (a list of lists collides the same way: `r[1][2]` and `r[12]` share an `_id`); an application whose `_id` happens to equal a projection's is computed a second time under the same key and overwrites its entry | each accessor chain has its own memo slot, so the result is `[10, 20]` | not executed | Evaluator.StaleMemoHit, Evaluator.IdComputedTwice, Graph.IdCollisions | Graph.NodeKeyInjective, Evaluator.EvalAgreesWithDenote, Evaluator.EvalOnce |
