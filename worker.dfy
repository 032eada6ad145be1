/** `run_task`: what a worker process does with one task. It evaluates the task's
    graph, records the value or the exception on the task, writes the task to its
    output file and exits with a status that says whether the evaluation raised. */
module Worker {
  import opened Values
  import opened Graph
  import opened Evaluator

  /** The worker's command-line flags: `-p` prints the error, `-r` raises it. */
  datatype Flags = Quiet | PrintErrors | RaiseErrors

  /** The task as the worker writes it back: `_value` and `_error` set. */
  datatype Record = Record(task: Node, value: Value, error: Option<Exception>)

  /** What a record says the evaluation came to. */
  function RecordOutcome(rec: Record): Outcome<Value> {
    if rec.error.Some? then Err(rec.error.value) else Ok(rec.value)
  }

  /** The `try`/`except` around `evaluate`: on success `_error` is `None` and `_value`
      the result; on an exception `_error` is the exception and `_value` is `None`.
      The record gives back the outcome it was made from. */
  function Finished(task: Node, o: Outcome<Value>): (rec: Record)
    ensures rec.task == task
    ensures RecordOutcome(rec) == o
    ensures rec.error.None? <==> o.Ok?
    ensures o.Ok? ==> rec.value == o.value
    ensures o.Err? ==> rec.value == PyNone && rec.error == Some(o.error)
  {
    match o
    case Ok(v) => Record(task, v, None)
    case Err(e) => Record(task, PyNone, Some(e))
  }

  /** The worker's exit status as its parent sees it. `sys.exit(-1)` is status 255
      (an exit status is the argument modulo 256); with `-r` the exception escapes
      the interpreter, which exits with status 1. */
  function ExitStatus(rec: Record, flags: Flags): (status: int)
    ensures status == 0 <==> rec.error.None?
    ensures rec.error.Some? && flags == RaiseErrors ==> status == 1
    ensures rec.error.Some? && flags != RaiseErrors ==> status == 255
    ensures 0 <= status < 256
  {
    if rec.error.None? then 0
    else if flags == RaiseErrors then 1
    else -1 % 256
  }

  /** `run_task(infile, outfile, do_print, do_raise)` for a task already loaded. The
      walk starts from an empty memo table. The memo key is a parameter: the
      source's is the string `_id` (`Graph.Id`); under a key that tells the graph's
      nodes apart, such as the structural `Graph.NodeKey` on any graph the source
      builds, the record holds what the graph means. */
  method RunTask<K(==)>(task: Node, flags: Flags, ap: Apply, key: Node -> K) returns (rec: Record, status: int)
    ensures rec == Finished(task, Eval(task, map[], ap, key).out)
    ensures status == ExitStatus(rec, flags)
    ensures status == 0 <==> rec.error.None?
    ensures Injective(key, Nodes(task)) ==> RecordOutcome(rec) == Denote(task, ap)
  {
    var r, _, _ := Evaluate(Deferred(task), map[], ap, key);
    rec := Finished(task, r);
    status := ExitStatus(rec, flags);
    if Injective(key, Nodes(task)) {
      EvalAgreesWithDenote(task, map[], ap, key, Nodes(task));
    }
  }

  /** With the structural key, the record of every task the source can build holds
      what the task's graph means. */
  lemma RunTaskStructural(task: Node, ap: Apply)
    requires UniqueAppIds(Nodes(task))
    ensures Eval(task, map[], ap, NodeKey).out == Denote(task, ap)
  {
    NodeKeyInjective(task);
    EvalAgreesWithDenote(task, map[], ap, NodeKey, Nodes(task));
  }
}
