/** The `Executor`: the bookkeeping that moves scheduled tasks from the todo
    directory to the done or the fail directory, running at most a given number of
    worker processes at a time.

    Directories are sets of file names, the process table maps each running task's
    file name to the flags its worker was started with, and everything the
    operating system decides (when a worker exits, its exit status, what it wrote)
    comes from a `World` of oracles. */
module Executor {
  import opened Values
  import opened Graph
  import opened Worker

  /** What a worker left at `done_dir / file`, as `_finish_task` finds it. */
  datatype OutputFile = Absent | Unreadable | Loaded(rec: Record)

  /** How `_finish_task` classifies a finished task. */
  datatype Verdict =
    | Yield(value: Value)                  // loaded, status 0: the value is yielded
    | NoOutput                             // no output file: the task file goes to fail
    | Unloadable                           // the output does not load: it goes to fail
    | Failed(error: Option<Exception>)     // loaded, status not 0: it goes to fail

  function Classify(out: OutputFile, status: int): (v: Verdict)
    ensures v.Yield? <==> out.Loaded? && status == 0
    ensures v.Yield? ==> v.value == out.rec.value
    ensures v == NoOutput <==> out.Absent?
    ensures v == Unloadable <==> out.Unreadable?
  {
    match out
    case Absent => NoOutput
    case Unreadable => Unloadable
    case Loaded(rec) => if status == 0 then Yield(rec.value) else Failed(rec.error)
  }

  /** A worker that ran to completion is yielded exactly when its evaluation
      succeeded, and then with the value it computed; whatever the flags, a failed
      evaluation ends in fail with its exception. */
  lemma CompletedWorker(task: Node, o: Outcome<Value>, flags: Flags)
    ensures var rec := Finished(task, o);
      Classify(Loaded(rec), ExitStatus(rec, flags)) == if o.Ok? then Yield(o.value) else Failed(Some(o.error))
  {
  }

  /** The operating system, as far as the executor can see it:
      - `exited(f, t)`: the worker for `f` has exited when it is polled in round `t`;
      - `status(f)`: its exit status;
      - `output(f)`: what it left in the done directory. */
  datatype World = World(exited: (string, nat) -> bool, deadline: nat, status: string -> int, output: string -> OutputFile)

  /** Every worker has exited by round `deadline`. */
  ghost predicate Terminates(w: World) {
    forall f, t :: t >= w.deadline ==> w.exited(f, t)
  }

  function VerdictOf(f: string, w: World): Verdict {
    Classify(w.output(f), w.status(f))
  }

  function Elems(fs: seq<string>): set<string> {
    set f | f in fs
  }

  ghost predicate Distinct(fs: seq<string>) {
    forall i, j :: 0 <= i < j < |fs| ==> fs[i] != fs[j]
  }

  /** The finished tasks among `fs` whose value is yielded. */
  function Successes(fs: seq<string>, w: World): set<string> {
    set f | f in fs && VerdictOf(f, w).Yield?
  }

  /** The values yielded for the tasks `fs`, finished in this order. */
  function YieldsOf(fs: seq<string>, w: World): seq<Value> {
    if fs == [] then []
    else
      var v := VerdictOf(fs[|fs| - 1], w);
      YieldsOf(fs[..|fs| - 1], w) + if v.Yield? then [v.value] else []
  }

  lemma {:induction false} YieldsOfConcat(xs: seq<string>, ys: seq<string>, w: World)
    ensures YieldsOf(xs + ys, w) == YieldsOf(xs, w) + YieldsOf(ys, w)
  {
    if ys == [] {
      assert xs + ys == xs;
    } else {
      var last := ys[|ys| - 1];
      assert (xs + ys)[..|xs + ys| - 1] == xs + ys[..|ys| - 1];
      YieldsOfConcat(xs, ys[..|ys| - 1], w);
      var v := VerdictOf(last, w);
      var tail := if v.Yield? then [v.value] else [];
      assert YieldsOf(xs, w) + YieldsOf(ys[..|ys| - 1], w) + tail == YieldsOf(xs, w) + (YieldsOf(ys[..|ys| - 1], w) + tail);
    }
  }

  /** The yielded values are exactly the values of the successes, one per success. */
  lemma {:induction false} YieldsOfSuccesses(fs: seq<string>, w: World)
    requires Distinct(fs)
    ensures |YieldsOf(fs, w)| == |Successes(fs, w)|
    ensures forall v :: v in YieldsOf(fs, w) <==> exists f :: f in Successes(fs, w) && VerdictOf(f, w) == Yield(v)
  {
    if fs != [] {
      var init, last := fs[..|fs| - 1], fs[|fs| - 1];
      assert fs == init + [last];
      assert Distinct(init);
      YieldsOfSuccesses(init, w);
      assert last !in init;
      if VerdictOf(last, w).Yield? {
        assert Successes(fs, w) == Successes(init, w) + {last};
      } else {
        assert Successes(fs, w) == Successes(init, w);
      }
    }
  }

  /** The three directories' contents: todo maps each task file to its task, done
      and fail hold file names. */
  datatype Dirs = Dirs(todo: map<string, Node>, done: set<string>, fail: set<string>)

  /** The directories after the tasks `fs` have been finished: they leave todo, the
      successes land in done and the others in fail. */
  function Settle(d: Dirs, fs: seq<string>, w: World): Dirs {
    Dirs(d.todo - Elems(fs), d.done + Successes(fs, w), d.fail + (Elems(fs) - Successes(fs, w)))
  }

  /** The directories after one task `f` has been finished. */
  function Finish(d: Dirs, f: string, w: World): Dirs {
    if VerdictOf(f, w).Yield? then Dirs(d.todo - {f}, d.done + {f}, d.fail)
    else Dirs(d.todo - {f}, d.done, d.fail + {f})
  }

  /** Finishing the tasks one at a time, in order, settles them all. */
  lemma SettleSnoc(d: Dirs, fs: seq<string>, f: string, w: World)
    ensures Settle(d, fs + [f], w) == Finish(Settle(d, fs, w), f, w)
  {
    assert Elems(fs + [f]) == Elems(fs) + {f};
    assert Successes(fs + [f], w) == Successes(fs, w) + if VerdictOf(f, w).Yield? then {f} else {};
  }

  /** Finishing `fs` and then `gs` is finishing `fs + gs`. */
  lemma SettleConcat(d: Dirs, fs: seq<string>, gs: seq<string>, w: World)
    ensures Settle(Settle(d, fs, w), gs, w) == Settle(d, fs + gs, w)
  {
    assert Elems(fs + gs) == Elems(fs) + Elems(gs);
    assert Successes(fs + gs, w) == Successes(fs, w) + Successes(gs, w);
  }

  /** The bookkeeping of a stretch of finishing: starting from running tasks `keys0`
      and directories `d0`, the tasks `fs` were finished, in this order, each once;
      `out` holds the values they yielded, `keys` the tasks still running and `d`
      the directories now. */
  ghost predicate Accounted(keys0: set<string>, d0: Dirs, fs: seq<string>, out: seq<Value>, w: World, keys: set<string>, d: Dirs) {
    && Distinct(fs)
    && Elems(fs) <= keys0
    && keys == keys0 - Elems(fs)
    && d == Settle(d0, fs, w)
    && out == YieldsOf(fs, w)
  }

  lemma AccountedNil(keys0: set<string>, d0: Dirs, w: World)
    ensures Accounted(keys0, d0, [], [], w, keys0, d0)
  {
    assert Elems([]) == {};
    assert Settle(d0, [], w) == d0;
  }

  /** Finishing one more running task. */
  lemma AccountedSnoc(keys0: set<string>, d0: Dirs, fs: seq<string>, out: seq<Value>, w: World, keys: set<string>, d: Dirs, f: string)
    requires Accounted(keys0, d0, fs, out, w, keys, d) && f in keys
    ensures var v := VerdictOf(f, w);
      Accounted(keys0, d0, fs + [f], out + if v.Yield? then [v.value] else [], w, keys - {f}, Finish(d, f, w))
  {
    assert (fs + [f])[..|fs|] == fs;
    assert Elems(fs + [f]) == Elems(fs) + {f};
    SettleSnoc(d0, fs, f, w);
  }

  /** Two stretches of finishing, one after the other. */
  lemma AccountedConcat(keys0: set<string>, d0: Dirs, fs: seq<string>, out: seq<Value>, keys1: set<string>, d1: Dirs,
                        gs: seq<string>, more: seq<Value>, keys2: set<string>, d2: Dirs, w: World)
    requires Accounted(keys0, d0, fs, out, w, keys1, d1) && Accounted(keys1, d1, gs, more, w, keys2, d2)
    ensures Accounted(keys0, d0, fs + gs, out + more, w, keys2, d2)
  {
    YieldsOfConcat(fs, gs, w);
    SettleConcat(d0, fs, gs, w);
    assert Elems(fs + gs) == Elems(fs) + Elems(gs);
    forall i, j | 0 <= i < j < |fs + gs|
      ensures (fs + gs)[i] != (fs + gs)[j]
    {
      if i < |fs| <= j {
        assert (fs + gs)[i] in Elems(fs);
        assert (fs + gs)[j] in Elems(gs);
      }
    }
  }

  /** Starting a task that was not running before. */
  lemma AccountedStart(keys0: set<string>, d0: Dirs, fs: seq<string>, out: seq<Value>, w: World, keys: set<string>, d: Dirs, f: string)
    requires Accounted(keys0, d0, fs, out, w, keys, d) && f !in keys0
    ensures Accounted(keys0 + {f}, d0, fs, out, w, keys + {f}, d)
  {
  }

  /** Every task in `fs` had exited when it was polled in some round from `lo` up to
      (not including) `hi`. */
  ghost predicate ExitedBetween(fs: seq<string>, w: World, lo: nat, hi: nat) {
    forall f :: f in fs ==> exists t: nat :: lo <= t < hi && w.exited(f, t)
  }

  /** A polling round `t` that reaps only exited workers extends the span by one. */
  lemma ExitedBetweenRound(fs: seq<string>, gs: seq<string>, w: World, lo: nat, t: nat)
    requires ExitedBetween(fs, w, lo, t) && lo <= t
    requires forall f :: f in gs ==> w.exited(f, t)
    ensures ExitedBetween(fs + gs, w, lo, t + 1)
  {
    forall f | f in fs + gs
      ensures exists u: nat :: lo <= u < t + 1 && w.exited(f, u)
    {
      if f !in fs {
        assert f in gs && w.exited(f, t);
      }
    }
  }

  /** The next listed task is still in todo and not running; starting it makes it
      one of the tasks listed so far. */
  lemma {:induction false} ListingStep(listing: seq<string>, i: nat, d0: Dirs, order: seq<string>, out: seq<Value>, w: World, keys: set<string>, d: Dirs)
    requires Distinct(listing) && i < |listing| && d0.todo.Keys == Elems(listing)
    requires Accounted(Elems(listing[..i]), d0, order, out, w, keys, d)
    ensures listing[i] in d.todo && listing[i] !in keys
    ensures Accounted(Elems(listing[..i + 1]), d0, order, out, w, keys + {listing[i]}, d)
  {
    assert listing[..i + 1] == listing[..i] + [listing[i]];
    assert listing[i] !in Elems(listing[..i]);
  }

  /** When the listing has run out and the table is empty, every listed task was
      finished and todo is empty. */
  lemma ListingDone(listing: seq<string>, d0: Dirs, order: seq<string>, out: seq<Value>, w: World, d: Dirs)
    requires d0.todo.Keys == Elems(listing)
    requires Accounted(Elems(listing), d0, order, out, w, {}, d)
    ensures Elems(order) == Elems(listing) && d.todo == map[]
  {
    assert Elems(order) <= Elems(listing) && Elems(listing) - Elems(order) == {};
    assert d.todo == d0.todo - Elems(order);
    assert d.todo.Keys == {};
    forall x | x in Elems(listing)
      ensures x in Elems(order)
    {
      assert x !in Elems(listing) - Elems(order);
    }
  }

  /** An executor over three directories and a process table. */
  class Executor {
    var todo: map<string, Node>
    var done: set<string>
    var fail: set<string>
    var processes: map<string, Flags>
    /** Polling rounds so far: `time.sleep(0.1)` ends one. */
    var clock: nat
    /** The largest the process table has been in the current run. */
    ghost var peak: nat

    /** The model's bookkeeping: `todo` holds the tasks not yet finished, `done` the
        finished successes and `fail` the failures, so no name is in two of them;
        only tasks still in todo run. (On disk a running task's name is also in
        the done directory once its worker writes there; that output is
        `World.output`, not `done`.) */
    ghost predicate Valid()
      reads this
    {
      && todo.Keys !! done
      && todo.Keys !! fail
      && done !! fail
      && processes.Keys <= todo.Keys
    }

    function State(): Dirs
      reads this
    {
      Dirs(todo, done, fail)
    }

    /** `Executor(todo_dir, done_dir, fail_dir)` over directories that already hold
        these tasks, each finished or not, in one place. */
    constructor (todo0: map<string, Node>, done0: set<string>, fail0: set<string>)
      requires todo0.Keys !! done0 && todo0.Keys !! fail0 && done0 !! fail0
      ensures Valid()
      ensures todo == todo0 && done == done0 && fail == fail0
      ensures processes == map[] && clock == 0 && peak == 0
    {
      todo, done, fail := todo0, done0, fail0;
      processes, clock, peak := map[], 0, 0;
    }

    /** `schedule(fun, *args, **kwargs)`: a callable is first wrapped by `defer`
        (getting the fresh `_id` `id`), a result is stored as it is and the
        arguments are ignored; either way it is written to todo under the fresh
        file name `name`. */
    method Schedule(target: Target, args: seq<Arg>, kwargs: seq<KwArg>, name: string, id: string)
      requires Valid()
      requires name !in todo && name !in done && name !in fail
      modifies this
      ensures Valid()
      ensures todo == old(todo)[name := Scheduled(target, args, kwargs, id)]
      ensures done == old(done) && fail == old(fail) && processes == old(processes)
      ensures clock == old(clock) && peak == old(peak)
    {
      todo := todo[name := Scheduled(target, args, kwargs, id)];
    }

    /** `_start_task(file, flags)`: starts a worker on `file`. */
    method StartTask(f: string, flags: Flags)
      requires Valid() && f in todo
      modifies this
      ensures Valid()
      ensures processes == old(processes)[f := flags]
      ensures f !in old(processes) ==> |processes| == |old(processes)| + 1
      ensures peak == if |processes| > old(peak) then |processes| else old(peak)
      ensures todo == old(todo) && done == old(done) && fail == old(fail) && clock == old(clock)
    {
      processes := processes[f := flags];
      if |processes| > peak {
        peak := |processes|;
      }
    }

    /** `_finish_task(file)`: drops the worker from the table and removes the task
        from todo; yields the value and keeps the output in done when the output
        loads and the status is 0, and otherwise moves the task to fail. */
    method FinishTask(f: string, w: World) returns (out: Option<Value>)
      requires Valid() && f in processes
      modifies this
      ensures Valid()
      ensures processes == old(processes) - {f}
      ensures State() == Finish(old(State()), f, w)
      ensures out.Some? <==> VerdictOf(f, w).Yield?
      ensures out.Some? ==> VerdictOf(f, w) == Yield(out.value)
      ensures clock == old(clock) && peak == old(peak)
    {
      processes := processes - {f};
      todo := todo - {f};
      match w.output(f)
      case Absent =>
        fail := fail + {f};
        out := None;
      case Unreadable =>
        fail := fail + {f};
        out := None;
      case Loaded(rec) =>
        if w.status(f) == 0 {
          done := done + {f};
          out := Some(rec.value);
        } else {
          fail := fail + {f};
          out := None;
        }
    }

    /** The body of the loop in `_wait`: if the worker for `f` has exited in this
        round, `yield from _finish_task(f)`. */
    method Visit(f: string, w: World) returns (out: seq<Value>, ghost reaped: seq<string>)
      requires Valid() && f in processes
      modifies this
      ensures Valid()
      ensures reaped == if w.exited(f, clock) then [f] else []
      ensures Accounted(old(processes).Keys, old(State()), reaped, out, w, processes.Keys, State())
      ensures clock == old(clock) && peak == old(peak)
    {
      out, reaped := [], [];
      AccountedNil(processes.Keys, State(), w);
      if w.exited(f, clock) {
        ghost var keys, d := processes.Keys, State();
        AccountedSnoc(keys, d, [], [], w, keys, d, f);
        var v := FinishTask(f, w);
        out, reaped := if v.Some? then [v.value] else [], [f];
      }
    }

    /** One polling round of `_wait`: goes through a snapshot of the table and
        visits every worker in it, then sleeps. The workers left in the table are
        those that had not exited when they were polled. */
    method Poll(w: World) returns (out: seq<Value>, ghost reaped: seq<string>)
      requires Valid()
      modifies this
      ensures Valid()
      ensures Accounted(old(processes).Keys, old(State()), reaped, out, w, processes.Keys, State())
      ensures forall f :: f in reaped ==> w.exited(f, old(clock))
      ensures forall f :: f in processes ==> !w.exited(f, old(clock))
      ensures clock == old(clock) + 1 && peak == old(peak)
    {
      out, reaped := [], [];
      AccountedNil(processes.Keys, State(), w);
      var pending := processes.Keys;
      while pending != {}
        invariant Valid()
        invariant pending <= processes.Keys
        invariant Accounted(old(processes).Keys, old(State()), reaped, out, w, processes.Keys, State())
        invariant forall f :: f in reaped ==> w.exited(f, clock)
        invariant forall f :: f in processes && f !in pending ==> !w.exited(f, clock)
        invariant clock == old(clock) && peak == old(peak)
        decreases |pending|
      {
        var f :| f in pending;
        pending := pending - {f};
        ghost var keys, d := processes.Keys, State();
        var more, finished := Visit(f, w);
        AccountedConcat(old(processes).Keys, old(State()), reaped, out, keys, d, finished, more, processes.Keys, State(), w);
        out, reaped := out + more, reaped + finished;
      }
      clock := clock + 1;
    }

    /** `_wait(n)`: polls round after round until fewer than `n` workers run.
        Returns the values yielded and (for the proof) the tasks finished, in order. */
    method Wait(n: nat, w: World) returns (out: seq<Value>, ghost reaped: seq<string>)
      requires Valid() && n >= 1 && Terminates(w)
      modifies this
      ensures Valid()
      ensures |processes| < n
      ensures Accounted(old(processes).Keys, old(State()), reaped, out, w, processes.Keys, State())
      ensures ExitedBetween(reaped, w, old(clock), clock)
      ensures peak == old(peak) && clock >= old(clock)
    {
      out, reaped := [], [];
      AccountedNil(processes.Keys, State(), w);
      while |processes| >= n
        invariant Valid()
        invariant Accounted(old(processes).Keys, old(State()), reaped, out, w, processes.Keys, State())
        invariant ExitedBetween(reaped, w, old(clock), clock)
        invariant peak == old(peak) && clock >= old(clock)
        decreases if clock <= w.deadline then w.deadline - clock else 0, |processes|
      {
        ghost var keys, d, round := processes.Keys, State(), clock;
        var more, finished := Poll(w);
        if round >= w.deadline {
          assert forall f :: f in processes ==> w.exited(f, round);
          assert processes.Keys == {};
        }
        AccountedConcat(old(processes).Keys, old(State()), reaped, out, keys, d, finished, more, processes.Keys, State(), w);
        ExitedBetweenRound(reaped, finished, w, old(clock), round);
        out, reaped := out + more, reaped + finished;
      }
    }

    /** One turn of the loop in `ResultIterator.__iter__`: `yield from
        _wait(nprocesses)`, then `_start_task(file, flags)` for the next listed task
        `f`. When `f` starts, at most `n` workers run. */
    method Admit(n: nat, f: string, flags: Flags, w: World) returns (out: seq<Value>, ghost finished: seq<string>)
      requires Valid() && n >= 1 && Terminates(w)
      requires f in todo && f !in processes
      modifies this
      ensures Valid()
      ensures f in processes && |processes| <= n
      ensures Accounted(old(processes).Keys + {f}, old(State()), finished, out, w, processes.Keys, State())
      ensures peak <= if old(peak) < n then n else old(peak)
    {
      out, finished := Wait(n, w);
      ghost var keys, d := processes.Keys, State();
      assert f in todo by {
        assert todo == Settle(old(State()), finished, w).todo;
      }
      AccountedStart(old(processes).Keys, old(State()), finished, out, w, keys, d, f);
      StartTask(f, flags);
      assert processes.Keys == keys + {f} && State() == d;
    }

    /** `run(nprocesses, flags)`, consumed to the end: takes the listing of todo and
        admits the tasks one after the other; at the end waits for all workers.
        Every listed task ends in done or in fail, the values of the successes are
        yielded in the order the tasks finished, and no more than `n` workers ever
        run at once: `peak` starts from the empty table of this run. */
    method Run(n: nat, flags: Flags, listing: seq<string>, w: World) returns (out: seq<Value>, ghost order: seq<string>)
      requires Valid() && processes == map[] && n >= 1 && Terminates(w)
      requires Distinct(listing) && Elems(listing) == todo.Keys
      modifies this
      ensures Valid()
      ensures todo == map[] && processes == map[]
      ensures Distinct(order) && Elems(order) == Elems(listing)
      ensures State() == Settle(old(State()), order, w)
      ensures out == YieldsOf(order, w)
      ensures peak <= n
    {
      peak := 0;
      out, order := [], [];
      AccountedNil({}, State(), w);
      for i := 0 to |listing|
        invariant Valid()
        invariant Accounted(Elems(listing[..i]), old(State()), order, out, w, processes.Keys, State())
        invariant peak <= n
      {
        ghost var keys, d := processes.Keys, State();
        ListingStep(listing, i, old(State()), order, out, w, keys, d);
        var more, finished := Admit(n, listing[i], flags, w);
        AccountedConcat(Elems(listing[..i + 1]), old(State()), order, out, keys + {listing[i]}, d,
                        finished, more, processes.Keys, State(), w);
        out, order := out + more, order + finished;
      }
      assert listing[..|listing|] == listing;
      ghost var keys, d := processes.Keys, State();
      var more, finished := Wait(1, w);
      AccountedConcat(Elems(listing), old(State()), order, out, keys, d, finished, more, processes.Keys, State(), w);
      out, order := out + more, order + finished;
      ListingDone(listing, old(State()), order, out, w, State());
    }

    /** `clean()`: removes the three directories, with everything in them. */
    method Clean()
      requires Valid() && processes == map[]
      modifies this
      ensures Valid()
      ensures todo == map[] && done == {} && fail == {}
      ensures processes == old(processes) && clock == old(clock) && peak == old(peak)
    {
      todo, done, fail := map[], {}, {};
    }
  }

  /** What `schedule` is given: a callable with its arguments, or a result. */
  datatype Target = Function(name: string) | Result(node: Node)

  /** The task `schedule` writes: `defer(fun, *args, **kwargs)` for a callable, the
      result itself otherwise. */
  function Scheduled(target: Target, args: seq<Arg>, kwargs: seq<KwArg>, id: string): (task: Node)
    ensures target.Function? ==> task.App? && task.id == id && task.fun == target.name && task.args == args && task.kwargs == kwargs
    ensures target.Result? ==> task == target.node
  {
    match target
    case Function(name) => App(id, name, args, kwargs)
    case Result(node) => node
  }
}
