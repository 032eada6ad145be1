/** `evaluate`: the memoising walk over a deferred-call graph that a worker runs.

    Three definitions live here:
    - `Denote`, what a node means: the value of the computation it defers, worked
      out without any memo table;
    - `Eval`, the memo semantics of `evaluate`, generic in the memo key, so that it
      can be studied both with the source's string `_id` (`Graph.Id`) and with the
      structural key (`Graph.NodeKey`);
    - `Evaluate`, the recursive method with its argument loops, proved to compute
      `Eval`. */
module Evaluator {
  import opened Values
  import opened Graph

  /** The one accessor a projection applies to its parent's value. */
  function Access(n: Node, v: Value, ap: Apply): (r: Outcome<Value>)
    requires !n.App?
    ensures n.Item? ==> r == Index(v, n.key)
    ensures n.Attr? ==> r == GetAttr(v, n.name)
    ensures n.Call? ==> r == CallValue(v, ap)
  {
    match n
    case Item(_, k) => Index(v, k)
    case Attr(_, name) => GetAttr(v, name)
    case Call(_) => CallValue(v, ap)
  }

  // ---------------------------------------------------------------------------
  // Reference semantics: no memo table.

  function Denote(n: Node, ap: Apply): Outcome<Value>
    decreases Size(n), 1
  {
    match n
    case App(_, fun, args, kwargs) =>
      KwSizeIsArgsSize(kwargs);
      (match DenoteArgs(args, ap)
       case Err(e) => Err(e)
       case Ok(vals) =>
         match DenoteArgs(KwArgs(kwargs), ap)
         case Err(e) => Err(e)
         case Ok(kvals) => ap(fun, vals, Zip(kwargs, kvals)))
    case _ =>
      match Denote(n.parent, ap)
      case Err(e) => Err(e)
      case Ok(v) => Access(n, v, ap)
  }

  /** The arguments' values, left to right; the first exception wins. */
  function DenoteArgs(args: seq<Arg>, ap: Apply): (r: Outcome<seq<Value>>)
    ensures r.Ok? ==> |r.value| == |args|
    decreases ArgsSize(args), 1
  {
    if args == [] then Ok([])
    else
      match DenoteArg(args[0], ap)
      case Err(e) => Err(e)
      case Ok(v) =>
        match DenoteArgs(args[1..], ap)
        case Err(e) => Err(e)
        case Ok(vs) => Ok([v] + vs)
  }

  function DenoteArg(a: Arg, ap: Apply): Outcome<Value>
    decreases ArgSize(a), 0
  {
    if a.Plain? then Ok(a.value) else Denote(a.node, ap)
  }

  // ---------------------------------------------------------------------------
  // Memo semantics.

  /** The state after evaluating something against a memo table: its outcome, the
      table as it is afterwards, and the nodes whose function or accessor ran, in
      the order they ran. */
  datatype Step<K, T> = Step(out: Outcome<T>, known: map<K, Value>, calls: seq<Node>)

  /** Records the outcome of running node `n`'s function or accessor: a value is
      stored under the node's key, an exception leaves the table as it is. */
  function Store<K>(n: Node, k: K, res: Outcome<Value>, known: map<K, Value>, calls: seq<Node>): Step<K, Value> {
    Step(res, if res.Ok? then known[k := res.value] else known, calls + [n])
  }

  function Eval<K(==)>(n: Node, known: map<K, Value>, ap: Apply, key: Node -> K): Step<K, Value>
    decreases Size(n), 1
  {
    var k := key(n);
    if k in known then Step(Ok(known[k]), known, [])
    else if n.App? then
      var a := EvalArgs(n.args, known, ap, key);
      if a.out.Err? then Step(Err(a.out.error), a.known, a.calls)
      else
        KwSizeIsArgsSize(n.kwargs);
        var kw := EvalArgs(KwArgs(n.kwargs), a.known, ap, key);
        if kw.out.Err? then Step(Err(kw.out.error), kw.known, a.calls + kw.calls)
        else Store(n, k, ap(n.fun, a.out.value, Zip(n.kwargs, kw.out.value)), kw.known, a.calls + kw.calls)
    else
      var p := Eval(n.parent, known, ap, key);
      if p.out.Err? then Step(Err(p.out.error), p.known, p.calls)
      else Store(n, k, Access(n, p.out.value, ap), p.known, p.calls)
  }

  /** Evaluates the arguments left to right, each against the table the previous
      one left behind; the first exception stops the walk. */
  function EvalArgs<K(==)>(args: seq<Arg>, known: map<K, Value>, ap: Apply, key: Node -> K): (s: Step<K, seq<Value>>)
    ensures s.out.Ok? ==> |s.out.value| == |args|
    decreases ArgsSize(args), 1
  {
    if args == [] then Step(Ok([]), known, [])
    else
      var h := EvalArg(args[0], known, ap, key);
      if h.out.Err? then Step(Err(h.out.error), h.known, h.calls)
      else
        var t := EvalArgs(args[1..], h.known, ap, key);
        Step(if t.out.Err? then Err(t.out.error) else Ok([h.out.value] + t.out.value), t.known, h.calls + t.calls)
  }

  /** A plain value is its own result and touches nothing. */
  function EvalArg<K(==)>(a: Arg, known: map<K, Value>, ap: Apply, key: Node -> K): Step<K, Value>
    decreases ArgSize(a), 0
  {
    if a.Plain? then Step(Ok(a.value), known, []) else Eval(a.node, known, ap, key)
  }

  /** `s` preceded by a prefix of argument values and calls that ran before it. */
  function Then<K>(vals: seq<Value>, calls: seq<Node>, s: Step<K, seq<Value>>): Step<K, seq<Value>> {
    Step(if s.out.Err? then Err(s.out.error) else Ok(vals + s.out.value), s.known, calls + s.calls)
  }

  /** One more argument value moves from the step to the prefix. */
  lemma ThenCons<K>(vals: seq<Value>, calls: seq<Node>, v: Value, c: seq<Node>, rest: Step<K, seq<Value>>)
    ensures Then(vals, calls, Step(if rest.out.Err? then Err(rest.out.error) else Ok([v] + rest.out.value), rest.known, c + rest.calls))
         == Then(vals + [v], calls + c, rest)
  {
    assert calls + (c + rest.calls) == (calls + c) + rest.calls;
    if rest.out.Ok? {
      assert vals + ([v] + rest.out.value) == (vals + [v]) + rest.out.value;
    }
  }

  /** `big` keeps every entry of `small`, unchanged. */
  ghost predicate Extends<K>(big: map<K, Value>, small: map<K, Value>) {
    forall k :: k in small ==> k in big && big[k] == small[k]
  }

  function KeysOf<K>(calls: seq<Node>, key: Node -> K): set<K> {
    set c | c in calls :: key(c)
  }

  /** A projection whose key is not in the table: its parent is evaluated first;
      if that raises, so does the projection, and nothing more runs; otherwise
      its one accessor runs once, after everything the parent ran, and a value is
      stored under the projection's key. */
  lemma EvalProjectionStep<K>(n: Node, known: map<K, Value>, ap: Apply, key: Node -> K)
    requires !n.App? && key(n) !in known
    ensures var p, s := Eval(n.parent, known, ap, key), Eval(n, known, ap, key);
      && (p.out.Err? ==> s == Step(Err(p.out.error), p.known, p.calls))
      && (p.out.Ok? ==> s.calls == p.calls + [n] && s.out == Access(n, p.out.value, ap))
      && (p.out.Ok? && s.out.Ok? ==> s.known == p.known[key(n) := s.out.value])
      && (p.out.Ok? && s.out.Err? ==> s.known == p.known)
  {
  }

  /** An application whose key is not in the table: the positional arguments are
      evaluated, then the keyword arguments against the table they left; the
      first exception stops the walk; otherwise the function runs once, last, on
      the values, and a value is stored under the application's key. */
  lemma EvalApplicationStep<K>(n: Node, known: map<K, Value>, ap: Apply, key: Node -> K)
    requires n.App? && key(n) !in known
    ensures var a := EvalArgs(n.args, known, ap, key);
      var kw := EvalArgs(KwArgs(n.kwargs), a.known, ap, key);
      var s := Eval(n, known, ap, key);
      && (a.out.Err? ==> s == Step(Err(a.out.error), a.known, a.calls))
      && (a.out.Ok? && kw.out.Err? ==> s == Step(Err(kw.out.error), kw.known, a.calls + kw.calls))
      && (a.out.Ok? && kw.out.Ok? ==>
            && s.calls == a.calls + kw.calls + [n]
            && s.out == ap(n.fun, a.out.value, Zip(n.kwargs, kw.out.value))
            && s.known == (if s.out.Ok? then kw.known[key(n) := s.out.value] else kw.known))
  {
  }

  /** `evaluate(a, known)`: returns the outcome, the memo table as the call leaves
      it, and (for the proof) the nodes whose function or accessor ran. */
  method Evaluate<K(==)>(a: Arg, known: map<K, Value>, ap: Apply, key: Node -> K)
    returns (r: Outcome<Value>, known': map<K, Value>, ghost calls: seq<Node>)
    ensures Step(r, known', calls) == EvalArg(a, known, ap, key)
    ensures a.Plain? ==> r == Ok(a.value) && known' == known && calls == []
    ensures a.Deferred? && key(a.node) in known ==> r == Ok(known[key(a.node)]) && known' == known && calls == []
    ensures Extends(known', known)
    ensures forall c :: c in calls ==> key(c) !in known
    ensures r.Ok? && a.Deferred? ==> key(a.node) in known' && known'[key(a.node)] == r.value
    decreases ArgSize(a), 0
  {
    EvalArgFootprint(a, known, ap, key);
    if a.Plain? {
      return Ok(a.value), known, [];
    }
    var n := a.node;
    var k := key(n);
    if k in known {
      return Ok(known[k]), known, [];
    }
    assert ArgSize(a) == 1 + Size(n);
    if n.App? {
      assert Size(n) == 1 + ArgsSize(n.args) + KwSize(n.kwargs);
      KwSizeIsArgsSize(n.kwargs);
      var vals, table, argCalls, err := EvaluateAll(n.args, known, ap, key);
      if err.Some? {
        return Err(err.value), table, argCalls;
      }
      var kvals, table', kwCalls, kwErr := EvaluateAll(KwArgs(n.kwargs), table, ap, key);
      if kwErr.Some? {
        return Err(kwErr.value), table', argCalls + kwCalls;
      }
      r := ap(n.fun, vals, Zip(n.kwargs, kvals));
      known', calls := table', argCalls + kwCalls;
    } else {
      assert Size(n) == 1 + Size(n.parent);
      var v, t, c := Evaluate(Deferred(n.parent), known, ap, key);
      if v.Err? {
        return v, t, c;
      }
      r := Access(n, v.value, ap);
      known', calls := t, c;
    }
    if r.Ok? {
      known' := known'[k := r.value];
    }
    calls := calls + [n];
  }

  /** `[evaluate(arg, known) for arg in args]`: each argument is evaluated against
      the table the previous one left behind; an exception stops the loop and is
      returned in `err`. */
  method EvaluateAll<K(==)>(args: seq<Arg>, known: map<K, Value>, ap: Apply, key: Node -> K)
    returns (vals: seq<Value>, table: map<K, Value>, ghost calls: seq<Node>, err: Option<Exception>)
    ensures EvalArgs(args, known, ap, key) == Step(if err.Some? then Err(err.value) else Ok(vals), table, calls)
    ensures err.None? ==> |vals| == |args|
    decreases ArgsSize(args), 1
  {
    vals, table, calls, err := [], known, [], None;
    ghost var all := EvalArgs(args, known, ap, key);
    assert args[0..] == args;
    assert all.out.Ok? ==> [] + all.out.value == all.out.value;
    assert [] + all.calls == all.calls;
    for i := 0 to |args|
      invariant |vals| == i
      invariant all == Then(vals, calls, EvalArgs(args[i..], table, ap, key))
    {
      ArgSizeBound(args, i);
      var v, t, c := Evaluate(args[i], table, ap, key);
      assert args[i..][0] == args[i] && args[i..][1..] == args[i + 1..];
      ghost var rest := EvalArgs(args[i + 1..], t, ap, key);
      if v.Err? {
        return vals, t, calls + c, Some(v.error);
      }
      ThenCons(vals, calls, v.value, c, rest);
      vals, table, calls := vals + [v.value], t, calls + c;
    }
    assert args[|args|..] == [];
    assert vals + [] == vals && calls + [] == calls;
  }

  // ---------------------------------------------------------------------------
  // What the memo table does, whatever the key.

  /** The table only grows and no entry it had is overwritten; every function or
      accessor that runs belongs to the graph and to a node whose key was not yet
      in the table; every new key is the key of a node that ran; and on success the
      node's result is stored under its key and so is every node that ran. */
  lemma {:induction false} EvalFootprint<K>(n: Node, known: map<K, Value>, ap: Apply, key: Node -> K)
    ensures var s := Eval(n, known, ap, key);
      && Extends(s.known, known)
      && (forall c :: c in s.calls ==> c in Nodes(n) && key(c) !in known)
      && s.known.Keys <= known.Keys + KeysOf(s.calls, key)
      && (s.out.Ok? ==> KeysOf(s.calls, key) <= s.known.Keys)
      && (s.out.Ok? ==> key(n) in s.known && s.known[key(n)] == s.out.value)
    decreases Size(n), 1
  {
    var k := key(n);
    if k !in known {
      if n.App? {
        EvalArgsFootprint(n.args, known, ap, key);
        var a := EvalArgs(n.args, known, ap, key);
        if a.out.Ok? {
          KwSizeIsArgsSize(n.kwargs);
          EvalArgsFootprint(KwArgs(n.kwargs), a.known, ap, key);
        }
      } else {
        EvalFootprint(n.parent, known, ap, key);
      }
    }
  }

  lemma {:induction false} EvalArgsFootprint<K>(args: seq<Arg>, known: map<K, Value>, ap: Apply, key: Node -> K)
    ensures var s := EvalArgs(args, known, ap, key);
      && Extends(s.known, known)
      && (forall c :: c in s.calls ==> c in ArgsNodes(args) && key(c) !in known)
      && s.known.Keys <= known.Keys + KeysOf(s.calls, key)
      && (s.out.Ok? ==> KeysOf(s.calls, key) <= s.known.Keys)
    decreases ArgsSize(args), 1
  {
    if args != [] {
      EvalArgFootprint(args[0], known, ap, key);
      var h := EvalArg(args[0], known, ap, key);
      if h.out.Ok? {
        EvalArgsFootprint(args[1..], h.known, ap, key);
      }
    }
  }

  lemma {:induction false} EvalArgFootprint<K>(a: Arg, known: map<K, Value>, ap: Apply, key: Node -> K)
    ensures var s := EvalArg(a, known, ap, key);
      && Extends(s.known, known)
      && (forall c :: c in s.calls ==> c in ArgNodes(a) && key(c) !in known)
      && s.known.Keys <= known.Keys + KeysOf(s.calls, key)
      && (s.out.Ok? ==> KeysOf(s.calls, key) <= s.known.Keys)
      && (s.out.Ok? && a.Deferred? ==> key(a.node) in s.known && s.known[key(a.node)] == s.out.value)
    decreases ArgSize(a), 0
  {
    if a.Deferred? {
      EvalFootprint(a.node, known, ap, key);
    }
  }

  // ---------------------------------------------------------------------------
  // With a key that tells the graph's nodes apart, the memo is sound.

  /** Every entry of the table that belongs to a node of `nodes` holds that node's
      value. */
  ghost predicate Consistent<K>(known: map<K, Value>, key: Node -> K, ap: Apply, nodes: set<Node>) {
    forall m :: m in nodes && key(m) in known ==> Denote(m, ap) == Ok(known[key(m)])
  }

  /** Memoised evaluation gives what the graph means, and leaves a table that is
      still consistent, as long as the key is injective on the graph. */
  lemma {:induction false} EvalAgreesWithDenote<K>(n: Node, known: map<K, Value>, ap: Apply, key: Node -> K, nodes: set<Node>)
    requires Nodes(n) <= nodes && Injective(key, nodes) && Consistent(known, key, ap, nodes)
    ensures Eval(n, known, ap, key).out == Denote(n, ap)
    ensures Consistent(Eval(n, known, ap, key).known, key, ap, nodes)
    decreases Size(n), 1
  {
    var k := key(n);
    if k in known {
      assert n in Nodes(n);
    } else if n.App? {
      EvalArgsAgreesWithDenote(n.args, known, ap, key, nodes);
      var a := EvalArgs(n.args, known, ap, key);
      if a.out.Ok? {
        KwSizeIsArgsSize(n.kwargs);
        EvalArgsAgreesWithDenote(KwArgs(n.kwargs), a.known, ap, key, nodes);
        var kw := EvalArgs(KwArgs(n.kwargs), a.known, ap, key);
        if kw.out.Ok? && ap(n.fun, a.out.value, Zip(n.kwargs, kw.out.value)).Ok? {
          StoreConsistent(n, kw.known, ap(n.fun, a.out.value, Zip(n.kwargs, kw.out.value)), ap, key, nodes);
        }
      }
    } else {
      EvalAgreesWithDenote(n.parent, known, ap, key, nodes);
      var p := Eval(n.parent, known, ap, key);
      if p.out.Ok? && Access(n, p.out.value, ap).Ok? {
        StoreConsistent(n, p.known, Access(n, p.out.value, ap), ap, key, nodes);
      }
    }
  }

  lemma {:induction false} EvalArgsAgreesWithDenote<K>(args: seq<Arg>, known: map<K, Value>, ap: Apply, key: Node -> K, nodes: set<Node>)
    requires ArgsNodes(args) <= nodes && Injective(key, nodes) && Consistent(known, key, ap, nodes)
    ensures EvalArgs(args, known, ap, key).out == DenoteArgs(args, ap)
    ensures Consistent(EvalArgs(args, known, ap, key).known, key, ap, nodes)
    decreases ArgsSize(args), 1
  {
    if args != [] {
      EvalArgAgreesWithDenote(args[0], known, ap, key, nodes);
      var h := EvalArg(args[0], known, ap, key);
      if h.out.Ok? {
        EvalArgsAgreesWithDenote(args[1..], h.known, ap, key, nodes);
      }
    }
  }

  lemma {:induction false} EvalArgAgreesWithDenote<K>(a: Arg, known: map<K, Value>, ap: Apply, key: Node -> K, nodes: set<Node>)
    requires ArgNodes(a) <= nodes && Injective(key, nodes) && Consistent(known, key, ap, nodes)
    ensures EvalArg(a, known, ap, key).out == DenoteArg(a, ap)
    ensures Consistent(EvalArg(a, known, ap, key).known, key, ap, nodes)
    decreases ArgSize(a), 0
  {
    if a.Deferred? {
      EvalAgreesWithDenote(a.node, known, ap, key, nodes);
    }
  }

  /** Storing a node's true value under its key keeps the table consistent. */
  lemma StoreConsistent<K>(n: Node, known: map<K, Value>, res: Outcome<Value>, ap: Apply, key: Node -> K, nodes: set<Node>)
    requires n in nodes && Injective(key, nodes) && Consistent(known, key, ap, nodes)
    requires res == Denote(n, ap) && res.Ok?
    ensures Consistent(known[key(n) := res.value], key, ap, nodes)
  {
    forall m | m in nodes && key(m) in known[key(n) := res.value]
      ensures Denote(m, ap) == Ok(known[key(n) := res.value][key(m)])
    {
      if key(m) == key(n) {
        assert m == n;
      }
    }
  }

  // ---------------------------------------------------------------------------
  // With a key that tells the graph's nodes apart, nothing runs twice.

  ghost predicate KeysDistinct<K>(calls: seq<Node>, key: Node -> K) {
    forall i, j :: 0 <= i < j < |calls| ==> key(calls[i]) != key(calls[j])
  }

  lemma DistinctConcat<K>(xs: seq<Node>, ys: seq<Node>, key: Node -> K)
    requires KeysDistinct(xs, key) && KeysDistinct(ys, key)
    requires KeysOf(xs, key) !! KeysOf(ys, key)
    ensures KeysDistinct(xs + ys, key)
  {
    forall i, j | 0 <= i < j < |xs + ys|
      ensures key((xs + ys)[i]) != key((xs + ys)[j])
    {
      if i < |xs| && j >= |xs| {
        assert key(xs[i]) in KeysOf(xs, key);
        assert key(ys[j - |xs|]) in KeysOf(ys, key);
      }
    }
  }

  /** No memo key is computed twice in one evaluation: each node's function or
      accessor runs at most once per table. */
  lemma {:induction false} EvalOnce<K>(n: Node, known: map<K, Value>, ap: Apply, key: Node -> K, nodes: set<Node>)
    requires Nodes(n) <= nodes && Injective(key, nodes)
    ensures KeysDistinct(Eval(n, known, ap, key).calls, key)
    decreases Size(n), 1
  {
    var k := key(n);
    if k !in known {
      var sub: seq<Node>;
      if n.App? {
        KwSizeIsArgsSize(n.kwargs);
        EvalArgsOnce(n.args, known, ap, key, nodes);
        EvalArgsFootprint(n.args, known, ap, key);
        var a := EvalArgs(n.args, known, ap, key);
        sub := a.calls;
        if a.out.Ok? {
          EvalArgsOnce(KwArgs(n.kwargs), a.known, ap, key, nodes);
          EvalArgsFootprint(KwArgs(n.kwargs), a.known, ap, key);
          var kw := EvalArgs(KwArgs(n.kwargs), a.known, ap, key);
          DistinctConcat(a.calls, kw.calls, key);
          sub := a.calls + kw.calls;
        }
        forall c | c in sub
          ensures Size(c) < Size(n)
        {
          if c in ArgsNodes(n.args) {
            ArgsNodesSmaller(n.args, c);
          } else {
            ArgsNodesSmaller(KwArgs(n.kwargs), c);
          }
        }
      } else {
        EvalOnce(n.parent, known, ap, key, nodes);
        EvalFootprint(n.parent, known, ap, key);
        sub := Eval(n.parent, known, ap, key).calls;
        forall c | c in sub
          ensures Size(c) < Size(n)
        {
          NodesSmaller(n.parent, c);
        }
      }
      forall c | c in sub
        ensures key(c) != k
      {
        assert c in nodes && n in nodes && c != n;
      }
      DistinctConcat(sub, [n], key);
    }
  }

  lemma {:induction false} EvalArgsOnce<K>(args: seq<Arg>, known: map<K, Value>, ap: Apply, key: Node -> K, nodes: set<Node>)
    requires ArgsNodes(args) <= nodes && Injective(key, nodes)
    ensures KeysDistinct(EvalArgs(args, known, ap, key).calls, key)
    decreases ArgsSize(args), 1
  {
    if args != [] {
      EvalArgOnce(args[0], known, ap, key, nodes);
      var h := EvalArg(args[0], known, ap, key);
      if h.out.Ok? {
        EvalArgFootprint(args[0], known, ap, key);
        EvalArgsOnce(args[1..], h.known, ap, key, nodes);
        EvalArgsFootprint(args[1..], h.known, ap, key);
        DistinctConcat(h.calls, EvalArgs(args[1..], h.known, ap, key).calls, key);
      }
    }
  }

  lemma {:induction false} EvalArgOnce<K>(a: Arg, known: map<K, Value>, ap: Apply, key: Node -> K, nodes: set<Node>)
    requires ArgNodes(a) <= nodes && Injective(key, nodes)
    ensures KeysDistinct(EvalArg(a, known, ap, key).calls, key)
    decreases ArgSize(a), 0
  {
    if a.Deferred? {
      EvalOnce(a.node, known, ap, key, nodes);
    }
  }

  // ---------------------------------------------------------------------------
  // Whatever the key, no node runs twice.

  ghost predicate NodesDistinct(calls: seq<Node>) {
    forall i, j :: 0 <= i < j < |calls| ==> calls[i] != calls[j]
  }

  lemma NodesDistinctConcat(xs: seq<Node>, ys: seq<Node>)
    requires NodesDistinct(xs) && NodesDistinct(ys)
    requires forall c :: c in xs ==> c !in ys
    ensures NodesDistinct(xs + ys)
  {
    forall i, j | 0 <= i < j < |xs + ys|
      ensures (xs + ys)[i] != (xs + ys)[j]
    {
      if i < |xs| && j >= |xs| {
        assert (xs + ys)[i] in xs && (xs + ys)[j] in ys;
      }
    }
  }

  /** The promise of `evaluate`'s documentation, for any memo key, the string
      `_id` included: no node's function or accessor runs twice in one walk.
      (Distinct nodes may still share a key; see `IdComputedTwice`.) */
  lemma {:induction false} EvalNodesOnce<K>(n: Node, known: map<K, Value>, ap: Apply, key: Node -> K)
    ensures NodesDistinct(Eval(n, known, ap, key).calls)
    decreases Size(n), 1
  {
    if key(n) !in known {
      var sub: seq<Node>;
      if n.App? {
        KwSizeIsArgsSize(n.kwargs);
        EvalArgsNodesOnce(n.args, known, ap, key);
        EvalArgsFootprint(n.args, known, ap, key);
        var a := EvalArgs(n.args, known, ap, key);
        sub := a.calls;
        if a.out.Ok? {
          EvalArgsNodesOnce(KwArgs(n.kwargs), a.known, ap, key);
          EvalArgsFootprint(KwArgs(n.kwargs), a.known, ap, key);
          var kw := EvalArgs(KwArgs(n.kwargs), a.known, ap, key);
          forall c | c in a.calls
            ensures c !in kw.calls
          {
            assert key(c) in KeysOf(a.calls, key);
          }
          NodesDistinctConcat(a.calls, kw.calls);
          sub := a.calls + kw.calls;
        }
        forall c | c in sub
          ensures c != n
        {
          if c in a.calls {
            ArgsNodesSmaller(n.args, c);
          } else {
            ArgsNodesSmaller(KwArgs(n.kwargs), c);
          }
        }
      } else {
        EvalNodesOnce(n.parent, known, ap, key);
        EvalFootprint(n.parent, known, ap, key);
        sub := Eval(n.parent, known, ap, key).calls;
        forall c | c in sub
          ensures c != n
        {
          NodesSmaller(n.parent, c);
        }
      }
      NodesDistinctConcat(sub, [n]);
    }
  }

  lemma {:induction false} EvalArgsNodesOnce<K>(args: seq<Arg>, known: map<K, Value>, ap: Apply, key: Node -> K)
    ensures NodesDistinct(EvalArgs(args, known, ap, key).calls)
    decreases ArgsSize(args), 1
  {
    if args != [] {
      EvalArgNodesOnce(args[0], known, ap, key);
      var h := EvalArg(args[0], known, ap, key);
      if h.out.Ok? {
        EvalArgFootprint(args[0], known, ap, key);
        EvalArgsNodesOnce(args[1..], h.known, ap, key);
        EvalArgsFootprint(args[1..], h.known, ap, key);
        var t := EvalArgs(args[1..], h.known, ap, key);
        forall c | c in h.calls
          ensures c !in t.calls
        {
          assert key(c) in KeysOf(h.calls, key);
        }
        NodesDistinctConcat(h.calls, t.calls);
      }
    }
  }

  lemma {:induction false} EvalArgNodesOnce<K>(a: Arg, known: map<K, Value>, ap: Apply, key: Node -> K)
    ensures NodesDistinct(EvalArg(a, known, ap, key).calls)
    decreases ArgSize(a), 0
  {
    if a.Deferred? {
      EvalNodesOnce(a.node, known, ap, key);
    }
  }

  /** With the string `_id` the per-key promise fails. `f(r[1])` with `r = mk()`,
      where `r` has the `_id` "1" and the application the `_id` "11": the item
      and the application share the `_id` "11", both run, and the application's
      result overwrites the entry the item had just made. */
  lemma IdComputedTwice(ap: Apply)
    requires ap("mk", [], []) == Ok(Dict(map[IntKey(1) := Int(10)]))
    requires forall vs :: ap("f", vs, []) == Ok(List(vs))
    ensures UniqueAppIds(Nodes(TwiceGraph()))
    ensures var s := Eval(TwiceGraph(), map[], ap, Id);
      && s.calls == [DemoParent(), TwiceItem(), TwiceGraph()]
      && Id(TwiceItem()) == Id(TwiceGraph()) == "11"
      && !KeysDistinct(s.calls, Id)
      && s.known["11"] == List([Int(10)])
  {
    var p, it, g := DemoParent(), TwiceItem(), TwiceGraph();
    assert Digits(1) == "1";
    assert Id(it) == "11";
    assert KwArgs([]) == [];
    assert Nodes(p) == {p};
    assert Nodes(it) == {it, p};
    assert [Deferred(it)][1..] == [];
    assert ArgsNodes([Deferred(it)]) == {it, p};
    assert Nodes(g) == {g, it, p};
    var t0: map<string, Value> := map[];
    var e0 := Eval(p, t0, ap, Id);
    assert e0.calls == [p] && e0.out == Ok(Dict(map[IntKey(1) := Int(10)]));
    var e1 := Eval(it, t0, ap, Id);
    assert e1.calls == [p] + [it] && e1.out == Ok(Int(10)) && e1.known["11"] == Int(10);
    assert EvalArgs([Deferred(it)], t0, ap, Id).out == Ok([Int(10)] + []);
    assert EvalArgs([Deferred(it)], t0, ap, Id).calls == e1.calls + [];
    var s := Eval(g, t0, ap, Id);
    assert s.calls == [p, it, g];
    assert Id(s.calls[1]) == Id(s.calls[2]);
  }

  /** `r[1]` with `r = mk()`. */
  function TwiceItem(): Node { Item(DemoParent(), IntKey(1)) }

  /** `f(r[1])`, an application whose `_id` is "11". */
  function TwiceGraph(): Node { App("11", "f", [Deferred(TwiceItem())], []) }

  // ---------------------------------------------------------------------------
  // With the string `_id`, the memo can return another node's value.

  /** Two projections of one result, `r[1]` and `r['1']`, share the `_id` "11": once
      the first is evaluated, the second is answered from the table with the first
      one's value, although the dictionary holds different values under the two
      keys. Memoising by the structural key gives the right answer. */
  lemma StaleMemoHit(ap: Apply)
    requires DemoApply(ap)
    ensures UniqueAppIds(Nodes(DemoGraph()))
    ensures Denote(DemoGraph(), ap) == Ok(List([Int(10), Int(20)]))
    ensures Eval(DemoGraph(), map[], ap, Id).out == Ok(List([Int(10), Int(10)]))
    ensures Eval(DemoGraph(), map[], ap, NodeKey).out == Denote(DemoGraph(), ap)
  {
    DemoNodes();
    DemoDenote(ap);
    DemoEvalId(ap);
    NodeKeyInjective(DemoGraph());
    EvalAgreesWithDenote(DemoGraph(), map[], ap, NodeKey, Nodes(DemoGraph()));
  }

  /** `mk()` returns `{1: 10, '1': 20}` and `pair(x, y)` returns `[x, y]`. */
  ghost predicate DemoApply(ap: Apply) {
    && ap("mk", [], []) == Ok(Dict(map[IntKey(1) := Int(10), StrKey("1") := Int(20)]))
    && forall vs :: ap("pair", vs, []) == Ok(List(vs))
  }

  function DemoParent(): Node { App("1", "mk", [], []) }

  /** `pair(r[1], r['1'])` with `r = mk()`. */
  function DemoGraph(): Node {
    App("2", "pair", [Deferred(Item(DemoParent(), IntKey(1))), Deferred(Item(DemoParent(), StrKey("1")))], [])
  }

  lemma DemoNodes()
    ensures var p := DemoParent();
      Nodes(DemoGraph()) == {DemoGraph(), Item(p, IntKey(1)), Item(p, StrKey("1")), p}
  {
    var p := DemoParent();
    var a, b := Item(p, IntKey(1)), Item(p, StrKey("1"));
    assert KwArgs([]) == [];
    assert Nodes(p) == {p};
    assert Nodes(a) == {a, p} && Nodes(b) == {b, p};
    assert [Deferred(a), Deferred(b)][1..] == [Deferred(b)];
    assert [Deferred(b)][1..] == [];
    assert ArgsNodes([Deferred(b)]) == {b, p};
  }

  lemma DemoDenote(ap: Apply)
    requires DemoApply(ap)
    ensures Denote(DemoGraph(), ap) == Ok(List([Int(10), Int(20)]))
  {
    var p := DemoParent();
    var a, b := Item(p, IntKey(1)), Item(p, StrKey("1"));
    assert KwArgs([]) == [];
    assert Denote(p, ap) == Ok(Dict(map[IntKey(1) := Int(10), StrKey("1") := Int(20)]));
    assert Denote(a, ap) == Ok(Int(10));
    assert Denote(b, ap) == Ok(Int(20));
    assert [Deferred(a), Deferred(b)][1..] == [Deferred(b)];
    assert [Deferred(b)][1..] == [];
    assert DenoteArgs([Deferred(b)], ap) == Ok([Int(20)] + []);
    assert [Int(10)] + ([Int(20)] + []) == [Int(10), Int(20)];
  }

  lemma DemoEvalId(ap: Apply)
    requires DemoApply(ap)
    ensures Eval(DemoGraph(), map[], ap, Id).out == Ok(List([Int(10), Int(10)]))
  {
    var p := DemoParent();
    var a, b := Item(p, IntKey(1)), Item(p, StrKey("1"));
    assert Digits(1) == "1";
    assert Id(a) == "11" && Id(b) == "11";
    assert KwArgs([]) == [];
    var t0: map<string, Value> := map[];
    assert Eval(p, t0, ap, Id).out == Ok(Dict(map[IntKey(1) := Int(10), StrKey("1") := Int(20)]));
    var e1 := Eval(a, t0, ap, Id);
    assert e1.out == Ok(Int(10)) && e1.known["11"] == Int(10);
    assert Eval(b, e1.known, ap, Id).out == Ok(Int(10));
    assert [Deferred(a), Deferred(b)][1..] == [Deferred(b)];
    assert [Deferred(b)][1..] == [];
    assert EvalArgs([Deferred(b)], e1.known, ap, Id).out == Ok([Int(10)] + []);
    assert [Int(10)] + ([Int(10)] + []) == [Int(10), Int(10)];
  }
}
