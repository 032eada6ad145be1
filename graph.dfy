/** The deferred-call graph: application nodes built by `defer`, and the projection
    nodes that indexing and attribute access build. */
module Graph {
  import opened Values

  /** A node of the graph.
      - `App` is `defer(fun, *args, **kwargs)`; `id` is the node's `_id`, the decimal
        object identity it was given when it was built.
      - `Item` is `parent[key]` and `Attr` is `parent.name`: the projections,
        whose `_id` is derived from the parent's.
      - `Call` is a `ResultCall`. `Result.__call__` is commented out in the
        source, so nothing builds one, but `evaluate` still dispatches on the class
        and calls the parent's value with no arguments. */
  datatype Node =
    | App(id: string, fun: string, args: seq<Arg>, kwargs: seq<KwArg>)
    | Item(parent: Node, key: Key)
    | Attr(parent: Node, name: string)
    | Call(parent: Node)

  /** An argument of `defer`: either another node or a plain value. */
  datatype Arg = Plain(value: Value) | Deferred(node: Node)

  /** A keyword argument; the sequence keeps the order of the keyword dictionary. */
  datatype KwArg = KwArg(name: string, arg: Arg)

  function KwArgs(kws: seq<KwArg>): (r: seq<Arg>)
    ensures |r| == |kws| && forall i :: 0 <= i < |kws| ==> r[i] == kws[i].arg
  {
    seq(|kws|, i requires 0 <= i < |kws| => kws[i].arg)
  }

  /** Pairs keyword names with the values their arguments evaluated to. */
  function Zip(kws: seq<KwArg>, vals: seq<Value>): (r: seq<(string, Value)>)
    requires |vals| == |kws|
    ensures |r| == |kws| && forall i :: 0 <= i < |kws| ==> r[i] == (kws[i].name, vals[i])
  {
    seq(|kws|, i requires 0 <= i < |kws| => (kws[i].name, vals[i]))
  }

  // Sizes: the termination measure of every walk over a graph.

  function Size(n: Node): nat {
    match n
    case App(_, _, args, kwargs) => 1 + ArgsSize(args) + KwSize(kwargs)
    case Item(p, _) => 1 + Size(p)
    case Attr(p, _) => 1 + Size(p)
    case Call(p) => 1 + Size(p)
  }

  function ArgSize(a: Arg): nat {
    if a.Plain? then 1 else 1 + Size(a.node)
  }

  function ArgsSize(args: seq<Arg>): nat {
    if args == [] then 0 else ArgSize(args[0]) + ArgsSize(args[1..])
  }

  function KwSize(kws: seq<KwArg>): nat {
    if kws == [] then 0 else ArgSize(kws[0].arg) + KwSize(kws[1..])
  }

  lemma {:induction false} ArgSizeBound(args: seq<Arg>, i: nat)
    requires i < |args|
    ensures ArgSize(args[i]) <= ArgsSize(args)
  {
    if i > 0 {
      ArgSizeBound(args[1..], i - 1);
    }
  }

  lemma {:induction false} KwSizeIsArgsSize(kws: seq<KwArg>)
    ensures ArgsSize(KwArgs(kws)) == KwSize(kws)
  {
    if kws != [] {
      assert KwArgs(kws)[1..] == KwArgs(kws[1..]);
      KwSizeIsArgsSize(kws[1..]);
    }
  }

  /** `_id` as the source computes it: the object identity for an application, and
      for a projection the parent's `_id` followed by `str(index)`, the attribute
      name, or `_call_`. */
  function Id(n: Node): string {
    match n
    case App(id, _, _, _) => id
    case Item(p, k) => Id(p) + KeyStr(k)
    case Attr(p, name) => Id(p) + name
    case Call(p) => Id(p) + "_call_"
  }

  /** Projections built from parents with the same `_id` by the same accessor share
      their `_id`; the parent's `_id` is always a prefix of it. */
  lemma ProjectionIds(p: Node, q: Node, k: Key, name: string)
    requires Id(p) == Id(q)
    ensures Id(Item(p, k)) == Id(Item(q, k)) == Id(p) + KeyStr(k)
    ensures Id(Attr(p, name)) == Id(Attr(q, name)) == Id(p) + name
    ensures Id(Call(p)) == Id(Call(q)) == Id(p) + "_call_"
    ensures Id(p) <= Id(Item(p, k)) && Id(p) <= Id(Attr(p, name)) && Id(p) <= Id(Call(p))
  {
  }

  /** `_id` is not injective: different accesses to the same parent share an `_id`
      (`r[1]` and `r['1']`, `r.x` and `r['x']`, the nested `r[1][2]` and `r[12]`),
      and so do accesses to different parents. */
  lemma IdCollisions(p: Node, name: string)
    ensures Item(p, IntKey(1)) != Item(p, StrKey("1")) && Id(Item(p, IntKey(1))) == Id(Item(p, StrKey("1")))
    ensures Attr(p, name) != Item(p, StrKey(name)) && Id(Attr(p, name)) == Id(Item(p, StrKey(name)))
    ensures Id(Item(App("1", "f", [], []), IntKey(23))) == Id(Item(App("12", "f", [], []), IntKey(3)))
    ensures Item(Item(p, IntKey(1)), IntKey(2)) != Item(p, IntKey(12)) && Id(Item(Item(p, IntKey(1)), IntKey(2))) == Id(Item(p, IntKey(12)))
  {
    assert Digits(1) == "1";
    assert Digits(3) == "3";
    assert Digits(23) == Digits(2) + ['3'] == "23";
    assert Digits(12) == Digits(1) + ['2'] == "12";
  }

  /** A structural memo key: the accessor chain down to the application node, kept
      as a tree instead of being flattened into one string. */
  datatype MemoKey =
    | AppKey(id: string)
    | ItemKey(of: MemoKey, key: Key)
    | AttrKey(of: MemoKey, name: string)
    | CallKey(of: MemoKey)

  function NodeKey(n: Node): MemoKey {
    match n
    case App(id, _, _, _) => AppKey(id)
    case Item(p, k) => ItemKey(NodeKey(p), k)
    case Attr(p, name) => AttrKey(NodeKey(p), name)
    case Call(p) => CallKey(NodeKey(p))
  }

  /** The nodes of a graph: the root and every node reachable through parents,
      positional arguments and keyword arguments. */
  function Nodes(n: Node): set<Node>
    decreases Size(n), 1
  {
    match n
    case App(_, _, args, kwargs) =>
      KwSizeIsArgsSize(kwargs);
      {n} + ArgsNodes(args) + ArgsNodes(KwArgs(kwargs))
    case Item(p, _) => {n} + Nodes(p)
    case Attr(p, _) => {n} + Nodes(p)
    case Call(p) => {n} + Nodes(p)
  }

  function ArgsNodes(args: seq<Arg>): set<Node>
    decreases ArgsSize(args), 1
  {
    if args == [] then {} else ArgNodes(args[0]) + ArgsNodes(args[1..])
  }

  function ArgNodes(a: Arg): set<Node>
    decreases ArgSize(a), 0
  {
    if a.Plain? then {} else Nodes(a.node)
  }

  /** Every application node in `nodes` has an `_id` of its own. This holds of every
      graph the source builds: an `_id` is the identity of an object that the graph
      keeps alive. */
  ghost predicate UniqueAppIds(nodes: set<Node>) {
    forall a, b :: a in nodes && b in nodes && a.App? && b.App? && a.id == b.id ==> a == b
  }

  ghost predicate ParentClosed(nodes: set<Node>) {
    forall m :: m in nodes && !m.App? ==> m.parent in nodes
  }

  /** `key` tells the nodes of `nodes` apart. */
  ghost predicate Injective<K>(key: Node -> K, nodes: set<Node>) {
    forall a, b :: a in nodes && b in nodes && key(a) == key(b) ==> a == b
  }

  lemma {:induction false} NodesSmaller(n: Node, m: Node)
    requires m in Nodes(n)
    ensures Size(m) <= Size(n)
    ensures m != n ==> Size(m) < Size(n)
    decreases Size(n), 1
  {
    if m != n {
      match n
      case App(_, _, args, kwargs) =>
        KwSizeIsArgsSize(kwargs);
        if m in ArgsNodes(args) {
          ArgsNodesSmaller(args, m);
        } else {
          ArgsNodesSmaller(KwArgs(kwargs), m);
        }
      case Item(p, _) => NodesSmaller(p, m);
      case Attr(p, _) => NodesSmaller(p, m);
      case Call(p) => NodesSmaller(p, m);
    }
  }

  lemma {:induction false} ArgsNodesSmaller(args: seq<Arg>, m: Node)
    requires m in ArgsNodes(args)
    ensures Size(m) < ArgsSize(args)
    decreases ArgsSize(args), 0
  {
    assert args != [] && ArgsSize(args) == ArgSize(args[0]) + ArgsSize(args[1..]);
    if m in ArgNodes(args[0]) {
      NodesSmaller(args[0].node, m);
    } else {
      ArgsNodesSmaller(args[1..], m);
    }
  }

  lemma {:induction false} NodesTransitive(n: Node, m: Node)
    requires m in Nodes(n)
    ensures Nodes(m) <= Nodes(n)
    decreases Size(n), 1
  {
    if m != n {
      match n
      case App(_, _, args, kwargs) =>
        KwSizeIsArgsSize(kwargs);
        if m in ArgsNodes(args) {
          ArgsNodesTransitive(args, m);
        } else {
          ArgsNodesTransitive(KwArgs(kwargs), m);
        }
      case Item(p, _) => NodesTransitive(p, m);
      case Attr(p, _) => NodesTransitive(p, m);
      case Call(p) => NodesTransitive(p, m);
    }
  }

  lemma {:induction false} ArgsNodesTransitive(args: seq<Arg>, m: Node)
    requires m in ArgsNodes(args)
    ensures Nodes(m) <= ArgsNodes(args)
    decreases ArgsSize(args), 0
  {
    assert args != [] && ArgsSize(args) == ArgSize(args[0]) + ArgsSize(args[1..]);
    if m in ArgNodes(args[0]) {
      NodesTransitive(args[0].node, m);
    } else {
      ArgsNodesTransitive(args[1..], m);
    }
  }

  lemma NodesParentClosed(n: Node)
    ensures ParentClosed(Nodes(n))
  {
    forall m | m in Nodes(n) && !m.App?
      ensures m.parent in Nodes(n)
    {
      NodesTransitive(n, m);
    }
  }

  /** Two nodes of a graph with unique application ids have the same structural key
      only if they are the same node. */
  lemma {:induction false} SameKeySameNode(a: Node, b: Node, nodes: set<Node>)
    requires UniqueAppIds(nodes) && ParentClosed(nodes)
    requires a in nodes && b in nodes && NodeKey(a) == NodeKey(b)
    ensures a == b
  {
    match a
    case App(_, _, _, _) =>
    case Item(p, _) => SameKeySameNode(p, b.parent, nodes);
    case Attr(p, _) => SameKeySameNode(p, b.parent, nodes);
    case Call(p) => SameKeySameNode(p, b.parent, nodes);
  }

  /** The structural key is injective on every graph the source can build. */
  lemma NodeKeyInjective(root: Node)
    requires UniqueAppIds(Nodes(root))
    ensures Injective(NodeKey, Nodes(root))
  {
    NodesParentClosed(root);
    forall a, b | a in Nodes(root) && b in Nodes(root) && NodeKey(a) == NodeKey(b)
      ensures a == b
    {
      SameKeySameNode(a, b, Nodes(root));
    }
  }

  /** `Result.__eq__`: compares `_id`, then `_args`, then `_fun`, and never
      `_kwargs`; `and` stops at the first comparison that is false. Reading a field
      a node does not have raises `AttributeError`: attribute and index projections
      have no `_args` and a call projection has no `_fun`. A plain value is read
      with `getattr`, so only an object that carries the field has it. */
  function Equals(a: Node, b: Arg): (r: Outcome<bool>)
    ensures b.Plain? && GetAttr(b.value, "_id").Err? ==> r == Err(AttributeError("_id"))
    ensures b.Plain? && GetAttr(b.value, "_id").Ok? && GetAttr(b.value, "_id").value != Str(Id(a)) ==> r == Ok(false)
    ensures b.Deferred? && Id(a) != Id(b.node) ==> r == Ok(false)
    ensures b.Deferred? && a.App? && b.node.App? ==>
      r == Ok(a.id == b.node.id && a.args == b.node.args && a.fun == b.node.fun)
    ensures ((b.Deferred? && Id(a) == Id(b.node)) || (b.Plain? && GetAttr(b.value, "_id") == Ok(Str(Id(a))))) && (a.Item? || a.Attr?)
      ==> r == Err(AttributeError("_args"))
    ensures b.Deferred? && Id(a) == Id(b.node) && (b.node.Item? || b.node.Attr?) ==> r == Err(AttributeError("_args"))
    ensures r == Ok(true) ==>
      && a.App?
      && ((b.Deferred? && b.node.App? && Id(a) == Id(b.node)) ||
          (b.Plain? && GetAttr(b.value, "_id") == Ok(Str(Id(a))) && GetAttr(b.value, "_fun") == Ok(Fn(a.fun))))
  {
    if b.Plain? then
      match GetAttr(b.value, "_id")
      case Err(e) => Err(e)
      case Ok(other) =>
        if other != Str(Id(a)) then Ok(false)
        else
          match (ArgsField(a), GetAttr(b.value, "_args"))
          case (Err(e), _) => Err(e)
          case (_, Err(e)) => Err(e)
          case (Ok(x), Ok(y)) =>
            if !SameArgs(x, y) then Ok(false)
            else
              match (FunField(a), GetAttr(b.value, "_fun"))
              case (Err(e), _) => Err(e)
              case (_, Err(e)) => Err(e)
              case (Ok(f), Ok(g)) => Ok(g == Fn(f))
    else if Id(a) != Id(b.node) then Ok(false)
    else
      match (ArgsField(a), ArgsField(b.node))
      case (Err(e), _) => Err(e)
      case (_, Err(e)) => Err(e)
      case (Ok(x), Ok(y)) =>
        if x != y then Ok(false)
        else
          match (FunField(a), FunField(b.node))
          case (Err(e), _) => Err(e)
          case (_, Err(e)) => Err(e)
          case (Ok(f), Ok(g)) => Ok(f == g)
  }

  /** An argument tuple against a plain `_args` value: equal when the value lists
      exactly the arguments, all of them plain. */
  predicate SameArgs(args: seq<Arg>, v: Value) {
    v.List? && |args| == |v.items| && forall i :: 0 <= i < |args| ==> args[i] == Plain(v.items[i])
  }

  /** The `_args` field: an application keeps its positional arguments, a call
      projection its (empty) argument tuple; the other projections have none. */
  function ArgsField(n: Node): Outcome<seq<Arg>> {
    match n
    case App(_, _, args, _) => Ok(args)
    case Call(_) => Ok([])
    case _ => Err(AttributeError("_args"))
  }

  function FunField(n: Node): Outcome<string> {
    if n.App? then Ok(n.fun) else Err(AttributeError("_fun"))
  }
}
