/** Deriving rules from a checker module: the depth-first walk over its functions with one shared
    record of what was seen, and the merge that keeps one rule a code. */
module CallWalk {
  import opened Text

  datatype Rule = Rule(code: string, requirement: string, source: string, ring: string)

  /** String keyword arguments known at a call, by parameter name. */
  type Bound = map<string, string>

  datatype Key = Literal(text: string) | Parameter(name: string)

  /** A module-level container: a table of named lists, or one list. */
  datatype Container = Table(rows: seq<(string, seq<string>)>) | Listed(names: seq<string>)

  datatype Node =
    | Call(callee: string, kwargs: Bound)
    | Lookup(holder: Container, key: Key)

  datatype Body = Body(rules: seq<Rule>, nodes: seq<Node>)

  type Module = map<string, Body>

  /** A function to walk and the arguments it is walked with. */
  datatype Visit = Visit(fn: string, bound: Bound)

  // ---------------------------------------------------------------- the edges of a function

  /** The names of the first row with the key; none when no row has it. */
  function RowNames(rows: seq<(string, seq<string>)>, key: string): seq<string> {
    var k := FirstWhere(rows, (row: (string, seq<string>)) => row.0 == key);
    if k < |rows| then rows[k].1 else []
  }

  function Selected(holder: Container, key: string): seq<string> {
    match holder
    case Table(rows) => RowNames(rows, key)
    case Listed(names) => names
  }

  function DispatchTargets(node: Node, bound: Bound): seq<string> {
    match node
    case Call(_, _) => []
    case Lookup(holder, Literal(text)) => Selected(holder, text)
    case Lookup(holder, Parameter(name)) => if name in bound then Selected(holder, bound[name]) else []
  }

  function Visits(m: Module, names: seq<string>, bound: Bound): (vs: seq<Visit>)
    ensures forall v :: v in vs ==> v.fn in m
    ensures forall f :: f in m ==> (f in names <==> Visit(f, bound) in vs)
    ensures forall v :: v in vs ==> v.bound == bound
  {
    if names == [] then []
    else if names[0] in m then [Visit(names[0], bound)] + Visits(m, names[1..], bound)
    else Visits(m, names[1..], bound)
  }

  function NodeVisits(m: Module, node: Node, bound: Bound): (vs: seq<Visit>)
    ensures forall v :: v in vs ==> v.fn in m
  {
    match node
    case Call(callee, kwargs) => if callee in m then [Visit(callee, bound + kwargs)] else []
    case Lookup(_, _) => Visits(m, DispatchTargets(node, bound), bound)
  }

  /** Everything a function's nodes lead to, in the order they are met. */
  function Edges(m: Module, nodes: seq<Node>, bound: Bound): (vs: seq<Visit>)
    ensures forall v :: v in vs ==> v.fn in m
  {
    if nodes == [] then []
    else NodeVisits(m, nodes[0], bound) + Edges(m, nodes[1..], bound)
  }

  function EdgesOf(m: Module, v: Visit): seq<Visit> {
    if v.fn in m then Edges(m, m[v.fn].nodes, v.bound) else []
  }

  /** What one node leads to: the called function with the call's keywords over the bound arguments, or
      the selected names with the arguments as they are. */
  predicate LeadsTo(m: Module, node: Node, bound: Bound, v: Visit) {
    && v.fn in m
    && (match node
        case Call(callee, kwargs) => v == Visit(callee, bound + kwargs)
        case Lookup(_, _) => v.bound == bound && v.fn in DispatchTargets(node, bound))
  }

  /** The edges of a function are exactly what its nodes lead to. */
  lemma {:induction false} EdgesExactly(m: Module, nodes: seq<Node>, bound: Bound, v: Visit)
    ensures v in Edges(m, nodes, bound) <==> exists i :: 0 <= i < |nodes| && LeadsTo(m, nodes[i], bound, v)
  {
    if nodes != [] {
      EdgesExactly(m, nodes[1..], bound, v);
      assert v in NodeVisits(m, nodes[0], bound) <==> LeadsTo(m, nodes[0], bound, v);
      if i :| 0 <= i < |nodes| && LeadsTo(m, nodes[i], bound, v) {
        if i > 0 {
          assert LeadsTo(m, nodes[1..][i - 1], bound, v);
        }
      }
      if i :| 0 <= i < |nodes[1..]| && LeadsTo(m, nodes[1..][i], bound, v) {
        assert LeadsTo(m, nodes[i + 1], bound, v);
      }
    }
  }

  // ---------------------------------------------------------------- the walk

  datatype State = State(seen: set<string>, trail: seq<Visit>, rules: seq<Rule>)

  function Marked(m: Module, s: State, v: Visit): State
    requires v.fn in m
  {
    State(s.seen + {v.fn}, s.trail + [v], s.rules + m[v.fn].rules)
  }

  /** Depth first through a list of visits; a function already seen is passed over. */
  function Walk(m: Module, todo: seq<Visit>, s: State): (t: State)
    ensures s.seen <= t.seen
    decreases |m.Keys - s.seen|, |todo|
  {
    if todo == [] then s
    else if todo[0].fn !in m || todo[0].fn in s.seen then Walk(m, todo[1..], s)
    else
      var marked := Marked(m, s, todo[0]);
      Shrinks(m.Keys, s.seen, marked.seen, todo[0].fn);
      var deeper := Walk(m, EdgesOf(m, todo[0]), marked);
      Shrinks(m.Keys, s.seen, deeper.seen, todo[0].fn);
      Walk(m, todo[1..], deeper)
  }

  lemma Shrinks(keys: set<string>, before: set<string>, after: set<string>, f: string)
    requires f in keys && f !in before && before + {f} <= after
    ensures |keys - after| < |keys - before|
  {
    SubsetSize(keys - after, keys - before - {f});
  }

  lemma {:induction false} SubsetSize(a: set<string>, b: set<string>)
    requires a <= b
    ensures |a| <= |b|
  {
    if a != {} {
      var x :| x in a;
      SubsetSize(a - {x}, b - {x});
    }
  }

  lemma {:induction false} WalkParts(m: Module, a: seq<Visit>, b: seq<Visit>, s: State)
    ensures Walk(m, a + b, s) == Walk(m, b, Walk(m, a, s))
    decreases |m.Keys - s.seen|, |a|
  {
    if a == [] {
      assert a + b == b;
    } else {
      assert (a + b)[0] == a[0] && (a + b)[1..] == a[1..] + b;
      if a[0].fn !in m || a[0].fn in s.seen {
        WalkParts(m, a[1..], b, s);
      } else {
        var marked := Marked(m, s, a[0]);
        var deeper := Walk(m, EdgesOf(m, a[0]), marked);
        Shrinks(m.Keys, s.seen, deeper.seen, a[0].fn);
        WalkParts(m, a[1..], b, deeper);
      }
    }
  }

  function Names(trail: seq<Visit>): seq<string> {
    seq(|trail|, i requires 0 <= i < |trail| => trail[i].fn)
  }

  /** The walker's shared lists; `trail` also remembers the arguments of each visit. */
  class Walker {
    const m: Module
    var seen: set<string>
    var visited: seq<string>
    var rules: seq<Rule>
    ghost var trail: seq<Visit>

    constructor (m: Module)
      ensures this.m == m && Valid() && Now() == State({}, [], [])
    {
      this.m := m;
      seen, visited, rules, trail := {}, [], [], [];
    }

    ghost predicate Valid()
      reads this
    {
      visited == Names(trail)
    }

    ghost function Now(): State
      reads this
    {
      State(seen, trail, rules)
    }

    /** One call of the checker walk; it calls itself for every call and table row it meets. */
    method WalkChecker(fn: string, bound: Bound)
      requires Valid()
      modifies this
      ensures Valid() && Now() == Walk(m, [Visit(fn, bound)], old(Now()))
      decreases |m.Keys - seen|, 1
    {
      var v := Visit(fn, bound);
      assert [v][1..] == [];
      if fn !in m || fn in seen {
        return;
      }
      ghost var before := Now();
      seen := seen + {fn};
      visited, trail := visited + [fn], trail + [v];
      rules := rules + m[fn].rules;
      ghost var marked := Now();
      assert marked == Marked(m, before, v);
      assert visited == Names(trail);
      Shrinks(m.Keys, before.seen, seen, fn);
      var nodes := m[fn].nodes;
      var i := 0;
      while i < |nodes|
        invariant 0 <= i <= |nodes| && Valid() && marked.seen <= seen
        invariant Walk(m, EdgesOf(m, v), marked) == Walk(m, Edges(m, nodes[i..], bound), Now())
      {
        ghost var at := Now();
        var targets := NodeVisits(m, nodes[i], bound);
        assert nodes[i..][0] == nodes[i] && nodes[i..][1..] == nodes[i + 1..];
        WalkParts(m, targets, Edges(m, nodes[i + 1..], bound), at);
        Narrows(m.Keys, before.seen, at.seen, fn);
        WalkAll(targets);
        i := i + 1;
      }
      assert nodes[|nodes|..] == [];
    }

    method WalkAll(targets: seq<Visit>)
      requires Valid()
      modifies this
      ensures Valid() && Now() == Walk(m, targets, old(Now()))
      decreases |m.Keys - seen|, 2, |targets|
    {
      if targets == [] {
        return;
      }
      ghost var before := Now();
      assert targets == [targets[0]] + targets[1..];
      WalkParts(m, [targets[0]], targets[1..], before);
      WalkChecker(targets[0].fn, targets[0].bound);
      SubsetSize(m.Keys - seen, m.Keys - before.seen);
      WalkAll(targets[1..]);
    }
  }

  lemma Narrows(keys: set<string>, before: set<string>, after: set<string>, f: string)
    requires f in keys && f !in before && f in after && before <= after
    ensures |keys - after| < |keys - before|
  {
    Shrinks(keys, before, after, f);
  }

  // ---------------------------------------------------------------- what a walk collects

  function RulesOf(m: Module, trail: seq<Visit>): seq<Rule> {
    if trail == [] then []
    else
      var rest := RulesOf(m, trail[..|trail| - 1]);
      var f := trail[|trail| - 1].fn;
      if f in m then rest + m[f].rules else rest
  }

  ghost predicate Sound(m: Module, s: State) {
    && (forall i, j :: 0 <= i < j < |s.trail| ==> s.trail[i].fn != s.trail[j].fn)
    && (forall f :: f in s.seen <==> f in Names(s.trail))
    && s.seen <= m.Keys
    && s.rules == RulesOf(m, s.trail)
  }

  lemma MarkedSound(m: Module, s: State, v: Visit)
    requires Sound(m, s) && v.fn in m && v.fn !in s.seen
    ensures Sound(m, Marked(m, s, v))
  {
    var t := Marked(m, s, v);
    var n := |s.trail|;
    assert t.trail[..n] == s.trail && t.trail[n] == v;
    assert Names(t.trail) == Names(s.trail) + [v.fn];
    forall i | 0 <= i < n
      ensures s.trail[i].fn != v.fn
    {
      assert Names(s.trail)[i] in Names(s.trail);
    }
  }

  /** Each function at most once, and the rules are exactly those of the visited functions in order. */
  lemma {:induction false} WalkSound(m: Module, todo: seq<Visit>, s: State)
    requires Sound(m, s)
    ensures Sound(m, Walk(m, todo, s))
    ensures s.trail <= Walk(m, todo, s).trail
    decreases |m.Keys - s.seen|, |todo|
  {
    if todo != [] {
      if todo[0].fn !in m || todo[0].fn in s.seen {
        WalkSound(m, todo[1..], s);
      } else {
        var marked := Marked(m, s, todo[0]);
        Shrinks(m.Keys, s.seen, marked.seen, todo[0].fn);
        MarkedSound(m, s, todo[0]);
        WalkSound(m, EdgesOf(m, todo[0]), marked);
        var deeper := Walk(m, EdgesOf(m, todo[0]), marked);
        Shrinks(m.Keys, s.seen, deeper.seen, todo[0].fn);
        WalkSound(m, todo[1..], deeper);
      }
    }
  }

  /** Everything asked for is seen, and so is everything the new visits lead to. */
  lemma {:induction false} WalkClosed(m: Module, todo: seq<Visit>, s: State)
    requires Sound(m, s)
    ensures var t := Walk(m, todo, s);
            && |s.trail| <= |t.trail|
            && (forall v :: v in todo && v.fn in m ==> v.fn in t.seen)
            && (forall i, w :: |s.trail| <= i < |t.trail| && w in EdgesOf(m, t.trail[i]) ==> w.fn in t.seen)
    decreases |m.Keys - s.seen|, |todo|
  {
    WalkSound(m, todo, s);
    if todo != [] {
      if todo[0].fn !in m || todo[0].fn in s.seen {
        WalkClosed(m, todo[1..], s);
      } else {
        var v := todo[0];
        var marked := Marked(m, s, v);
        Shrinks(m.Keys, s.seen, marked.seen, v.fn);
        MarkedSound(m, s, v);
        WalkSound(m, EdgesOf(m, v), marked);
        WalkClosed(m, EdgesOf(m, v), marked);
        var deeper := Walk(m, EdgesOf(m, v), marked);
        Shrinks(m.Keys, s.seen, deeper.seen, v.fn);
        WalkSound(m, todo[1..], deeper);
        WalkClosed(m, todo[1..], deeper);
        var t := Walk(m, todo, s);
        assert t == Walk(m, todo[1..], deeper);
        forall i, w | |s.trail| <= i < |t.trail| && w in EdgesOf(m, t.trail[i])
          ensures w.fn in t.seen
        {
          if i < |deeper.trail| {
            assert t.trail[i] == deeper.trail[i];
            if i == |s.trail| {
              assert deeper.trail[i] == marked.trail[i] == v;
            }
          }
        }
      }
    }
  }

  // ---------------------------------------------------------------- reachability

  /** Where a visit leads. */
  type Graph = Visit -> seq<Visit>

  function GraphOf(m: Module): Graph {
    (v: Visit) => EdgesOf(m, v)
  }

  predicate Chain(g: Graph, root: Visit, p: seq<Visit>) {
    && p != [] && p[0] == root
    && forall i :: 0 <= i < |p| - 1 ==> Link(g, p, i)
  }

  predicate Link(g: Graph, p: seq<Visit>, i: nat) {
    i + 1 < |p| && p[i + 1] in g(p[i])
  }

  /** Some chain of calls and table rows leads from the root to this visit. */
  ghost predicate Reachable(g: Graph, root: Visit, v: Visit) {
    exists p :: Chain(g, root, p) && p[|p| - 1] == v
  }

  ghost predicate ReachableName(m: Module, root: Visit, f: string) {
    root.fn in m && exists v: Visit :: v.fn == f && Reachable(GraphOf(m), root, v)
  }

  lemma ReachStep(g: Graph, root: Visit, v: Visit, w: Visit)
    requires Reachable(g, root, v) && w in g(v)
    ensures Reachable(g, root, w)
  {
    var p :| Chain(g, root, p) && p[|p| - 1] == v;
    var q := p + [w];
    forall i | 0 <= i < |q| - 1
      ensures Link(g, q, i)
    {
      assert i < |p| - 1 ==> Link(g, p, i);
    }
    assert Chain(g, root, q) && q[|q| - 1] == w;
  }

  /** Only reachable functions are visited, each with arguments that some chain really passes to it. */
  lemma {:induction false} VisitsReachable(m: Module, root: Visit, todo: seq<Visit>, s: State)
    requires Sound(m, s)
    requires forall v :: v in todo && v.fn in m ==> Reachable(GraphOf(m), root, v)
    ensures var t := Walk(m, todo, s);
            && s.trail <= t.trail
            && forall i :: |s.trail| <= i < |t.trail| ==> Reachable(GraphOf(m), root, t.trail[i])
    decreases |m.Keys - s.seen|, |todo|
  {
    WalkSound(m, todo, s);
    if todo != [] {
      if todo[0].fn !in m || todo[0].fn in s.seen {
        VisitsReachable(m, root, todo[1..], s);
      } else {
        var v := todo[0];
        var marked := Marked(m, s, v);
        Shrinks(m.Keys, s.seen, marked.seen, v.fn);
        MarkedSound(m, s, v);
        WalkSound(m, EdgesOf(m, v), marked);
        forall w | w in EdgesOf(m, v)
          ensures Reachable(GraphOf(m), root, w)
        {
          ReachStep(GraphOf(m), root, v, w);
        }
        VisitsReachable(m, root, EdgesOf(m, v), marked);
        var deeper := Walk(m, EdgesOf(m, v), marked);
        Shrinks(m.Keys, s.seen, deeper.seen, v.fn);
        VisitsReachable(m, root, todo[1..], deeper);
        var t := Walk(m, todo, s);
        forall i | |s.trail| <= i < |t.trail|
          ensures Reachable(GraphOf(m), root, t.trail[i])
        {
          if i < |deeper.trail| {
            assert t.trail[i] == deeper.trail[i];
            if i == |s.trail| {
              assert deeper.trail[i] == marked.trail[i] == v;
            }
          }
        }
      }
    }
  }

  /** Two sets of arguments agree on every parameter that these nodes look a table up by. */
  predicate SameKeys(nodes: seq<Node>, a: Bound, b: Bound) {
    forall i :: 0 <= i < |nodes| ==> SameKey(nodes[i], a, b)
  }

  predicate SameKey(node: Node, a: Bound, b: Bound) {
    node.Lookup? && node.key.Parameter? ==>
      (node.key.name in a <==> node.key.name in b) && (node.key.name in a ==> a[node.key.name] == b[node.key.name])
  }

  /** Every function that looks a table up by a parameter is reached with one value of that parameter. The
      condition is enough but not necessary: whether an argument the walk ignored would have led further
      depends on which call it met first and on what its other calls happened to reach. */
  ghost predicate OneValue(m: Module, root: Visit) {
    forall u: Visit, v: Visit ::
      Reachable(GraphOf(m), root, u) && Reachable(GraphOf(m), root, v) && u.fn == v.fn && u.fn in m ==>
        SameKeys(m[u.fn].nodes, u.bound, v.bound)
  }

  lemma {:induction false} SameTargets(m: Module, nodes: seq<Node>, a: Bound, b: Bound, w: Visit)
    requires SameKeys(nodes, a, b)
    requires w in Edges(m, nodes, a)
    ensures exists x :: x in Edges(m, nodes, b) && x.fn == w.fn
  {
    EdgesExactly(m, nodes, a, w);
    var i :| 0 <= i < |nodes| && LeadsTo(m, nodes[i], a, w);
    var n := nodes[i];
    var x := match n
      case Call(callee, kwargs) => Visit(callee, b + kwargs)
      case Lookup(_, _) => Visit(w.fn, b);
    assert SameKey(n, a, b);
    if n.Lookup? {
      assert DispatchTargets(n, a) == DispatchTargets(n, b);
    }
    assert LeadsTo(m, nodes[i], b, x);
    EdgesExactly(m, nodes, b, x);
  }

  lemma ChainFront(g: Graph, root: Visit, p: seq<Visit>)
    requires Chain(g, root, p) && |p| > 1
    ensures Chain(g, root, p[..|p| - 1]) && p[|p| - 1] in g(p[|p| - 2])
  {
    var q := p[..|p| - 1];
    forall i | 0 <= i < |q| - 1
      ensures Link(g, q, i)
    {
      assert Link(g, p, i);
    }
    assert Link(g, p, |p| - 2);
  }

  /** Every edge of every visit leads to a function that was seen. */
  ghost predicate Closed(m: Module, t: State) {
    forall i, w :: 0 <= i < |t.trail| && w in EdgesOf(m, t.trail[i]) ==> w.fn in t.seen
  }

  /** What a visited function leads to is seen, whatever arguments it is asked about with. */
  lemma SeenStep(m: Module, t: State, u: Visit, v: Visit, w: Visit)
    requires Closed(m, t) && v in t.trail && u.fn == v.fn && v.fn in m
    requires SameKeys(m[v.fn].nodes, u.bound, v.bound) && w in EdgesOf(m, u)
    ensures w.fn in t.seen
  {
    var i :| 0 <= i < |t.trail| && t.trail[i] == v;
    SameTargets(m, m[u.fn].nodes, u.bound, v.bound, w);
  }

  /** A chain never leaves a set of functions that every edge of a reachable visit stays in. */
  lemma {:induction false} ChainStays(g: Graph, root: Visit, p: seq<Visit>, within: set<string>)
    requires root.fn in within && Chain(g, root, p)
    requires forall u: Visit, w: Visit :: Reachable(g, root, u) && u.fn in within && w in g(u) ==> w.fn in within
    ensures p[|p| - 1].fn in within
    decreases |p|
  {
    if |p| > 1 {
      ChainFront(g, root, p);
      var q := p[..|p| - 1];
      ChainStays(g, root, q, within);
      assert Reachable(g, root, q[|q| - 1]);
    }
  }

  lemma TrailHas(m: Module, t: State, f: string) returns (v: Visit)
    requires Sound(m, t) && f in t.seen
    ensures v in t.trail && v.fn == f && f in m
  {
    assert f in Names(t.trail);
    var i :| 0 <= i < |t.trail| && Names(t.trail)[i] == f;
    v := t.trail[i];
  }

  /** THE WALK IS REACHABILITY: it visits each function at most once, collects exactly the visited
      functions' rules in visiting order, visits nothing that no chain reaches, and, when every function
      that looks a table up by a parameter is reached with one value of it, visits exactly the reachable
      functions. */
  lemma WalkIsReachability(m: Module, root: Visit)
    ensures var t := Walk(m, [root], State({}, [], []));
            && Sound(m, t)
            && (forall v :: v in t.trail ==> Reachable(GraphOf(m), root, v))
            && (OneValue(m, root) ==> forall f :: f in t.seen <==> ReachableName(m, root, f))
  {
    var empty := State({}, [], []);
    var t := Walk(m, [root], empty);
    WalkSound(m, [root], empty);
    TrailReachable(m, root);
    forall f | f in t.seen
      ensures ReachableName(m, root, f)
    {
      var v := TrailHas(m, t, f);
      RootIsThere(m, root);
    }
    if OneValue(m, root) {
      forall f | ReachableName(m, root, f)
        ensures f in t.seen
      {
        ReachedIsSeen(m, root, f);
      }
    }
  }

  /** No function of the module looks a table up by a parameter. */
  predicate LiteralKeys(m: Module) {
    forall f, i :: f in m && 0 <= i < |m[f].nodes| && m[f].nodes[i].Lookup? ==> m[f].nodes[i].key.Literal?
  }

  /** Then the walk visits exactly the reachable functions. */
  lemma LiteralWalkIsReachability(m: Module, root: Visit)
    requires LiteralKeys(m)
    ensures forall f :: f in Walk(m, [root], State({}, [], [])).seen <==> ReachableName(m, root, f)
  {
    WalkIsReachability(m, root);
    assert OneValue(m, root);
  }

  lemma TrailReachable(m: Module, root: Visit)
    ensures forall v :: v in Walk(m, [root], State({}, [], [])).trail ==> Reachable(GraphOf(m), root, v)
  {
    var empty := State({}, [], []);
    var t := Walk(m, [root], empty);
    assert Chain(GraphOf(m), root, [root]) && [root][|[root]| - 1] == root;
    assert Reachable(GraphOf(m), root, root);
    VisitsReachable(m, root, [root], empty);
    forall v | v in t.trail
      ensures Reachable(GraphOf(m), root, v)
    {
      var i :| 0 <= i < |t.trail| && t.trail[i] == v;
    }
  }

  /** Nothing is visited from a root that is no function. */
  lemma RootIsThere(m: Module, root: Visit)
    ensures root.fn !in m ==> Walk(m, [root], State({}, [], [])).seen == {}
  {
    assert [root][1..] == [];
  }

  lemma ReachedIsSeen(m: Module, root: Visit, f: string)
    requires OneValue(m, root) && ReachableName(m, root, f)
    ensures f in Walk(m, [root], State({}, [], [])).seen
  {
    var empty := State({}, [], []);
    var t := Walk(m, [root], empty);
    WalkSound(m, [root], empty);
    WalkClosed(m, [root], empty);
    TrailReachable(m, root);
    assert root in [root];
    forall u: Visit, w: Visit | Reachable(GraphOf(m), root, u) && u.fn in t.seen && w in GraphOf(m)(u)
      ensures w.fn in t.seen
    {
      var v := TrailHas(m, t, u.fn);
      assert SameKeys(m[u.fn].nodes, u.bound, v.bound);
      SeenStep(m, t, u, v, w);
    }
    var v: Visit :| v.fn == f && Reachable(GraphOf(m), root, v);
    var p :| Chain(GraphOf(m), root, p) && p[|p| - 1] == v;
    ChainStays(GraphOf(m), root, p, t.seen);
  }

  /** `root` calls `run` without the phase and then with it; `run` looks its checks up by the phase. */
  function TwoCalls(root: string, run: string, check: string, phase: string, key: string): Module {
    map[root := Body([], [Call(run, map[]), Call(run, map[phase := key])]),
        run := Body([], [Lookup(Table([(key, [check])]), Parameter(phase))]),
        check := Body([], [])]
  }

  lemma RootEdges(m: Module, run: string, phase: string, key: string, v: Visit)
    requires v.fn in m && run in m && v.bound == map[]
    requires m[v.fn].nodes == [Call(run, map[]), Call(run, map[phase := key])]
    ensures EdgesOf(m, v) == [Visit(run, map[]), Visit(run, map[phase := key])]
  {
    var nodes := m[v.fn].nodes;
    var none: Bound, named: Bound := map[], map[phase := key];
    assert none + none == none && none + named == named;
    assert nodes[1..] == [Call(run, named)] && nodes[1..][1..] == [];
    assert Edges(m, nodes[1..], none) == [Visit(run, named)];
  }

  lemma TableEdges(m: Module, check: string, phase: string, key: string, v: Visit)
    requires v.fn in m && check in m
    requires m[v.fn].nodes == [Lookup(Table([(key, [check])]), Parameter(phase))]
    ensures phase !in v.bound ==> EdgesOf(m, v) == []
    ensures v.bound == map[phase := key] ==> EdgesOf(m, v) == [Visit(check, v.bound)]
  {
    var nodes := m[v.fn].nodes;
    assert nodes[1..] == [];
    assert Edges(m, nodes, v.bound) == NodeVisits(m, nodes[0], v.bound) + Edges(m, nodes[1..], v.bound);
    if v.bound == map[phase := key] {
      assert DispatchTargets(nodes[0], v.bound) == [check];
      assert [check][1..] == [];
      assert Visits(m, [check], v.bound) == [Visit(check, v.bound)];
    }
  }

  lemma SecondCallSkipped(m: Module, start: Visit, a: Visit, b: Visit, c: Visit)
    requires {start.fn, a.fn, c.fn} <= m.Keys && a.fn == b.fn
    requires start.fn != a.fn && a.fn != c.fn && c.fn != start.fn
    requires EdgesOf(m, start) == [a, b] && EdgesOf(m, a) == [] && EdgesOf(m, b) == [c]
    ensures ReachableName(m, start, c.fn)
    ensures c.fn !in Walk(m, [start], State({}, [], [])).seen
  {
    var chain := [start, b, c];
    assert Link(GraphOf(m), chain, 0) && Link(GraphOf(m), chain, 1);
    assert Chain(GraphOf(m), start, chain) && chain[|chain| - 1] == c;
    assert Reachable(GraphOf(m), start, c);
    WalkTwo(m, start, a, b);
  }

  lemma WalkTwo(m: Module, start: Visit, a: Visit, b: Visit)
    requires {start.fn, a.fn} <= m.Keys && a.fn == b.fn && start.fn != a.fn
    requires EdgesOf(m, start) == [a, b] && EdgesOf(m, a) == []
    ensures Walk(m, [start], State({}, [], [])).seen == {start.fn, a.fn}
  {
    var s1 := Marked(m, State({}, [], []), start);
    var s2 := Marked(m, s1, a);
    assert [a, b][1..] == [b] && [b][1..] == [] && [start][1..] == [];
    assert Walk(m, [b], s2) == s2;
    assert Walk(m, [a, b], s1) == s2;
    assert Walk(m, [start], State({}, [], [])) == s2;
  }

  /** With a parameter-keyed table the shared record hides a function: `run` is first walked without the
      phase, and the later call that names the phase is passed over, so the row's check is never read. */
  lemma LaterArgumentsIgnored(root: string, run: string, check: string, phase: string, key: string)
    requires root != run && run != check && check != root
    ensures var m := TwoCalls(root, run, check, phase, key);
            var start := Visit(root, map[]);
            && ReachableName(m, start, check)
            && check !in Walk(m, [start], State({}, [], [])).seen
  {
    var m := TwoCalls(root, run, check, phase, key);
    var start, a, b := Visit(root, map[]), Visit(run, map[]), Visit(run, map[phase := key]);
    var c := Visit(check, map[phase := key]);
    RootEdges(m, run, phase, key, start);
    TableEdges(m, check, phase, key, a);
    TableEdges(m, check, phase, key, b);
    SecondCallSkipped(m, start, a, b, c);
  }
}
