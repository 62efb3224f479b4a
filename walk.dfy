/** Event extraction from the Lua syntax tree (`walk_tree` in crophslog.py)
    and the per-file analysis it drives.

    The tree-sitter tree is abstracted as `Node`: a kind, the three named
    child fields the walk reads (already decoded to text, each with the
    0-based row it starts on) and the children in document order. */
module Walk {
  import opened Wrappers
  import opened Text
  import opened Taint

  /** A named child field: its source text and its 0-based start row. */
  datatype Field = Field(text: string, row: nat)

  /** A syntax-tree node with the fields `name`, `value` and `arguments`
      (`None` where `child_by_field_name` finds no such child). */
  datatype Node = Node(
    kind: string,
    name: Option<Field>,
    value: Option<Field>,
    arguments: Option<Field>,
    children: seq<Node>)

  /** `raw.strip('(').strip(')')`: every leading and trailing `(` is
      removed, then every leading and trailing `)`; nested parentheses are
      not balanced. */
  function ArgsText(raw: string): string {
    StripSet(StripSet(raw, {'('}), {')'})
  }

  /** Only parentheses are removed, and only from the ends: the argument
      text is a contiguous slice of the raw text, and never starts or ends
      with `)`. */
  lemma ArgsTextEnds(raw: string)
    ensures exists i: nat :: StrippedAt(raw, {'(', ')'}, ArgsText(raw), i)
    ensures var r := ArgsText(raw); r == [] || (r[0] != ')' && r[|r| - 1] != ')')
  {
    var m := StripSet(raw, {'('});
    var r := StripSet(m, {')'});
    StripSetSpec(raw, {'('});
    StripSetSpec(m, {')'});
    var i: nat :| StrippedAt(raw, {'('}, m, i);
    var j: nat :| StrippedAt(m, {')'}, r, j);
    StrippedTwice(raw, {'('}, m, i, {')'}, r, j);
    assert {'('} + {')'} == {'(', ')'};
    assert r == ArgsText(raw);
    assert StrippedAt(raw, {'(', ')'}, r, i + j);
  }

  /** The event a node emits itself, before any of its children: an
      assignment with both `name` and `value`, or a call with both `name`
      and `arguments`. Lines are 1-based. */
  function NodeEvents(n: Node): (r: seq<Event>)
    ensures |r| <= 1
  {
    if n.kind == "assignment_statement" then
      if n.name.Some? && n.value.Some? then
        [Assignment(n.name.value.text, n.value.value.text, n.name.value.row + 1)]
      else []
    else if n.kind == "function_call" then
      if n.name.Some? && n.arguments.Some? then
        [Call(n.name.value.text, ArgsText(n.arguments.value.text), n.name.value.row + 1)]
      else []
    else []
  }

  /** `recurse(node)`: the node's own event, then the events of each child,
      left to right (pre-order, depth first, no pruning). */
  function Events(n: Node): seq<Event>
    decreases n, 1
  {
    NodeEvents(n) + ChildrenEvents(n.children)
  }

  function ChildrenEvents(cs: seq<Node>): seq<Event>
    decreases cs, 0
  {
    if cs == [] then [] else Events(cs[0]) + ChildrenEvents(cs[1..])
  }

  lemma {:induction false} ChildrenEventsAppend(a: seq<Node>, b: seq<Node>)
    ensures ChildrenEvents(a + b) == ChildrenEvents(a) + ChildrenEvents(b)
    decreases |a|
  {
    if a == [] {
      assert a + b == b;
    } else {
      TailOfAppend(a, b);
      ChildrenEventsAppend(a[1..], b);
    }
  }

  /** Pre-order, left to right: the events of the `i`-th child come after
      the node's own event and after all events of the children before it,
      and before those of the children after it. */
  lemma EventsPreorder(n: Node, i: nat)
    requires i < |n.children|
    ensures Events(n) == NodeEvents(n)
                         + ChildrenEvents(n.children[..i])
                         + Events(n.children[i])
                         + ChildrenEvents(n.children[i + 1..])
  {
    ChildrenSplit(n.children, i);
    Associate(NodeEvents(n), ChildrenEvents(n.children[..i]),
              Events(n.children[i]), ChildrenEvents(n.children[i + 1..]));
  }

  lemma ChildrenSplit(cs: seq<Node>, i: nat)
    requires i < |cs|
    ensures ChildrenEvents(cs) == ChildrenEvents(cs[..i]) + Events(cs[i]) + ChildrenEvents(cs[i + 1..])
  {
    var rest := [cs[i]] + cs[i + 1..];
    SplitAt(cs, i);
    TailOfCons(cs[i], cs[i + 1..]);
    var later := ChildrenEvents(rest);
    assert later == Events(cs[i]) + ChildrenEvents(cs[i + 1..]);
    ChildrenEventsAppend(cs[..i], rest);
    assert ChildrenEvents(cs) == ChildrenEvents(cs[..i]) + later;
    Associate3(ChildrenEvents(cs[..i]), Events(cs[i]), ChildrenEvents(cs[i + 1..]));
  }

  // Sequence facts stated generically: the same equalities over `seq<Node>`
  // cost the solver far more, through the equality of nested nodes.

  lemma SplitAt<T>(s: seq<T>, i: nat)
    requires i < |s|
    ensures s == s[..i] + ([s[i]] + s[i + 1..])
  {
  }

  lemma TailOfCons<T>(x: T, s: seq<T>)
    ensures ([x] + s)[0] == x && ([x] + s)[1..] == s
  {
  }

  lemma TailOfAppend<T>(a: seq<T>, b: seq<T>)
    requires a != []
    ensures (a + b)[0] == a[0] && (a + b)[1..] == a[1..] + b
  {
  }

  lemma AppendEmpty<T>(s: seq<T>)
    ensures s + [] == s
  {
  }

  lemma Associate3(a: seq<Event>, b: seq<Event>, c: seq<Event>)
    ensures a + (b + c) == a + b + c
  {
  }

  lemma Associate(a: seq<Event>, b: seq<Event>, c: seq<Event>, d: seq<Event>)
    ensures a + (b + c + d) == a + b + c + d
  {
  }

  /** The node reached from `n` by following child indices. */
  function Subtree(n: Node, path: seq<nat>): Option<Node>
    decreases |path|
  {
    if path == [] then Some(n)
    else if path[0] < |n.children| then Subtree(n.children[path[0]], path[1..])
    else None
  }

  /** Every descendant's events appear, contiguously and in order, in the
      events of any ancestor, after the ancestor's own event. */
  lemma {:induction false} DescendantEvents(n: Node, path: seq<nat>) returns (pre: seq<Event>, post: seq<Event>)
    requires path != [] && Subtree(n, path).Some?
    ensures Events(n) == pre + Events(Subtree(n, path).value) + post
    ensures |NodeEvents(n)| <= |pre|
    decreases |path|
  {
    var i := path[0];
    var c := n.children[i];
    var d := Subtree(n, path).value;
    assert Subtree(n, path) == Subtree(c, path[1..]);
    var before := NodeEvents(n) + ChildrenEvents(n.children[..i]);
    var after := ChildrenEvents(n.children[i + 1..]);
    EventsPreorder(n, i);
    if path[1..] == [] {
      pre, post := before, after;
    } else {
      ghost var d2 := Subtree(c, path[1..]).value;
      assert d2 == d;
      var pre1, post1 := DescendantEvents(c, path[1..]);
      var ed := Events(d);
      assert Events(c) == pre1 + ed + post1;
      pre, post := before + pre1, post1 + after;
      Regroup(before, pre1, ed, post1, after);
    }
  }

  lemma Regroup(a: seq<Event>, b: seq<Event>, c: seq<Event>, d: seq<Event>, e: seq<Event>)
    ensures a + (b + c + d) + e == (a + b) + c + (d + e)
  {
  }

  /** A call nested (at any depth) inside an assignment yields two events:
      the assignment first, then the call. */
  lemma NestedCallAfterAssignment(n: Node, path: seq<nat>) returns (k: nat)
    requires n.kind == "assignment_statement" && n.name.Some? && n.value.Some?
    requires path != [] && Subtree(n, path).Some?
    requires var d := Subtree(n, path).value;
      d.kind == "function_call" && d.name.Some? && d.arguments.Some?
    ensures Events(n)[0] == Assignment(n.name.value.text, n.value.value.text, n.name.value.row + 1)
    ensures 0 < k < |Events(n)|
    ensures var d := Subtree(n, path).value;
      Events(n)[k] == Call(d.name.value.text, ArgsText(d.arguments.value.text), d.name.value.row + 1)
  {
    var d := Subtree(n, path).value;
    var pre, post := DescendantEvents(n, path);
    k := |pre|;
    var ed := Events(d);
    assert ed[0] == Call(d.name.value.text, ArgsText(d.arguments.value.text), d.name.value.row + 1);
    assert (pre + ed + post)[k] == ed[0];
  }

  /** Every call event carries argument text that neither starts nor ends
      with `)`, and every event has a 1-based line. */
  ghost predicate WellFormed(e: Event) {
    && e.line >= 1
    && (e.Call? ==> e.args == [] || (e.args[0] != ')' && e.args[|e.args| - 1] != ')'))
  }

  lemma {:induction false} EventsWellFormed(n: Node)
    ensures forall i | 0 <= i < |Events(n)| :: WellFormed(Events(n)[i])
    decreases n, 1
  {
    if n.arguments.Some? {
      ArgsTextEnds(n.arguments.value.text);
    }
    ChildrenEventsWellFormed(n.children);
  }

  lemma {:induction false} ChildrenEventsWellFormed(cs: seq<Node>)
    ensures forall i | 0 <= i < |ChildrenEvents(cs)| :: WellFormed(ChildrenEvents(cs)[i])
    decreases cs, 0
  {
    if cs != [] {
      EventsWellFormed(cs[0]);
      ChildrenEventsWellFormed(cs[1..]);
    }
  }

  /** `walk_tree(tree, code_bytes, analyzer)`: feed the extracted events to
      the analyzer, in order. */
  method WalkTree(root: Node, analyzer: TaintAnalyzer)
    modifies analyzer
    ensures analyzer.Current() == Run(analyzer.Cfg(), old(analyzer.Current()), Events(root))
    ensures old(analyzer.Valid()) ==> analyzer.Valid()
  {
    var events := Events(root);
    ghost var c := analyzer.Cfg();
    ghost var st0 := analyzer.Current();
    var i := 0;
    while i < |events|
      invariant 0 <= i <= |events|
      invariant analyzer.Current() == Run(c, st0, events[..i])
      invariant Inv(c, st0) ==> analyzer.Valid()
    {
      Dispatch(events[i], analyzer);
      assert events[..i + 1] == events[..i] + [events[i]];
      RunSnoc(c, st0, events[..i], events[i]);
      i := i + 1;
    }
    assert events[..i] == events;
  }

  /** The analyzer call `recurse` makes for one event. */
  method Dispatch(e: Event, analyzer: TaintAnalyzer)
    modifies analyzer
    ensures analyzer.Current() == Step(analyzer.Cfg(), old(analyzer.Current()), e)
    ensures old(analyzer.Valid()) ==> analyzer.Valid()
  {
    match e {
      case Assignment(v, expr, line) =>
        analyzer.AnalyzeAssignment(v, expr, line);
      case Call(func, args, line) =>
        analyzer.CheckSink(func, args, line);
    }
  }

  /** One file's analysis with a fresh analyzer: the findings and the
      danger flag `analyze_directory` reads afterwards. */
  function AnalyzeTree(c: Config, root: Node): (r: State)
    ensures r.sinkDanger <==> |r.sinkFindings| > 0
    ensures forall i | 0 <= i < |r.sinkFindings| ::
      r.sinkFindings[i].sourceVar.Some? && r.sinkFindings[i].originLine.Some?
      && |r.sinkFindings[i].chain| > 0 && r.sinkFindings[i].sinkFunc in c.sinks
    ensures forall v | v in r.taintMap :: r.taintMap[v] ==> v in r.taintChains
  {
    InitialInv(c);
    RunInv(c, Initial(), Events(root));
    Run(c, Initial(), Events(root))
  }

  // ---------------------------------------------------------------------
  // Worked examples

  /** `ArgsText` as its four one-sided strips. */
  lemma ArgsTextSteps(raw: string, a: string, b: string, c: string, d: string)
    requires StripLeft(raw, {'('}) == a && StripRight(a, {'('}) == b
    requires StripLeft(b, {')'}) == c && StripRight(c, {')'}) == d
    ensures ArgsText(raw) == d
  {
  }

  /** Stripping is not balanced: `(g(x))` keeps the inner `(` and loses
      the trailing `))`. */
  lemma ArgsTextNestedCall()
    ensures ArgsText("(g(x))") == "g(x"
  {
    var raw := "(g(x))";
    var l := raw[1..];
    assert l == "g(x))";
    StripLeftExactly(raw, {'('}, 1);
    StripRightExactly(l, {'('}, 5);
    StripLeftExactly(l, {')'}, 0);
    StripRightExactly(l, {')'}, 3);
    assert l[0..] == l && l[..5] == l && l[..3] == "g(x";
    ArgsTextSteps(raw, l, l, l, "g(x");
  }

  /** Every parenthesis at either end goes: `((x))` becomes `x`. */
  lemma ArgsTextDoubleParens()
    ensures ArgsText("((x))") == "x"
  {
    var raw := "((x))";
    var l := "x))";
    assert raw[2..] == l;
    StripLeftExactly(raw, {'('}, 2);
    assert StripRight(l, {'('}) == l;
    assert StripLeft(l, {')'}) == l;
    StripRightExactly(l, {')'}, 1);
    assert l[..1] == "x";
    ArgsTextSteps(raw, l, l, l, "x");
  }

  /** A plain argument list: `(b)` becomes `b`. */
  lemma ArgsTextSimple()
    ensures ArgsText("(b)") == "b"
  {
    var raw := "(b)";
    var l := raw[1..];
    assert l == "b)";
    StripLeftExactly(raw, {'('}, 1);
    StripRightExactly(l, {'('}, 2);
    StripLeftExactly(l, {')'}, 0);
    StripRightExactly(l, {')'}, 1);
    assert l[0..] == l && l[..2] == l && l[..1] == "b";
    ArgsTextSteps(raw, l, l, l, "b");
  }
}
