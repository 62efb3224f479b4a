/** Two example programs run through the model: a source flowing through
    an assignment into a sink, and the same flow broken by a cleanser. */
module Scenarios {
  import opened Wrappers
  import opened Text
  import opened Taint
  import opened Walk

  /** `sources: [io.read]`, `cleansers: [sanitize]`, `sinks: [os.execute]`. */
  function ExampleConfig(): Config {
    Config(["io.read"], ["sanitize"], ["os.execute"])
  }

  /** An `assignment_statement` node `v = e` on 0-based row `row`. */
  function AssignNode(v: string, e: string, row: nat, cs: seq<Node>): Node {
    Node("assignment_statement", Some(Field(v, row)), Some(Field(e, row)), None, cs)
  }

  /** A `function_call` node `f args` on 0-based row `row`. */
  function CallNode(f: string, args: string, row: nat): Node {
    Node("function_call", Some(Field(f, row)), None, Some(Field(args, row)), [])
  }

  lemma AssignNodeEvents(v: string, e: string, row: nat, cs: seq<Node>)
    ensures Events(AssignNode(v, e, row, cs)) == [Assignment(v, e, row + 1)] + ChildrenEvents(cs)
  {
    var n := AssignNode(v, e, row, cs);
    assert NodeEvents(n) == [Assignment(v, e, row + 1)];
  }

  lemma CallNodeEvents(f: string, args: string, row: nat)
    ensures Events(CallNode(f, args, row)) == [Call(f, ArgsText(args), row + 1)]
  {
    var n := CallNode(f, args, row);
    assert |n.kind| != |"assignment_statement"|;
    assert NodeEvents(n) == [Call(f, ArgsText(args), row + 1)];
    assert ChildrenEvents(n.children) == [];
    assert NodeEvents(n) + [] == NodeEvents(n);
  }

  /** An assignment whose value is one call: the assignment's event, then
      the call's, both on the same line. */
  lemma AssignCallEvents(v: string, e: string, row: nat, f: string, args: string, a: string)
    requires ArgsText(args) == a
    ensures Events(AssignNode(v, e, row, [CallNode(f, args, row)]))
            == [Assignment(v, e, row + 1), Call(f, a, row + 1)]
  {
    var call := CallNode(f, args, row);
    CallNodeEvents(f, args, row);
    ChildrenEventsCons(call, []);
    AppendEmpty([call]);
    assert ChildrenEvents([call]) == [Call(f, a, row + 1)];
    AssignNodeEvents(v, e, row, [call]);
  }

  lemma ChildrenEventsCons(n: Node, cs: seq<Node>)
    ensures ChildrenEvents([n] + cs) == Events(n) + ChildrenEvents(cs)
  {
    TailOfCons(n, cs);
  }

  lemma RunCons(c: Config, st: State, e: Event, es: seq<Event>)
    ensures Run(c, st, [e] + es) == Run(c, Step(c, st, e), es)
  {
    TailOfCons(e, es);
  }

  lemma EmptyArgs()
    ensures ArgsText("()") == ""
  {
    assert StripLeft("()", {'('}) == ")";
    assert StripRight(")", {'('}) == ")";
    assert StripLeft(")", {')'}) == "";
    ArgsTextSteps("()", ")", ")", "", "");
  }

  lemma ArgsA()
    ensures ArgsText("(a)") == "a"
  {
    var l := "a)";
    assert "(a)"[1..] == l;
    StripLeftExactly("(a)", {'('}, 1);
    assert StripRight(l, {'('}) == l;
    assert StripLeft(l, {')'}) == l;
    StripRightExactly(l, {')'}, 1);
    assert l[..1] == "a";
    ArgsTextSteps("(a)", l, l, l, "a");
  }

  /** `local a = io.read()` on row 0: its value holds the call `io.read()`. */
  function ReadIntoA(): Node {
    AssignNode("a", "io.read()", 0, [CallNode("io.read", "()", 0)])
  }

  lemma ReadIntoAEvents()
    ensures Events(ReadIntoA()) == [Assignment("a", "io.read()", 1), Call("io.read", "", 1)]
  {
    EmptyArgs();
    AssignCallEvents("a", "io.read()", 0, "io.read", "()", "");
  }

  /** `local b = sanitize(a)` on row 2, holding the call `sanitize(a)`. */
  function SanitizeAIntoB(): Node {
    AssignNode("b", "sanitize(a)", 2, [CallNode("sanitize", "(a)", 2)])
  }

  lemma SanitizeAIntoBEvents()
    ensures Events(SanitizeAIntoB()) == [Assignment("b", "sanitize(a)", 3), Call("sanitize", "a", 3)]
  {
    ArgsA();
    AssignCallEvents("b", "sanitize(a)", 2, "sanitize", "(a)", "a");
  }

  // The states the first program passes through.

  function AfterRead(): State {
    State(map["a" := true], map["a" := Some(1)], map["a" := ["a"]], [], false)
  }

  function AfterCopy(): State {
    State(map["a" := true, "b" := true], map["a" := Some(1), "b" := Some(1)],
          map["a" := ["a"], "b" := ["a", "b"]], [], false)
  }

  lemma ReadStep()
    ensures Run(ExampleConfig(), Initial(), [Assignment("a", "io.read()", 1), Call("io.read", "", 1)])
            == AfterRead()
  {
    var c := ExampleConfig();
    assert OccursAt("io.read()", "io.read", 0);
    assert Contains("io.read()", c.sources[0]);
    var st1 := Assign(c, Initial(), "a", "io.read()", 1);
    assert st1 == AfterRead();
    assert "io.read" !in c.sinks;
    RunCons(c, Initial(), Assignment("a", "io.read()", 1), [Call("io.read", "", 1)]);
    RunCons(c, st1, Call("io.read", "", 1), []);
  }

  lemma CopyStep()
    ensures Assign(ExampleConfig(), AfterRead(), "b", "a", 2) == AfterCopy()
  {
    var c := ExampleConfig();
    var st := AfterRead();
    MissingChar("a", c.sources[0], 1);
    MissingChar("a", c.cleansers[0], 0);
    SplitWord("a");
    assert Split("a")[0] in st.taintMap;
    assert SourceVar(st, "a") == Some("a");
    assert ChainOf(st, Some("a")) + ["b"] == ["a", "b"];
  }

  /** `os.execute(b)` once `b` is tainted: `find_source_var("b")` picks `b`
      itself, whose chain already ends with `b`. */
  lemma ExecuteStep()
    ensures Sink(ExampleConfig(), AfterCopy(), "os.execute", "b", 3)
            == AfterCopy().(sinkFindings := [Finding(Some("b"), Some(1), "os.execute", 3, ["a", "b"])],
                            sinkDanger := true)
  {
    var c := ExampleConfig();
    var st := AfterCopy();
    assert "os.execute" in c.sinks;
    SplitWord("b");
    assert Split("b")[0] in st.taintMap;
    assert SourceVar(st, "b") == Some("b");
    assert FindingChain(["a", "b"], "b") == ["a", "b"];
  }

  /** The three-line program
        local a = io.read()
        local b = a
        os.execute(b) */
  function FlowProgram(): Node {
    Node("chunk", None, None, None,
         [ReadIntoA(), AssignNode("b", "a", 1, []), CallNode("os.execute", "(b)", 2)])
  }

  /** The same program with `local b = sanitize(a)` before the sink call. */
  function CleansedProgram(): Node {
    Node("chunk", None, None, None,
         [ReadIntoA(), AssignNode("b", "a", 1, []), SanitizeAIntoB(), CallNode("os.execute", "(b)", 3)])
  }

  /** A chunk emits nothing itself: its events are its statements'. */
  lemma ChunkEvents(cs: seq<Node>)
    ensures Events(Node("chunk", None, None, None, cs)) == ChildrenEvents(cs)
  {
  }

  lemma ThreeEvents(x: Node, y: Node, z: Node)
    ensures ChildrenEvents([x, y, z]) == Events(x) + Events(y) + Events(z)
  {
    ChildrenEventsCons(z, []);
    assert [z] + [] == [z];
    ChildrenEventsCons(y, [z]);
    assert [y] + [z] == [y, z];
    ChildrenEventsCons(x, [y, z]);
    assert [x] + [y, z] == [x, y, z];
  }

  lemma FourEvents(w: Node, x: Node, y: Node, z: Node)
    ensures ChildrenEvents([w, x, y, z]) == Events(w) + Events(x) + Events(y) + Events(z)
  {
    ThreeEvents(x, y, z);
    ChildrenEventsCons(w, [x, y, z]);
    assert [w] + [x, y, z] == [w, x, y, z];
  }

  lemma FlowEvents()
    ensures Events(FlowProgram())
            == [Assignment("a", "io.read()", 1), Call("io.read", "", 1)]
               + [Assignment("b", "a", 2)] + [Call("os.execute", "b", 3)]
  {
    var copy := AssignNode("b", "a", 1, []);
    var exec := CallNode("os.execute", "(b)", 2);
    ChunkEvents([ReadIntoA(), copy, exec]);
    ThreeEvents(ReadIntoA(), copy, exec);
    ReadIntoAEvents();
    AssignNodeEvents("b", "a", 1, []);
    assert ChildrenEvents([]) == [];
    CallNodeEvents("os.execute", "(b)", 2);
    ArgsTextSimple();
  }

  /** The events of the cleansed program, statement by statement. */
  function CleansedStream(): seq<Event> {
    [Assignment("a", "io.read()", 1), Call("io.read", "", 1)]
    + [Assignment("b", "a", 2)]
    + [Assignment("b", "sanitize(a)", 3), Call("sanitize", "a", 3)]
    + [Call("os.execute", "b", 4)]
  }

  lemma CleansedEvents()
    ensures Events(CleansedProgram()) == CleansedStream()
  {
    var copy := AssignNode("b", "a", 1, []);
    var exec := CallNode("os.execute", "(b)", 3);
    ChunkEvents([ReadIntoA(), copy, SanitizeAIntoB(), exec]);
    FourEvents(ReadIntoA(), copy, SanitizeAIntoB(), exec);
    ReadIntoAEvents();
    AssignNodeEvents("b", "a", 1, []);
    assert ChildrenEvents([]) == [];
    SanitizeAIntoBEvents();
    CallNodeEvents("os.execute", "(b)", 3);
    ArgsTextSimple();
    assert Events(exec) == [Call("os.execute", "b", 4)];
    assert Events(copy) == [Assignment("b", "a", 2)];
  }

  /** The flow program records one finding, at line 3 with origin line 1
      and chain a, b. The variable named in the finding is `b`, the token of
      the sink's argument that `find_source_var` resolves, not the
      source-assigned `a`. */
  lemma SourceReachesSink()
    ensures var r := AnalyzeTree(ExampleConfig(), FlowProgram());
      && r.sinkFindings == [Finding(Some("b"), Some(1), "os.execute", 3, ["a", "b"])]
      && r.sinkDanger
  {
    var c := ExampleConfig();
    var e1 := [Assignment("a", "io.read()", 1), Call("io.read", "", 1)];
    var e2 := Assignment("b", "a", 2);
    var e3 := Call("os.execute", "b", 3);
    FlowEvents();
    RunAppend(c, Initial(), e1 + [e2], [e3]);
    RunSnoc(c, Initial(), e1, e2);
    ReadStep();
    CopyStep();
    RunCons(c, AfterCopy(), e3, []);
    ExecuteStep();
  }

  /** In the cleansed program `b` is untainted when the sink is checked and
      nothing is recorded; the chain `b` got on line 2 stays in
      `taint_chains`. */
  lemma CleanserBreaksFlow()
    ensures var r := AnalyzeTree(ExampleConfig(), CleansedProgram());
      && r.sinkFindings == []
      && !r.sinkDanger
      && "b" in r.taintMap && !r.taintMap["b"]
      && "b" in r.taintChains && r.taintChains["b"] == ["a", "b"]
  {
    CleansedEvents();
    CleansedRun();
    AfterCleanseFields();
  }

  lemma CleansedRun()
    ensures Run(ExampleConfig(), Initial(), CleansedStream()) == AfterCleanse()
  {
    var c := ExampleConfig();
    var pre := [Assignment("a", "io.read()", 1), Call("io.read", "", 1)]
               + [Assignment("b", "a", 2)]
               + [Assignment("b", "sanitize(a)", 3), Call("sanitize", "a", 3)];
    var e4 := Call("os.execute", "b", 4);
    CleansedPrefix();
    RunSnoc(c, Initial(), pre, e4);
    UntaintedB(AfterCleanse());
  }

  function AfterCleanse(): State {
    AfterCopy().(taintMap := map["a" := true, "b" := false])
  }

  lemma AfterCleanseFields()
    ensures AfterCleanse().sinkFindings == [] && !AfterCleanse().sinkDanger
    ensures "b" in AfterCleanse().taintMap && !AfterCleanse().taintMap["b"]
    ensures "b" in AfterCleanse().taintChains && AfterCleanse().taintChains["b"] == ["a", "b"]
  {
  }

  lemma CleansedPrefix()
    ensures Run(ExampleConfig(), Initial(),
                [Assignment("a", "io.read()", 1), Call("io.read", "", 1)]
                + [Assignment("b", "a", 2)]
                + [Assignment("b", "sanitize(a)", 3), Call("sanitize", "a", 3)])
            == AfterCleanse()
  {
    var c := ExampleConfig();
    var e1 := [Assignment("a", "io.read()", 1), Call("io.read", "", 1)];
    var e2 := Assignment("b", "a", 2);
    var e3 := [Assignment("b", "sanitize(a)", 3), Call("sanitize", "a", 3)];
    RunSnoc(c, Initial(), e1, e2);
    ReadStep();
    CopyStep();
    RunAppend(c, Initial(), e1 + [e2], e3);
    var st := CleanseStep();
  }

  lemma UntaintedB(st: State)
    requires st == AfterCleanse()
    ensures Sink(ExampleConfig(), st, "os.execute", "b", 4) == st
  {
    SplitWord("b");
    assert !IsTainted(st, "b");
  }

  lemma SanitizeNotSource()
    ensures !IsSource(ExampleConfig(), "sanitize(a)")
  {
    var s := "sanitize(a)";
    var p := "io.read";
    assert p[1] == 'o';
    assert 'o' !in s;
    MissingChar(s, p, 1);
  }

  lemma SanitizeIsCleanser()
    ensures IsCleanser(ExampleConfig(), "sanitize(a)")
  {
    var s := "sanitize(a)";
    assert s[0..8] == "sanitize";
    assert OccursAt(s, "sanitize", 0);
    assert ExampleConfig().cleansers[0] == "sanitize";
  }

  /** `local b = sanitize(a)` followed by the nested call `sanitize(a)`. */
  lemma CleanseStep() returns (st: State)
    ensures st == Run(ExampleConfig(), AfterCopy(), [Assignment("b", "sanitize(a)", 3), Call("sanitize", "a", 3)])
    ensures st == AfterCleanse()
  {
    var c := ExampleConfig();
    SanitizeNotSource();
    SanitizeIsCleanser();
    st := Assign(c, AfterCopy(), "b", "sanitize(a)", 3);
    assert "sanitize" !in c.sinks;
    RunCons(c, AfterCopy(), Assignment("b", "sanitize(a)", 3), [Call("sanitize", "a", 3)]);
    RunCons(c, st, Call("sanitize", "a", 3), []);
  }
}
