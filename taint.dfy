/** The taint-tracking state machine of crophslog (`TaintAnalyzer`).

    The pure functions `Assign`, `Sink` and `Run` say what one assignment
    event, one call event and a whole event stream do to the analyzer's
    state; the class `TaintAnalyzer` keeps that state in mutable fields as
    the Python object does, and each of its methods is proved to follow the
    corresponding function. */
module Taint {
  import opened Wrappers
  import opened Text

  /** The three marker lists read from the YAML definitions file (a key
      missing there is an empty list). */
  datatype Config = Config(sources: seq<string>, cleansers: seq<string>, sinks: seq<string>)

  /** One event of the syntax-tree walk: `analyze_assignment(target, expr,
      line)` or `check_sink(func, args, line)`. */
  datatype Event =
    | Assignment(target: string, expr: string, line: nat)
    | Call(func: string, args: string, line: nat)

  /** One entry of `sink_findings`: the tuple
      `(source_var, origin_line, func_name, line_number, chain)`.
      `sourceVar` and `originLine` are Python values that may be `None`. */
  datatype Finding = Finding(
    sourceVar: Option<string>,
    originLine: Option<nat>,
    sinkFunc: string,
    sinkLine: nat,
    chain: seq<string>)

  /** The analyzer's mutable state: `taint_map`, `taint_origins`,
      `taint_chains`, `sink_findings` and `sink_danger`. A value of
      `taint_origins` may be `None` (it is stored from `dict.get`). */
  datatype State = State(
    taintMap: map<string, bool>,
    taintOrigins: map<string, Option<nat>>,
    taintChains: map<string, seq<string>>,
    sinkFindings: seq<Finding>,
    sinkDanger: bool)

  /** The state right after `__init__`. */
  function Initial(): State {
    State(map[], map[], map[], [], false)
  }

  // ---------------------------------------------------------------------
  // Classification (is_source, is_cleanser, is_tainted, find_source_var)

  /** `is_source`: some source marker is a substring of `expr`. */
  predicate IsSource(c: Config, expr: string) {
    exists i | 0 <= i < |c.sources| :: Contains(expr, c.sources[i])
  }

  /** `is_cleanser`: some cleanser marker is a substring of `expr`. */
  predicate IsCleanser(c: Config, expr: string) {
    exists i | 0 <= i < |c.cleansers| :: Contains(expr, c.cleansers[i])
  }

  /** `is_tainted`: some whitespace token of `expr` is mapped to `True`. */
  predicate IsTainted(st: State, expr: string) {
    var toks := Split(expr);
    exists i | 0 <= i < |toks| :: toks[i] in st.taintMap && st.taintMap[toks[i]]
  }

  /** Position of the first token that is a key of `chains`. */
  function FirstChainIndex(toks: seq<string>, chains: map<string, seq<string>>): (r: Option<nat>)
    ensures r.Some? ==> r.value < |toks| && toks[r.value] in chains
    ensures r.Some? ==> forall j :: 0 <= j < r.value ==> toks[j] !in chains
    ensures r.None? ==> forall j :: 0 <= j < |toks| ==> toks[j] !in chains
    decreases |toks|
  {
    if toks == [] then None
    else if toks[0] in chains then Some(0)
    else
      match FirstChainIndex(toks[1..], chains)
      case None => None
      case Some(k) => Some(k + 1)
  }

  /** `find_source_var`: the first whitespace token of `expr` that is a key
      of `taint_chains`, whether or not that token is currently tainted. */
  function SourceVar(st: State, expr: string): Option<string> {
    var toks := Split(expr);
    match FirstChainIndex(toks, st.taintChains)
    case None => None
    case Some(i) => Some(toks[i])
  }

  /** `taint_origins.get(source_var)`. */
  function OriginOf(st: State, src: Option<string>): Option<nat> {
    if src.Some? && src.value in st.taintOrigins then st.taintOrigins[src.value] else None
  }

  /** `taint_chains.get(source_var, [])`. */
  function ChainOf(st: State, src: Option<string>): seq<string> {
    if src.Some? && src.value in st.taintChains then st.taintChains[src.value] else []
  }

  // ---------------------------------------------------------------------
  // The two events

  /** `analyze_assignment(v, expr, line)`: source, then cleanser, then
      propagation, then the untainted default. */
  function Assign(c: Config, st: State, v: string, expr: string, line: nat): (r: State)
    // the four cases, in precedence order
    ensures IsSource(c, expr) ==>
      && r.taintMap == st.taintMap[v := true]
      && r.taintOrigins == st.taintOrigins[v := Some(line)]
      && r.taintChains == st.taintChains[v := [v]]
    ensures !IsSource(c, expr) && IsCleanser(c, expr) ==>
      && r.taintMap == st.taintMap[v := false]
      && r.taintOrigins == st.taintOrigins
      && r.taintChains == st.taintChains
    ensures !IsSource(c, expr) && !IsCleanser(c, expr) && IsTainted(st, expr) ==>
      && r.taintMap == st.taintMap[v := true]
      && r.taintOrigins == st.taintOrigins[v := OriginOf(st, SourceVar(st, expr))]
      && r.taintChains == st.taintChains[v := ChainOf(st, SourceVar(st, expr)) + [v]]
    ensures !IsSource(c, expr) && !IsCleanser(c, expr) && !IsTainted(st, expr) ==>
      && r.taintMap == st.taintMap[v := false]
      && r.taintOrigins == st.taintOrigins
      && r.taintChains == st.taintChains
    // what holds in every case
    ensures v in r.taintMap
    ensures r.taintMap[v] <==> IsSource(c, expr) || (!IsCleanser(c, expr) && IsTainted(st, expr))
    ensures r.taintMap - {v} == st.taintMap - {v}
    ensures r.taintOrigins - {v} == st.taintOrigins - {v}
    ensures r.taintChains - {v} == st.taintChains - {v}
    ensures r.sinkFindings == st.sinkFindings && r.sinkDanger == st.sinkDanger
  {
    if IsSource(c, expr) then
      st.(taintMap := st.taintMap[v := true],
          taintOrigins := st.taintOrigins[v := Some(line)],
          taintChains := st.taintChains[v := [v]])
    else if IsCleanser(c, expr) then
      st.(taintMap := st.taintMap[v := false])
    else if IsTainted(st, expr) then
      var src := SourceVar(st, expr);
      st.(taintMap := st.taintMap[v := true],
          taintOrigins := st.taintOrigins[v := OriginOf(st, src)],
          taintChains := st.taintChains[v := ChainOf(st, src) + [v]])
    else
      st.(taintMap := st.taintMap[v := false])
  }

  /** The chain recorded in a finding: the stored chain, with the argument
      text appended when the chain is non-empty and does not already end
      with it. */
  function FindingChain(base: seq<string>, args: string): (r: seq<string>)
    ensures |base| <= |r| <= |base| + 1
    ensures r[..|base|] == base
    ensures base != [] ==> r[|r| - 1] == args
    ensures |r| == |base| + 1 <==> (base != [] && base[|base| - 1] != args)
  {
    if base != [] && base[|base| - 1] != args then base + [args] else base
  }

  /** `check_sink(func, args, line)`. */
  function Sink(c: Config, st: State, func: string, args: string, line: nat): (r: State)
    ensures func !in c.sinks || !IsTainted(st, args) ==> r == st
    ensures func in c.sinks && IsTainted(st, args) ==>
      var src := SourceVar(st, args);
      && r.sinkFindings == st.sinkFindings
           + [Finding(src, OriginOf(st, src), func, line, FindingChain(ChainOf(st, src), args))]
      && r.sinkDanger
    // the maps, and so the stored chain, are never changed
    ensures r.taintMap == st.taintMap && r.taintOrigins == st.taintOrigins && r.taintChains == st.taintChains
  {
    if func in c.sinks && IsTainted(st, args) then
      var src := SourceVar(st, args);
      var chain := FindingChain(ChainOf(st, src), args);
      st.(sinkFindings := st.sinkFindings + [Finding(src, OriginOf(st, src), func, line, chain)],
          sinkDanger := true)
    else
      st
  }

  /** One event applied to the state. */
  function Step(c: Config, st: State, e: Event): State {
    match e
    case Assignment(v, expr, line) => Assign(c, st, v, expr, line)
    case Call(func, args, line) => Sink(c, st, func, args, line)
  }

  /** The events applied in order. */
  function Run(c: Config, st: State, es: seq<Event>): State
    decreases |es|
  {
    if es == [] then st else Run(c, Step(c, st, es[0]), es[1..])
  }

  // ---------------------------------------------------------------------
  // The analyzer's invariant

  /** Consistency of the analyzer state:
      every chain is non-empty and ends with its own key; every tainted
      variable has a chain; `taint_origins` has the same keys as
      `taint_chains` and holds no `None`; `sink_danger` is set exactly when
      a finding was recorded; and every finding names its source variable,
      an origin line, a non-empty chain and a configured sink. */
  ghost predicate Inv(c: Config, st: State) {
    && (forall v | v in st.taintChains :: |st.taintChains[v]| > 0 && st.taintChains[v][|st.taintChains[v]| - 1] == v)
    && (forall v | v in st.taintMap :: st.taintMap[v] ==> v in st.taintChains)
    && st.taintOrigins.Keys == st.taintChains.Keys
    && (forall v | v in st.taintOrigins :: st.taintOrigins[v].Some?)
    && (st.sinkDanger <==> |st.sinkFindings| > 0)
    && (forall i | 0 <= i < |st.sinkFindings| :: FindingResolved(c, st.sinkFindings[i]))
  }

  ghost predicate FindingResolved(c: Config, f: Finding) {
    f.sourceVar.Some? && f.originLine.Some? && |f.chain| > 0 && f.sinkFunc in c.sinks
  }

  lemma InitialInv(c: Config)
    ensures Inv(c, Initial())
  {
  }

  /** Classification is by substring, so an expression that is a source
      (or a cleanser) stays one inside any larger expression, e.g. as the
      argument of a call. */
  lemma MarkersInContext(c: Config, pre: string, expr: string, post: string)
    ensures IsSource(c, expr) ==> IsSource(c, pre + expr + post)
    ensures IsCleanser(c, expr) ==> IsCleanser(c, pre + expr + post)
  {
    if IsSource(c, expr) {
      var i :| 0 <= i < |c.sources| && Contains(expr, c.sources[i]);
      ContainsInContext(pre, expr, post, c.sources[i]);
    }
    if IsCleanser(c, expr) {
      var i :| 0 <= i < |c.cleansers| && Contains(expr, c.cleansers[i]);
      ContainsInContext(pre, expr, post, c.cleansers[i]);
    }
  }

  /** When `is_tainted` holds, `find_source_var` finds a variable that has a
      chain and an origin line: it never returns `None`. */
  lemma TaintedHasSource(c: Config, st: State, expr: string)
    requires Inv(c, st)
    requires IsTainted(st, expr)
    ensures SourceVar(st, expr).Some?
    ensures SourceVar(st, expr).value in st.taintChains
    ensures OriginOf(st, SourceVar(st, expr)).Some?
    ensures |ChainOf(st, SourceVar(st, expr))| > 0
  {
    var toks := Split(expr);
    var i :| 0 <= i < |toks| && toks[i] in st.taintMap && st.taintMap[toks[i]];
    assert toks[i] in st.taintChains;
  }

  /** Setting one variable's entries keeps the invariant when the new
      entries are consistent. */
  lemma UpdateInv(c: Config, st: State, r: State, v: string)
    requires Inv(c, st)
    requires r.sinkFindings == st.sinkFindings && r.sinkDanger == st.sinkDanger
    requires r.taintMap - {v} == st.taintMap - {v}
    requires r.taintOrigins - {v} == st.taintOrigins - {v}
    requires r.taintChains - {v} == st.taintChains - {v}
    requires v in r.taintMap
    requires v in r.taintChains <==> v in r.taintOrigins
    requires v in r.taintChains ==> |r.taintChains[v]| > 0 && r.taintChains[v][|r.taintChains[v]| - 1] == v
    requires v in r.taintOrigins ==> r.taintOrigins[v].Some?
    requires r.taintMap[v] ==> v in r.taintChains
    ensures Inv(c, r)
  {
    forall w | w in r.taintChains
      ensures |r.taintChains[w]| > 0 && r.taintChains[w][|r.taintChains[w]| - 1] == w
    {
      if w != v {
        assert w in r.taintChains - {v};
        assert r.taintChains[w] == st.taintChains[w];
      }
    }
    forall w | w in r.taintMap && r.taintMap[w] ensures w in r.taintChains {
      if w != v {
        assert w in r.taintMap - {v};
        assert w in st.taintChains - {v};
      }
    }
    forall w ensures w in r.taintOrigins <==> w in r.taintChains {
      if w != v {
        assert w in r.taintOrigins <==> w in st.taintOrigins - {v};
        assert w in r.taintChains <==> w in st.taintChains - {v};
      }
    }
    assert r.taintOrigins.Keys == r.taintChains.Keys;
    forall w | w in r.taintOrigins ensures r.taintOrigins[w].Some? {
      if w != v {
        assert w in r.taintOrigins - {v};
        assert r.taintOrigins[w] == st.taintOrigins[w];
      }
    }
  }

  lemma AssignInv(c: Config, st: State, v: string, expr: string, line: nat)
    requires Inv(c, st)
    ensures Inv(c, Assign(c, st, v, expr, line))
  {
    var r := Assign(c, st, v, expr, line);
    if IsSource(c, expr) {
    } else if IsCleanser(c, expr) {
    } else if IsTainted(st, expr) {
      TaintedHasSource(c, st, expr);
    }
    UpdateInv(c, st, r, v);
  }

  lemma SinkInv(c: Config, st: State, func: string, args: string, line: nat)
    requires Inv(c, st)
    ensures Inv(c, Sink(c, st, func, args, line))
  {
    if func in c.sinks && IsTainted(st, args) {
      TaintedHasSource(c, st, args);
      var r := Sink(c, st, func, args, line);
      assert FindingResolved(c, r.sinkFindings[|r.sinkFindings| - 1]);
      assert forall i | 0 <= i < |st.sinkFindings| :: r.sinkFindings[i] == st.sinkFindings[i];
    }
  }

  lemma StepInv(c: Config, st: State, e: Event)
    requires Inv(c, st)
    ensures Inv(c, Step(c, st, e))
  {
    match e
    case Assignment(v, expr, line) => AssignInv(c, st, v, expr, line);
    case Call(func, args, line) => SinkInv(c, st, func, args, line);
  }

  /** The invariant holds after any stream of events. */
  lemma {:induction false} RunInv(c: Config, st: State, es: seq<Event>)
    requires Inv(c, st)
    ensures Inv(c, Run(c, st, es))
    decreases |es|
  {
    if es != [] {
      StepInv(c, st, es[0]);
      RunInv(c, Step(c, st, es[0]), es[1..]);
    }
  }

  /** Running a prefix and then one more event. */
  lemma {:induction false} RunSnoc(c: Config, st: State, es: seq<Event>, e: Event)
    ensures Run(c, st, es + [e]) == Step(c, Run(c, st, es), e)
    decreases |es|
  {
    if es == [] {
      assert [] + [e] == [e];
    } else {
      assert (es + [e])[1..] == es[1..] + [e];
      RunSnoc(c, Step(c, st, es[0]), es[1..], e);
    }
  }

  /** Running two streams one after the other is running their
      concatenation: the analyzer carries no state besides `State`. */
  lemma {:induction false} RunAppend(c: Config, st: State, a: seq<Event>, b: seq<Event>)
    ensures Run(c, st, a + b) == Run(c, Run(c, st, a), b)
    decreases |a|
  {
    if a == [] {
      assert a + b == b;
    } else {
      assert (a + b)[0] == a[0];
      assert (a + b)[1..] == a[1..] + b;
      RunAppend(c, Step(c, st, a[0]), a[1..], b);
    }
  }

  /** Findings are only ever appended: earlier findings are kept, in order,
      as a prefix, and the stream never clears `sink_danger`. */
  lemma {:induction false} RunKeepsFindings(c: Config, st: State, es: seq<Event>)
    ensures st.sinkFindings <= Run(c, st, es).sinkFindings
    ensures st.sinkDanger ==> Run(c, st, es).sinkDanger
    decreases |es|
  {
    if es != [] {
      var next := Step(c, st, es[0]);
      assert st.sinkFindings <= next.sinkFindings;
      RunKeepsFindings(c, next, es[1..]);
    }
  }

  /** A stream of assignments records no finding, and a stream whose calls
      name no configured sink records none either. */
  lemma {:induction false} RunWithoutSinkCalls(c: Config, st: State, es: seq<Event>)
    requires forall i | 0 <= i < |es| :: es[i].Call? ==> es[i].func !in c.sinks
    ensures Run(c, st, es).sinkFindings == st.sinkFindings
    ensures Run(c, st, es).sinkDanger == st.sinkDanger
    decreases |es|
  {
    if es != [] {
      RunWithoutSinkCalls(c, Step(c, st, es[0]), es[1..]);
    }
  }

  // ---------------------------------------------------------------------
  // The analyzer object

  /** `TaintAnalyzer`: the marker lists are fixed at construction, the
      three maps, the findings list and the danger flag are updated in
      place by `AnalyzeAssignment` and `CheckSink`. */
  class TaintAnalyzer {
    const sources: seq<string>
    const cleansers: seq<string>
    const sinks: seq<string>
    var taintMap: map<string, bool>
    var taintOrigins: map<string, Option<nat>>
    var taintChains: map<string, seq<string>>
    var sinkFindings: seq<Finding>
    var sinkDanger: bool

    function Cfg(): Config {
      Config(sources, cleansers, sinks)
    }

    /** The fields as one state value. */
    function Current(): State
      reads this
    {
      State(taintMap, taintOrigins, taintChains, sinkFindings, sinkDanger)
    }

    ghost predicate Valid()
      reads this
    {
      Inv(Cfg(), Current())
    }

    constructor (sources: seq<string>, cleansers: seq<string>, sinks: seq<string>)
      ensures Cfg() == Config(sources, cleansers, sinks)
      ensures Current() == Initial()
      ensures Valid()
    {
      this.sources := sources;
      this.cleansers := cleansers;
      this.sinks := sinks;
      taintMap := map[];
      taintOrigins := map[];
      taintChains := map[];
      sinkFindings := [];
      sinkDanger := false;
    }

    /** `find_source_var`: scan the tokens left to right and stop at the
        first one that is a key of `taint_chains`. */
    method FindSourceVar(expr: string) returns (r: Option<string>)
      ensures r == SourceVar(Current(), expr)
    {
      var toks := Split(expr);
      var i := 0;
      while i < |toks|
        invariant 0 <= i <= |toks|
        invariant forall j :: 0 <= j < i ==> toks[j] !in taintChains
      {
        if toks[i] in taintChains {
          return Some(toks[i]);
        }
        i := i + 1;
      }
      return None;
    }

    /** `analyze_assignment`. */
    method AnalyzeAssignment(v: string, expr: string, line: nat)
      modifies this
      ensures Current() == Assign(Cfg(), old(Current()), v, expr, line)
      ensures old(Valid()) ==> Valid()
    {
      ghost var st := Current();
      ghost var post := Assign(Cfg(), st, v, expr, line);
      if IsSource(Cfg(), expr) {
        taintMap := taintMap[v := true];
        taintOrigins := taintOrigins[v := Some(line)];
        taintChains := taintChains[v := [v]];
        assert Current() == post;
      } else if IsCleanser(Cfg(), expr) {
        taintMap := taintMap[v := false];
        assert Current() == post;
      } else if IsTainted(Current(), expr) {
        var src := FindSourceVar(expr);
        assert src == SourceVar(st, expr);
        var origin := if src.Some? && src.value in taintOrigins then taintOrigins[src.value] else None;
        var chain := if src.Some? && src.value in taintChains then taintChains[src.value] else [];
        assert origin == OriginOf(st, src) && chain == ChainOf(st, src);
        taintMap := taintMap[v := true];
        taintOrigins := taintOrigins[v := origin];
        taintChains := taintChains[v := chain + [v]];
        assert Current() == post;
      } else {
        taintMap := taintMap[v := false];
        assert Current() == post;
      }
      if Inv(Cfg(), st) {
        AssignInv(Cfg(), st, v, expr, line);
      }
    }

    /** `check_sink`. */
    method CheckSink(func: string, args: string, line: nat)
      modifies this
      ensures Current() == Sink(Cfg(), old(Current()), func, args, line)
      ensures old(Valid()) ==> Valid()
    {
      ghost var st := Current();
      ghost var post := Sink(Cfg(), st, func, args, line);
      if func in sinks {
        if IsTainted(Current(), args) {
          var src := FindSourceVar(args);
          var originLine := if src.Some? && src.value in taintOrigins then taintOrigins[src.value] else None;
          var chain := if src.Some? && src.value in taintChains then taintChains[src.value] else [];
          assert chain == ChainOf(st, src) && originLine == OriginOf(st, src);
          if chain != [] && chain[|chain| - 1] != args {
            chain := chain + [args];
          }
          assert chain == FindingChain(ChainOf(st, src), args);
          var f := Finding(src, originLine, func, line, chain);
          assert post.sinkFindings == st.sinkFindings + [f] && post.sinkDanger;
          sinkFindings := sinkFindings + [f];
          sinkDanger := true;
          assert Current() == post;
        }
      }
      if Inv(Cfg(), st) {
        SinkInv(Cfg(), st, func, args, line);
      }
    }
  }
}
