# crophslog taint analyzer and VeinTap extractor, in Dafny

The model covers three parts of crophslog, a static taint analyzer for Lua source files.

1. **The `TaintAnalyzer` state machine** (`crophslog.py`).
   - The analyzer keeps four pieces of state:
     - `taint_map`: which variables are tainted;
     - `taint_origins`: the source line each taint came from;
     - `taint_chains`: the variable chain of each taint;
     - `sink_findings`, with the flag `sink_danger`.
   - Two events change that state:
     - an assignment `v = expr` goes through `analyze_assignment`, checked in this order: source, cleanser, propagation, untainted;
     - a function call goes through `check_sink`, which records a finding when a configured sink receives a tainted token.
   - Module `Taint` defines the state as a datatype. The pure functions `Assign`, `Sink` and `Run` give the meaning of one event and of a whole event stream.
   - The class `Taint.TaintAnalyzer` keeps the same state in mutable fields, as the Python object does. Each of its methods is proved to follow the matching function and to preserve the invariant `Taint.Inv`.
2. **Event extraction** (`walk_tree`).
   - The syntax tree is the datatype `Walk.Node`.
   - `Walk.Events` lists the events of a pre-order, left-to-right walk. Argument text is stripped exactly as `raw.strip('(').strip(')')` does it.
   - `Walk.WalkTree` feeds the events to an analyzer, one at a time.
   - `Walk.AnalyzeTree` is the analysis of one file with a fresh analyzer.
3. **VeinTap** (`utils/veintap.py`), which takes Lua code out of templates.
   - `Veintap.ExtractLuaBlocks` models `extract_lua_blocks`: every non-greedy `<?…?>` region, stripped, joined by a blank line.
   - `Veintap.OutputName` is the `_compiled.lua` file-name rule.
   - `Veintap.CompileTemplate` is the write-or-skip decision for one template.

Module `Text` supplies the Python string operations the model needs:
- substring search;
- `str.split()`, `str.strip()` and `str.strip(chars)`;
- `str.join`.

Module `Scenarios` runs two example programs through the whole pipeline.

Two consequences of the code are worth stating up front:
- **Finding for `a = io.read()`, `b = a`, `os.execute(b)`.** `find_source_var` is applied to the sink's argument `b`, and `b` is itself a key of `taint_chains`, so the finding names `b`, not the source-assigned `a`. The chain stays `a, b`, because it already ends with `b` (`Scenarios.SourceReachesSink`).
- **Argument stripping.** `strip('(')` removes every leading and trailing `(`, and `strip(')')` then every leading and trailing `)`, so `((x))` gives `x` and `(g(x))` gives `g(x`.

## Model

| member | source | states |
|---|---|---|
| Taint.TaintAnalyzer.constructor | crophslog.py:31-41 | the three marker lists are stored; all maps are empty, there are no findings and `sink_danger` is false; the invariant holds |
| Taint.InitialInv | crophslog.py:37-41 | the freshly initialised state satisfies the analyzer invariant |
| Taint.IsSource | crophslog.py:76-77 | `is_source`: some configured source marker is a substring of the expression (definition; its properties are `Text.Contains` and `Taint.MarkersInContext`) |
| Taint.IsCleanser | crophslog.py:79-80 | `is_cleanser`: some configured cleanser marker is a substring of the expression (definition; see `Taint.MarkersInContext`) |
| Taint.IsTainted | crophslog.py:82-83 | `is_tainted`: some `split()` token of the expression is a key of `taint_map` mapped to true (definition; the tokens are characterised by `Text.Split` and `Text.SplitJoinWords`) |
| Taint.SourceVar | crophslog.py:85-89 | `find_source_var`: the token at `FirstChainIndex` of the expression's tokens, or none (definition; `Taint.TaintAnalyzer.FindSourceVar` is proved equal to it) |
| Taint.Assign | crophslog.py:43-60 | the four cases in order: source sets map, origin line and one-element chain whatever the cleansers say; cleanser sets only the map entry to false and keeps stale origin and chain; propagation copies `taint_origins.get(src)` and extends `taint_chains.get(src, [])` with the variable; otherwise only the map entry becomes false. The variable always ends up in `taint_map`, tainted iff source or (not cleanser and tainted), and no other variable's entry in any map changes |
| Taint.TaintAnalyzer.AnalyzeAssignment | crophslog.py:43-60 | the fields after the call are `Assign` of the fields before it; the invariant is preserved |
| Taint.FindingChain | crophslog.py:67-69 | the finding's chain is the stored chain, with one element added at the end exactly when the stored chain is non-empty and does not already end with the argument text; a non-empty result ends with the argument text |
| Taint.Sink | crophslog.py:62-75 | a non-sink call or untainted arguments leave the state unchanged; otherwise exactly one finding (source variable, its origin, sink, line, chain) is appended and `sink_danger` is set; the three maps, and so the stored chain, never change |
| Taint.TaintAnalyzer.CheckSink | crophslog.py:62-75 | the fields after the call are `Sink` of the fields before it; the invariant is preserved |
| Taint.MarkersInContext | crophslog.py:77-81 | source and cleanser detection are substring tests: an expression that is a source or a cleanser stays one inside any larger expression |
| Text.Contains | crophslog.py:77-81 | `pat in s` holds exactly when `pat` occurs at some position of `s` |
| Text.FindSpec | crophslog.py:77-81 | the result of `find` is the leftmost occurrence, and none means no occurrence at all |
| Text.FindUnique | crophslog.py:77-81 | an occurrence with none before it is exactly what `find` returns |
| Text.ContainsInContext | crophslog.py:77-81 | an occurrence of a marker survives text added before and after |
| Text.MissingChar | crophslog.py:77-81 | a marker with a character the expression lacks is not contained in it |
| Text.Split | crophslog.py:83-84 | every token of `str.split()` is non-empty and free of whitespace |
| Text.SplitJoinWords | crophslog.py:83-84 | splitting words joined by single spaces gives back exactly those words |
| Text.SplitWordSpace | crophslog.py:83-84 | a word followed by a space and more text splits into that word followed by the split of the rest |
| Taint.FirstChainIndex | crophslog.py:86-90 | the index of the first token that is a key of `taint_chains`: that token is a key, no earlier one is, and none means no token is |
| Taint.TaintAnalyzer.FindSourceVar | crophslog.py:86-90 | the early-return loop returns the first token of the expression that is a key of `taint_chains`, or none |
| Taint.TaintedHasSource | crophslog.py:52-56 | under the invariant, when `is_tainted` holds, `find_source_var` returns a variable with a chain and a non-null origin line: it never returns `None` |
| Taint.AssignInv | crophslog.py:43-60 | an assignment preserves the invariant: chains are non-empty and end with their key, every tainted variable has a chain, origins and chains have the same keys, no origin is null |
| Taint.SinkInv | crophslog.py:62-75 | a call preserves the invariant, including `sink_danger` iff some finding exists and every finding naming a source variable, an origin line, a non-empty chain and a configured sink |
| Taint.Step | crophslog.py:109-124 | one event: an assignment is `Assign`, a call is `Sink` (definition; see `Taint.StepInv` and `Walk.Dispatch`) |
| Taint.Run | crophslog.py:108-127 | the events applied in order from a given state (definition; see `Taint.RunInv`, `Taint.RunSnoc`, `Taint.RunAppend`) |
| Taint.StepInv | crophslog.py:43-75 | either event preserves the invariant |
| Taint.RunInv | crophslog.py:125-126 | any event stream preserves the invariant |
| Taint.RunSnoc | crophslog.py:125-126 | handling one more event after a stream is one analyzer step on the stream's result |
| Taint.RunAppend | crophslog.py:125-126 | handling two streams in turn is handling their concatenation |
| Taint.RunKeepsFindings | crophslog.py:70-73 | findings are only appended: earlier findings stay as a prefix and `sink_danger` is never cleared |
| Taint.RunWithoutSinkCalls | crophslog.py:62-63 | a stream with no call to a configured sink records no finding and leaves `sink_danger` as it was |
| Text.LeadingCount | crophslog.py:122 | the number of characters `lstrip(chars)` drops: all of them belong to the set, and the next character, if any, does not |
| Text.TrailingCount | crophslog.py:122 | the number of characters `rstrip(chars)` drops: all of them belong to the set, and the character before them, if any, does not |
| Text.StripLeft | crophslog.py:122 | `lstrip(chars)`: the input after its leading run of set characters (definition; see `Text.LeadingCount`) |
| Text.StripRight | crophslog.py:122 | `rstrip(chars)`: the input before its trailing run of set characters (definition; see `Text.TrailingCount`) |
| Text.StripSet | crophslog.py:122 | `strip(chars)`: `lstrip` then `rstrip` with the same set (definition; see `Text.StripSetSpec`) |
| Text.StripLeftExactly | crophslog.py:122 | when exactly the first `n` characters belong to the set, `lstrip` drops those `n` characters |
| Text.StripRightExactly | crophslog.py:122 | when exactly the characters after position `n` belong to the set, `rstrip` keeps the first `n` characters |
| Text.StripSetSpec | crophslog.py:122 | `strip(chars)`: a contiguous part of the input whose ends are outside the set, with only set characters removed around it |
| Text.StrippedTwice | crophslog.py:122 | two strips in a row remove, around a contiguous part, only characters of either set |
| Walk.ArgsText | crophslog.py:122 | `.strip('(').strip(')')` on the raw argument text (definition; see `Walk.ArgsTextEnds` and the three worked examples) |
| Walk.ArgsTextEnds | crophslog.py:122 | `strip('(').strip(')')` removes only parentheses and only from the ends, and the argument text passed to `check_sink` is empty or neither starts nor ends with `)` |
| Walk.ArgsTextNestedCall | crophslog.py:122 | `(g(x))` becomes `g(x`: the parentheses are not balanced |
| Walk.ArgsTextDoubleParens | crophslog.py:122 | `((x))` becomes `x`: every parenthesis at either end is removed |
| Walk.ArgsTextSimple | crophslog.py:122 | `(b)` becomes `b` |
| Walk.Events | crophslog.py:108-126 | `recurse`: a node's own event, then its children's events, left to right (definition; see `Walk.EventsPreorder`, `Walk.DescendantEvents`) |
| Walk.ChildrenEvents | crophslog.py:125-126 | the `for child in node.children` loop: the events of each child in turn (definition; see `Walk.ChildrenEventsAppend`) |
| Walk.NodeEvents | crophslog.py:109-124 | a node emits at most one event of its own |
| Walk.EventsPreorder | crophslog.py:125-126 | a node's own event comes first, then its children's events, child by child from left to right |
| Walk.ChildrenEventsAppend | crophslog.py:125-126 | the events of two runs of siblings are the events of the first run followed by those of the second |
| Walk.DescendantEvents | crophslog.py:108-127 | every descendant's events appear contiguously, in order, inside its ancestor's events, after the ancestor's own event |
| Walk.NestedCallAfterAssignment | crophslog.py:109-124 | a call nested at any depth inside an assignment yields both events, the assignment first |
| Walk.EventsWellFormed | crophslog.py:115-123 | every extracted event has a 1-based line, and every call's argument text neither starts nor ends with `)` |
| Walk.Dispatch | crophslog.py:109-124 | an assignment event goes to `analyze_assignment` and a call event to `check_sink`: the fields become one analyzer step of the fields before; the invariant is preserved |
| Walk.WalkTree | crophslog.py:105-127 | the analyzer's fields after the walk are the fold of `Assign`/`Sink` over the walk's events, in order; the invariant is preserved |
| Walk.AnalyzeTree | crophslog.py:148-150 | for one file with a fresh analyzer: `sink_danger` holds iff findings exist, every finding is fully resolved and names a configured sink, and every tainted variable has a chain |
| Scenarios.SourceReachesSink | crophslog.py:43-75 | `a = io.read()`, `b = a`, `os.execute(b)` records exactly one finding, `(b, 1, os.execute, 3, [a, b])`, and sets `sink_danger` |
| Scenarios.CleanserBreaksFlow | crophslog.py:49-50 | with `b = sanitize(a)` before the sink, nothing is recorded, `b` is untainted and keeps its stale chain `[a, b]` |
| Veintap.Blocks | utils/veintap.py:23 | `re.findall(r'<\?(.*?)\?>', content, re.DOTALL)`: the inner text of each region from a `<?` to the nearest `?>`, left to right (definition; see `Veintap.BlocksCons`, `Veintap.BlocksOfTemplate`) |
| Text.Find | utils/veintap.py:23 | leftmost occurrence of a pattern, used for the scan and for `in` (definition; see `Text.FindSpec`) |
| Veintap.BlocksClean | utils/veintap.py:23 | no block found by the non-greedy, newline-spanning match contains `?>` |
| Veintap.BlocksCons | utils/veintap.py:23 | the first block is the text between the first `<?` and the first `?>` after it, and the scan resumes after that `?>` |
| Veintap.BlocksWithoutOpen | utils/veintap.py:23 | content without `<?` has no blocks |
| Veintap.BlocksOfTemplate | utils/veintap.py:23 | a template laid out as text, `<?`, body, `?>`, ... has exactly its bodies as blocks, left to right |
| Text.NoneBefore | utils/veintap.py:23 | nothing before the leftmost occurrence contains the pattern |
| Text.FindAfterPrefix | utils/veintap.py:23 | a two-character delimiter after text free of it is found right after that text |
| Text.Strip | utils/veintap.py:28 | `block.strip()` over ASCII whitespace (definition; see `Text.StripSpec`) |
| Veintap.ExtractLuaBlocks | utils/veintap.py:20-28 | `extract_lua_blocks` on the file's content: the stripped blocks joined by `"\n\n"` (definition; see `Veintap.ExtractTemplate`, `Veintap.ExtractLength`, `Veintap.PiecesClean`) |
| Text.Join | utils/veintap.py:28 | `sep.join(parts)` (definition; see `Text.JoinLength`, `Text.SplitJoinWords`) |
| Text.StripSpec | utils/veintap.py:28 | `str.strip()`: a contiguous part of the input with only ASCII whitespace removed around it, neither end whitespace |
| Veintap.ExtractTemplate | utils/veintap.py:23-28 | the output for such a template is its stripped bodies, in order, joined by `"\n\n"` |
| Veintap.NoBlocksEmpty | utils/veintap.py:28 | no region gives the empty string |
| Veintap.OneBlock | utils/veintap.py:28 | one region gives its stripped text, with no separator |
| Veintap.ExtractLength | utils/veintap.py:28 | k regions give the stripped texts plus exactly k - 1 two-character separators |
| Text.JoinLength | utils/veintap.py:28 | the joined length is the pieces' total length plus one separator between each pair of neighbours |
| Veintap.PiecesClean | utils/veintap.py:23-28 | there is one piece per block, in order; each piece is its block with only ASCII whitespace removed from the two ends, has no whitespace at either end, and comes from a block with no `?>` |
| Veintap.LastIndexOf | utils/veintap.py:38 | the last position of a character, or none when it does not occur |
| Veintap.Basename | utils/veintap.py:38 | `os.path.basename`: the suffix after the last `/`, itself free of `/` |
| Veintap.Stem | utils/veintap.py:38 | `os.path.splitext(...)[0]`: a prefix of the name that loses only the final `.` and what follows it, with no `.` in the removed extension; the name is kept exactly when every `.` in it has only dots before it |
| Veintap.OutputName | utils/veintap.py:38 | `os.path.splitext(os.path.basename(filepath))[0] + '_compiled.lua'` (definition; see `Veintap.OutputNameShape`, `Veintap.OutputNameOfLuaFile`) |
| Veintap.OutputNameShape | utils/veintap.py:38 | the output name has no directory part, ends with `_compiled.lua`, and starts with a prefix of the input's basename |
| Veintap.OutputNameOfLuaFile | utils/veintap.py:38 | `dir/stem.lua` gives `stem_compiled.lua` |
| Veintap.CompileTemplate | utils/veintap.py:36-45 | a template with non-empty extracted code is written under `OutputName(path)` with exactly that code; one with empty code is skipped |
| Veintap.NoRegionSkipped | utils/veintap.py:37-45 | a template without regions is skipped |

## Left out

- YAML loading of the definitions file (crophslog.py:32-36). The three marker lists are constructor parameters; a key missing from the file stands for an empty list.
- The tree-sitter parser, its cursor, and the UTF-8 decoding of node text (crophslog.py:106, 113-114, 121-122, 132). `Walk.Node` carries each field already decoded, with its 0-based start row.
- Console output. This covers every `print`, colorama, `print_logo`, `TaintAnalyzer.report` and VeinTap's `print_banner`. They only write to the terminal.
- File and directory plumbing. This covers the file read in `analyze_file`, all of `analyze_directory` (directory walk, JSON and Markdown reports, timestamps) and the command-line entry point. `Walk.AnalyzeTree` models the one fact they rely on: each file is analysed by a fresh analyzer.
- VeinTap I/O:
  - the template read;
  - `glob`, `os.makedirs` and the writing loop;
  - the `os.path.join(output_dir, filename)` that places the output;
  - `argparse`.
  - `Veintap.CompileTemplate` takes the path and content as parameters and returns what would be written.
- Text.Split: only ASCII whitespace counts (space, tab, line feed, carriage return, vertical tab, form feed and the separators U+001C to U+001F). Python's `str.split()` also splits on non-ASCII Unicode whitespace.
- Text.StripSpec: uses the same ASCII whitespace set as `Text.Split`.
- Walk.Events: `recurse` is Python recursion, so a tree nested deeper than the interpreter's recursion limit (1000 frames by default) makes `walk_tree` raise `RecursionError`; `Walk.Events` and `Walk.WalkTree` have no depth bound and model the walk as if that limit were absent.
- Python's object identity. The list that `check_sink` copies from `taint_chains` is shared when nothing is appended. The model uses values, which is equivalent here because no list is ever mutated in place.
- Taint.TaintAnalyzer.FindSourceVar: it is proved equal to `SourceVar` on the current state. The fact that it never returns none for a tainted expression is stated separately, by `Taint.TaintedHasSource` under the invariant.
