/** VeinTap, the template utility that produces the `.lua` files the
    analyzer reads: `extract_lua_blocks` and the output file name chosen by
    `compile_templates` (utils/veintap.py). The file read, the directory
    listing and the writes are not modelled; the template's content and
    path are parameters. */
module Veintap {
  import opened Wrappers
  import opened Text

  const Open: string := "<?"
  const Close: string := "?>"
  const Separator: string := "\n\n"

  /** `re.findall(r'<\?(.*?)\?>', content, re.DOTALL)`: scanning left to
      right, the inner text of each non-overlapping region from an opening
      `<?` to the nearest `?>` after it (any characters, newlines included,
      in between). An opening marker with no closing one after it ends the
      scan. */
  function Blocks(content: string): seq<string>
    decreases |content|
  {
    FindBound(content, Open);
    match Find(content, Open)
    case None => []
    case Some(i) =>
      var rest := content[i + 2..];
      FindBound(rest, Close);
      match Find(rest, Close)
      case None => []
      case Some(j) => [rest[..j]] + Blocks(rest[j + 2..])
  }

  /** The non-greedy match: no block contains a closing marker, since each
      ends at the first `?>` after its opening. */
  lemma {:induction false} BlocksClean(content: string)
    ensures forall i | 0 <= i < |Blocks(content)| :: !Contains(Blocks(content)[i], Close)
    decreases |content|
  {
    FindBound(content, Open);
    match Find(content, Open)
    case None =>
    case Some(i) =>
      var rest := content[i + 2..];
      FindSpec(rest, Close);
      match Find(rest, Close)
      case None =>
      case Some(j) =>
        NoneBefore(rest, Close, j);
        BlocksClean(rest[j + 2..]);
        CleanCons(rest[..j], Blocks(rest[j + 2..]));
  }

  lemma CleanCons(b: string, bs: seq<string>)
    requires !Contains(b, Close)
    requires forall i | 0 <= i < |bs| :: !Contains(bs[i], Close)
    ensures forall i | 0 <= i < |[b] + bs| :: !Contains(([b] + bs)[i], Close)
  {
    var r := [b] + bs;
    assert forall k | 0 < k < |r| :: r[k] == bs[k - 1];
  }

  /** Each block's inner text with surrounding whitespace stripped. */
  function StripEach(blocks: seq<string>): (r: seq<string>)
    ensures |r| == |blocks|
    ensures forall i | 0 <= i < |r| :: r[i] == Strip(blocks[i])
  {
    seq(|blocks|, i requires 0 <= i < |blocks| => Strip(blocks[i]))
  }

  /** `extract_lua_blocks` once the file is read: the stripped blocks,
      joined by a blank line. */
  function ExtractLuaBlocks(content: string): string {
    Join(StripEach(Blocks(content)), Separator)
  }

  // ---------------------------------------------------------------------
  // What findall finds

  /** Content without any opening marker has no block. */
  lemma BlocksWithoutOpen(content: string)
    requires !Contains(content, Open)
    ensures Blocks(content) == []
  {
  }

  /** The first block is the text between the first `<?` and the first `?>`
      after it; scanning resumes right after that `?>`. */
  lemma BlocksCons(pre: string, body: string, post: string)
    requires !Contains(pre, Open)
    requires !Contains(body, Close)
    ensures Blocks(pre + Open + body + Close + post) == [body] + Blocks(post)
  {
    var s := pre + Open + body + Close + post;
    var after := body + Close + post;
    assert s == pre + Open + after;
    FindAfterPrefix(pre, Open, after);
    assert s[|pre| + 2..] == after;
    FindAfterPrefix(body, Close, post);
    assert after[..|body|] == body;
    assert after[|body| + 2..] == post;
    assert Blocks(s) == [after[..|body|]] + Blocks(after[|body| + 2..]);
  }

  /** A template laid out from its pieces: `pres[0] <? bodies[0] ?> pres[1]
      <? bodies[1] ?> ... tail`. */
  function Template(pres: seq<string>, bodies: seq<string>, tail: string): string
    requires |pres| == |bodies|
    decreases |pres|
  {
    if pres == [] then tail
    else pres[0] + Open + bodies[0] + Close + Template(pres[1..], bodies[1..], tail)
  }

  /** The blocks of a template are exactly its region bodies, in order,
      provided no text outside a region opens one, no body contains `?>`
      and the trailing text opens no region. */
  lemma {:induction false} BlocksOfTemplate(pres: seq<string>, bodies: seq<string>, tail: string)
    requires |pres| == |bodies|
    requires forall i | 0 <= i < |pres| :: !Contains(pres[i], Open)
    requires forall i | 0 <= i < |bodies| :: !Contains(bodies[i], Close)
    requires !Contains(tail, Open)
    ensures Blocks(Template(pres, bodies, tail)) == bodies
    decreases |pres|
  {
    if pres == [] {
      BlocksWithoutOpen(tail);
    } else {
      var later := Template(pres[1..], bodies[1..], tail);
      assert Template(pres, bodies, tail) == pres[0] + Open + bodies[0] + Close + later;
      BlocksCons(pres[0], bodies[0], later);
      BlocksOfTemplate(pres[1..], bodies[1..], tail);
      assert [bodies[0]] + bodies[1..] == bodies;
    }
  }

  /** So the output of such a template is its stripped bodies, in order,
      joined by a blank line. */
  lemma ExtractTemplate(pres: seq<string>, bodies: seq<string>, tail: string)
    requires |pres| == |bodies|
    requires forall i | 0 <= i < |pres| :: !Contains(pres[i], Open)
    requires forall i | 0 <= i < |bodies| :: !Contains(bodies[i], Close)
    requires !Contains(tail, Open)
    ensures ExtractLuaBlocks(Template(pres, bodies, tail)) == Join(StripEach(bodies), Separator)
  {
    BlocksOfTemplate(pres, bodies, tail);
  }

  // ---------------------------------------------------------------------
  // The shape of the output

  /** No region yields the empty string. */
  lemma NoBlocksEmpty(content: string)
    requires Blocks(content) == []
    ensures ExtractLuaBlocks(content) == ""
  {
  }

  /** One region yields its stripped inner text, with no separator. */
  lemma OneBlock(content: string)
    requires |Blocks(content)| == 1
    ensures ExtractLuaBlocks(content) == Strip(Blocks(content)[0])
  {
  }

  /** k regions: the stripped texts plus exactly k - 1 blank-line
      separators. */
  lemma ExtractLength(content: string)
    requires |Blocks(content)| > 0
    ensures |ExtractLuaBlocks(content)|
            == TotalLength(StripEach(Blocks(content))) + 2 * (|Blocks(content)| - 1)
  {
    JoinLength(StripEach(Blocks(content)), Separator);
  }

  /** Every piece joined into the output is its block with only
      surrounding whitespace removed, is free of surrounding whitespace, and
      comes from a block that contains no `?>`. */
  lemma PiecesClean(content: string)
    ensures |StripEach(Blocks(content))| == |Blocks(content)|
    ensures forall i | 0 <= i < |Blocks(content)| ::
      StrippedOf(Blocks(content)[i], Whitespace, StripEach(Blocks(content))[i])
    ensures forall i | 0 <= i < |StripEach(Blocks(content))| ::
      var p := StripEach(Blocks(content))[i];
      p == [] || (!IsSpace(p[0]) && !IsSpace(p[|p| - 1]))
    ensures forall i | 0 <= i < |Blocks(content)| :: !Contains(Blocks(content)[i], Close)
  {
    var bs := Blocks(content);
    var ps := StripEach(bs);
    BlocksClean(content);
    forall i | 0 <= i < |ps|
      ensures StrippedOf(bs[i], Whitespace, ps[i])
      ensures ps[i] == [] || (!IsSpace(ps[i][0]) && !IsSpace(ps[i][|ps[i]| - 1]))
    {
      assert ps[i] == Strip(bs[i]);
      StripSpec(bs[i]);
      var j: nat :| StrippedAt(bs[i], Whitespace, Strip(bs[i]), j);
      assert StrippedAt(bs[i], Whitespace, ps[i], j);
    }
  }

  // ---------------------------------------------------------------------
  // The output file name

  /** Index of the last occurrence of `c` in `s` (`str.rfind`). */
  function LastIndexOf(s: string, c: char): (r: Option<nat>)
    ensures r.Some? ==> r.value < |s| && s[r.value] == c
    ensures r.Some? ==> forall k | r.value < k < |s| :: s[k] != c
    ensures r.None? ==> forall k | 0 <= k < |s| :: s[k] != c
    decreases |s|
  {
    if s == [] then None
    else if s[|s| - 1] == c then Some(|s| - 1)
    else LastIndexOf(s[..|s| - 1], c)
  }

  /** `os.path.basename` (POSIX): everything after the last `/`. */
  function Basename(path: string): (r: string)
    ensures '/' !in r
    ensures |r| <= |path| && r == path[|path| - |r|..]
    ensures |r| == |path| || path[|path| - |r| - 1] == '/'
  {
    match LastIndexOf(path, '/')
    case None => path
    case Some(i) =>
      var r := path[i + 1..];
      assert forall k | 0 <= k < |r| :: r[k] == path[i + 1 + k];
      r
  }

  predicate AllDots(s: string) {
    forall k | 0 <= k < |s| :: s[k] == '.'
  }

  /** `os.path.splitext(name)[0]` for a name without `/`: the final
      extension is removed, unless the only dots before it are leading
      ones (`.bashrc` keeps its name). */
  function Stem(name: string): (r: string)
    ensures |r| <= |name| && r == name[..|r|]
    ensures r != name ==> name[|r|] == '.' && '.' !in name[|r| + 1..] && !AllDots(r)
    ensures r == name <==> forall k | 0 <= k < |name| && name[k] == '.' :: AllDots(name[..k])
  {
    match LastIndexOf(name, '.')
    case None => name
    case Some(d) =>
      if AllDots(name[..d]) then name
      else
        var ext := name[d + 1..];
        assert forall k | 0 <= k < |ext| :: ext[k] == name[d + 1 + k];
        name[..d]
  }

  /** `os.path.splitext(os.path.basename(filepath))[0] + '_compiled.lua'`. */
  function OutputName(path: string): string {
    Stem(Basename(path)) + "_compiled.lua"
  }

  /** The name is built from the input's basename: it ends with
      `_compiled.lua` and contains no directory part. */
  lemma OutputNameShape(path: string)
    ensures var name := OutputName(path);
      && |name| >= 13
      && name[|name| - 13..] == "_compiled.lua"
      && '/' !in name
      && name[..|name| - 13] <= Basename(path)
  {
    var base := Basename(path);
    var stem := Stem(base);
    SuffixedPrefix(stem, base);
  }

  lemma SuffixedPrefix(stem: string, base: string)
    requires |stem| <= |base| && stem == base[..|stem|] && '/' !in base
    ensures var name := stem + "_compiled.lua";
      && |name| >= 13
      && name[|name| - 13..] == "_compiled.lua"
      && '/' !in name
      && name[..|name| - 13] <= base
  {
    var name := stem + "_compiled.lua";
    assert name[|name| - 13..] == "_compiled.lua";
    assert name[..|name| - 13] == stem;
    forall k | 0 <= k < |name| ensures name[k] != '/' {
      if k < |stem| {
        assert name[k] == base[k];
      } else {
        assert name[k] == "_compiled.lua"[k - |stem|];
      }
    }
  }

  /** For `dir/stem.lua`, the output name is `stem_compiled.lua`. */
  lemma OutputNameOfLuaFile(dir: string, stem: string)
    requires '/' !in stem
    requires !AllDots(stem)
    ensures OutputName(dir + "/" + stem + ".lua") == stem + "_compiled.lua"
  {
    var path := dir + "/" + stem + ".lua";
    var base := stem + ".lua";
    assert Basename(path) == base by {
      assert path[|dir|] == '/';
      assert path[|dir| + 1..] == base;
      assert forall k | |dir| < k < |path| :: path[k] == base[k - |dir| - 1];
    }
    assert LastIndexOf(base, '.') == Some(|stem|) by {
      assert base[|stem|] == '.';
    }
    assert base[..|stem|] == stem;
  }

  /** What `compile_templates` does with one template: write the extracted
      code under the derived name, or skip the template when the code is
      empty. */
  function CompileTemplate(path: string, content: string): (r: Option<(string, string)>)
    ensures r.Some? ==> r.value.1 != ""
    ensures ExtractLuaBlocks(content) != "" ==> r == Some((OutputName(path), ExtractLuaBlocks(content)))
    ensures ExtractLuaBlocks(content) == "" ==> r.None?
  {
    var code := ExtractLuaBlocks(content);
    if code != "" then Some((OutputName(path), code)) else None
  }

  /** A template without regions is skipped. */
  lemma NoRegionSkipped(path: string, content: string)
    requires Blocks(content) == []
    ensures CompileTemplate(path, content) == None
  {
  }
}
