/**
 * The five rewriting passes of Template::compile as functions on text, and
 * the block registry as a value (`Blocks`). The imperative methods in
 * module Engine are proved equal to these functions; the lemmas in the
 * *_props files state what the functions do.
 */
module Passes {
  import opened Strings
  import opened Patterns

  // ---------------------------------------------------------------------
  // Pass 4: raw code, Template.php:141-146

  /** `{{@ EXPR }}` becomes `<?php EXPR ?>`, then any `{{@ ... }}` left over is removed. */
  function CompilePHP(code: string): string {
    PregReplace(RawCode, Const(""), PregReplace(RawCode, PhpTag, code))
  }

  // ---------------------------------------------------------------------
  // Pass 5: interpolation, Template.php:155-163

  /**
   * First every `{{ EXPR }}` becomes `{{EXPR'}}` with the dots of the trimmed
   * EXPR turned into `->`; then every `{{ X }}` becomes `<?php echo $X ?>`.
   */
  function CompileEcho(code: string): string {
    PregReplace(Interp, EchoTag, PregReplace(Interp, EchoMark, code))
  }

  // ---------------------------------------------------------------------
  // The block registry as a value

  /** The block registry: contents by name, and the names in insertion order. */
  datatype Blocks = Blocks(content: map<string, string>, order: seq<string>)
  {
    /** The names in `order` are distinct and are exactly the keys of `content`. */
    predicate WellOrdered() {
      && (forall i, j :: 0 <= i < j < |order| ==> order[i] != order[j])
      && content.Keys == set n | n in order
    }

    /** A name's content once its entry exists: a new entry starts empty. */
    function Current(name: string): string {
      if name in content then content[name] else ""
    }
  }

  function EmptyBlocks(): (b: Blocks)
    ensures b.WellOrdered() && b.content == map[]
  {
    Blocks(map[], [])
  }

  /** Every parent placeholder, in any spacing, written as `{{@parent}}`, Template.php:178. */
  function NormalizeParent(body: string): string {
    PregReplace(Parent, Const("{{@parent}}"), body)
  }

  /** Without a placeholder match, normalisation changes nothing. */
  lemma {:induction false} NormalizeWithoutParent(body: string)
    requires !Matches(Parent, body)
    ensures NormalizeParent(body) == body
    decreases |body|
  {
    if body != [] {
      NormalizeWithoutParent(body[1..]);
      assert body == [body[0]] + body[1..];
    }
  }

  /** The literal `{{@parent}}` is itself a placeholder match. */
  lemma LiteralParentIsParent(t: string)
    requires StartsWith(t, "{{@parent}}")
    ensures MatchAt(Parent, t).Some?
  {
    assert t[..3] == "{{@";
    assert t[3] == 'p';
    assert SkipSpaces(t, 3) == 3;
    assert t[3..9] == "parent";
    assert t[9] == '}';
    assert SkipSpaces(t, 9) == 9;
    assert t[9..11] == "}}";
  }

  /** Normalising a body with a placeholder leaves a literal `{{@parent}}` in it. */
  lemma {:induction false} NormalizedHasLiteralParent(body: string)
    requires Matches(Parent, body)
    ensures Matches(Literal("{{@parent}}"), NormalizeParent(body))
    decreases |body|
  {
    var c := NormalizeParent(body);
    if HitAt(Pattern(Parent), body) {
      assert c[..11] == "{{@parent}}";
      assert HitAt(Pattern(Literal("{{@parent}}")), c);
    } else {
      NormalizedHasLiteralParent(body[1..]);
      assert c[1..] == NormalizeParent(body[1..]);
    }
  }

  /** A literal `{{@parent}}` is a placeholder. */
  lemma {:induction false} LiteralParentMatches(body: string)
    requires Matches(Literal("{{@parent}}"), body)
    ensures Matches(Parent, body)
    decreases |body|
  {
    if HitAt(Pattern(Literal("{{@parent}}")), body) {
      LiteralParentIsParent(body);
      assert HitAt(Pattern(Parent), body);
    } else {
      LiteralParentMatches(body[1..]);
    }
  }

  /** A body holds a placeholder (in any spacing) iff its normalised form holds `{{@parent}}`. */
  lemma ParentIffNormalized(body: string)
    ensures Matches(Parent, body) <==> Matches(Literal("{{@parent}}"), NormalizeParent(body))
  {
    if Matches(Parent, body) {
      NormalizedHasLiteralParent(body);
    } else {
      NormalizeWithoutParent(body);
      if Matches(Literal("{{@parent}}"), body) {
        LiteralParentMatches(body);
      }
    }
  }

  /**
   * The content a declaration stores, Template.php:178-183: the body
   * verbatim when it has no placeholder, otherwise the body with every
   * placeholder replaced by the entry's current content.
   */
  function ResolveBlock(current: string, body: string): (r: string)
    ensures !Matches(Parent, body) ==> r == body
    ensures Matches(Parent, body) ==> r == StrReplace("{{@parent}}", current, NormalizeParent(body))
  {
    var normalized := NormalizeParent(body);
    ParentIffNormalized(body);
    if !Matches(Literal("{{@parent}}"), normalized) then NormalizeWithoutParent(body); normalized
    else StrReplace("{{@parent}}", current, normalized)
  }

  /** One `setblock` declaration applied to the registry, Template.php:175-183. */
  function Declare(b: Blocks, name: string, body: string): (r: Blocks)
    ensures r.content.Keys == b.content.Keys + {name}
    ensures r.content[name] == ResolveBlock(b.Current(name), body)
    ensures forall n :: n in b.content && n != name ==> r.content[n] == b.content[n]
    ensures name in b.content ==> r.order == b.order
    ensures name !in b.content ==> r.order == b.order + [name]
    ensures b.WellOrdered() ==> r.WellOrdered()
  {
    Blocks(b.content[name := ResolveBlock(b.Current(name), body)],
           if name in b.content then b.order else b.order + [name])
  }

  // ---------------------------------------------------------------------
  // Pass 2: block declarations, Template.php:171-187

  /** The loop of compileSetBlock over the matches `ms`, from the registry `b` and text `code`. */
  function DeclareAll(b: Blocks, code: string, ms: seq<Found>): (Blocks, string)
    decreases |ms|
  {
    if ms == [] then (b, code)
    else DeclareAll(Declare(b, ms[0].g1, ms[0].g2), StrReplace(ms[0].text, "", code), ms[1..])
  }

  function SetBlockPass(b: Blocks, code: string): (Blocks, string) {
    DeclareAll(b, code, PregMatchAll(SetBlock, code))
  }

  // ---------------------------------------------------------------------
  // Pass 3: block references, Template.php:195-203

  /** The loop of compileBlock over the names `names`, replacing each name's references by its content. */
  function SubstituteAll(content: map<string, string>, names: seq<string>, code: string): string
    decreases |names|
  {
    if names == [] then code
    else
      var value := if names[0] in content then content[names[0]] else "";
      SubstituteAll(content, names[1..], PregReplace(BlockRef(names[0]), Const(value), code))
  }

  function BlockPass(b: Blocks, code: string): string {
    PregReplace(AnyBlockRef, Const(""), SubstituteAll(b.content, b.order, code))
  }

  // ---------------------------------------------------------------------
  // Pass 1: includes, Template.php:123-133

  function RankOf(rank: map<string, nat>, path: string): nat {
    if path in rank then rank[path] else 0
  }

  /**
   * The include graph is acyclic: every path a file includes has a smaller
   * rank than the file. compileInclude has no cycle guard, so a cyclic graph
   * makes it recurse without end.
   */
  predicate Ranked(files: map<string, string>, rank: map<string, nat>) {
    forall f :: f in files ==>
      forall m :: m in PregMatchAll(Include, files[f]) ==> RankOf(rank, m.g1) < RankOf(rank, f)
  }

  /**
   * compileInclude($path): the file's text with every include directive
   * replaced by the included file's own expansion, then every remaining
   * directive removed. A file that cannot be read gives "".
   */
  function Expand(files: map<string, string>, rank: map<string, nat>, path: string): string
    requires Ranked(files, rank)
    decreases RankOf(rank, path), 1, 0
  {
    if path !in files then ""
    else
      var code := files[path];
      PregReplace(Include, Const(""),
                  ExpandAll(files, rank, code, PregMatchAll(Include, code), RankOf(rank, path)))
  }

  /** The loop of compileInclude over the matches `ms`. */
  function ExpandAll(files: map<string, string>, rank: map<string, nat>, code: string, ms: seq<Found>, bound: nat): string
    requires Ranked(files, rank)
    requires forall m :: m in ms ==> RankOf(rank, m.g1) < bound
    decreases bound, 0, |ms|
  {
    if ms == [] then code
    else ExpandAll(files, rank, StrReplace(ms[0].text, Expand(files, rank, ms[0].g1), code), ms[1..], bound)
  }

  // ---------------------------------------------------------------------
  // The whole pipeline, Template.php:79-83

  /** The registry and the compiled text after the five passes over the source at `path`. */
  function CompileSource(b: Blocks, files: map<string, string>, rank: map<string, nat>, path: string): (Blocks, string)
    requires Ranked(files, rank)
  {
    var included := Expand(files, rank, path);
    var (b', declared) := SetBlockPass(b, included);
    (b', CompileEcho(CompilePHP(BlockPass(b', declared))))
  }
}
