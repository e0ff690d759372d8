/**
 * What compileBlock (Template.php:195-203) does to a template made of plain
 * text and block references `{{@ block NAME }}`: a reference to a name the
 * registry holds becomes that block's content, a reference to any other
 * name becomes the empty string, and the text around them is copied.
 */
module BlockFacts {
  import opened Strings
  import opened Patterns
  import opened Passes
  import opened DriverFacts

  /** A template seen as a sequence of plain text and block references. */
  datatype BlockPiece = Chunk(text: string) | Ref(name: string)

  /** A block name without spaces, braces or newlines. */
  predicate PlainName(n: string) {
    n != [] && forall i :: 0 <= i < |n| ==> n[i] != ' ' && n[i] != '{' && n[i] != '}' && n[i] != '\n'
  }

  /** Text no `{{@ block` opener stands in, and that cannot complete one begun before it. */
  predicate BlockPieceOk(p: BlockPiece) {
    match p
    case Chunk(t) => Quiet(t, "block", Blank)
    case Ref(n) => PlainName(n)
  }

  predicate BlockPiecesOk(ps: seq<BlockPiece>) {
    forall i :: 0 <= i < |ps| ==> BlockPieceOk(ps[i])
  }

  /** The text of a reference. */
  function RefText(n: string): string {
    "{{@ block " + n + " }}"
  }

  /** The template text. */
  function RenderBlocks(ps: seq<BlockPiece>): string {
    if ps == [] then []
    else
      match ps[0]
      case Chunk(t) => t + RenderBlocks(ps[1..])
      case Ref(n) => RefText(n) + RenderBlocks(ps[1..])
  }

  /** What compileBlock puts in place of a reference to `n`. */
  function ValueOf(content: map<string, string>, n: string): string {
    if n in content then content[n] else ""
  }

  /** The compiled text: each reference becomes its block's content, or nothing. */
  function EmitBlocks(content: map<string, string>, ps: seq<BlockPiece>): string {
    if ps == [] then []
    else
      match ps[0]
      case Chunk(t) => t + EmitBlocks(content, ps[1..])
      case Ref(n) => ValueOf(content, n) + EmitBlocks(content, ps[1..])
  }

  /** The references to the names in `names` replaced by their values. */
  function Substituted(ps: seq<BlockPiece>, content: map<string, string>, names: seq<string>): (qs: seq<BlockPiece>)
    ensures |qs| == |ps|
  {
    if ps == [] then []
    else
      var p := match ps[0]
        case Ref(n) => if n in names then Chunk(ValueOf(content, n)) else ps[0]
        case Chunk(_) => ps[0];
      [p] + Substituted(ps[1..], content, names)
  }

  /** Every reference dropped, as the last replacement of compileBlock does. */
  function Stripped(ps: seq<BlockPiece>): string {
    if ps == [] then []
    else
      match ps[0]
      case Chunk(t) => t + Stripped(ps[1..])
      case Ref(_) => Stripped(ps[1..])
  }

  /** Block contents that hold no block reference. */
  predicate QuietContents(content: map<string, string>) {
    forall n :: n in content ==> Quiet(content[n], "block", Blank)
  }

  // ---------------------------------------------------------------------
  // Pieces

  lemma TailOk(ps: seq<BlockPiece>)
    requires ps != [] && BlockPiecesOk(ps)
    ensures BlockPieceOk(ps[0]) && BlockPiecesOk(ps[1..])
  {
    forall i | 0 <= i < |ps[1..]| ensures BlockPieceOk(ps[1..][i]) {
      assert ps[1..][i] == ps[i + 1];
    }
  }

  /** A well-formed template never starts with `@` or `{@`. */
  lemma {:induction false} RenderBlocksHead(ps: seq<BlockPiece>)
    requires BlockPiecesOk(ps)
    ensures !StartsWith(RenderBlocks(ps), "@") && !StartsWith(RenderBlocks(ps), "{@")
    decreases |ps|
  {
    if ps != [] {
      TailOk(ps);
      RenderBlocksHead(ps[1..]);
      var rest := RenderBlocks(ps[1..]);
      var r := RenderBlocks(ps);
      match ps[0]
      case Chunk(t) =>
        HeadJoin(t, rest);
      case Ref(n) =>
        assert r[..1] == "{";
        assert r[..2] == "{{";
    }
  }

  /** Substituting quiet values keeps a template well formed. */
  lemma {:induction false} SubstitutedOk(ps: seq<BlockPiece>, content: map<string, string>, names: seq<string>)
    requires BlockPiecesOk(ps) && QuietContents(content)
    ensures BlockPiecesOk(Substituted(ps, content, names))
    decreases |ps|
  {
    if ps != [] {
      TailOk(ps);
      SubstitutedOk(ps[1..], content, names);
      var qs := Substituted(ps, content, names);
      assert qs[1..] == Substituted(ps[1..], content, names);
      QuietEmpty("block", Blank);
      forall i | 0 <= i < |qs| ensures BlockPieceOk(qs[i]) {
        if i > 0 {
          assert qs[i] == qs[1..][i - 1];
        }
      }
    }
  }

  /** Substituting the names of `done` and then `m` is substituting `done + [m]`. */
  lemma {:induction false} SubstitutedStep(ps: seq<BlockPiece>, content: map<string, string>, done: seq<string>, m: string)
    ensures Substituted(Substituted(ps, content, done), map[m := ValueOf(content, m)], [m])
         == Substituted(ps, content, done + [m])
    decreases |ps|
  {
    if ps != [] {
      SubstitutedStep(ps[1..], content, done, m);
      var qs := Substituted(ps, content, done);
      assert qs[1..] == Substituted(ps[1..], content, done);
      match ps[0]
      case Ref(n) =>
        assert n in done + [m] <==> n in done || n == m;
      case Chunk(_) =>
    }
  }

  /** Substituting no name changes nothing. */
  lemma {:induction false} SubstitutedNone(ps: seq<BlockPiece>, content: map<string, string>)
    ensures Substituted(ps, content, []) == ps
    decreases |ps|
  {
    if ps != [] {
      SubstitutedNone(ps[1..], content);
    }
  }

  // ---------------------------------------------------------------------
  // One reference at the front

  lemma RefTextChars(n: string, rest: string)
    ensures (RefText(n) + rest)[..3] == "{{@"
    ensures (RefText(n) + rest)[3..10] == " block "
    ensures (RefText(n) + rest)[10..10 + |n|] == n
    ensures (RefText(n) + rest)[10 + |n|..13 + |n|] == " }}"
    ensures (RefText(n) + rest)[13 + |n|..] == rest
  {
  }

  /** A plain name other than `n` does not match in the text after `{{@ block `. */
  lemma OtherNameTail(n: string, m: string, rest: string)
    requires PlainName(n) && PlainName(m) && n != m
    ensures RefTail(RefText(n) + rest, 10, m) == None
  {
    var t := RefText(n) + rest;
    RefTextChars(n, rest);
    if |m| > |n| {
      if 10 + |m| <= |t| {
        assert t[10..10 + |m|][|n|] == t[10 + |n|] == ' ';
      }
    } else if |m| == |n| {
      assert t[10..10 + |m|] == n;
    } else {
      assert t[10 + |m|] == t[10..10 + |n|][|m|] == n[|m|];
      var q := OptChar(t, 10 + |m|, ' ');
      assert q == 10 + |m|;
      assert t[q..q + 2][0] == n[|m|];
    }
  }

  /** `BlockRef(m)` matches a reference exactly when it names `m`. */
  lemma BlockRefFront(n: string, m: string, rest: string)
    requires PlainName(n) && PlainName(m)
    ensures n == m ==> MatchAt(BlockRef(m), RefText(n) + rest) == Some(Hit(|n| + 13, "", ""))
    ensures n != m ==> MatchAt(BlockRef(m), RefText(n) + rest) == None
  {
    var t := RefText(n) + rest;
    RefTextChars(n, rest);
    assert StartsWith(t, "{{@");
    assert t[3] == ' ';
    assert OptChar(t, 3, ' ') == 4;
    assert t[4..9] == "block";
    assert t[9] == ' ';
    if n == m {
      assert t[10 + |n|] == ' ';
      assert LitAt(t, 11 + |n|, "}}");
      assert RefTail(t, 10, m) == Some(13 + |n|);
    } else {
      OtherNameTail(n, m, rest);
      if 9 + |m| <= |t| {
        assert t[9..9 + |m|][0] == ' ';
      }
      assert RefTail(t, 9, m) == None;
    }
  }

  /** The lazy name group passes over the characters of a plain name. */
  lemma {:induction false} LazyNameScan(t: string, j: nat, k: nat)
    requires j <= k < |t|
    requires forall i :: j <= i < k ==> t[i] != ' ' && t[i] != '}' && t[i] != '\n'
    ensures LazyLine(t, j, false) == LazyLine(t, k, false)
    decreases k - j
  {
    if j < k {
      assert t[j] != ' ' && t[j] != '}';
      if j + 3 <= |t| {
        assert t[j..j + 3][0] == t[j];
      }
      if j + 2 <= |t| {
        assert t[j..j + 2][0] == t[j];
      }
      LazyNameScan(t, j + 1, k);
    }
  }

  /** `AnyBlockRef` matches a whole reference, whatever its name. */
  lemma AnyBlockRefFront(n: string, rest: string)
    requires PlainName(n)
    ensures MatchAt(AnyBlockRef, RefText(n) + rest) == Some(Hit(|n| + 13, n, ""))
  {
    var t := RefText(n) + rest;
    RefTextChars(n, rest);
    assert StartsWith(t, "{{@");
    assert t[3] == ' ';
    assert OptChar(t, 3, ' ') == 4;
    assert KeywordAt(t, 4, "block");
    assert t[9] == ' ';
    forall i | 10 <= i < 10 + |n| ensures t[i] != ' ' && t[i] != '}' && t[i] != '\n' {
      assert t[i] == t[10..10 + |n|][i - 10];
    }
    LazyNameScan(t, 10, 10 + |n|);
    assert LitAt(t, 10 + |n|, " }}");
    assert LazyLine(t, 10 + |n|, false) == Some((10 + |n|, 13 + |n|));
  }

  /** No match of a pattern whose matches open with `{{@` starts inside a reference after its first character. */
  lemma RefInnerNoHit(r: Regex, n: string, rest: string, i: nat)
    requires r.OpensRaw() && PlainName(n)
    requires !StartsWith(rest, "@") && !StartsWith(rest, "{@")
    requires 0 < i < |RefText(n)|
    ensures !HitAt(Pattern(r), (RefText(n) + rest)[i..])
  {
    var t := RefText(n) + rest;
    var d := RefText(n);
    RefTextChars(n, rest);
    if i < 3 {
      assert t[i..][1] == t[i + 1];
      assert t[i + 1] != '{';
      assert !StartsWith(t[i..], "{{@");
    } else {
      var a := d[3..];
      assert '{' !in a by {
        forall x | 0 <= x < |a| ensures a[x] != '{' {
          if 7 <= x < 7 + |n| {
            assert a[x] == n[x - 7];
          }
        }
      }
      NoBraceNoOpener(a, "{{@");
      InertPrefixHasNoOpener(a, rest);
      assert t[i..] == (a + rest)[i - 3..];
    }
    if HitAt(Pattern(r), t[i..]) {
      RawHitOpens(r, t[i..]);
    }
  }

  /** A reference a pattern whose matches open with `{{@` does not match at its start is copied whole. */
  lemma RefSkip(r: Regex, w: Rewrite, n: string, rest: string)
    requires r.OpensRaw() && PlainName(n)
    requires !StartsWith(rest, "@") && !StartsWith(rest, "{@")
    requires MatchAt(r, RefText(n) + rest) == None
    ensures PregReplace(r, w, RefText(n) + rest) == RefText(n) + PregReplace(r, w, rest)
  {
    var t := RefText(n) + rest;
    forall i | 0 <= i < |RefText(n)| && i <= |t| ensures !HitAt(Pattern(r), t[i..]) {
      if i == 0 {
        assert t[0..] == t;
      } else {
        RefInnerNoHit(r, n, rest, i);
      }
    }
    SkipPrefix(Pattern(r), Replacement(w), RefText(n), rest);
  }

  // ---------------------------------------------------------------------
  // The replacements of compileBlock

  /** One name's replacement substitutes exactly the references to that name. */
  lemma {:induction false} BlockRefPass(qs: seq<BlockPiece>, m: string, v: string)
    requires BlockPiecesOk(qs) && PlainName(m) && Quiet(v, "block", Blank)
    ensures PregReplace(BlockRef(m), Const(v), RenderBlocks(qs)) == RenderBlocks(Substituted(qs, map[m := v], [m]))
    decreases |qs|
  {
    if qs != [] {
      TailOk(qs);
      BlockRefPass(qs[1..], m, v);
      RenderBlocksHead(qs[1..]);
      var rest := RenderBlocks(qs[1..]);
      var ss := Substituted(qs, map[m := v], [m]);
      assert ss[1..] == Substituted(qs[1..], map[m := v], [m]);
      match qs[0]
      case Chunk(t) =>
        NeedsBlockRef(m);
        SkipShunned(BlockRef(m), Const(v), t, rest, "block", "block", Blank);
      case Ref(n) =>
        BlockRefFront(n, m, rest);
        if n == m {
          ReplaceFront(BlockRef(m), Const(v), RefText(n), rest, Hit(|n| + 13, "", ""));
          assert ss[0] == Chunk(v);
        } else {
          RefSkip(BlockRef(m), Const(v), n, rest);
        }
    }
  }

  /** The loop of compileBlock substitutes the names it visits, in order. */
  lemma {:induction false} SubstituteAllPieces(ps: seq<BlockPiece>, content: map<string, string>, done: seq<string>, names: seq<string>)
    requires BlockPiecesOk(ps) && QuietContents(content)
    requires forall i :: 0 <= i < |names| ==> PlainName(names[i])
    ensures SubstituteAll(content, names, RenderBlocks(Substituted(ps, content, done)))
         == RenderBlocks(Substituted(ps, content, done + names))
    decreases |names|
  {
    if names == [] {
      assert done + names == done;
    } else {
      var m := names[0];
      assert PlainName(m);
      SubstituteOne(ps, content, done, m);
      SubstituteAllHead(content, names, RenderBlocks(Substituted(ps, content, done)));
      SubstituteAllPieces(ps, content, done + [m], names[1..]);
      assert done + [m] + names[1..] == done + names;
    }
  }

  /** One step of compileBlock's loop substitutes the references to one more name. */
  lemma SubstituteOne(ps: seq<BlockPiece>, content: map<string, string>, done: seq<string>, m: string)
    requires BlockPiecesOk(ps) && QuietContents(content) && PlainName(m)
    ensures PregReplace(BlockRef(m), Const(ValueOf(content, m)), RenderBlocks(Substituted(ps, content, done)))
         == RenderBlocks(Substituted(ps, content, done + [m]))
  {
    SubstitutedOk(ps, content, done);
    QuietEmpty("block", Blank);
    BlockRefPass(Substituted(ps, content, done), m, ValueOf(content, m));
    SubstitutedStep(ps, content, done, m);
  }

  /** The first step of compileBlock's loop. */
  lemma SubstituteAllHead(content: map<string, string>, names: seq<string>, code: string)
    requires names != []
    ensures SubstituteAll(content, names, code)
         == SubstituteAll(content, names[1..], PregReplace(BlockRef(names[0]), Const(ValueOf(content, names[0])), code))
  {
  }

  /** The last replacement of compileBlock drops every remaining reference. */
  lemma {:induction false} AnyBlockRefPass(qs: seq<BlockPiece>)
    requires BlockPiecesOk(qs)
    ensures PregReplace(AnyBlockRef, Const(""), RenderBlocks(qs)) == Stripped(qs)
    decreases |qs|
  {
    if qs != [] {
      TailOk(qs);
      AnyBlockRefPass(qs[1..]);
      RenderBlocksHead(qs[1..]);
      var rest := RenderBlocks(qs[1..]);
      match qs[0]
      case Chunk(t) =>
        NeedsAnyBlockRef();
        SkipShunned(AnyBlockRef, Const(""), t, rest, "block", "block", Blank);
      case Ref(n) =>
        AnyBlockRefFront(n, rest);
        ReplaceFront(AnyBlockRef, Const(""), RefText(n), rest, Hit(|n| + 13, n, ""));
    }
  }

  /** Once every registered name is substituted, dropping the rest gives the compiled text. */
  lemma {:induction false} StrippedIsEmit(ps: seq<BlockPiece>, b: Blocks)
    requires b.WellOrdered()
    ensures Stripped(Substituted(ps, b.content, b.order)) == EmitBlocks(b.content, ps)
    decreases |ps|
  {
    if ps != [] {
      StrippedIsEmit(ps[1..], b);
      var qs := Substituted(ps, b.content, b.order);
      assert qs[1..] == Substituted(ps[1..], b.content, b.order);
      match ps[0]
      case Ref(n) =>
        assert n in b.content <==> n in b.order;
      case Chunk(_) =>
    }
  }

  /** The compiled text of a well-formed template over quiet contents is quiet itself. */
  lemma {:induction false} EmitQuiet(content: map<string, string>, ps: seq<BlockPiece>)
    requires BlockPiecesOk(ps) && QuietContents(content)
    ensures Quiet(EmitBlocks(content, ps), "block", Blank)
    decreases |ps|
  {
    if ps == [] {
      QuietEmpty("block", Blank);
    } else {
      TailOk(ps);
      EmitQuiet(content, ps[1..]);
      var rest := EmitBlocks(content, ps[1..]);
      match ps[0]
      case Chunk(t) =>
        QuietConcat(t, rest, "block", Blank);
      case Ref(n) =>
        QuietEmpty("block", Blank);
        QuietConcat(ValueOf(content, n), rest, "block", Blank);
    }
  }

  /**
   * compileBlock on a well-formed template whose registered names are plain
   * and whose block contents hold no block reference: every reference to a
   * registered name becomes its content, every other reference disappears,
   * the text between references is unchanged, and no block reference is
   * left in the result.
   */
  lemma CompileBlockPieces(ps: seq<BlockPiece>, b: Blocks)
    requires b.WellOrdered() && QuietContents(b.content)
    requires forall i :: 0 <= i < |b.order| ==> PlainName(b.order[i])
    requires BlockPiecesOk(ps)
    ensures BlockPass(b, RenderBlocks(ps)) == EmitBlocks(b.content, ps)
    ensures !Matches(AnyBlockRef, BlockPass(b, RenderBlocks(ps)))
  {
    SubstitutedNone(ps, b.content);
    SubstituteAllPieces(ps, b.content, [], b.order);
    assert [] + b.order == b.order;
    SubstitutedOk(ps, b.content, b.order);
    AnyBlockRefPass(Substituted(ps, b.content, b.order));
    StrippedIsEmit(ps, b);
    EmitQuiet(b.content, ps);
    NeedsAnyBlockRef();
    ShunnedUnchanged(AnyBlockRef, Const(""), EmitBlocks(b.content, ps), "block", "block", Blank);
  }
}
