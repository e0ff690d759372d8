/**
 * What compilePHP (Template.php:141-146) does to a template made of plain
 * text and raw-code spans `{{@ EXPR }}`: each span becomes `<?php EXPR ?>`
 * with EXPR trimmed, the text around the spans is copied, and the second,
 * stripping replacement then finds nothing left to remove.
 */
module RawCodeFacts {
  import opened Strings
  import opened Patterns
  import opened Passes
  import opened DriverFacts

  /** A template seen as a sequence of plain text and raw-code spans. */
  datatype RawPiece = Text(text: string) | Code(expr: string)

  /**
   * Plain text that holds no `{{@` and cannot complete one begun before it;
   * an expression that has a non-space character, holds no `}}` and no
   * `{{@`, and does not end in `}`.
   */
  predicate RawPieceOk(p: RawPiece) {
    match p
    case Text(t) => Inert(t)
    case Code(e) => HasNonSpace(e) && NoClose(e) && !Contains(e, "{{@")
  }

  predicate RawPiecesOk(ps: seq<RawPiece>) {
    forall i :: 0 <= i < |ps| ==> RawPieceOk(ps[i])
  }

  /** The template text. */
  function RenderRaw(ps: seq<RawPiece>): string {
    if ps == [] then []
    else
      match ps[0]
      case Text(t) => t + RenderRaw(ps[1..])
      case Code(e) => "{{@" + e + "}}" + RenderRaw(ps[1..])
  }

  /** The PHP tag a raw-code span becomes. */
  function PhpTagOf(e: string): string {
    "<?php " + Trim(e) + " ?>"
  }

  /** The compiled text: spans become PHP tags, text is copied. */
  function EmitRaw(ps: seq<RawPiece>): string {
    if ps == [] then []
    else
      match ps[0]
      case Text(t) => t + EmitRaw(ps[1..])
      case Code(e) => PhpTagOf(e) + EmitRaw(ps[1..])
  }

  lemma TailOk(ps: seq<RawPiece>)
    requires ps != [] && RawPiecesOk(ps)
    ensures RawPieceOk(ps[0]) && RawPiecesOk(ps[1..])
  {
    forall i | 0 <= i < |ps[1..]| ensures RawPieceOk(ps[1..][i]) {
      assert ps[1..][i] == ps[i + 1];
    }
  }

  /** A well-formed template never starts with `@` or `{@`. */
  lemma {:induction false} RenderRawHead(ps: seq<RawPiece>)
    requires RawPiecesOk(ps)
    ensures !StartsWith(RenderRaw(ps), "@") && !StartsWith(RenderRaw(ps), "{@")
    decreases |ps|
  {
    if ps != [] {
      TailOk(ps);
      RenderRawHead(ps[1..]);
      var rest := RenderRaw(ps[1..]);
      var r := RenderRaw(ps);
      match ps[0]
      case Text(t) =>
        HeadJoin(t, rest);
      case Code(e) =>
        assert r[..1] == "{";
        assert r[..2] == "{{";
    }
  }

  /** The PHP tag of a well-formed span is inert text. */
  lemma PhpTagInert(e: string)
    requires !Contains(e, "{{@")
    ensures Inert(PhpTagOf(e))
  {
    var x := Trim(e);
    var lo := TrimIsSlice(e);
    NoOccurrenceInSlice(e, "{{@", lo, lo + |x|);
    NoBraceNoOpener("<?php ", "{{@");
    NoBraceNoOpener(" ?>", "{{@");
    OpenerJoin("<?php ", x);
    OpenerJoin("<?php " + x, " ?>");
    var tag := PhpTagOf(e);
    assert tag[0] == '<';
    assert tag[..1] == [tag[0]];
  }

  /** The compiled text of a well-formed template is inert. */
  lemma {:induction false} EmitRawInert(ps: seq<RawPiece>)
    requires RawPiecesOk(ps)
    ensures Inert(EmitRaw(ps))
    decreases |ps|
  {
    if ps == [] {
      NoBraceNoOpener("", "{{@");
    } else {
      EmitRawInert(ps[1..]);
      match ps[0]
      case Text(t) =>
        InertConcat(t, EmitRaw(ps[1..]));
      case Code(e) =>
        PhpTagInert(e);
        InertConcat(PhpTagOf(e), EmitRaw(ps[1..]));
    }
  }

  /** The first replacement of compilePHP turns every span into its PHP tag. */
  lemma {:induction false} PhpTagPass(ps: seq<RawPiece>)
    requires RawPiecesOk(ps)
    ensures PregReplace(RawCode, PhpTag, RenderRaw(ps)) == EmitRaw(ps)
    decreases |ps|
  {
    if ps != [] {
      var rest := RenderRaw(ps[1..]);
      assert RawPiecesOk(ps[1..]) by {
        forall i | 0 <= i < |ps[1..]| ensures RawPieceOk(ps[1..][i]) {
          assert ps[1..][i] == ps[i + 1];
        }
      }
      PhpTagPass(ps[1..]);
      assert RawPieceOk(ps[0]);
      match ps[0]
      case Text(t) =>
        RenderRawHead(ps[1..]);
        SkipInert(RawCode, PhpTag, t, rest);
      case Code(e) =>
        SpanMatch("{{@", e, rest);
        ReplaceFront(RawCode, PhpTag, "{{@" + e + "}}", rest, Hit(|e| + 5, Trim(e), ""));
    }
  }

  /**
   * compilePHP on a well-formed template: every `{{@ EXPR }}` becomes
   * `<?php EXPR ?>`, the text between spans is unchanged, and no `{{@` is
   * left in the result.
   */
  lemma CompilePHPPieces(ps: seq<RawPiece>)
    requires RawPiecesOk(ps)
    ensures CompilePHP(RenderRaw(ps)) == EmitRaw(ps)
    ensures !Contains(CompilePHP(RenderRaw(ps)), "{{@")
  {
    PhpTagPass(ps);
    EmitRawInert(ps);
    InertUnchanged(RawCode, Const(""), EmitRaw(ps));
  }
}
