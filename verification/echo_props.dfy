/**
 * What compileEcho (Template.php:155-163) does to a template made of plain
 * text and interpolations `{{ EXPR }}`: the first replacement turns each
 * into `{{EXPR'}}`, EXPR' being the trimmed expression with every `.`
 * turned into `->`; the second turns that into `<?php echo $EXPR' ?>`.
 * Text around the interpolations is copied, and no `{{` is left.
 */
module EchoFacts {
  import opened Strings
  import opened Patterns
  import opened Passes
  import opened DriverFacts

  /** A template seen as a sequence of plain text and interpolations. */
  datatype EchoPiece = Plain(text: string) | Echo(expr: string)

  /** An interpolated expression: a non-space character and no braces. */
  predicate EchoExprOk(e: string) {
    HasNonSpace(e) && '{' !in e && '}' !in e
  }

  predicate EchoPieceOk(p: EchoPiece) {
    match p
    case Plain(t) => Flat(t)
    case Echo(e) => EchoExprOk(e)
  }

  predicate EchoPiecesOk(ps: seq<EchoPiece>) {
    forall i :: 0 <= i < |ps| ==> EchoPieceOk(ps[i])
  }

  /** The template text. */
  function RenderEcho(ps: seq<EchoPiece>): string {
    if ps == [] then []
    else
      match ps[0]
      case Plain(t) => t + RenderEcho(ps[1..])
      case Echo(e) => "{{" + e + "}}" + RenderEcho(ps[1..])
  }

  /** The expression the first replacement puts between the braces. */
  function Marked(e: string): string {
    Arrows(Trim(e))
  }

  /** The template after the first replacement. */
  function MarkAll(ps: seq<EchoPiece>): (qs: seq<EchoPiece>)
    ensures |qs| == |ps|
  {
    if ps == [] then []
    else
      match ps[0]
      case Plain(t) => [Plain(t)] + MarkAll(ps[1..])
      case Echo(e) => [Echo(Marked(e))] + MarkAll(ps[1..])
  }

  /** The PHP an interpolation finally becomes. */
  function EchoTagOf(e: string): string {
    "<?php echo $" + Marked(e) + " ?>"
  }

  /** The compiled text: interpolations become echo tags, text is copied. */
  function EmitEcho(ps: seq<EchoPiece>): string {
    if ps == [] then []
    else
      match ps[0]
      case Plain(t) => t + EmitEcho(ps[1..])
      case Echo(e) => EchoTagOf(e) + EmitEcho(ps[1..])
  }

  // ---------------------------------------------------------------------
  // The rewritten expression

  /** Trimming text that starts and ends with a non-space character keeps it whole. */
  lemma TrimKeeps(s: string)
    requires s != [] && !IsSpace(s[0]) && !IsSpace(s[|s| - 1])
    ensures Trim(s) == s
  {
    var a := TrimStart(s);
    assert !IsSpace(s[0]);
    assert |a| == |s|;
    assert a == s;
    var b := TrimEnd(s);
    assert !IsSpace(s[|s| - 1]);
    assert |b| == |s|;
  }

  /** The arrow rewrite starts with the first character of its input or with `-`. */
  lemma ArrowsFirst(x: string)
    requires x != []
    ensures Arrows(x) != [] && (Arrows(x)[0] == x[0] || Arrows(x)[0] == '-')
  {
  }

  /** The arrow rewrite ends with the last character of its input or with `>`. */
  lemma {:induction false} ArrowsLast(x: string)
    requires x != []
    ensures Arrows(x) != []
    ensures Arrows(x)[|Arrows(x)| - 1] == x[|x| - 1] || Arrows(x)[|Arrows(x)| - 1] == '>'
  {
    var head := if x[0] == '.' then "->" else [x[0]];
    assert Arrows(x) == head + Arrows(x[1..]);
    if |x| > 1 {
      ArrowsLast(x[1..]);
      assert x[1..][|x[1..]| - 1] == x[|x| - 1];
    } else {
      assert Arrows(x[1..]) == [];
    }
  }

  /** The arrow rewrite is `str_replace(".", "->", s)`. */
  lemma {:induction false} ArrowsIsStrReplace(s: string)
    ensures Arrows(s) == StrReplace(".", "->", s)
    decreases |s|
  {
    if s != [] {
      ArrowsIsStrReplace(s[1..]);
      var m := Pattern(Literal("."));
      if s[0] == '.' {
        assert StartsWith(s, ".") by { assert s[..1] == [s[0]]; }
        assert m(s) == Some(Hit(1, "", ""));
      } else {
        assert s[..1] != ".";
        assert m(s) == None;
      }
    }
  }

  /** A character of a trimmed string is a character of the string. */
  lemma TrimChars(s: string, c: char)
    requires c in Trim(s)
    ensures c in s
  {
    var lo := TrimIsSlice(s);
    var t := Trim(s);
    var i :| 0 <= i < |t| && t[i] == c;
    assert s[lo + i] == c;
  }

  lemma ArrowsFirstNonSpace(x: string)
    requires x != [] && !IsSpace(x[0])
    ensures Arrows(x) != [] && !IsSpace(Arrows(x)[0])
  {
    ArrowsFirst(x);
  }

  lemma ArrowsLastNonSpace(x: string)
    requires x != [] && !IsSpace(x[|x| - 1])
    ensures Arrows(x) != [] && !IsSpace(Arrows(x)[|Arrows(x)| - 1])
  {
    ArrowsLast(x);
  }

  /** The arrow rewrite of text with non-space ends has a non-space character, and trimming keeps it. */
  lemma ArrowsTrimmed(x: string)
    requires x != [] && !IsSpace(x[0]) && !IsSpace(x[|x| - 1])
    ensures HasNonSpace(Arrows(x)) && Trim(Arrows(x)) == Arrows(x)
  {
    ArrowsFirstNonSpace(x);
    ArrowsLastNonSpace(x);
    TrimKeeps(Arrows(x));
  }

  /** The rewritten expression has no braces. */
  lemma MarkedNoBraces(e: string)
    requires '{' !in e && '}' !in e
    ensures '{' !in Marked(e) && '}' !in Marked(e)
  {
    var x := Trim(e);
    ArrowsChars(x);
    forall c | c in Arrows(x) ensures c != '{' && c != '}' {
      if c in x {
        TrimChars(e, c);
      }
    }
  }

  /** The rewritten expression is again a valid one, and trimming leaves it as it is. */
  lemma MarkedOk(e: string)
    requires EchoExprOk(e)
    ensures EchoExprOk(Marked(e)) && Trim(Marked(e)) == Marked(e)
  {
    TrimNonEmpty(e);
    ArrowsTrimmed(Trim(e));
    MarkedNoBraces(e);
  }

  /** Trimming text with a non-space character leaves something. */
  lemma TrimNonEmpty(e: string)
    requires HasNonSpace(e)
    ensures Trim(e) != []
  {
    var k :| 0 <= k < |e| && !IsSpace(e[k]);
    TrimStartKeeps(e, k);
  }

  /** Trimming text whose character at `k` is not a space leaves something. */
  lemma TrimStartKeeps(e: string, k: nat)
    requires k < |e| && !IsSpace(e[k])
    ensures Trim(e) != []
  {
    var a := TrimStart(e);
    TrimStartIsSuffix(e);
    TrimEndIsPrefix(a);
    assert |e| - |a| <= k;
    assert a[k - (|e| - |a|)] == e[k];
    var b := TrimEnd(a);
    assert |b| > k - (|e| - |a|);
  }

  // ---------------------------------------------------------------------
  // The two replacements

  lemma TailOk(ps: seq<EchoPiece>)
    requires ps != [] && EchoPiecesOk(ps)
    ensures EchoPieceOk(ps[0]) && EchoPiecesOk(ps[1..])
  {
    forall i | 0 <= i < |ps[1..]| ensures EchoPieceOk(ps[1..][i]) {
      assert ps[1..][i] == ps[i + 1];
    }
  }

  /** One interpolation at the front is matched up to its own `}}`. */
  lemma InterpFront(e: string, rest: string)
    requires EchoExprOk(e)
    ensures MatchAt(Interp, "{{" + e + "}}" + rest) == Some(Hit(|e| + 4, Trim(e), ""))
  {
    BraceFreeNoClose(e);
    SpanMatch("{{", e, rest);
  }

  /** An interpolation at the front is marked. */
  lemma MarkFront(e: string, rest: string)
    requires EchoExprOk(e)
    ensures PregReplace(Interp, EchoMark, "{{" + e + "}}" + rest) == "{{" + Marked(e) + "}}" + PregReplace(Interp, EchoMark, rest)
  {
    InterpFront(e, rest);
    ReplaceFront(Interp, EchoMark, "{{" + e + "}}", rest, Hit(|e| + 4, Trim(e), ""));
  }

  /** The first replacement marks every interpolation and copies the text. */
  lemma {:induction false} EchoMarkPass(ps: seq<EchoPiece>)
    requires EchoPiecesOk(ps)
    ensures PregReplace(Interp, EchoMark, RenderEcho(ps)) == RenderEcho(MarkAll(ps))
    decreases |ps|
  {
    if ps != [] {
      TailOk(ps);
      EchoMarkPass(ps[1..]);
      var rest := RenderEcho(ps[1..]);
      var qs := MarkAll(ps);
      assert qs[1..] == MarkAll(ps[1..]);
      match ps[0]
      case Plain(t) =>
        SkipFlat(EchoMark, t, rest);
        assert qs[0] == Plain(t);
      case Echo(e) =>
        MarkFront(e, rest);
        assert qs[0] == Echo(Marked(e));
    }
  }

  /** An interpolation at the front becomes an echo tag of its trimmed expression. */
  lemma TagFront(m: string, rest: string)
    requires EchoExprOk(m)
    ensures PregReplace(Interp, EchoTag, "{{" + m + "}}" + rest) == "<?php echo $" + Trim(m) + " ?>" + PregReplace(Interp, EchoTag, rest)
  {
    InterpFront(m, rest);
    ReplaceFront(Interp, EchoTag, "{{" + m + "}}", rest, Hit(|m| + 4, Trim(m), ""));
  }

  /** The second replacement turns every marked interpolation into an echo tag. */
  lemma {:induction false} EchoTagPass(ps: seq<EchoPiece>)
    requires EchoPiecesOk(ps)
    ensures PregReplace(Interp, EchoTag, RenderEcho(MarkAll(ps))) == EmitEcho(ps)
    decreases |ps|
  {
    if ps != [] {
      TailOk(ps);
      EchoTagPass(ps[1..]);
      var qs := MarkAll(ps);
      var rest := RenderEcho(qs[1..]);
      assert qs[1..] == MarkAll(ps[1..]);
      match ps[0]
      case Plain(t) =>
        assert qs[0] == Plain(t);
        SkipFlat(EchoTag, t, rest);
      case Echo(e) =>
        assert qs[0] == Echo(Marked(e));
        MarkedOk(e);
        TagFront(Marked(e), rest);
    }
  }

  /** `<?php echo $m ?>` is flat text when `m` has no `{`. */
  lemma TagFlat(m: string)
    requires '{' !in m
    ensures Flat("<?php echo $" + m + " ?>")
  {
    var tag := "<?php echo $" + m + " ?>";
    assert '{' !in tag;
    NoBraceNoOpener(tag, "{{");
    assert tag[|tag| - 1..] == ">";
  }

  /** An echo tag is flat text. */
  lemma EchoTagFlat(e: string)
    requires EchoExprOk(e)
    ensures Flat(EchoTagOf(e))
  {
    MarkedOk(e);
    TagFlat(Marked(e));
  }

  /** The compiled text of a well-formed template is flat. */
  lemma {:induction false} EmitEchoFlat(ps: seq<EchoPiece>)
    requires EchoPiecesOk(ps)
    ensures Flat(EmitEcho(ps))
    decreases |ps|
  {
    if ps == [] {
      NoBraceNoOpener("", "{{");
    } else {
      TailOk(ps);
      EmitEchoFlat(ps[1..]);
      match ps[0]
      case Plain(t) =>
        FlatConcat(t, EmitEcho(ps[1..]));
      case Echo(e) =>
        EchoTagFlat(e);
        FlatConcat(EchoTagOf(e), EmitEcho(ps[1..]));
    }
  }

  /**
   * compileEcho on a well-formed template: every `{{ EXPR }}` becomes
   * `<?php echo $EXPR' ?>`, the text between interpolations is unchanged,
   * and no `{{` is left in the result.
   */
  lemma CompileEchoPieces(ps: seq<EchoPiece>)
    requires EchoPiecesOk(ps)
    ensures CompileEcho(RenderEcho(ps)) == EmitEcho(ps)
    ensures !Contains(CompileEcho(RenderEcho(ps)), "{{")
  {
    EchoMarkPass(ps);
    EchoTagPass(ps);
    EmitEchoFlat(ps);
  }
}
