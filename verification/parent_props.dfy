/**
 * How a `setblock` body that mentions its parent is resolved,
 * Template.php:178-183: every placeholder `{{@ parent }}` (any spacing)
 * is first written `{{@parent}}` and then replaced by the entry's previous
 * content, so a redeclared block can extend the one it overrides.
 */
module ParentFacts {
  import opened Strings
  import opened Patterns
  import opened Passes
  import opened DriverFacts

  /** A body seen as plain text and parent placeholders `{{@` before `parent` after `}}`. */
  datatype BodyPiece = Text(text: string) | Placeholder(before: string, after: string)

  predicate AllSpace(s: string) {
    forall i :: 0 <= i < |s| ==> IsSpace(s[i])
  }

  /**
   * Text in which no `{{@` is followed, after white space, by the word
   * `parent` and which cannot complete one begun before it; a placeholder's
   * padding is white space.
   */
  predicate BodyPieceOk(p: BodyPiece) {
    match p
    case Text(t) => Quiet(t, "parent", Spaces)
    case Placeholder(s1, s2) => AllSpace(s1) && AllSpace(s2)
  }

  predicate BodyPiecesOk(ps: seq<BodyPiece>) {
    forall i :: 0 <= i < |ps| ==> BodyPieceOk(ps[i])
  }

  /** The spelling every placeholder is normalised to. */
  const ParentLiteral := "{{@parent}}"

  function PlaceholderText(s1: string, s2: string): string {
    "{{@" + s1 + "parent" + s2 + "}}"
  }

  /** The body as written. */
  function RenderBody(ps: seq<BodyPiece>): string {
    if ps == [] then []
    else
      match ps[0]
      case Text(t) => t + RenderBody(ps[1..])
      case Placeholder(s1, s2) => PlaceholderText(s1, s2) + RenderBody(ps[1..])
  }

  /** The body with every placeholder written without spaces. */
  function Normalized(ps: seq<BodyPiece>): seq<BodyPiece> {
    if ps == [] then []
    else
      match ps[0]
      case Text(_) => [ps[0]] + Normalized(ps[1..])
      case Placeholder(_, _) => [Placeholder("", "")] + Normalized(ps[1..])
  }

  /** The body with every placeholder replaced by `prev`. */
  function Filled(ps: seq<BodyPiece>, prev: string): string {
    if ps == [] then []
    else
      match ps[0]
      case Text(t) => t + Filled(ps[1..], prev)
      case Placeholder(_, _) => prev + Filled(ps[1..], prev)
  }

  function HasPlaceholder(ps: seq<BodyPiece>): bool {
    ps != [] && (ps[0].Placeholder? || HasPlaceholder(ps[1..]))
  }

  lemma TailOk(ps: seq<BodyPiece>)
    requires ps != [] && BodyPiecesOk(ps)
    ensures BodyPieceOk(ps[0]) && BodyPiecesOk(ps[1..])
  {
    assert BodyPieceOk(ps[0]);
    forall i | 0 <= i < |ps[1..]| ensures BodyPieceOk(ps[1..][i]) {
      assert ps[1..][i] == ps[i + 1];
    }
  }

  lemma {:induction false} NormalizedOk(ps: seq<BodyPiece>)
    requires BodyPiecesOk(ps)
    ensures BodyPiecesOk(Normalized(ps))
    decreases |ps|
  {
    if ps != [] {
      TailOk(ps);
      NormalizedOk(ps[1..]);
      var r := Normalized(ps);
      assert r[1..] == Normalized(ps[1..]);
      forall i | 0 <= i < |r| ensures BodyPieceOk(r[i]) {
        if i > 0 {
          assert r[i] == r[1..][i - 1];
        }
      }
    }
  }

  /** A well-formed body never starts with `@` or `{@`. */
  lemma {:induction false} RenderBodyHead(ps: seq<BodyPiece>)
    requires BodyPiecesOk(ps)
    ensures !StartsWith(RenderBody(ps), "@") && !StartsWith(RenderBody(ps), "{@")
    decreases |ps|
  {
    if ps != [] {
      TailOk(ps);
      RenderBodyHead(ps[1..]);
      var rest := RenderBody(ps[1..]);
      var r := RenderBody(ps);
      match ps[0]
      case Text(t) =>
        HeadJoin(t, rest);
      case Placeholder(_, _) =>
        assert r[..1] == "{";
        assert r[..2] == "{{";
    }
  }

  /** `SkipSpaces` runs over white space up to the first other character. */
  lemma {:induction false} SkipRun(t: string, p: nat, k: nat)
    requires p <= k < |t| && !IsSpace(t[k])
    requires forall i :: p <= i < k ==> IsSpace(t[i])
    ensures SkipSpaces(t, p) == k
    decreases k - p
  {
    if p < k {
      SkipRun(t, p + 1, k);
    }
  }

  /** The placeholder pattern matches a placeholder at the front, and only it. */
  lemma PlaceholderFront(s1: string, s2: string, rest: string)
    requires AllSpace(s1) && AllSpace(s2)
    ensures MatchAt(Parent, PlaceholderText(s1, s2) + rest) == Some(Hit(|PlaceholderText(s1, s2)|, "", ""))
  {
    var t := PlaceholderText(s1, s2) + rest;
    var p := 3 + |s1|;
    var q := p + 6 + |s2|;
    assert t[..3] == "{{@";
    assert t[p] == 'p';
    forall i | 3 <= i < p ensures IsSpace(t[i]) {
      assert t[i] == s1[i - 3];
    }
    SkipRun(t, 3, p);
    assert t[p..p + 6] == "parent";
    assert t[q] == '}';
    forall i | p + 6 <= i < q ensures IsSpace(t[i]) {
      assert t[i] == s2[i - p - 6];
    }
    SkipRun(t, p + 6, q);
    assert t[q..q + 2] == "}}";
  }

  /** Normalising rewrites a placeholder at the front as `{{@parent}}`. */
  lemma NormalizeFront(s1: string, s2: string, rest: string)
    requires AllSpace(s1) && AllSpace(s2)
    ensures NormalizeParent(PlaceholderText(s1, s2) + rest) == ParentLiteral + NormalizeParent(rest)
  {
    PlaceholderFront(s1, s2, rest);
    ReplaceFront(Parent, Const(ParentLiteral), PlaceholderText(s1, s2), rest, Hit(|PlaceholderText(s1, s2)|, "", ""));
  }

  /** Normalising copies text without a placeholder at the front. */
  lemma NormalizeSkip(t: string, rest: string)
    requires Quiet(t, "parent", Spaces) && !StartsWith(rest, "@") && !StartsWith(rest, "{@")
    ensures NormalizeParent(t + rest) == t + NormalizeParent(rest)
  {
    NeedsParent();
    SkipShunned(Parent, Const(ParentLiteral), t, rest, "parent", "parent", Spaces);
  }

  /** Normalising rewrites every placeholder as `{{@parent}}` and copies the text. */
  lemma {:induction false} NormalizePass(ps: seq<BodyPiece>)
    requires BodyPiecesOk(ps)
    ensures NormalizeParent(RenderBody(ps)) == RenderBody(Normalized(ps))
    decreases |ps|
  {
    if ps != [] {
      TailOk(ps);
      NormalizePass(ps[1..]);
      var rest := RenderBody(ps[1..]);
      var qs := Normalized(ps);
      assert qs[1..] == Normalized(ps[1..]);
      match ps[0]
      case Text(t) =>
        RenderBodyHead(ps[1..]);
        NormalizeSkip(t, rest);
      case Placeholder(s1, s2) =>
        NormalizeFront(s1, s2, rest);
        assert PlaceholderText("", "") == ParentLiteral;
    }
  }

  /** The literal `{{@parent}}` is a `{{@` followed by the word `parent`. */
  lemma NeedsLiteral()
    ensures Needs(Literal(ParentLiteral), "parent", "parent", Spaces)
  {
    forall t | MatchAt(Literal(ParentLiteral), t).Some?
      ensures StartsWith(t, "{{@") && KeywordAt(t, Lead(t, 3, Spaces), "parent")
    {
      assert t[..|ParentLiteral|] == ParentLiteral;
      assert t[..3] == "{{@" && t[3] == 'p';
      SkipRun(t, 3, 3);
      assert t[3..9] == "parent";
      KeywordSelf(t, 3, "parent");
    }
  }

  /** Replacing `{{@parent}}` in a normalised body puts `prev` in place of each placeholder. */
  lemma {:induction false} FillPass(ps: seq<BodyPiece>, prev: string)
    requires BodyPiecesOk(ps)
    ensures StrReplace(ParentLiteral, prev, RenderBody(Normalized(ps))) == Filled(ps, prev)
    decreases |ps|
  {
    if ps != [] {
      TailOk(ps);
      FillPass(ps[1..], prev);
      var qs := Normalized(ps);
      assert qs[1..] == Normalized(ps[1..]);
      var rest := RenderBody(qs[1..]);
      match ps[0]
      case Text(t) =>
        NormalizedOk(ps[1..]);
        RenderBodyHead(qs[1..]);
        FillText(t, rest, prev);
      case Placeholder(_, _) =>
        assert PlaceholderText("", "") == ParentLiteral;
        FillLiteral(rest, prev);
    }
  }

  /** Text in front of the rest of a normalised body is copied. */
  lemma FillText(t: string, rest: string, prev: string)
    requires Quiet(t, "parent", Spaces) && !StartsWith(rest, "@") && !StartsWith(rest, "{@")
    ensures StrReplace(ParentLiteral, prev, t + rest) == t + StrReplace(ParentLiteral, prev, rest)
  {
    NeedsLiteral();
    SkipShunned(Literal(ParentLiteral), Const(prev), t, rest, "parent", "parent", Spaces);
  }

  /** A `{{@parent}}` in front of the rest of a normalised body becomes `prev`. */
  lemma FillLiteral(rest: string, prev: string)
    ensures StrReplace(ParentLiteral, prev, ParentLiteral + rest) == prev + StrReplace(ParentLiteral, prev, rest)
  {
    assert (ParentLiteral + rest)[..|ParentLiteral|] == ParentLiteral;
    ReplaceFront(Literal(ParentLiteral), Const(prev), ParentLiteral, rest, Hit(|ParentLiteral|, "", ""));
  }

  /** A body with no placeholder is quiet text. */
  lemma {:induction false} NoPlaceholderQuiet(ps: seq<BodyPiece>)
    requires BodyPiecesOk(ps) && !HasPlaceholder(ps)
    ensures Quiet(RenderBody(ps), "parent", Spaces)
    decreases |ps|
  {
    if ps == [] {
      QuietEmpty("parent", Spaces);
    } else {
      TailOk(ps);
      NoPlaceholderQuiet(ps[1..]);
      QuietConcat(ps[0].text, RenderBody(ps[1..]), "parent", Spaces);
    }
  }

  /** With no placeholder, filling changes nothing whatever the previous content. */
  lemma {:induction false} FilledWithout(ps: seq<BodyPiece>, prev: string)
    requires !HasPlaceholder(ps)
    ensures Filled(ps, prev) == RenderBody(ps)
    decreases |ps|
  {
    if ps != [] {
      FilledWithout(ps[1..], prev);
    }
  }

  /** A match at some offset of `b` is one in `a + b`. */
  lemma MatchesAfter(m: Matcher, a: string, b: string)
    requires MatchesBy(m, b)
    ensures MatchesBy(m, a + b)
  {
    var i := MatchesSomewhere(m, b);
    assert (a + b)[|a| + i..] == b[i..];
    MatchesFrom(m, a + b, |a| + i);
  }

  /** A body with a placeholder matches the placeholder pattern. */
  lemma {:induction false} PlaceholderMatches(ps: seq<BodyPiece>)
    requires BodyPiecesOk(ps) && HasPlaceholder(ps)
    ensures Matches(Parent, RenderBody(ps))
    decreases |ps|
  {
    TailOk(ps);
    var rest := RenderBody(ps[1..]);
    match ps[0]
    case Text(t) =>
      PlaceholderMatches(ps[1..]);
      MatchesAfter(Pattern(Parent), t, rest);
    case Placeholder(s1, s2) =>
      PlaceholderFront(s1, s2, rest);
      assert HitAt(Pattern(Parent), RenderBody(ps));
  }

  /**
   * Parent chaining: the content a declaration stores is its body with
   * every placeholder, in any spacing, replaced by the previous content;
   * a body without placeholders is stored as written.
   */
  lemma ResolveBlockPieces(prev: string, ps: seq<BodyPiece>)
    requires BodyPiecesOk(ps)
    ensures ResolveBlock(prev, RenderBody(ps)) == Filled(ps, prev)
    ensures !HasPlaceholder(ps) ==> ResolveBlock(prev, RenderBody(ps)) == RenderBody(ps)
  {
    if HasPlaceholder(ps) {
      PlaceholderMatches(ps);
      NormalizePass(ps);
      FillPass(ps, prev);
    } else {
      NoPlaceholderQuiet(ps);
      NeedsParent();
      ShunnedUnchanged(Parent, Const(ParentLiteral), RenderBody(ps), "parent", "parent", Spaces);
      FilledWithout(ps, prev);
    }
  }

  /** A redeclaration of `name` extends what the registry held for it (empty if nothing). */
  lemma DeclareExtends(b: Blocks, name: string, ps: seq<BodyPiece>)
    requires BodyPiecesOk(ps)
    ensures Declare(b, name, RenderBody(ps)).content[name] == Filled(ps, b.Current(name))
  {
    ResolveBlockPieces(b.Current(name), ps);
  }
}
