/**
 * What compileSetBlock (Template.php:171-187) does to a template made of
 * plain text and block declarations
 * `{{@ setblock NAME }}BODY{{@ endsetblock }}`: the registry receives each
 * declaration in document order, and the text keeps only what lies between
 * the declarations.
 */
module SetBlockFacts {
  import opened Strings
  import opened Patterns
  import opened Passes
  import opened DriverFacts
  import opened BlockFacts

  /** A template seen as a sequence of plain text and block declarations. */
  datatype SetPiece = Text(text: string) | Decl(name: string, body: string)

  /**
   * A body in which no `{{@` is followed by `setblock` or `endsetblock`: the
   * end marker after it then closes it, and no declaration hides in it. Any
   * other directive, `{{@ parent }}` among them, may stand in a body.
   */
  predicate BodyOk(b: string) {
    Shuns(b, "setblock", Blank) && Shuns(b, "endsetblock", Blank)
  }

  /** Text no declaration starts in, and that cannot complete one begun before it. */
  predicate SetPieceOk(p: SetPiece) {
    match p
    case Text(t) => Quiet(t, "setblock", Blank)
    case Decl(n, b) => PlainName(n) && BodyOk(b)
  }

  predicate SetPiecesOk(ps: seq<SetPiece>) {
    forall i :: 0 <= i < |ps| ==> SetPieceOk(ps[i])
  }

  const EndMarker := "{{@ endsetblock }}"

  function DeclHead(n: string): string {
    "{{@ setblock " + n + " }}"
  }

  function DeclText(n: string, b: string): string {
    DeclHead(n) + b + EndMarker
  }

  /** The match preg_match_all reports for a declaration. */
  function DeclFound(n: string, b: string): Found {
    Found(DeclText(n, b), n, b)
  }

  /** The template text. */
  function RenderSet(ps: seq<SetPiece>): string {
    if ps == [] then []
    else
      match ps[0]
      case Text(t) => t + RenderSet(ps[1..])
      case Decl(n, b) => DeclText(n, b) + RenderSet(ps[1..])
  }

  /** The declarations, in document order. */
  function DeclsOf(ps: seq<SetPiece>): seq<Found> {
    if ps == [] then []
    else
      match ps[0]
      case Text(_) => DeclsOf(ps[1..])
      case Decl(n, b) => [DeclFound(n, b)] + DeclsOf(ps[1..])
  }

  /** The text between the declarations. */
  function PlainText(ps: seq<SetPiece>): string {
    if ps == [] then []
    else
      match ps[0]
      case Text(t) => t + PlainText(ps[1..])
      case Decl(_, _) => PlainText(ps[1..])
  }

  /** The registry after each declaration of `ps`, in document order. */
  function DeclareEach(b: Blocks, ps: seq<SetPiece>): Blocks
    decreases |ps|
  {
    if ps == [] then b
    else
      match ps[0]
      case Text(_) => DeclareEach(b, ps[1..])
      case Decl(n, body) => DeclareEach(Declare(b, n, body), ps[1..])
  }

  /** The registry after each declaration of `ds`, in order. */
  function DeclareList(b: Blocks, ds: seq<Found>): Blocks
    decreases |ds|
  {
    if ds == [] then b else DeclareList(Declare(b, ds[0].g1, ds[0].g2), ds[1..])
  }

  /** The declarations whose match is in `ds` taken out. */
  function Removed(ps: seq<SetPiece>, ds: seq<Found>): seq<SetPiece> {
    if ps == [] then []
    else
      match ps[0]
      case Decl(n, b) =>
        if DeclFound(n, b) in ds then Removed(ps[1..], ds) else [ps[0]] + Removed(ps[1..], ds)
      case Text(_) => [ps[0]] + Removed(ps[1..], ds)
  }

  predicate DeclsOk(ds: seq<Found>) {
    forall i :: 0 <= i < |ds| ==> ds[i] == DeclFound(ds[i].g1, ds[i].g2) && PlainName(ds[i].g1) && BodyOk(ds[i].g2)
  }

  // ---------------------------------------------------------------------
  // Pieces

  lemma TailOk(ps: seq<SetPiece>)
    requires ps != [] && SetPiecesOk(ps)
    ensures SetPieceOk(ps[0]) && SetPiecesOk(ps[1..])
  {
    forall i | 0 <= i < |ps[1..]| ensures SetPieceOk(ps[1..][i]) {
      assert ps[1..][i] == ps[i + 1];
    }
  }

  /** A well-formed template never starts with `@` or `{@`. */
  lemma {:induction false} RenderSetHead(ps: seq<SetPiece>)
    requires SetPiecesOk(ps)
    ensures !StartsWith(RenderSet(ps), "@") && !StartsWith(RenderSet(ps), "{@")
    decreases |ps|
  {
    if ps != [] {
      TailOk(ps);
      RenderSetHead(ps[1..]);
      var rest := RenderSet(ps[1..]);
      var r := RenderSet(ps);
      match ps[0]
      case Text(t) =>
        HeadJoin(t, rest);
      case Decl(n, b) =>
        assert r[..1] == "{";
        assert r[..2] == "{{";
    }
  }

  // ---------------------------------------------------------------------
  // One declaration at the front

  lemma DeclChars(n: string, b: string, rest: string)
    ensures |DeclText(n, b) + rest| == |n| + |b| + 34 + |rest|
    ensures (DeclText(n, b) + rest)[..13] == "{{@ setblock "
    ensures (DeclText(n, b) + rest)[13..13 + |n|] == n
    ensures (DeclText(n, b) + rest)[13 + |n|..16 + |n|] == " }}"
    ensures (DeclText(n, b) + rest)[16 + |n|..16 + |n| + |b|] == b
    ensures (DeclText(n, b) + rest)[16 + |n| + |b|..34 + |n| + |b|] == EndMarker
    ensures (DeclText(n, b) + rest)[34 + |n| + |b|..] == rest
  {
  }

  /** The lazy name group passes over characters that cannot begin ` }}`. */
  lemma {:induction false} LazyAllScan(t: string, j: nat, k: nat)
    requires j <= k < |t|
    requires forall i :: j <= i < k ==> t[i] != ' ' && t[i] != '}'
    ensures LazyAll(t, j) == LazyAll(t, k)
    decreases k - j
  {
    if j < k {
      AllStep(t, j);
      LazyAllScan(t, j + 1, k);
    }
  }

  /** No tail starts at a character that is not a blank or `}`. */
  lemma AllStep(t: string, j: nat)
    requires j < |t| && t[j] != ' ' && t[j] != '}'
    ensures LazyAll(t, j) == LazyAll(t, j + 1)
  {
    if j + 3 <= |t| {
      assert t[j..j + 3][0] == t[j];
    }
    if j + 2 <= |t| {
      assert t[j..j + 2][0] == t[j];
    }
    var n := TailLen(t, j, false);
  }

  /** No end marker starts at any position from `j` up to `e`. */
  predicate NoMarkerIn(t: string, j: nat, e: nat) {
    forall i :: j <= i < e ==> EndMarkerLen(t, i).None?
  }

  /** The lazy body passes over positions where no end marker starts. */
  lemma {:induction false} BodyScan(t: string, j: nat, e: nat)
    requires j <= e < |t|
    requires NoMarkerIn(t, j, e)
    ensures BodyEnd(t, j) == BodyEnd(t, e)
    decreases e - j
  {
    if j < e {
      BodyScan(t, j + 1, e);
    }
  }

  /** No end marker starts inside a well-formed body, even where the body meets its own. */
  lemma BodyNoMarker(n: string, b: string, rest: string, i: nat)
    requires BodyOk(b)
    requires 16 + |n| <= i < 16 + |n| + |b|
    ensures EndMarkerLen(DeclText(n, b) + rest, i).None?
  {
    DeclChars(n, b, rest);
    BodyNoMarkerAt(DeclText(n, b) + rest, 16 + |n|, b, i);
  }

  /** The same for a text holding the body at `k`, followed by the end marker. */
  lemma BodyNoMarkerAt(t: string, k: nat, b: string, i: nat)
    requires BodyOk(b) && k <= i < k + |b|
    requires k + |b| + 18 <= |t| && t[k..k + |b|] == b && t[k + |b|..k + |b| + 18] == EndMarker
    ensures EndMarkerLen(t, i).None?
  {
    BodyShunsAt(t, k, b, i, "endsetblock");
  }

  /** In a body followed by the end marker, no `{{@` is followed by a keyword the body shuns. */
  lemma BodyShunsAt(t: string, k: nat, b: string, i: nat, kw: string)
    requires Shuns(b, kw, Blank) && k <= i < k + |b|
    requires k + |b| + 18 <= |t| && t[k..k + |b|] == b && t[k + |b|..k + |b| + 18] == EndMarker
    ensures !LitAt(t, i, "{{@") || !KeywordAt(t, OptChar(t, i + 3, ' '), kw)
  {
    var j := i - k;
    if j + 3 <= |b| {
      SliceOfSlice(t, k, k + |b|, j, j + 3);
      if OccursAt(b, "{{@", j) {
        DepartsWindow(t, k, b, j + 3, kw, Blank);
        assert k + (j + 3) == i + 3;
      }
    } else {
      MarkerJunction(t, k + |b|, i);
    }
  }

  /** A `{{@` that starts less than three characters before the end marker would need a third `{`. */
  lemma MarkerJunction(t: string, e: nat, i: nat)
    requires e + 18 <= |t| && t[e..e + 18] == EndMarker && i < e < i + 3
    ensures !LitAt(t, i, "{{@")
  {
    assert t[i + 2] == t[e..e + 18][i + 2 - e] == '{';
    assert t[i..i + 3][2] == t[i + 2];
  }

  /** The end marker is recognised where it stands. */
  lemma EndMarkerHere(t: string, e: nat)
    requires e + 18 <= |t| && t[e..e + 18] == EndMarker
    ensures EndMarkerLen(t, e) == Some(18)
  {
    assert t[e..e + 3] == t[e..e + 18][..3];
    assert t[e + 3] == ' ';
    assert OptChar(t, e + 3, ' ') == e + 4;
    SliceOfSlice(t, e, e + 18, 4, 15);
    assert EndMarker[4..15] == "endsetblock";
    KeywordSelf(t, e + 4, "endsetblock");
    assert t[e + 15] == ' ' && t[e + 16] == '}';
    assert t[e + 16..e + 18] == "}}";
  }

  /** A well-formed declaration at the front is matched whole, with its name and body as groups. */
  lemma SetBlockFront(n: string, b: string, rest: string)
    requires PlainName(n) && BodyOk(b)
    ensures MatchAt(SetBlock, DeclText(n, b) + rest) == Some(Hit(|DeclText(n, b)|, n, b))
  {
    var t := DeclText(n, b) + rest;
    DeclChars(n, b, rest);
    forall i | 16 + |n| <= i < 16 + |n| + |b| ensures EndMarkerLen(t, i).None? {
      BodyNoMarker(n, b, rest, i);
    }
    SetBlockAtParts(t, n, b);
  }

  /** The same for a text whose parts stand where a declaration's do. */
  lemma SetBlockAtParts(t: string, n: string, b: string)
    requires PlainName(n)
    requires |t| >= |n| + |b| + 34
    requires t[..13] == "{{@ setblock " && t[13..13 + |n|] == n && t[13 + |n|..16 + |n|] == " }}"
    requires t[16 + |n| + |b|..34 + |n| + |b|] == EndMarker
    requires t[16 + |n|..16 + |n| + |b|] == b
    requires NoMarkerIn(t, 16 + |n|, 16 + |n| + |b|)
    ensures MatchAt(SetBlock, t) == Some(Hit(|DeclText(n, b)|, n, b))
  {
    var k: nat := 16 + |n|;
    var e: nat := k + |b|;
    var m: nat := |DeclText(n, b)|;
    var a: nat := 13 + |n|;
    assert m == e + 18;
    DeclPrefixHere(t);
    NameGroupHere(t, n);
    BodyGroupHere(t, k, e, m);
    SetBlockAtHere(t, a, k, e, m, n, b);
  }

  /** The fixed opening `{{@ setblock ` read by the matcher. */
  lemma DeclPrefixHere(t: string)
    requires |t| >= 13 && t[..13] == "{{@ setblock "
    ensures StartsWith(t, "{{@") && t[3] == ' ' && KeywordAt(t, 4, "setblock") && t[12] == ' '
  {
    assert t[..3] == t[..13][..3];
    assert t[3] == t[..13][3];
    assert t[4..12] == t[..13][4..12];
    KeywordSelf(t, 4, "setblock");
    assert t[12] == t[..13][12];
  }

  /** A plain name followed by ` }}` is the name group. */
  lemma NameGroupHere(t: string, n: string)
    requires PlainName(n) && |t| > 16 + |n|
    requires t[13..13 + |n|] == n && t[13 + |n|..16 + |n|] == " }}"
    ensures LazyAll(t, 13) == Some((13 + |n|, 16 + |n|))
  {
    NameChars(t, n);
    LazyAllScan(t, 13, 13 + |n|);
    var l := LazyAll(t, 13 + |n|);
    NameEndHere(t, 13 + |n|, 16 + |n|);
  }

  /** The characters of a plain name standing at 13 are neither blanks nor `}`. */
  lemma NameChars(t: string, n: string)
    requires PlainName(n) && 13 + |n| <= |t| && t[13..13 + |n|] == n
    ensures forall i :: 13 <= i < 13 + |n| ==> t[i] != ' ' && t[i] != '}'
  {
    forall i | 13 <= i < 13 + |n| ensures t[i] != ' ' && t[i] != '}' {
      assert t[i] == t[13..13 + |n|][i - 13];
    }
  }

  /** A body without end markers followed by the end marker is the body group. */
  lemma BodyGroupHere(t: string, k: nat, e: nat, m: nat)
    requires k <= e && m == e + 18 <= |t| && t[e..m] == EndMarker
    requires NoMarkerIn(t, k, e)
    ensures BodyEnd(t, k) == Some((e, m))
  {
    BodyScan(t, k, e);
    EndMarkerHere(t, e);
    BodyEndHere(t, e, m);
  }

  /** The name group ends at the first ` }}`. */
  lemma NameEndHere(t: string, a: nat, k: nat)
    requires k == a + 3 <= |t| && t[a..k] == " }}"
    ensures LazyAll(t, a) == Some((a, k))
  {
    assert t[a..a + 2][0] == t[a];
    var n := TailLen(t, a, false);
    assert n == Some(3);
  }

  /** The body ends where an end marker stands. */
  lemma BodyEndHere(t: string, e: nat, m: nat)
    requires m == e + 18 && EndMarkerLen(t, e) == Some(18)
    ensures BodyEnd(t, e) == Some((e, m))
  {
    var n := EndMarkerLen(t, e);
  }

  /** How the declaration matcher reads a text whose name group and body are known. */
  lemma SetBlockAtHere(t: string, a: nat, c: nat, e: nat, m: nat, name: string, body: string)
    requires StartsWith(t, "{{@") && 13 <= |t| && t[3] == ' ' && KeywordAt(t, 4, "setblock") && t[12] == ' '
    requires LazyAll(t, 13) == Some((a, c)) && BodyEnd(t, c) == Some((e, m))
    requires 13 <= a <= |t| && c <= e <= |t| && t[13..a] == name && t[c..e] == body
    ensures MatchAt(SetBlock, t) == Some(Hit(m, name, body))
  {
    var l := LazyAll(t, 13);
    var r := BodyEnd(t, c);
    assert SetBlockAt(t) == Some(Hit(m, t[13..a], t[c..e]));
  }

  /** preg_match_all finds exactly the declarations, in document order. */
  lemma {:induction false} SetBlockMatches(ps: seq<SetPiece>)
    requires SetPiecesOk(ps)
    ensures PregMatchAll(SetBlock, RenderSet(ps)) == DeclsOf(ps)
    decreases |ps|
  {
    if ps != [] {
      TailOk(ps);
      SetBlockMatches(ps[1..]);
      RenderSetHead(ps[1..]);
      var rest := RenderSet(ps[1..]);
      match ps[0]
      case Text(t) =>
        NeedsSetBlock();
        SkipShunned(SetBlock, Const(""), t, rest, "setblock", "setblock", Blank);
      case Decl(n, b) =>
        SetBlockFront(n, b, rest);
        ReplaceFront(SetBlock, Const(""), DeclText(n, b), rest, Hit(|DeclText(n, b)|, n, b));
    }
  }

  // ---------------------------------------------------------------------
  // Removing one declaration's text

  /** The characters of a declaration on its own. */
  lemma DeclAlone(n: string, b: string)
    ensures |DeclText(n, b)| == |n| + |b| + 34
    ensures DeclText(n, b)[..13] == "{{@ setblock "
    ensures DeclText(n, b)[13..13 + |n|] == n
    ensures DeclText(n, b)[13 + |n|..16 + |n|] == " }}"
    ensures DeclText(n, b)[16 + |n|..16 + |n| + |b|] == b
    ensures DeclText(n, b)[16 + |n| + |b|..] == EndMarker
  {
  }

  /** A declaration's literal is a `{{@` followed by `setblock`. */
  lemma NeedsDecl(n: string, b: string)
    ensures Needs(Literal(DeclText(n, b)), "setblock", "setblock", Blank)
  {
    var d := DeclText(n, b);
    DeclAlone(n, b);
    forall t | MatchAt(Literal(d), t).Some?
      ensures StartsWith(t, "{{@") && KeywordAt(t, Lead(t, 3, Blank), "setblock")
    {
      assert t[..13] == t[..|d|][..13];
      DeclPrefixHere(t);
    }
  }

  /** Where a declaration's literal matches, a `{{@` stands, followed by `setblock`. */
  lemma DeclLiteralAt(x: string, i: nat, n: string, b: string)
    requires i <= |x|
    ensures HitAt(Pattern(Literal(DeclText(n, b))), x[i..]) ==> LitAt(x, i, "{{@") && KeywordAt(x, OptChar(x, i + 3, ' '), "setblock")
  {
    var d := DeclText(n, b);
    var u := x[i..];
    if HitAt(Pattern(Literal(d)), u) {
      assert MatchAt(Literal(d), u).Some?;
      DeclAlone(n, b);
      assert u[..13] == u[..|d|][..13];
      DeclPrefixHere(u);
      ViewPart(x, i, 0, 3);
      ViewPart(x, i, 4, 8);
      assert x[i + 3] == u[3];
    }
  }

  /** A part of the suffix of `x` at `i` is a part of `x`. */
  lemma ViewPart(x: string, i: nat, p: nat, m: nat)
    requires i + p + m <= |x|
    ensures x[i..][p..p + m] == x[i + p..i + p + m]
  {
  }

  /** Declarations with different names cannot start one another. */
  lemma NamesDiffer(n: string, b: string, n2: string, b2: string, rest: string)
    requires PlainName(n) && PlainName(n2) && n != n2
    ensures !StartsWith(DeclText(n2, b2) + rest, DeclText(n, b))
  {
    var x := DeclText(n2, b2) + rest;
    var d := DeclText(n, b);
    DeclAlone(n, b);
    DeclChars(n2, b2, rest);
    if |d| <= |x| {
      if |n| < |n2| {
        assert d[13 + |n|] == d[13 + |n|..16 + |n|][0] == ' ';
        assert x[13 + |n|] == x[13..13 + |n2|][|n|] == n2[|n|];
        assert x[..|d|][13 + |n|] != d[13 + |n|];
      } else if |n| > |n2| {
        assert d[13 + |n2|] == d[13..13 + |n|][|n2|] == n[|n2|];
        assert x[13 + |n2|] == x[13 + |n2|..16 + |n2|][0] == ' ';
        assert x[..|d|][13 + |n2|] != d[13 + |n2|];
      } else {
        assert x[..|d|][13..13 + |n|] == x[13..13 + |n2|] == n2;
      }
    }
  }

  /** A declaration cannot start a declaration of the same name with a longer body. */
  lemma ShorterBody(n: string, b: string, b2: string, rest: string)
    requires BodyOk(b2) && |b| < |b2|
    ensures !StartsWith(DeclText(n, b2) + rest, DeclText(n, b))
  {
    var x := DeclText(n, b2) + rest;
    var d := DeclText(n, b);
    var p := 16 + |n| + |b|;
    DeclAlone(n, b);
    DeclChars(n, b2, rest);
    assert d[p..p + 18] == EndMarker;
    BodyNoMarker(n, b2, rest, p);
    MarkerCarried(d, x, p);
  }

  /** An end marker standing at `p` in a prefix of `y` stands there in `y`. */
  lemma MarkerCarried(d: string, y: string, p: nat)
    requires p + 18 <= |d| && d[p..p + 18] == EndMarker
    ensures StartsWith(y, d) ==> EndMarkerLen(y, p) == Some(18)
  {
    if StartsWith(y, d) {
      PrefixPart(d, y, p, 18);
      EndMarkerHere(y, p);
    }
  }

  /** A declaration cannot start a declaration of the same name with a shorter body. */
  lemma LongerBody(n: string, b: string, b2: string, rest: string)
    requires BodyOk(b) && |b2| < |b|
    ensures !StartsWith(DeclText(n, b2) + rest, DeclText(n, b))
  {
    var x := DeclText(n, b2) + rest;
    var d := DeclText(n, b);
    var k := 16 + |n|;
    var p := k + |b2|;
    DeclAlone(n, b);
    DeclChars(n, b2, rest);
    assert d[k + |b|..k + |b| + 18] == d[k + |b|..];
    BodyNoMarkerAt(d, k, b, p);
    MarkerInPrefix(d, x, p);
  }

  /** An end marker standing at `p` in `y` stands there in every prefix of `y` long enough to hold it. */
  lemma MarkerInPrefix(d: string, y: string, p: nat)
    requires p + 18 <= |d| && p + 18 <= |y| && y[p..p + 18] == EndMarker
    ensures StartsWith(y, d) ==> EndMarkerLen(d, p) == Some(18)
  {
    if StartsWith(y, d) {
      PrefixPart(d, y, p, 18);
      EndMarkerHere(d, p);
    }
  }

  /** A part of a prefix of `y` is that part of `y`. */
  lemma PrefixPart(d: string, y: string, p: nat, n: nat)
    requires StartsWith(y, d) && p + n <= |d|
    ensures y[p..p + n] == d[p..p + n]
  {
    var u, v := y[p..p + n], d[p..p + n];
    forall i | 0 <= i < |u| ensures u[i] == v[i] {
      assert y[..|d|][p + i] == y[p + i];
    }
  }

  /** Declarations with one name and different well-formed bodies cannot start one another. */
  lemma BodiesDiffer(n: string, b: string, b2: string, rest: string)
    requires BodyOk(b) && BodyOk(b2) && b != b2
    ensures !StartsWith(DeclText(n, b2) + rest, DeclText(n, b))
  {
    if |b| < |b2| {
      ShorterBody(n, b, b2, rest);
    } else if |b2| < |b| {
      LongerBody(n, b, b2, rest);
    } else {
      var x := DeclText(n, b2) + rest;
      var d := DeclText(n, b);
      var k := 16 + |n|;
      DeclAlone(n, b);
      DeclChars(n, b2, rest);
      if |d| <= |x| {
        assert x[..|d|][k..k + |b|] == x[k..k + |b2|] == b2;
      }
    }
  }

  /** No `{{@` starts inside a declaration's head after its first character. */
  lemma HeadNoOpener(n: string, b: string, rest: string, i: nat)
    requires PlainName(n) && 1 <= i < 16 + |n|
    ensures !StartsWith((DeclText(n, b) + rest)[i..], "{{@")
  {
    var x := DeclText(n, b) + rest;
    DeclChars(n, b, rest);
    if i < 3 {
      assert x[2] == x[..13][2] == '@';
      assert x[i..][2 - i] == '@';
    } else if i < 13 {
      assert x[i] == x[..13][i];
    } else if i < 13 + |n| {
      assert x[i] == x[13..13 + |n|][i - 13];
    } else {
      assert x[i] == x[13 + |n|..16 + |n|][i - 13 - |n|];
    }
    assert x[i..][0] == x[i];
  }

  /** No `{{@` starts inside the end marker after its first character. */
  lemma EndNoOpener(n: string, b: string, rest: string, i: nat)
    requires 16 + |n| + |b| < i < 34 + |n| + |b|
    ensures !StartsWith((DeclText(n, b) + rest)[i..], "{{@")
  {
    var x := DeclText(n, b) + rest;
    var e := 16 + |n| + |b|;
    DeclChars(n, b, rest);
    assert x[i] == x[e..e + 18][i - e];
    if i < e + 3 {
      assert x[e + 2] == x[e..e + 18][2] == '@';
      assert x[i..][e + 2 - i] == '@';
    }
    assert x[i..][0] == x[i];
  }

  /** The end marker is not the start of a declaration. */
  lemma EndNotDecl(n: string, b: string, n2: string, b2: string, rest: string)
    ensures !StartsWith((DeclText(n2, b2) + rest)[16 + |n2| + |b2|..], DeclText(n, b))
  {
    var x := DeclText(n2, b2) + rest;
    var e := 16 + |n2| + |b2|;
    var d := DeclText(n, b);
    DeclAlone(n, b);
    DeclChars(n2, b2, rest);
    assert d[4] == d[..13][4] == 's';
    assert x[e..][4] == x[e..e + 18][4] == 'e';
  }

  /** No match of another declaration's literal starts inside a declaration. */
  lemma DeclInnerNoHit(n: string, b: string, n2: string, b2: string, rest: string, i: nat)
    requires PlainName(n2) && BodyOk(b2)
    requires !StartsWith(DeclText(n2, b2) + rest, DeclText(n, b))
    requires i < |DeclText(n2, b2)|
    ensures !HitAt(Pattern(Literal(DeclText(n, b))), (DeclText(n2, b2) + rest)[i..])
  {
    var x := DeclText(n2, b2) + rest;
    var k := 16 + |n2|;
    var e := k + |b2|;
    if i == 0 {
      assert x[0..] == x;
    } else if i < k {
      HeadNoDecl(n, b, n2, b2, rest, i);
    } else if i < e {
      BodyNoDecl(n, b, n2, b2, rest, i);
    } else if i == e {
      EndNotDecl(n, b, n2, b2, rest);
    } else {
      DeclAlone(n2, b2);
      EndNoDecl(n, b, n2, b2, rest, i);
    }
  }

  /** A declaration text starts with `{{@`. */
  lemma DeclOpens(n: string, b: string)
    ensures StartsWith(DeclText(n, b), "{{@")
  {
    DeclAlone(n, b);
    assert DeclText(n, b)[..3] == DeclText(n, b)[..13][..3];
  }

  /** No declaration's literal matches inside a declaration's head after its first character. */
  lemma HeadNoDecl(n: string, b: string, n2: string, b2: string, rest: string, i: nat)
    requires PlainName(n2) && 1 <= i < 16 + |n2|
    ensures !HitAt(Pattern(Literal(DeclText(n, b))), (DeclText(n2, b2) + rest)[i..])
  {
    DeclOpens(n, b);
    HeadNoOpener(n2, b2, rest, i);
    NotOpenerNoHit(DeclText(n, b), (DeclText(n2, b2) + rest)[i..]);
  }

  /** No declaration's literal matches inside an end marker after its first character. */
  lemma EndNoDecl(n: string, b: string, n2: string, b2: string, rest: string, i: nat)
    requires 16 + |n2| + |b2| < i < 34 + |n2| + |b2|
    ensures !HitAt(Pattern(Literal(DeclText(n, b))), (DeclText(n2, b2) + rest)[i..])
  {
    DeclOpens(n, b);
    EndNoOpener(n2, b2, rest, i);
    NotOpenerNoHit(DeclText(n, b), (DeclText(n2, b2) + rest)[i..]);
  }

  /** No declaration's literal matches inside a well-formed body. */
  lemma BodyNoDecl(n: string, b: string, n2: string, b2: string, rest: string, i: nat)
    requires BodyOk(b2) && 16 + |n2| <= i < 16 + |n2| + |b2|
    ensures !HitAt(Pattern(Literal(DeclText(n, b))), (DeclText(n2, b2) + rest)[i..])
  {
    var x := DeclText(n2, b2) + rest;
    DeclChars(n2, b2, rest);
    BodyShunsAt(x, 16 + |n2|, b2, i, "setblock");
    DeclLiteralAt(x, i, n, b);
  }

  /** Another well-formed declaration is copied whole by a declaration's literal. */
  lemma DeclSkip(n: string, b: string, n2: string, b2: string, rest: string)
    requires PlainName(n) && PlainName(n2) && BodyOk(b) && BodyOk(b2) && (n, b) != (n2, b2)
    ensures StrReplace(DeclText(n, b), "", DeclText(n2, b2) + rest) == DeclText(n2, b2) + StrReplace(DeclText(n, b), "", rest)
  {
    var x := DeclText(n2, b2) + rest;
    var d := DeclText(n, b);
    if n != n2 {
      NamesDiffer(n, b, n2, b2, rest);
    } else {
      BodiesDiffer(n, b, b2, rest);
    }
    forall i | 0 <= i < |DeclText(n2, b2)| && i <= |x| ensures !HitAt(Pattern(Literal(d)), x[i..]) {
      DeclInnerNoHit(n, b, n2, b2, rest, i);
    }
    SkipPrefix(Pattern(Literal(d)), Replacement(Const("")), DeclText(n2, b2), rest);
  }

  /** A declaration's literal at the front is removed. */
  lemma DeclRemoveFront(n: string, b: string, rest: string)
    ensures StrReplace(DeclText(n, b), "", DeclText(n, b) + rest) == StrReplace(DeclText(n, b), "", rest)
  {
    var d := DeclText(n, b);
    DeclAlone(n, b);
    assert (d + rest)[..|d|] == d;
    assert MatchAt(Literal(d), d + rest) == Some(Hit(|d|, "", ""));
    ReplaceFront(Literal(d), Const(""), d, rest, Hit(|d|, "", ""));
  }

  /** `str_replace` with one declaration's text removes exactly that declaration, wherever it occurs. */
  lemma {:induction false} RemoveOnePass(qs: seq<SetPiece>, n: string, b: string)
    requires SetPiecesOk(qs) && PlainName(n) && BodyOk(b)
    ensures StrReplace(DeclText(n, b), "", RenderSet(qs)) == RenderSet(Removed(qs, [DeclFound(n, b)]))
    decreases |qs|
  {
    if qs != [] {
      TailOk(qs);
      RemoveOnePass(qs[1..], n, b);
      RenderSetHead(qs[1..]);
      var rest := RenderSet(qs[1..]);
      var f := DeclFound(n, b);
      var r := Removed(qs, [f]);
      match qs[0]
      case Text(t) =>
        NeedsDecl(n, b);
        SkipShunned(Literal(DeclText(n, b)), Const(""), t, rest, "setblock", "setblock", Blank);
        assert r == [qs[0]] + Removed(qs[1..], [f]);
      case Decl(n2, b2) =>
        if (n2, b2) == (n, b) {
          DeclRemoveFront(n, b, rest);
          assert r == Removed(qs[1..], [f]);
        } else {
          assert DeclFound(n2, b2) != f;
          DeclSkip(n, b, n2, b2, rest);
          assert r == [qs[0]] + Removed(qs[1..], [f]);
        }
    }
  }

  // ---------------------------------------------------------------------
  // The loop of compileSetBlock

  lemma {:induction false} RemovedOk(ps: seq<SetPiece>, ds: seq<Found>)
    requires SetPiecesOk(ps)
    ensures SetPiecesOk(Removed(ps, ds))
    decreases |ps|
  {
    if ps != [] {
      TailOk(ps);
      RemovedOk(ps[1..], ds);
      var r := Removed(ps, ds);
      var t := Removed(ps[1..], ds);
      if r != t {
        assert r == [ps[0]] + t;
        forall i | 0 <= i < |r| ensures SetPieceOk(r[i]) {
          if i > 0 {
            assert r[i] == t[i - 1];
          }
        }
      }
    }
  }

  lemma {:induction false} RemovedNone(ps: seq<SetPiece>)
    ensures Removed(ps, []) == ps
    decreases |ps|
  {
    if ps != [] {
      RemovedNone(ps[1..]);
    }
  }

  /** Removing the declarations of `done` and then `f` is removing those of `done + [f]`. */
  lemma {:induction false} RemovedStep(ps: seq<SetPiece>, done: seq<Found>, f: Found)
    ensures Removed(Removed(ps, done), [f]) == Removed(ps, done + [f])
    decreases |ps|
  {
    if ps != [] {
      RemovedStep(ps[1..], done, f);
      var inner := Removed(ps, done);
      match ps[0]
      case Decl(n, b) =>
        assert DeclFound(n, b) in done + [f] <==> DeclFound(n, b) in done || DeclFound(n, b) == f;
        if DeclFound(n, b) !in done {
          assert inner == [ps[0]] + Removed(ps[1..], done);
          assert inner[1..] == Removed(ps[1..], done);
        }
      case Text(_) =>
        assert inner == [ps[0]] + Removed(ps[1..], done);
        assert inner[1..] == Removed(ps[1..], done);
    }
  }

  /** Removing one well-formed declaration's text from the remaining pieces removes that piece. */
  lemma DeclareOne(ps: seq<SetPiece>, done: seq<Found>, f: Found)
    requires SetPiecesOk(ps) && f == DeclFound(f.g1, f.g2) && PlainName(f.g1) && BodyOk(f.g2)
    ensures StrReplace(f.text, "", RenderSet(Removed(ps, done))) == RenderSet(Removed(ps, done + [f]))
  {
    RemovedOk(ps, done);
    RemoveOnePass(Removed(ps, done), f.g1, f.g2);
    RemovedStep(ps, done, f);
  }

  /** One step of the declaration loop. */
  lemma DeclareAllHead(b: Blocks, code: string, ds: seq<Found>)
    requires ds != []
    ensures DeclareAll(b, code, ds) == DeclareAll(Declare(b, ds[0].g1, ds[0].g2), StrReplace(ds[0].text, "", code), ds[1..])
  {
  }

  /** The rest of a list of well-formed matches is well formed. */
  lemma DeclsTail(ds: seq<Found>)
    requires ds != [] && DeclsOk(ds)
    ensures DeclsOk(ds[1..])
  {
    forall i | 0 <= i < |ds[1..]| ensures ds[1..][i] == ds[i + 1] {
    }
  }

  /** The loop over the matches `ds` declares each and removes each one's text. */
  lemma {:induction false} DeclareAllPieces(b: Blocks, ps: seq<SetPiece>, done: seq<Found>, ds: seq<Found>)
    requires SetPiecesOk(ps) && DeclsOk(ds)
    ensures DeclareAll(b, RenderSet(Removed(ps, done)), ds) == (DeclareList(b, ds), RenderSet(Removed(ps, done + ds)))
    decreases |ds|
  {
    if ds == [] {
      assert done + ds == done;
    } else {
      var f := ds[0];
      var b1 := Declare(b, f.g1, f.g2);
      var code := RenderSet(Removed(ps, done));
      DeclsTail(ds);
      assert f == DeclFound(f.g1, f.g2) && PlainName(f.g1) && BodyOk(f.g2);
      DeclareOne(ps, done, f);
      DeclareAllHead(b, code, ds);
      assert DeclareList(b, ds) == DeclareList(b1, ds[1..]);
      DeclareAllPieces(b1, ps, done + [f], ds[1..]);
      AppendHead(done, ds);
    }
  }

  lemma {:induction false} DeclsOfOk(ps: seq<SetPiece>)
    requires SetPiecesOk(ps)
    ensures DeclsOk(DeclsOf(ps))
    decreases |ps|
  {
    if ps != [] {
      TailOk(ps);
      DeclsOfOk(ps[1..]);
      var ds := DeclsOf(ps);
      var t := DeclsOf(ps[1..]);
      if ds != t {
        assert ds == [ds[0]] + t;
        forall i | 0 <= i < |ds| ensures ds[i] == DeclFound(ds[i].g1, ds[i].g2) && PlainName(ds[i].g1) && BodyOk(ds[i].g2) {
          if i > 0 {
            assert ds[i] == t[i - 1];
          }
        }
      }
    }
  }

  /** Once every declaration's match has been removed, the text between them is what is left. */
  lemma {:induction false} RemovedAllDecls(ps: seq<SetPiece>, ds: seq<Found>)
    requires forall i :: 0 <= i < |ps| && ps[i].Decl? ==> DeclFound(ps[i].name, ps[i].body) in ds
    ensures RenderSet(Removed(ps, ds)) == PlainText(ps)
    decreases |ps|
  {
    if ps != [] {
      forall i | 0 <= i < |ps[1..]| && ps[1..][i].Decl? ensures DeclFound(ps[1..][i].name, ps[1..][i].body) in ds {
        assert ps[1..][i] == ps[i + 1];
      }
      RemovedAllDecls(ps[1..], ds);
      match ps[0]
      case Decl(n, b) =>
      case Text(t) =>
        var r := Removed(ps, ds);
        assert r[1..] == Removed(ps[1..], ds);
    }
  }

  lemma {:induction false} DeclsOfCovers(ps: seq<SetPiece>)
    ensures forall i :: 0 <= i < |ps| && ps[i].Decl? ==> DeclFound(ps[i].name, ps[i].body) in DeclsOf(ps)
    decreases |ps|
  {
    if ps != [] {
      DeclsOfCovers(ps[1..]);
      forall i | 0 <= i < |ps| && ps[i].Decl? ensures DeclFound(ps[i].name, ps[i].body) in DeclsOf(ps) {
        if i > 0 {
          assert ps[i] == ps[1..][i - 1];
          assert DeclFound(ps[i].name, ps[i].body) in DeclsOf(ps[1..]);
        }
      }
    }
  }

  lemma {:induction false} DeclareListEach(b: Blocks, ps: seq<SetPiece>)
    ensures DeclareList(b, DeclsOf(ps)) == DeclareEach(b, ps)
    decreases |ps|
  {
    if ps != [] {
      match ps[0]
      case Text(_) =>
        DeclareListEach(b, ps[1..]);
      case Decl(n, body) =>
        var ds := DeclsOf(ps);
        assert ds[1..] == DeclsOf(ps[1..]);
        DeclareListEach(Declare(b, n, body), ps[1..]);
    }
  }

  /**
   * compileSetBlock on a well-formed template: the registry receives every
   * declaration, in document order, and the text keeps exactly what lies
   * between the declarations.
   */
  lemma CompileSetBlockPieces(b: Blocks, ps: seq<SetPiece>)
    requires SetPiecesOk(ps)
    ensures SetBlockPass(b, RenderSet(ps)) == (DeclareEach(b, ps), PlainText(ps))
  {
    SetBlockMatches(ps);
    DeclsOfOk(ps);
    RemovedNone(ps);
    DeclareAllPieces(b, ps, [], DeclsOf(ps));
    assert [] + DeclsOf(ps) == DeclsOf(ps);
    DeclsOfCovers(ps);
    RemovedAllDecls(ps, DeclsOf(ps));
    DeclareListEach(b, ps);
  }
}
