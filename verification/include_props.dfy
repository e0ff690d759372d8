/**
 * What compileInclude (Template.php:123-133) does to a file made of plain
 * text and include directives (`{{@ include PATH }}` or `{{@ extend PATH }}`,
 * the path bare or quoted): each directive is
 * replaced by the expansion of the file it names and the text around the
 * directives is copied, provided no `{{@` in the text or in the expansions
 * is followed by `include` or `extend`. Every other directive (`setblock`,
 * `block`, code and echoes) may stand in either, as it does in a layout.
 */
module IncludeFacts {
  import opened Strings
  import opened Patterns
  import opened Passes
  import opened DriverFacts
  import opened BlockFacts

  /**
   * An include directive: `{{@ include PATH }}` or `{{@ extend PATH }}`,
   * the path bare or between single quotes.
   */
  datatype Directive = Directive(extend: bool, quoted: bool, path: string)

  /** A file seen as a sequence of plain text and include directives. */
  datatype IncPiece = Text(text: string) | Inc(dir: Directive)

  /** A path the lazy group reads whole: no quote, blank, brace or newline. */
  predicate PlainPath(p: string) {
    PlainName(p) && '\'' !in p
  }

  /**
   * Text in which no `{{@` is followed, after an optional blank, by
   * `include` or `extend` (ASCII case ignored), and that cannot complete a
   * `{{@` begun before it.
   */
  predicate Calm(t: string) {
    Quiet(t, "include", Blank) && Quiet(t, "extend", Blank)
  }

  predicate IncPieceOk(q: IncPiece) {
    match q
    case Text(t) => Calm(t)
    case Inc(d) => PlainPath(d.path)
  }

  predicate IncPiecesOk(ps: seq<IncPiece>) {
    forall i :: 0 <= i < |ps| ==> IncPieceOk(ps[i])
  }

  function Keyword(extend: bool): string {
    if extend then "extend" else "include"
  }

  function Quote(quoted: bool): string {
    if quoted then "'" else ""
  }

  /** A directive up to its path: `{{@ `, the keyword, a blank and the opening quote if any. */
  function Head(d: Directive): string {
    "{{@ " + Keyword(d.extend) + " " + Quote(d.quoted)
  }

  /** A directive after its path: the closing quote if any, then ` }}`. */
  function Close(d: Directive): string {
    Quote(d.quoted) + " }}"
  }

  function IncText(d: Directive): string {
    Head(d) + d.path + Close(d)
  }

  /** The match preg_match_all reports for a directive: its text, with the path as group 2. */
  function IncFound(d: Directive): Found {
    Found(IncText(d), d.path, "")
  }

  /** The file text. */
  function RenderInc(ps: seq<IncPiece>): string {
    if ps == [] then []
    else
      match ps[0]
      case Text(t) => t + RenderInc(ps[1..])
      case Inc(d) => IncText(d) + RenderInc(ps[1..])
  }

  /** The directives' matches, in document order. */
  function FoundsOf(ps: seq<IncPiece>): seq<Found> {
    if ps == [] then []
    else
      match ps[0]
      case Text(_) => FoundsOf(ps[1..])
      case Inc(d) => [IncFound(d)] + FoundsOf(ps[1..])
  }

  /** Every directive whose match is `f` replaced by the text `x`. */
  function Splice(ps: seq<IncPiece>, f: Found, x: string): seq<IncPiece> {
    if ps == [] then []
    else
      match ps[0]
      case Inc(d) => (if IncFound(d) == f then [Text(x)] else [ps[0]]) + Splice(ps[1..], f, x)
      case Text(_) => [ps[0]] + Splice(ps[1..], f, x)
  }

  /** The included files expand to text in which no include directive opens. */
  predicate ExpansionsCalm(files: map<string, string>, rank: map<string, nat>, ps: seq<IncPiece>)
    requires Ranked(files, rank)
  {
    forall i :: 0 <= i < |ps| && ps[i].Inc? ==> Calm(Expand(files, rank, ps[i].dir.path))
  }

  /** Every directive whose match is in `done` replaced by its file's expansion. */
  function Spliced(files: map<string, string>, rank: map<string, nat>, ps: seq<IncPiece>, done: seq<Found>): seq<IncPiece>
    requires Ranked(files, rank)
  {
    if ps == [] then []
    else
      match ps[0]
      case Inc(d) =>
        (if IncFound(d) in done then [Text(Expand(files, rank, d.path))] else [ps[0]]) + Spliced(files, rank, ps[1..], done)
      case Text(_) => [ps[0]] + Spliced(files, rank, ps[1..], done)
  }

  /** The expected expansion: text copied, each directive replaced by its file's expansion. */
  function EmitInc(files: map<string, string>, rank: map<string, nat>, ps: seq<IncPiece>): string
    requires Ranked(files, rank)
  {
    if ps == [] then []
    else
      match ps[0]
      case Text(t) => t + EmitInc(files, rank, ps[1..])
      case Inc(d) => Expand(files, rank, d.path) + EmitInc(files, rank, ps[1..])
  }

  /** `ms` are the matches of the well-formed directives `ds`. */
  predicate MatchesOf(ms: seq<Found>, ds: seq<Directive>) {
    |ms| == |ds| && forall i :: 0 <= i < |ds| ==> ms[i] == IncFound(ds[i]) && PlainPath(ds[i].path)
  }

  // ---------------------------------------------------------------------
  // Pieces

  lemma TailOk(ps: seq<IncPiece>)
    requires ps != [] && IncPiecesOk(ps)
    ensures IncPieceOk(ps[0]) && IncPiecesOk(ps[1..])
  {
    forall i | 0 <= i < |ps[1..]| ensures IncPieceOk(ps[1..][i]) {
      assert ps[1..][i] == ps[i + 1];
    }
  }

  /** A well-formed file never starts with `@` or `{@`. */
  lemma {:induction false} RenderIncHead(ps: seq<IncPiece>)
    requires IncPiecesOk(ps)
    ensures !StartsWith(RenderInc(ps), "@") && !StartsWith(RenderInc(ps), "{@")
    decreases |ps|
  {
    if ps != [] {
      TailOk(ps);
      RenderIncHead(ps[1..]);
      var rest := RenderInc(ps[1..]);
      var r := RenderInc(ps);
      match ps[0]
      case Text(t) =>
        HeadJoin(t, rest);
      case Inc(_) =>
        assert r[..1] == "{";
        assert r[..2] == "{{";
    }
  }

  // ---------------------------------------------------------------------
  // One directive at the front

  /** No `{` follows the leading `{{` of a well-formed directive. */
  lemma NoInnerBrace(d: Directive)
    requires PlainPath(d.path)
    ensures |Head(d)| >= 3 && Head(d)[2] == '@'
    ensures forall i :: 2 <= i < |Head(d)| ==> Head(d)[i] != '{'
    ensures '{' !in d.path && '{' !in Close(d)
  {
    var h := Head(d);
    var tail := "@ " + Keyword(d.extend) + " " + Quote(d.quoted);
    assert '{' !in Keyword(d.extend) && '{' !in Quote(d.quoted);
    assert '{' !in tail;
    assert h == "{{" + tail;
    forall i | 2 <= i < |h| ensures h[i] != '{' {
      assert h[i] == tail[i - 2];
    }
    assert '{' !in d.path by {
      forall i | 0 <= i < |d.path| ensures d.path[i] != '{' {
      }
    }
  }

  /** The lazy path group passes over characters that cannot begin its tail or end the line. */
  lemma {:induction false} LazyLineScan(t: string, j: nat, k: nat)
    requires j <= k < |t|
    requires forall i :: j <= i < k ==> t[i] != ' ' && t[i] != '}' && t[i] != '\'' && t[i] != '\n'
    ensures LazyLine(t, j, true) == LazyLine(t, k, true)
    decreases k - j
  {
    if j < k {
      LineStep(t, j);
      LazyLineScan(t, j + 1, k);
    }
  }

  /** No tail starts at a character that is not a blank, `}`, a quote or a newline. */
  lemma LineStep(t: string, j: nat)
    requires j < |t| && t[j] != ' ' && t[j] != '}' && t[j] != '\'' && t[j] != '\n'
    ensures LazyLine(t, j, true) == LazyLine(t, j + 1, true)
  {
    if j + 4 <= |t| {
      assert t[j..j + 4][0] == t[j];
    }
    if j + 3 <= |t| {
      assert t[j..j + 3][0] == t[j];
    }
    if j + 2 <= |t| {
      assert t[j..j + 2][0] == t[j];
    }
    var n := TailLen(t, j, true);
  }

  /** The head of a directive is read up to where its path starts. */
  lemma HeadHere(d: Directive, t: string)
    requires StartsWith(t, Head(d)) && |Head(d)| < |t| && t[|Head(d)|] != '\''
    ensures IncludeHead(t) == Some(|Head(d)|)
  {
    var h := Head(d);
    var w := Keyword(d.extend);
    assert t[..|h|] == h;
    assert t[..3] == h[..3] == "{{@";
    assert t[3] == h[3] == ' ';
    assert OptChar(t, 3, ' ') == 4;
    assert t[4..4 + |w|] == h[4..4 + |w|] == w;
    KeywordSelf(t, 4, w);
    if d.extend {
      assert ToLower(t[4..11][0]) != ToLower("include"[0]);
    }
    assert t[4 + |w|] == h[4 + |w|] == ' ';
    assert OptChar(t, 4 + |w|, ' ') == 5 + |w|;
    if d.quoted {
      assert t[5 + |w|] == h[5 + |w|] == '\'';
    }
  }

  /** The closing part of a directive, `' }}` or ` }}`, ends the lazy group where it stands. */
  lemma CloseHere(t: string, e: nat, c: string, n: nat)
    requires c == "' }}" || c == " }}"
    requires n == e + |c| <= |t| && t[e..n] == c
    ensures LazyLine(t, e, true) == Some((e, n))
  {
    assert t[e] == t[e..n][0];
    if c == "' }}" {
      assert t[e..e + 4] == "' }}";
    } else {
      assert t[e..e + 3] == " }}";
      if e + 4 <= |t| {
        assert t[e..e + 4][0] == t[e];
      }
    }
  }

  /** The lazy group runs over a well-formed path and stops at the closing part after it. */
  lemma LazyAt(t: string, k: nat, e: nat, n: nat, p: string, c: string)
    requires PlainPath(p) && (c == "' }}" || c == " }}")
    requires e == k + |p| && n == e + |c| <= |t| && t[k..e] == p && t[e..n] == c
    ensures LazyLine(t, k, true) == Some((e, n))
  {
    PathHere(t, k, p);
    CloseHere(t, e, c, n);
  }

  /** The lazy group runs over a well-formed path. */
  lemma PathHere(t: string, k: nat, p: string)
    requires PlainPath(p) && k + |p| < |t| && t[k..k + |p|] == p
    ensures LazyLine(t, k, true) == LazyLine(t, k + |p|, true)
  {
    forall i | k <= i < k + |p| ensures t[i] != ' ' && t[i] != '}' && t[i] != '\'' && t[i] != '\n' {
      assert t[i] == p[i - k];
    }
    LazyLineScan(t, k, k + |p|);
  }

  /** How the include matcher reads a directive whose head and lazy group are known. */
  lemma IncludeAtHere(t: string, k: nat, e: nat, n: nat, p: string)
    requires IncludeHead(t) == Some(k) && LazyLine(t, k, true) == Some((e, n))
    requires k <= e <= |t| && t[k..e] == p
    ensures MatchAt(Include, t) == Some(Hit(n, p, ""))
  {
    var h := IncludeHead(t);
    var l := LazyLine(t, k, true);
    assert IncludeAt(t) == Some(Hit(n, t[k..e], ""));
  }

  /** A well-formed directive at the front is matched whole, with its path as group. */
  lemma IncludeFront(d: Directive, rest: string)
    requires PlainPath(d.path)
    ensures MatchAt(Include, IncText(d) + rest) == Some(Hit(|IncText(d)|, d.path, ""))
  {
    Parts(Head(d), d.path, Close(d), rest);
    IncludeAtParts(IncText(d) + rest, d);
  }

  /** The same for a text whose head, path and closing part stand where a directive's do. */
  lemma IncludeAtParts(t: string, d: Directive)
    requires PlainPath(d.path)
    requires |Head(d)| + |d.path| + |Close(d)| <= |t|
    requires t[..|Head(d)|] == Head(d)
    requires t[|Head(d)|..|Head(d)| + |d.path|] == d.path
    requires t[|Head(d)| + |d.path|..|Head(d)| + |d.path| + |Close(d)|] == Close(d)
    ensures MatchAt(Include, t) == Some(Hit(|IncText(d)|, d.path, ""))
  {
    var c := Close(d);
    var k: nat := |Head(d)|;
    var e: nat := k + |d.path|;
    assert c == "' }}" || c == " }}";
    IncLength(d);
    HeadPart(t, d);
    LazyAt(t, k, e, |IncText(d)|, d.path, c);
    IncludeAtHere(t, k, e, |IncText(d)|, d.path);
  }

  /** The head part of IncludeAtParts. */
  lemma HeadPart(t: string, d: Directive)
    requires PlainPath(d.path)
    requires |Head(d)| + |d.path| + |Close(d)| <= |t|
    requires t[..|Head(d)|] == Head(d)
    requires t[|Head(d)|..|Head(d)| + |d.path|] == d.path
    ensures IncludeHead(t) == Some(|Head(d)|)
  {
    var k := |Head(d)|;
    assert t[k] == t[k..k + |d.path|][0];
    HeadHere(d, t);
  }

  lemma IncLength(d: Directive)
    ensures |IncText(d)| == |Head(d)| + |d.path| + |Close(d)|
  {
  }

  /** preg_match_all finds exactly the directives, in document order. */
  lemma {:induction false} IncludeMatches(ps: seq<IncPiece>)
    requires IncPiecesOk(ps)
    ensures PregMatchAll(Include, RenderInc(ps)) == FoundsOf(ps)
    decreases |ps|
  {
    if ps != [] {
      TailOk(ps);
      IncludeMatches(ps[1..]);
      RenderIncHead(ps[1..]);
      var rest := RenderInc(ps[1..]);
      match ps[0]
      case Text(t) =>
        NeedsInclude();
        SkipShunned(Include, Const(""), t, rest, "include", "extend", Blank);
      case Inc(d) =>
        IncludeFront(d, rest);
        ReplaceFront(Include, Const(""), IncText(d), rest, Hit(|IncText(d)|, d.path, ""));
    }
  }

  // ---------------------------------------------------------------------
  // Replacing one directive's text

  /** A directive's literal is a `{{@` followed by its keyword. */
  lemma NeedsIncText(d: Directive)
    ensures Needs(Literal(IncText(d)), "include", "extend", Blank)
  {
    var y := IncText(d);
    var h := Head(d);
    var w := Keyword(d.extend);
    assert y[..|h|] == h;
    forall t | MatchAt(Literal(y), t).Some?
      ensures StartsWith(t, "{{@") && KeywordAt(t, Lead(t, 3, Blank), w)
    {
      assert t[..|h|] == t[..|y|][..|h|];
      HeadKeyword(d, t);
    }
  }

  /** Text that starts with a directive's head has `{{@`, a blank and the keyword. */
  lemma HeadKeyword(d: Directive, t: string)
    requires StartsWith(t, Head(d))
    ensures StartsWith(t, "{{@") && KeywordAt(t, Lead(t, 3, Blank), Keyword(d.extend))
  {
    var h := Head(d);
    var w := Keyword(d.extend);
    HeadShape(d);
    assert t[0..|h|] == h;
    SliceOfSlice(t, 0, |h|, 0, 3);
    SliceOfSlice(t, 0, |h|, 4, 4 + |w|);
    assert t[3] == t[0..|h|][3];
    KeywordSelf(t, 4, w);
  }

  /** A directive's head: `{{@`, a blank, then the keyword. */
  lemma HeadShape(d: Directive)
    ensures 4 + |Keyword(d.extend)| <= |Head(d)|
    ensures Head(d)[..3] == "{{@" && Head(d)[3] == ' ' && Head(d)[4..4 + |Keyword(d.extend)|] == Keyword(d.extend)
  {
  }

  /** A directive text starts with `{{@`. */
  lemma IncOpens(d: Directive)
    ensures OpensDirective(Literal(IncText(d)))
  {
    assert IncText(d)[..3] == "{{@";
  }

  /** An `include` directive does not start an `extend` one, nor the other way round. */
  lemma KeywordsDiffer(d: Directive, d2: Directive, rest: string)
    requires d.extend != d2.extend
    ensures !StartsWith(IncText(d2) + rest, IncText(d))
  {
    var x := IncText(d2) + rest;
    var y := IncText(d);
    assert y[4] == Head(d)[4];
    assert x[4] == Head(d2)[4];
    if |y| <= |x| {
      assert x[..|y|][4] == x[4];
    }
  }

  /** A quoted directive does not start a bare one, nor the other way round. */
  lemma QuotesDiffer(d: Directive, d2: Directive, rest: string)
    requires d.extend == d2.extend && d.quoted != d2.quoted
    requires PlainPath(d.path) && PlainPath(d2.path)
    ensures !StartsWith(IncText(d2) + rest, IncText(d))
  {
    var x := IncText(d2) + rest;
    var y := IncText(d);
    var m := 5 + |Keyword(d.extend)|;
    if d.quoted {
      assert y[m] == Head(d)[m] == '\'';
      assert x[m] == d2.path[0];
    } else {
      assert y[m] == d.path[0];
      assert x[m] == Head(d2)[m] == '\'';
    }
    if |y| <= |x| {
      assert x[..|y|][m] == x[m];
    }
  }

  /** Directives spelled alike but naming different paths cannot start one another. */
  lemma PathsDiffer(d: Directive, d2: Directive, rest: string)
    requires d.extend == d2.extend && d.quoted == d2.quoted && d.path != d2.path
    requires PlainPath(d.path) && PlainPath(d2.path)
    ensures !StartsWith(IncText(d2) + rest, IncText(d))
  {
    var x := IncText(d2) + rest;
    var y := IncText(d);
    var h := Head(d);
    var k := |h|;
    var p, q := d.path, d2.path;
    assert Head(d2) == h && Close(d2) == Close(d);
    Parts(h, p, Close(d), []);
    assert y + [] == y;
    Parts(h, q, Close(d), rest);
    if |y| <= |x| {
      if |p| < |q| {
        assert y[k + |p|] == Close(d)[0];
        assert x[k + |p|] == x[k..k + |q|][|p|] == q[|p|];
        assert x[..|y|][k + |p|] != y[k + |p|];
      } else if |p| > |q| {
        assert y[k + |q|] == y[k..k + |p|][|q|] == p[|q|];
        assert x[k + |q|] == Close(d)[0];
        assert x[..|y|][k + |q|] != y[k + |q|];
      } else {
        assert x[..|y|][k..k + |p|] == x[k..k + |q|] == q;
      }
    }
  }

  /** Different well-formed directives cannot start one another. */
  lemma DirectivesDiffer(d: Directive, d2: Directive, rest: string)
    requires d != d2 && PlainPath(d.path) && PlainPath(d2.path)
    ensures !StartsWith(IncText(d2) + rest, IncText(d))
  {
    if d.extend != d2.extend {
      KeywordsDiffer(d, d2, rest);
    } else if d.quoted != d2.quoted {
      QuotesDiffer(d, d2, rest);
    } else {
      PathsDiffer(d, d2, rest);
    }
  }

  /** Inside a directive, after its first character, no `{{@` starts. */
  lemma IncInnerNoHit(d: Directive, d2: Directive, rest: string, i: nat)
    requires PlainPath(d2.path) && 0 < i < |IncText(d2)|
    ensures !HitAt(Pattern(Literal(IncText(d))), (IncText(d2) + rest)[i..])
  {
    var x := IncText(d2) + rest;
    var y := x[i..];
    var h, p, c := Head(d2), d2.path, Close(d2);
    Parts(h, p, c, rest);
    NoInnerBrace(d2);
    if i == 1 {
      assert y[1] == x[2] == h[2];
    } else {
      if i < |h| {
        assert x[i] == h[i];
      } else if i < |h| + |p| {
        assert x[i] == x[|h|..|h| + |p|][i - |h|];
      } else {
        assert x[i] == x[|h| + |p|..|h| + |p| + |c|][i - |h| - |p|];
      }
      assert y[0] == x[i];
    }
    assert !StartsWith(y, "{{@") by {
      if |y| >= 3 {
        assert y[..3][0] == y[0] && y[..3][1] == y[1];
      }
    }
    IncOpens(d);
    NotOpenerNoHit(IncText(d), y);
  }

  /** Another directive is copied whole by a directive's literal. */
  lemma IncSkip(d: Directive, d2: Directive, x: string, rest: string)
    requires d != d2 && PlainPath(d.path) && PlainPath(d2.path)
    ensures StrReplace(IncText(d), x, IncText(d2) + rest) == IncText(d2) + StrReplace(IncText(d), x, rest)
  {
    var s := IncText(d2) + rest;
    var y := IncText(d);
    DirectivesDiffer(d, d2, rest);
    forall i | 0 <= i < |IncText(d2)| && i <= |s| ensures !HitAt(Pattern(Literal(y)), s[i..]) {
      if i == 0 {
        assert s[0..] == s;
      } else {
        IncInnerNoHit(d, d2, rest, i);
      }
    }
    SkipPrefix(Pattern(Literal(y)), Replacement(Const(x)), IncText(d2), rest);
  }

  /** A directive's literal at the front is replaced. */
  lemma IncReplaceFront(d: Directive, x: string, rest: string)
    ensures StrReplace(IncText(d), x, IncText(d) + rest) == x + StrReplace(IncText(d), x, rest)
  {
    var y := IncText(d);
    assert (y + rest)[..|y|] == y;
    assert MatchAt(Literal(y), y + rest) == Some(Hit(|y|, "", ""));
    ReplaceFront(Literal(y), Const(x), y, rest, Hit(|y|, "", ""));
  }

  /** `str_replace` with one directive's text replaces exactly the occurrences of that directive. */
  lemma {:induction false} SpliceOnePass(qs: seq<IncPiece>, d: Directive, x: string)
    requires IncPiecesOk(qs) && PlainPath(d.path)
    ensures StrReplace(IncText(d), x, RenderInc(qs)) == RenderInc(Splice(qs, IncFound(d), x))
    decreases |qs|
  {
    if qs != [] {
      TailOk(qs);
      SpliceOnePass(qs[1..], d, x);
      RenderIncHead(qs[1..]);
      var rest := RenderInc(qs[1..]);
      var r := Splice(qs, IncFound(d), x);
      assert r[1..] == Splice(qs[1..], IncFound(d), x);
      match qs[0]
      case Text(t) =>
        NeedsIncText(d);
        SkipShunned(Literal(IncText(d)), Const(x), t, rest, "include", "extend", Blank);
      case Inc(d2) =>
        if d2 == d {
          IncReplaceFront(d, x, rest);
        } else {
          IncSkip(d, d2, x, rest);
          assert IncFound(d2) != IncFound(d) by {
            DirectivesDiffer(d, d2, []);
            assert IncText(d2) + [] == IncText(d2);
          }
        }
    }
  }

  // ---------------------------------------------------------------------
  // The loop of compileInclude

  lemma {:induction false} SplicedOk(files: map<string, string>, rank: map<string, nat>, ps: seq<IncPiece>, done: seq<Found>)
    requires Ranked(files, rank) && IncPiecesOk(ps) && ExpansionsCalm(files, rank, ps)
    ensures IncPiecesOk(Spliced(files, rank, ps, done))
    decreases |ps|
  {
    if ps != [] {
      TailOk(ps);
      ExpansionsTail(files, rank, ps);
      SplicedOk(files, rank, ps[1..], done);
      var r := Spliced(files, rank, ps, done);
      var t := Spliced(files, rank, ps[1..], done);
      assert r[1..] == t;
      assert IncPieceOk(r[0]) by {
        if ps[0].Inc? {
          assert Calm(Expand(files, rank, ps[0].dir.path));
        }
      }
      forall i | 0 <= i < |r| ensures IncPieceOk(r[i]) {
        if i > 0 {
          assert r[i] == t[i - 1];
        }
      }
    }
  }

  lemma ExpansionsTail(files: map<string, string>, rank: map<string, nat>, ps: seq<IncPiece>)
    requires Ranked(files, rank) && ps != [] && ExpansionsCalm(files, rank, ps)
    ensures ExpansionsCalm(files, rank, ps[1..])
  {
    forall i | 0 <= i < |ps[1..]| && ps[1..][i].Inc? ensures Calm(Expand(files, rank, ps[1..][i].dir.path)) {
      assert ps[1..][i] == ps[i + 1];
    }
  }

  /** Splicing the directives of `done` and then those of `d` is splicing those of `done + [d]`. */
  lemma {:induction false} SplicedStep(files: map<string, string>, rank: map<string, nat>, ps: seq<IncPiece>, done: seq<Found>, d: Directive)
    requires Ranked(files, rank)
    ensures Splice(Spliced(files, rank, ps, done), IncFound(d), Expand(files, rank, d.path)) == Spliced(files, rank, ps, done + [IncFound(d)])
    decreases |ps|
  {
    if ps != [] {
      SplicedStep(files, rank, ps[1..], done, d);
      var inner := Spliced(files, rank, ps, done);
      assert inner[1..] == Spliced(files, rank, ps[1..], done);
      match ps[0]
      case Inc(d2) =>
        assert IncFound(d2) in done + [IncFound(d)] <==> IncFound(d2) in done || IncFound(d2) == IncFound(d);
      case Text(_) =>
    }
  }

  lemma {:induction false} SplicedNone(files: map<string, string>, rank: map<string, nat>, ps: seq<IncPiece>)
    requires Ranked(files, rank)
    ensures Spliced(files, rank, ps, []) == ps
    decreases |ps|
  {
    if ps != [] {
      SplicedNone(files, rank, ps[1..]);
    }
  }

  /** The rest of matching lists of matches and directives match. */
  lemma MatchesTail(ms: seq<Found>, ds: seq<Directive>)
    requires ms != [] && MatchesOf(ms, ds)
    ensures ms[0] == IncFound(ds[0]) && PlainPath(ds[0].path)
    ensures MatchesOf(ms[1..], ds[1..])
  {
    forall i | 0 <= i < |ds[1..]| ensures ms[1..][i] == ms[i + 1] && ds[1..][i] == ds[i + 1] {
    }
  }

  /** Replacing one well-formed directive's text splices that directive's expansion in. */
  lemma ExpandOne(files: map<string, string>, rank: map<string, nat>, ps: seq<IncPiece>, done: seq<Found>, d: Directive)
    requires Ranked(files, rank) && IncPiecesOk(ps) && ExpansionsCalm(files, rank, ps) && PlainPath(d.path)
    ensures StrReplace(IncFound(d).text, Expand(files, rank, d.path), RenderInc(Spliced(files, rank, ps, done)))
            == RenderInc(Spliced(files, rank, ps, done + [IncFound(d)]))
  {
    SplicedOk(files, rank, ps, done);
    SpliceOnePass(Spliced(files, rank, ps, done), d, Expand(files, rank, d.path));
    SplicedStep(files, rank, ps, done, d);
  }

  /** One step of the include loop. */
  lemma ExpandAllHead(files: map<string, string>, rank: map<string, nat>, code: string, ms: seq<Found>, bound: nat)
    requires Ranked(files, rank) && ms != []
    requires forall m :: m in ms ==> RankOf(rank, m.g1) < bound
    ensures ExpandAll(files, rank, code, ms, bound)
            == ExpandAll(files, rank, StrReplace(ms[0].text, Expand(files, rank, ms[0].g1), code), ms[1..], bound)
  {
  }

  /** The loop over the matches `ms` of the directives `ds` replaces each by its file's expansion. */
  lemma {:induction false} ExpandAllPieces(files: map<string, string>, rank: map<string, nat>, ps: seq<IncPiece>,
                                           done: seq<Found>, ms: seq<Found>, ds: seq<Directive>, bound: nat)
    requires Ranked(files, rank) && IncPiecesOk(ps) && ExpansionsCalm(files, rank, ps)
    requires MatchesOf(ms, ds) && forall m :: m in ms ==> RankOf(rank, m.g1) < bound
    ensures ExpandAll(files, rank, RenderInc(Spliced(files, rank, ps, done)), ms, bound)
            == RenderInc(Spliced(files, rank, ps, done + ms))
    decreases |ms|
  {
    if ms == [] {
      assert done + ms == done;
    } else {
      var d := ds[0];
      MatchesTail(ms, ds);
      ExpandOne(files, rank, ps, done, d);
      ExpandAllHead(files, rank, RenderInc(Spliced(files, rank, ps, done)), ms, bound);
      ExpandAllPieces(files, rank, ps, done + [ms[0]], ms[1..], ds[1..], bound);
      AppendHead(done, ms);
    }
  }

  /** The matches of a well-formed file are those of its directives. */
  lemma {:induction false} FoundsOfDirectives(ps: seq<IncPiece>) returns (ds: seq<Directive>)
    requires IncPiecesOk(ps)
    ensures MatchesOf(FoundsOf(ps), ds)
    decreases |ps|
  {
    if ps == [] {
      ds := [];
    } else {
      TailOk(ps);
      var tail := FoundsOfDirectives(ps[1..]);
      match ps[0]
      case Text(_) =>
        ds := tail;
      case Inc(d) =>
        ds := [d] + tail;
        var ms := FoundsOf(ps);
        assert ms == [IncFound(d)] + FoundsOf(ps[1..]);
        forall i | 0 <= i < |ds| ensures ms[i] == IncFound(ds[i]) && PlainPath(ds[i].path) {
          if i > 0 {
            assert ms[i] == FoundsOf(ps[1..])[i - 1] && ds[i] == tail[i - 1];
          }
        }
    }
  }

  lemma {:induction false} FoundsOfCovers(ps: seq<IncPiece>)
    ensures forall i :: 0 <= i < |ps| && ps[i].Inc? ==> IncFound(ps[i].dir) in FoundsOf(ps)
    decreases |ps|
  {
    if ps != [] {
      FoundsOfCovers(ps[1..]);
      forall i | 0 <= i < |ps| && ps[i].Inc? ensures IncFound(ps[i].dir) in FoundsOf(ps) {
        if i > 0 {
          assert ps[i] == ps[1..][i - 1];
          assert IncFound(ps[i].dir) in FoundsOf(ps[1..]);
        }
      }
    }
  }

  /** Once every directive has been spliced, the file is the expected expansion. */
  lemma {:induction false} SplicedAll(files: map<string, string>, rank: map<string, nat>, ps: seq<IncPiece>, ms: seq<Found>)
    requires Ranked(files, rank)
    requires forall i :: 0 <= i < |ps| && ps[i].Inc? ==> IncFound(ps[i].dir) in ms
    ensures RenderInc(Spliced(files, rank, ps, ms)) == EmitInc(files, rank, ps)
    decreases |ps|
  {
    if ps != [] {
      forall i | 0 <= i < |ps[1..]| && ps[1..][i].Inc? ensures IncFound(ps[1..][i].dir) in ms {
        assert ps[1..][i] == ps[i + 1];
      }
      SplicedAll(files, rank, ps[1..], ms);
      var r := Spliced(files, rank, ps, ms);
      assert r[1..] == Spliced(files, rank, ps[1..], ms);
    }
  }

  /** The expected expansion of a well-formed file is itself calm. */
  lemma {:induction false} EmitIncCalm(files: map<string, string>, rank: map<string, nat>, ps: seq<IncPiece>)
    requires Ranked(files, rank) && IncPiecesOk(ps) && ExpansionsCalm(files, rank, ps)
    ensures Calm(EmitInc(files, rank, ps))
    decreases |ps|
  {
    if ps == [] {
      QuietEmpty("include", Blank);
      QuietEmpty("extend", Blank);
    } else {
      TailOk(ps);
      ExpansionsTail(files, rank, ps);
      EmitIncCalm(files, rank, ps[1..]);
      match ps[0]
      case Text(t) =>
        CalmConcat(t, EmitInc(files, rank, ps[1..]));
      case Inc(d) =>
        assert Calm(Expand(files, rank, d.path));
        CalmConcat(Expand(files, rank, d.path), EmitInc(files, rank, ps[1..]));
    }
  }

  lemma CalmConcat(a: string, b: string)
    requires Calm(a) && Calm(b)
    ensures Calm(a + b)
  {
    QuietConcat(a, b, "include", Blank);
    QuietConcat(a, b, "extend", Blank);
  }

  /**
   * compileInclude on a well-formed file whose included files expand to
   * calm text: every directive is replaced by the expansion of the file it
   * names, the text around them is copied, and the result is calm again
   * (no include directive is left in it), so the statement applies to the
   * file's own includers in turn.
   */
  lemma IncludePieces(files: map<string, string>, rank: map<string, nat>, path: string, ps: seq<IncPiece>)
    requires Ranked(files, rank) && path in files && files[path] == RenderInc(ps)
    requires IncPiecesOk(ps) && ExpansionsCalm(files, rank, ps)
    ensures Expand(files, rank, path) == EmitInc(files, rank, ps)
    ensures Calm(Expand(files, rank, path))
    ensures !Matches(Include, Expand(files, rank, path))
  {
    IncludeMatches(ps);
    var ds := FoundsOfDirectives(ps);
    SplicedNone(files, rank, ps);
    ExpandAllPieces(files, rank, ps, [], FoundsOf(ps), ds, RankOf(rank, path));
    assert [] + FoundsOf(ps) == FoundsOf(ps);
    FoundsOfCovers(ps);
    SplicedAll(files, rank, ps, FoundsOf(ps));
    EmitIncCalm(files, rank, ps);
    NeedsInclude();
    ShunnedUnchanged(Include, Const(""), EmitInc(files, rank, ps), "include", "extend", Blank);
  }
}
