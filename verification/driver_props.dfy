/**
 * General facts about the PCRE drivers: a prefix in which no match starts
 * passes through preg_replace unchanged, a match at the front is replaced
 * and scanning resumes after it, and text in which no directive opener
 * occurs is left alone.
 */
module DriverFacts {
  import opened Strings
  import opened Patterns

  /** Text in which no `{{@` occurs and that cannot complete one begun just before it. */
  predicate Inert(t: string) {
    !Contains(t, "{{@") && !StartsWith(t, "@") && !StartsWith(t, "{@")
  }

  /** Text in which no `{{` occurs and that does not end in `{`. */
  predicate Flat(t: string) {
    !Contains(t, "{{") && !EndsWith(t, "{")
  }

  /** `m` matches at no position before `n`. */
  ghost predicate NoHitBefore(m: Matcher, s: string, n: nat) {
    forall i :: 0 <= i < n && i <= |s| ==> !HitAt(m, s[i..])
  }

  /** A prefix in which no match starts is copied and the scan goes on in the rest. */
  lemma {:induction false} SkipPrefix(m: Matcher, rep: Replacer, a: string, b: string)
    requires NoHitBefore(m, a + b, |a|)
    ensures ReplaceBy(m, rep, a + b) == a + ReplaceBy(m, rep, b)
    ensures MatchAllBy(m, a + b) == MatchAllBy(m, b)
    decreases |a|
  {
    if a == [] {
      assert a + b == b;
    } else {
      var s := a + b;
      assert s[0..] == s;
      assert s[1..] == a[1..] + b;
      forall i | 0 <= i < |a| - 1 && i <= |s[1..]| ensures !HitAt(m, s[1..][i..]) {
        assert s[1..][i..] == s[i + 1..];
      }
      SkipPrefix(m, rep, a[1..], b);
      assert a == [s[0]] + a[1..];
    }
  }

  /** A match at the very front is replaced and the scan goes on after it. */
  lemma MatchFirst(m: Matcher, rep: Replacer, d: string, b: string)
    requires HitAt(m, d + b) && m(d + b).value.len == |d|
    ensures ReplaceBy(m, rep, d + b) == rep(m(d + b).value) + ReplaceBy(m, rep, b)
    ensures MatchAllBy(m, d + b) == [Found(d, m(d + b).value.g1, m(d + b).value.g2)] + MatchAllBy(m, b)
  {
    var s := d + b;
    assert s[|d|..] == b;
    assert s[..|d|] == d;
  }

  /** Without a match anywhere, nothing is replaced and nothing is found. */
  lemma NoMatchNoChange(m: Matcher, rep: Replacer, s: string)
    requires NoHitBefore(m, s, |s|)
    ensures ReplaceBy(m, rep, s) == s
    ensures MatchAllBy(m, s) == []
    ensures !MatchesBy(m, s)
  {
    assert s + [] == s;
    SkipPrefix(m, rep, s, []);
    if MatchesBy(m, s) {
      var i := MatchesSomewhere(m, s);
    }
  }

  /** In `a + b`, no `{{@` starts inside an inert `a` when `b` does not start with `@` or `{@`. */
  lemma InertPrefixHasNoOpener(a: string, b: string)
    requires !Contains(a, "{{@") && !StartsWith(b, "@") && !StartsWith(b, "{@")
    ensures forall k :: 0 <= k < |a| ==> !StartsWith((a + b)[k..], "{{@")
  {
    var s := a + b;
    forall k | 0 <= k < |a| ensures !StartsWith(s[k..], "{{@") {
      if k + 3 <= |a| {
        assert s[k..][..3] == a[k..k + 3];
        assert !OccursAt(a, "{{@", k);
      } else if k + 2 == |a| {
        if |b| >= 1 {
          assert b[..1] == [b[0]];
          assert s[k..][2] == b[0];
        }
      } else if |b| >= 2 {
        assert b[..2] == [b[0], b[1]];
        assert s[k..][1] == b[0] && s[k..][2] == b[1];
      }
    }
  }

  /** Same for `{{` and a flat prefix. */
  lemma FlatPrefixHasNoOpener(a: string, b: string)
    requires Flat(a)
    ensures forall k :: 0 <= k < |a| ==> !StartsWith((a + b)[k..], "{{")
  {
    var s := a + b;
    forall k | 0 <= k < |a| ensures !StartsWith(s[k..], "{{") {
      if k + 2 <= |a| {
        assert s[k..][..2] == a[k..k + 2];
        assert !OccursAt(a, "{{", k);
      } else {
        assert a[|a| - 1..] == [a[k]];
        assert s[k..][0] == a[k];
      }
    }
  }

  /** `p` occurs at `k` exactly when the text from `k` starts with it. */
  lemma OccursAtIsStartsWith(s: string, p: string, k: nat)
    requires k <= |s|
    ensures OccursAt(s, p, k) <==> StartsWith(s[k..], p)
  {
    if k + |p| <= |s| {
      assert s[k..][..|p|] == s[k..k + |p|];
    }
  }

  /** An occurrence in `a + b` that starts at or after `|a|` is an occurrence in `b`. */
  lemma OccursInSuffix(a: string, b: string, p: string, k: nat)
    requires |a| <= k <= |a| + |b|
    ensures OccursAt(a + b, p, k) <==> OccursAt(b, p, k - |a|)
  {
    if k + |p| <= |a| + |b| {
      assert (a + b)[k..k + |p|] == b[k - |a|..k - |a| + |p|];
    }
  }

  /** Inert text is closed under concatenation. */
  lemma InertConcat(a: string, b: string)
    requires Inert(a) && Inert(b)
    ensures Inert(a + b)
  {
    var s := a + b;
    InertPrefixHasNoOpener(a, b);
    forall k | 0 <= k <= |s| ensures !OccursAt(s, "{{@", k) {
      OccursAtIsStartsWith(s, "{{@", k);
      if k >= |a| {
        OccursInSuffix(a, b, "{{@", k);
        assert !OccursAt(b, "{{@", k - |a|);
      }
    }
    if |a| == 0 {
      assert s == b;
    } else if |s| >= 2 {
      assert s[..1] == a[..1];
      if |a| == 1 {
        assert s[..2] == a + b[..1];
      } else {
        assert s[..2] == a[..2];
      }
    } else if |s| >= 1 {
      assert s[..1] == a[..1];
    }
  }

  /** Moving the head of `s` to the end of `a` keeps the concatenation. */
  lemma AppendHead<T>(a: seq<T>, s: seq<T>)
    requires s != []
    ensures a + [s[0]] + s[1..] == a + s
  {
    assert [s[0]] + s[1..] == s;
  }

  /** Neither `@` nor `{@` begins a concatenation of two texts that begin with neither. */
  lemma HeadJoin(a: string, b: string)
    requires !StartsWith(a, "@") && !StartsWith(a, "{@")
    requires !StartsWith(b, "@") && !StartsWith(b, "{@")
    ensures !StartsWith(a + b, "@") && !StartsWith(a + b, "{@")
  {
    var s := a + b;
    if |a| == 0 {
      assert s == b;
    } else if |s| >= 2 {
      assert s[..1] == a[..1];
      if |a| == 1 {
        assert s[..2] == a + b[..1];
      } else {
        assert s[..2] == a[..2];
      }
    } else {
      assert s[..1] == a[..1];
    }
  }

  /** Flat text is closed under concatenation. */
  lemma FlatConcat(a: string, b: string)
    requires Flat(a) && Flat(b)
    ensures Flat(a + b)
  {
    var s := a + b;
    FlatPrefixHasNoOpener(a, b);
    forall k | 0 <= k <= |s| ensures !OccursAt(s, "{{", k) {
      OccursAtIsStartsWith(s, "{{", k);
      if k >= |a| {
        OccursInSuffix(a, b, "{{", k);
        assert !OccursAt(b, "{{", k - |a|);
      }
    }
    if |b| == 0 {
      assert s == a;
    } else {
      assert s[|s| - 1..] == b[|b| - 1..];
    }
  }

  /** Text without `{` holds no opener. */
  lemma NoBraceNoOpener(s: string, p: string)
    requires |p| > 0 && p[0] == '{' && '{' !in s
    ensures !Contains(s, p)
  {
    forall k | 0 <= k <= |s| ensures !OccursAt(s, p, k) {
      if k + |p| <= |s| {
        assert s[k..k + |p|][0] == s[k];
      }
    }
  }

  lemma SliceOfSlice(s: string, lo: nat, hi: nat, i: nat, j: nat)
    requires lo <= hi <= |s| && i <= j <= hi - lo
    ensures s[lo..hi][i..j] == s[lo + i..lo + j]
  {
    var u, v := s[lo..hi][i..j], s[lo + i..lo + j];
    assert |u| == |v|;
    forall x | 0 <= x < |u| ensures u[x] == v[x] {
      assert u[x] == s[lo..hi][i + x];
    }
  }

  /** A slice of text without an occurrence of `p` has none either. */
  lemma NoOccurrenceInSlice(s: string, p: string, lo: nat, hi: nat)
    requires lo <= hi <= |s| && !Contains(s, p)
    ensures !Contains(s[lo..hi], p)
  {
    var t := s[lo..hi];
    forall k | 0 <= k <= |t| ensures !OccursAt(t, p, k) {
      if k + |p| <= |t| {
        SliceOfSlice(s, lo, hi, k, k + |p|);
        assert !OccursAt(s, p, lo + k);
      }
    }
  }

  /** The two sides of a join cannot complete a `{{@` across it. */
  predicate Joinable(a: string, b: string) {
    a == [] || b == [] || a[|a| - 1] != '{' || (b[0] != '{' && b[0] != '@')
  }

  /** Joining two texts without `{{@` makes one only across the join. */
  lemma OpenerJoin(a: string, b: string)
    requires !Contains(a, "{{@") && !Contains(b, "{{@") && Joinable(a, b)
    ensures !Contains(a + b, "{{@")
  {
    forall k | 0 <= k <= |a + b| ensures !OccursAt(a + b, "{{@", k) {
      OpenerJoinAt(a, b, k);
    }
  }

  lemma OpenerJoinAt(a: string, b: string, k: nat)
    requires !Contains(a, "{{@") && !Contains(b, "{{@") && Joinable(a, b)
    requires k <= |a + b|
    ensures !OccursAt(a + b, "{{@", k)
  {
    var s := a + b;
    if k >= |a| {
      OccursInSuffix(a, b, "{{@", k);
      assert !OccursAt(b, "{{@", k - |a|);
    } else if k + 3 <= |a| {
      assert s[k..k + 3] == a[k..k + 3];
      assert !OccursAt(a, "{{@", k);
    } else if k + 3 <= |s| {
      var w := s[k..k + 3];
      if k + 1 == |a| {
        assert w[0] == a[|a| - 1] && w[1] == b[0];
      } else {
        assert w[1] == a[|a| - 1] && w[2] == b[0];
      }
    }
  }

  // ---------------------------------------------------------------------
  // The same for the source's patterns

  /** A pattern all of whose matches start with `{{@`: a directive, or a literal that starts with one. */
  predicate OpensDirective(r: Regex) {
    r.OpensRaw() || (r.Literal? && StartsWith(r.text, "{{@"))
  }

  /** A keyword written as it is spelled matches itself. */
  lemma KeywordSelf(t: string, p: nat, kw: string)
    requires LitAt(t, p, kw)
    ensures KeywordAt(t, p, kw)
  {
  }

  /** Every match of such a pattern starts with `{{@`. */
  lemma RawHitOpens(r: Regex, t: string)
    requires OpensDirective(r) && HitAt(Pattern(r), t)
    ensures StartsWith(t, "{{@")
  {
    assert MatchAt(r, t).Some?;
    if r.Literal? {
      assert t[..3] == t[..|r.text|][..3];
    }
  }

  /** Where no `{{@` starts, a literal that starts with one does not match. */
  lemma NotOpenerNoHit(d: string, y: string)
    requires StartsWith(d, "{{@") && !StartsWith(y, "{{@")
    ensures !HitAt(Pattern(Literal(d)), y)
  {
    if HitAt(Pattern(Literal(d)), y) {
      RawHitOpens(Literal(d), y);
    }
  }

  /** Every interpolation match starts with `{{`. */
  lemma InterpHitOpens(t: string)
    requires HitAt(Pattern(Interp), t)
    ensures StartsWith(t, "{{")
  {
    assert MatchAt(Interp, t).Some?;
  }

  /** A pattern whose matches start with `{{@` skips an inert prefix. */
  lemma SkipInert(r: Regex, w: Rewrite, a: string, b: string)
    requires OpensDirective(r)
    requires Inert(a) && !StartsWith(b, "@") && !StartsWith(b, "{@")
    ensures PregReplace(r, w, a + b) == a + PregReplace(r, w, b)
    ensures PregMatchAll(r, a + b) == PregMatchAll(r, b)
  {
    InertPrefixHasNoOpener(a, b);
    forall i | 0 <= i < |a| && i <= |a + b| ensures !HitAt(Pattern(r), (a + b)[i..]) {
      if HitAt(Pattern(r), (a + b)[i..]) {
        RawHitOpens(r, (a + b)[i..]);
      }
    }
    SkipPrefix(Pattern(r), Replacement(w), a, b);
  }

  /** A pattern whose matches start with `{{@` changes nothing in inert text, and finds nothing there. */
  lemma InertUnchanged(r: Regex, w: Rewrite, t: string)
    requires OpensDirective(r) && !Contains(t, "{{@")
    ensures PregReplace(r, w, t) == t
    ensures PregMatchAll(r, t) == []
    ensures !Matches(r, t)
  {
    assert t + [] == t;
    InertPrefixHasNoOpener(t, []);
    forall i | 0 <= i < |t| && i <= |t| ensures !HitAt(Pattern(r), t[i..]) {
      if HitAt(Pattern(r), t[i..]) {
        RawHitOpens(r, t[i..]);
      }
    }
    NoMatchNoChange(Pattern(r), Replacement(w), t);
  }

  /** The interpolation pattern skips a flat prefix. */
  lemma SkipFlat(w: Rewrite, a: string, b: string)
    requires Flat(a)
    ensures PregReplace(Interp, w, a + b) == a + PregReplace(Interp, w, b)
  {
    FlatPrefixHasNoOpener(a, b);
    forall i | 0 <= i < |a| && i <= |a + b| ensures !HitAt(Pattern(Interp), (a + b)[i..]) {
      if HitAt(Pattern(Interp), (a + b)[i..]) {
        InterpHitOpens((a + b)[i..]);
      }
    }
    SkipPrefix(Pattern(Interp), Replacement(w), a, b);
  }

  /** A match at the front, of exactly the length of `d`, is replaced and the scan goes on after it. */
  lemma ReplaceFront(r: Regex, w: Rewrite, d: string, b: string, h: Hit)
    requires MatchAt(r, d + b) == Some(h) && h.len == |d|
    ensures PregReplace(r, w, d + b) == Apply(w, h) + PregReplace(r, w, b)
    ensures PregMatchAll(r, d + b) == [Found(d, h.g1, h.g2)] + PregMatchAll(r, b)
  {
    MatchFirst(Pattern(r), Replacement(w), d, b);
  }

  // ---------------------------------------------------------------------
  // Spans `open EXPR }}`

  /** An expression that does not close early: no `}}` in it, and no `}` at its end that a `}` after it would complete. */
  predicate NoClose(e: string) {
    !Contains(e + "}", "}}")
  }

  /** An expression without `}` does not close early. */
  lemma BraceFreeNoClose(e: string)
    requires '}' !in e
    ensures NoClose(e)
  {
    var x := e + "}";
    forall k | 0 <= k <= |x| ensures !OccursAt(x, "}}", k) {
      if k + 2 <= |x| {
        assert x[k..k + 2][0] == x[k] == e[k];
      }
    }
  }

  /** The lazy scan for `}}` passes over positions where no `}}` starts. */
  lemma {:induction false} CloseScan(t: string, start: nat, j: nat, n: nat)
    requires start <= j <= n && n + 2 <= |t|
    requires forall i :: j <= i < n ==> !LitAt(t, i, "}}")
    ensures CloseAfter(t, start, j) == CloseAfter(t, start, n)
    decreases n - j
  {
    if j < n {
      assert !LitAt(t, j, "}}");
      assert CloseAfter(t, start, j) == CloseAfter(t, start, j + 1);
      CloseScan(t, start, j + 1, n);
    }
  }

  /** Where the parts of a text `h + p + c + rest` lie. */
  lemma Parts(h: string, p: string, c: string, rest: string)
    ensures (h + p + c + rest)[..|h|] == h
    ensures (h + p + c + rest)[|h|..|h| + |p|] == p
    ensures (h + p + c + rest)[|h| + |p|..|h| + |p| + |c|] == c
    ensures (h + p + c + rest)[|h| + |p| + |c|..] == rest
  {
  }

  /** The first `}}` after a span's expression closes it. */
  lemma SpanClose(t: string, s: nat, n: nat)
    requires s <= n && n + 2 <= |t| && t[n..n + 2] == "}}"
    requires NoClose(t[s..n]) && HasNonSpace(t[s..n])
    ensures CloseAfter(t, s, s) == Some(n + 2)
  {
    forall i | s <= i < n ensures !LitAt(t, i, "}}") {
      NoCloseAt(t, s, n, i);
    }
    CloseScan(t, s, s, n);
    var c := CloseAfter(t, s, n);
  }

  /** No `}}` starts inside an expression that does not close early, even where it meets the closing `}}`. */
  lemma NoCloseAt(t: string, s: nat, n: nat, i: nat)
    requires s <= i < n && n + 2 <= |t| && t[n..n + 2] == "}}"
    requires NoClose(t[s..n])
    ensures !LitAt(t, i, "}}")
  {
    var e := t[s..n];
    var x := e + "}";
    assert !OccursAt(x, "}}", i - s);
    if i + 2 <= n {
      assert x[i - s..i - s + 2] == [e[i - s], e[i - s + 1]] == [t[i], t[i + 1]] == t[i..i + 2];
    } else {
      assert x[i - s..i - s + 2] == [e[i - s], '}'] == [t[i], t[n]] == t[i..i + 2];
    }
  }

  /**
   * A span whose expression has a non-space character and does not close
   * early matches up to its own `}}`, and group 1 is the trimmed expression.
   */
  lemma SpanMatch(open: string, e: string, rest: string)
    requires HasNonSpace(e) && NoClose(e)
    ensures SpanAt(open + e + "}}" + rest, open) == Some(Hit(|open| + |e| + 2, Trim(e), ""))
  {
    Parts(open, e, "}}", rest);
    SpanParts(open + e + "}}" + rest, open, e);
  }

  /** The same for a text whose parts stand where a span's do. */
  lemma SpanParts(t: string, open: string, e: string)
    requires HasNonSpace(e) && NoClose(e)
    requires |open| + |e| + 2 <= |t|
    requires t[..|open|] == open && t[|open|..|open| + |e|] == e && t[|open| + |e|..|open| + |e| + 2] == "}}"
    ensures SpanAt(t, open) == Some(Hit(|open| + |e| + 2, Trim(e), ""))
  {
    SpanClose(t, |open|, |open| + |e|);
    SpanAtHere(t, open, |open| + |e| + 2, e);
  }

  /** A span whose closing scan ends at `n` matches up to `n`, with the inner text `x` trimmed as group. */
  lemma SpanAtHere(t: string, open: string, n: nat, x: string)
    requires StartsWith(t, open) && CloseAfter(t, |open|, |open|) == Some(n)
    requires |open| + 2 <= n <= |t| && t[|open|..n - 2] == x
    ensures SpanAt(t, open) == Some(Hit(n, Trim(x), ""))
  {
    var c := CloseAfter(t, |open|, |open|);
    assert c.value == n;
  }

  // ---------------------------------------------------------------------
  // Text that shuns a directive keyword

  /** What may stand between `{{@` and a directive's keyword: an optional blank (` ?`) or any white space (`\s*`). */
  datatype Gap = Blank | Spaces

  /** Where the keyword starts when the gap is read from `x`. */
  function Lead(t: string, x: nat, g: Gap): (p: nat)
    ensures x <= p
  {
    match g
    case Blank => OptChar(t, x, ' ')
    case Spaces => SkipSpaces(t, x)
  }

  /** From `p` on, `t` visibly departs from the keyword `kw` (ASCII case ignored) before it ends. */
  predicate Departs(t: string, p: nat, kw: string)
    decreases |kw|
  {
    kw != [] && p < |t| && (ToLower(t[p]) != ToLower(kw[0]) || Departs(t, p + 1, kw[1..]))
  }

  /**
   * Every `{{@` in `t` is followed, inside `t`, by the gap and then by
   * something other than `kw`, so no continuation of `t` can turn it into
   * a directive with that keyword.
   */
  predicate Shuns(t: string, kw: string, g: Gap) {
    forall k :: 0 <= k < |t| && OccursAt(t, "{{@", k) ==> Departs(t, Lead(t, k + 3, g), kw)
  }

  /** Text that shuns `kw` and cannot complete a `{{@` begun just before it. */
  predicate Quiet(t: string, kw: string, g: Gap) {
    Shuns(t, kw, g) && !StartsWith(t, "@") && !StartsWith(t, "{@")
  }

  /** Every match of `r` is a `{{@` followed, after the gap, by `kw1` or `kw2`. */
  ghost predicate Needs(r: Regex, kw1: string, kw2: string, g: Gap) {
    forall t :: MatchAt(r, t).Some? ==>
      StartsWith(t, "{{@") && (KeywordAt(t, Lead(t, 3, g), kw1) || KeywordAt(t, Lead(t, 3, g), kw2))
  }

  /** A departure seen in one text is seen wherever the same characters stand, and there the keyword does not match. */
  lemma {:induction false} DepartsTransfer(t: string, p: nat, s: string, q: nat, kw: string)
    requires Departs(t, p, kw)
    requires q + (|t| - p) <= |s| && s[q..q + (|t| - p)] == t[p..]
    ensures Departs(s, q, kw) && !KeywordAt(s, q, kw)
    decreases |kw|
  {
    assert s[q] == s[q..q + (|t| - p)][0] == t[p];
    KeywordStep(s, q, kw);
    if ToLower(t[p]) == ToLower(kw[0]) {
      assert s[q + 1..q + 1 + (|t| - (p + 1))] == t[p + 1..] by {
        SliceOfSlice(s, q, q + (|t| - p), 1, |t| - p);
      }
      DepartsTransfer(t, p + 1, s, q + 1, kw[1..]);
    }
  }

  /** A departure is seen at a character of the text. */
  lemma DepartsInside(t: string, p: nat, kw: string)
    ensures Departs(t, p, kw) ==> p < |t|
  {
  }

  /** A keyword that matches matches in its first letter and then in the rest. */
  lemma KeywordStep(s: string, q: nat, kw: string)
    requires kw != []
    ensures KeywordAt(s, q, kw) ==> ToLower(s[q]) == ToLower(kw[0]) && KeywordAt(s, q + 1, kw[1..])
  {
    if KeywordAt(s, q, kw) {
      var u := s[q..q + |kw|];
      assert u[0] == s[q];
      assert s[q + 1..q + 1 + |kw[1..]|] == u[1..];
      forall i | 0 <= i < |kw[1..]| ensures ToLower(u[1..][i]) == ToLower(kw[1..][i]) {
        assert ToLower(u[i + 1]) == ToLower(kw[i + 1]);
      }
    }
  }

  /** The gap is read alike wherever the same characters stand, as long as it ends inside them. */
  lemma {:induction false} LeadTransfer(t: string, x: nat, s: string, y: nat, g: Gap)
    requires x <= |t| && Lead(t, x, g) < |t|
    requires y + (|t| - x) <= |s| && s[y..y + (|t| - x)] == t[x..]
    ensures Lead(s, y, g) == y + (Lead(t, x, g) - x)
    decreases |t| - x
  {
    assert s[y] == s[y..y + (|t| - x)][0] == t[x];
    if g.Spaces? && IsSpace(t[x]) {
      assert s[y + 1..y + 1 + (|t| - (x + 1))] == t[x + 1..] by {
        SliceOfSlice(s, y, y + (|t| - x), 1, |t| - x);
      }
      LeadTransfer(t, x + 1, s, y + 1, g);
    }
  }

  /** At a `{{@` inside text that shuns `kw`, the keyword does not follow, whatever surrounds the text. */
  lemma {:induction false} ShunsAt(a: string, s: string, o: nat, k: nat, kw: string, g: Gap)
    requires o + |a| <= |s| && s[o..o + |a|] == a
    requires k + 3 <= |a| && Departs(a, Lead(a, k + 3, g), kw)
    ensures !KeywordAt(s[o + k..], Lead(s[o + k..], 3, g), kw)
  {
    DepartsWindow(s, o, a, k + 3, kw, g);
    SuffixDeparts(s, o + k, o + (k + 3), kw, g);
  }

  /** A departure after the gap that follows `m + 3` in `s` is one in the suffix of `s` at `m`. */
  lemma SuffixDeparts(s: string, m: nat, x: nat, kw: string, g: Gap)
    requires x == m + 3 <= |s| && Departs(s, Lead(s, x, g), kw)
    ensures !KeywordAt(s[m..], Lead(s[m..], 3, g), kw)
  {
    var u := s[m..];
    var q := Lead(s, x, g);
    DepartsInside(s, q, kw);
    assert u[3..3 + (|s| - x)] == s[x..];
    LeadTransfer(s, x, u, 3, g);
    var r := Lead(u, 3, g);
    SuffixPart(s, m, q, r);
    DepartsTransfer(s, q, u, r, kw);
  }

  lemma SuffixPart(s: string, m: nat, q: nat, r: nat)
    requires m <= q <= |s| && r == q - m
    ensures s[m..][r..r + (|s| - q)] == s[q..]
  {
  }

  /** In `a + b`, a `{{@` that starts inside text shunning `kw` is not followed by `kw`. */
  lemma ShunsPrefix(a: string, b: string, i: nat, kw: string, g: Gap)
    requires Shuns(a, kw, g) && !StartsWith(b, "@") && !StartsWith(b, "{@") && i < |a|
    requires StartsWith((a + b)[i..], "{{@")
    ensures !KeywordAt((a + b)[i..], Lead((a + b)[i..], 3, g), kw)
  {
    var s := a + b;
    assert s[i..][..3] == s[i..i + 3] == "{{@";
    if i + 3 <= |a| {
      assert a[i..i + 3] == s[i..i + 3];
      assert s[0..0 + |a|] == a;
      assert OccursAt(a, "{{@", i);
      ShunsAt(a, s, 0, i, kw, g);
    } else {
      NoStraddle(a, b, i);
    }
  }

  /** No `{{@` straddles the end of `a` when `b` starts with neither `@` nor `{@`. */
  lemma NoStraddle(a: string, b: string, i: nat)
    requires !StartsWith(b, "@") && !StartsWith(b, "{@")
    requires i < |a| < i + 3 <= |a + b|
    ensures (a + b)[i..i + 3] != "{{@"
  {
    var s := a + b;
    if i + 2 == |a| {
      assert b[..1] == [s[i + 2]];
    } else {
      assert b[..2] == [s[i + 1], s[i + 2]];
    }
  }

  /** Where the parts of `a + b` lie, in the form the transfer lemmas ask for. */
  lemma JoinSlices(a: string, b: string, x: nat)
    ensures x <= |a| ==> (a + b)[x..x + (|a| - x)] == a[x..]
    ensures x <= |b| ==> (a + b)[|a| + x..|a| + x + (|b| - x)] == b[x..]
  {
  }

  /** A pattern that needs a keyword skips a prefix that shuns it. */
  lemma SkipShunned(r: Regex, w: Rewrite, a: string, b: string, kw1: string, kw2: string, g: Gap)
    requires Needs(r, kw1, kw2, g) && Shuns(a, kw1, g) && Shuns(a, kw2, g)
    requires !StartsWith(b, "@") && !StartsWith(b, "{@")
    ensures PregReplace(r, w, a + b) == a + PregReplace(r, w, b)
    ensures PregMatchAll(r, a + b) == PregMatchAll(r, b)
  {
    forall i | 0 <= i < |a| && i <= |a + b| ensures !HitAt(Pattern(r), (a + b)[i..]) {
      if HitAt(Pattern(r), (a + b)[i..]) {
        assert MatchAt(r, (a + b)[i..]).Some?;
        ShunsPrefix(a, b, i, kw1, g);
        ShunsPrefix(a, b, i, kw2, g);
      }
    }
    SkipPrefix(Pattern(r), Replacement(w), a, b);
  }

  /** Such a pattern changes nothing in text that shuns its keywords, and finds nothing there. */
  lemma ShunnedUnchanged(r: Regex, w: Rewrite, t: string, kw1: string, kw2: string, g: Gap)
    requires Needs(r, kw1, kw2, g) && Shuns(t, kw1, g) && Shuns(t, kw2, g)
    ensures PregReplace(r, w, t) == t
    ensures PregMatchAll(r, t) == []
    ensures !Matches(r, t)
  {
    assert t + [] == t;
    forall i | 0 <= i < |t| && i <= |t| ensures !HitAt(Pattern(r), t[i..]) {
      if HitAt(Pattern(r), t[i..]) {
        assert MatchAt(r, (t + [])[i..]).Some?;
        ShunsPrefix(t, [], i, kw1, g);
        ShunsPrefix(t, [], i, kw2, g);
      }
    }
    NoMatchNoChange(Pattern(r), Replacement(w), t);
  }

  /** Quiet text is closed under concatenation. */
  lemma QuietConcat(a: string, b: string, kw: string, g: Gap)
    requires Quiet(a, kw, g) && Quiet(b, kw, g)
    ensures Quiet(a + b, kw, g)
  {
    var s := a + b;
    forall k | 0 <= k < |s| && OccursAt(s, "{{@", k) ensures Departs(s, Lead(s, k + 3, g), kw) {
      ShunsJoinAt(a, b, k, kw, g);
    }
    HeadJoin(a, b);
  }

  lemma ShunsJoinAt(a: string, b: string, k: nat, kw: string, g: Gap)
    requires Quiet(a, kw, g) && Quiet(b, kw, g) && OccursAt(a + b, "{{@", k)
    ensures Departs(a + b, Lead(a + b, k + 3, g), kw)
  {
    var s := a + b;
    if k + 3 <= |a| {
      assert s[k..k + 3] == a[k..k + 3];
      ShunsLeft(a, b, k, kw, g);
    } else if k >= |a| {
      assert s[k..k + 3] == b[k - |a|..k - |a| + 3];
      assert OccursAt(b, "{{@", k - |a|);
      ShunsRight(a, b, k - |a|, kw, g);
    } else {
      NoStraddle(a, b, k);
    }
  }

  /** A `{{@` of `a` keeps its departure in `a + b`. */
  lemma ShunsLeft(a: string, b: string, k: nat, kw: string, g: Gap)
    requires Shuns(a, kw, g) && OccursAt(a, "{{@", k)
    ensures Departs(a + b, Lead(a + b, k + 3, g), kw)
  {
    var p := Lead(a, k + 3, g);
    JoinSlices(a, b, k + 3);
    LeadTransfer(a, k + 3, a + b, k + 3, g);
    var q := Lead(a + b, k + 3, g);
    assert q == p;
    JoinSlices(a, b, p);
    DepartsTransfer(a, p, a + b, q, kw);
  }

  /** A `{{@` of `b` keeps its departure in `a + b`. */
  lemma ShunsRight(a: string, b: string, j: nat, kw: string, g: Gap)
    requires j + 3 <= |b| && Departs(b, Lead(b, j + 3, g), kw)
    ensures Departs(a + b, Lead(a + b, |a| + (j + 3), g), kw)
  {
    JoinSuffix(a, b);
    DepartsWindow(a + b, |a|, b, j + 3, kw, g);
  }

  lemma JoinSuffix(a: string, b: string)
    ensures (a + b)[|a|..|a| + |b|] == b
  {
  }

  /** A departure inside a copy of `b` standing at `o` in `s` is one in `s`. */
  lemma DepartsWindow(s: string, o: nat, b: string, x: nat, kw: string, g: Gap)
    requires o + |b| <= |s| && s[o..o + |b|] == b
    requires x <= |b| && Departs(b, Lead(b, x, g), kw)
    ensures Departs(s, Lead(s, o + x, g), kw) && !KeywordAt(s, Lead(s, o + x, g), kw)
  {
    var p := Lead(b, x, g);
    DepartsInside(b, p, kw);
    LeadWindow(s, o, b, x, g);
    var q := Lead(s, o + x, g);
    WindowPart(s, o, b, p, q);
    DepartsTransfer(b, p, s, q, kw);
  }

  /** The gap is read alike in `b` and in a copy of `b` standing at `o` in `s`. */
  lemma LeadWindow(s: string, o: nat, b: string, x: nat, g: Gap)
    requires o + |b| <= |s| && s[o..o + |b|] == b
    requires x <= |b| && Lead(b, x, g) < |b|
    ensures Lead(s, o + x, g) == o + Lead(b, x, g)
  {
    WindowPart(s, o, b, x, o + x);
    LeadTransfer(b, x, s, o + x, g);
  }

  /** The part of a copy of `b` at `o` in `s` from `x` on, which starts at `y`. */
  lemma WindowPart(s: string, o: nat, b: string, x: nat, y: nat)
    requires o + |b| <= |s| && s[o..o + |b|] == b && x <= |b| && y == o + x
    ensures s[y..y + (|b| - x)] == b[x..]
  {
    forall i | 0 <= i < |b| - x ensures s[y..y + (|b| - x)][i] == b[x..][i] {
      assert s[o..o + |b|][x + i] == s[o + x + i];
    }
  }

  /** Text without `{{@` is quiet for every keyword. */
  lemma InertQuiet(t: string, kw: string, g: Gap)
    requires Inert(t)
    ensures Quiet(t, kw, g)
  {
  }

  /** The empty text is quiet. */
  lemma QuietEmpty(kw: string, g: Gap)
    ensures Quiet("", kw, g)
  {
  }

  // ---------------------------------------------------------------------
  // The keyword each directive pattern needs after its `{{@`

  lemma NeedsBlockRef(m: string)
    ensures Needs(BlockRef(m), "block", "block", Blank)
  {
    forall t | MatchAt(BlockRef(m), t).Some?
      ensures StartsWith(t, "{{@") && KeywordAt(t, Lead(t, 3, Blank), "block")
    {
      KeywordSelf(t, OptChar(t, 3, ' '), "block");
    }
  }

  lemma NeedsAnyBlockRef()
    ensures Needs(AnyBlockRef, "block", "block", Blank)
  {
  }

  lemma NeedsParent()
    ensures Needs(Parent, "parent", "parent", Spaces)
  {
    forall t | MatchAt(Parent, t).Some?
      ensures StartsWith(t, "{{@") && KeywordAt(t, Lead(t, 3, Spaces), "parent")
    {
      KeywordSelf(t, SkipSpaces(t, 3), "parent");
    }
  }

  lemma NeedsSetBlock()
    ensures Needs(SetBlock, "setblock", "setblock", Blank)
  {
  }

  lemma NeedsInclude()
    ensures Needs(Include, "include", "extend", Blank)
  {
  }
}
