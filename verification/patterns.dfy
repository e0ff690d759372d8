/**
 * Hand-written matchers for the seven regular expressions (and the literal
 * searches) Template.php uses, and the two PCRE drivers built on them:
 * `preg_replace` (PregReplace) and `preg_match_all` with PREG_SET_ORDER
 * (PregMatchAll).
 *
 * A matcher looks at a text that starts where a match would start and says
 * whether the pattern matches there, how long the match is and what its
 * capture groups hold. The drivers try every start position from left to
 * right (PCRE's leftmost rule) and, after a match, continue right after it,
 * so matches never overlap and the output of a replacement is never
 * rescanned. Lazy groups stop at the first closing delimiter, which gives the
 * closest-pair, non-nesting behaviour of the source's `.*?` and `.+?`.
 */
module Patterns {
  import opened Strings

  datatype Option<T> = None | Some(value: T)

  /** A match at the start of a text: its length and capture groups 1 and 2 ("" when absent). */
  datatype Hit = Hit(len: nat, g1: string, g2: string)

  /** One element of a `preg_match_all` result: the matched text and capture groups 1 and 2. */
  datatype Found = Found(text: string, g1: string, g2: string)

  /** The patterns of Template.php, each with the line that uses it. */
  datatype Regex =
    /** `{{@`, white space, a lazy expression of at least one character, white space, `}}`; line 142. */
    | RawCode
    /** The same with the opener `{{`; line 156. */
    | Interp
    /** `{{@`, the keyword `include` or `extend` in any case, a lazy path on one line, optionally quoted, `}}`; line 125. */
    | Include
    /** `{{@ setblock NAME }}`, a lazy body that may span lines, `{{@ endsetblock }}`, single blanks optional; line 172. */
    | SetBlock
    /** A reference `{{@ block NAME }}` to the one name given, case-sensitive; line 197. */
    | BlockRef(name: string)
    /** A reference `{{@ block NAME }}` to any name, in any case; line 200. */
    | AnyBlockRef
    /** `{{@`, white space, `parent`, white space, `}}`; line 178. */
    | Parent
    /** A fixed search string, as `str_replace` and `strpos` take it. */
    | Literal(text: string)
  {
    /** Every match of this pattern starts with the raw-code opener `{{@`. */
    predicate OpensRaw() {
      !Interp? && !Literal?
    }
  }

  /** What a replacement inserts for one match. */
  datatype Rewrite =
    /** A fixed replacement text. */
    | Const(text: string)
    /** A PHP tag around capture group 1; line 143. */
    | PhpTag
    /** The interpolation again, group 1 with its dots turned into arrows; lines 158-161. */
    | EchoMark
    /** A PHP echo of the variable named by group 1; line 157. */
    | EchoTag

  function Apply(w: Rewrite, h: Hit): string {
    match w
    case Const(x) => x
    case PhpTag => "<?php " + h.g1 + " ?>"
    case EchoMark => "{{" + Arrows(h.g1) + "}}"
    case EchoTag => "<?php echo $" + h.g1 + " ?>"
  }

  // ---------------------------------------------------------------------
  // Building blocks of the matchers

  predicate LitAt(t: string, p: nat, lit: string) {
    p + |lit| <= |t| && t[p..p + |lit|] == lit
  }

  predicate KeywordAt(t: string, p: nat, kw: string) {
    p + |kw| <= |t| && EqualsIgnoreCase(t[p..p + |kw|], kw)
  }

  /** An optional single character `c?`, taken greedily. */
  function OptChar(t: string, p: nat, c: char): (q: nat)
    ensures q == p || q == p + 1
    ensures q == p + 1 <==> (p < |t| && t[p] == c)
  {
    if p < |t| && t[p] == c then p + 1 else p
  }

  /** A greedy `\s*`. */
  function SkipSpaces(t: string, p: nat): (q: nat)
    ensures p <= q
    ensures p <= |t| ==> q <= |t|
    ensures forall i :: p <= i < q ==> i < |t| && IsSpace(t[i])
    ensures q < |t| ==> !IsSpace(t[q])
    decreases |t| - p
  {
    if p < |t| && IsSpace(t[p]) then SkipSpaces(t, p + 1) else p
  }

  /**
   * `\s*(.+?)\s*\}}` after an opener of length `start`: the first `}}` at or
   * after `j` whose inner text `t[start..]` holds a non-space character.
   * Returns the end of that `}}`.
   */
  function CloseAfter(t: string, start: nat, j: nat): (e: Option<nat>)
    requires start <= j
    ensures e.Some? ==> j + 2 <= e.value <= |t| && LitAt(t, e.value - 2, "}}")
    ensures e.Some? ==> HasNonSpace(t[start..e.value - 2])
    decreases |t| - j
  {
    if j + 2 > |t| then None
    else if t[j..j + 2] == "}}" && HasNonSpace(t[start..j]) then Some(j + 2)
    else CloseAfter(t, start, j + 1)
  }

  /** `open\s*(.+?)\s*\}}` at the start of `t`; group 1 is the trimmed inner text. */
  function SpanAt(t: string, open: string): (m: Option<Hit>)
    ensures m.Some? ==> StartsWith(t, open) && |open| + 2 <= m.value.len <= |t|
  {
    if !StartsWith(t, open) then None
    else match CloseAfter(t, |open|, |open|)
      case None => None
      case Some(e) => Some(Hit(e, Trim(t[|open|..e - 2]), ""))
  }

  /** The tail after a lazy group: `\'? ?}}` when `quoted`, ` ?}}` otherwise; its length. */
  function TailLen(t: string, e: nat, quoted: bool): (n: Option<nat>)
    ensures n.Some? ==> 2 <= n.value && e + n.value <= |t|
  {
    if quoted && LitAt(t, e, "' }}") then Some(4)
    else if quoted && LitAt(t, e, "'}}") then Some(3)
    else if LitAt(t, e, " }}") then Some(3)
    else if LitAt(t, e, "}}") then Some(2)
    else None
  }

  /**
   * A lazy `(.*?)` followed by a tail, without the `s` flag: the first
   * position at or after `j` where the tail matches, giving up at a newline
   * (`.` does not match one). Returns (end of the group, end of the match).
   */
  function LazyLine(t: string, j: nat, quoted: bool): (r: Option<(nat, nat)>)
    ensures r.Some? ==> j <= r.value.0 && r.value.0 + 2 <= r.value.1 <= |t|
    decreases |t| - j
  {
    if j >= |t| then None
    else match TailLen(t, j, quoted)
      case Some(n) => Some((j, j + n))
      case None => if t[j] == '\n' then None else LazyLine(t, j + 1, quoted)
  }

  /** The same lazy group with the `s` flag: newlines do not stop it. */
  function LazyAll(t: string, j: nat): (r: Option<(nat, nat)>)
    ensures r.Some? ==> j <= r.value.0 && r.value.0 + 2 <= r.value.1 <= |t|
    decreases |t| - j
  {
    if j >= |t| then None
    else match TailLen(t, j, false)
      case Some(n) => Some((j, j + n))
      case None => LazyAll(t, j + 1)
  }

  // ---------------------------------------------------------------------
  // One matcher per regular expression

  /** `{{@ ?(include|extend) ?\'?`: where the path group starts. */
  function IncludeHead(t: string): (cs: Option<nat>)
    ensures cs.Some? ==> StartsWith(t, "{{@") && 3 <= cs.value <= |t|
  {
    if !StartsWith(t, "{{@") then None
    else
      var p := OptChar(t, 3, ' ');
      if KeywordAt(t, p, "include") then Some(OptChar(t, OptChar(t, p + 7, ' '), '\''))
      else if KeywordAt(t, p, "extend") then Some(OptChar(t, OptChar(t, p + 6, ' '), '\''))
      else None
  }

  function IncludeAt(t: string): (m: Option<Hit>)
    ensures m.Some? ==> StartsWith(t, "{{@") && 0 < m.value.len <= |t|
  {
    match IncludeHead(t)
    case None => None
    case Some(cs) =>
      match LazyLine(t, cs, true)
      case None => None
      case Some(ends) => Some(Hit(ends.1, t[cs..ends.0], ""))
  }

  /** `{{@ ?endsetblock ?;? ?}}` at offset `b`; its length. */
  function EndMarkerLen(t: string, b: nat): (n: Option<nat>)
    ensures n.Some? ==> LitAt(t, b, "{{@") && 0 < n.value && b + n.value <= |t|
  {
    if !LitAt(t, b, "{{@") then None
    else
      var p := OptChar(t, b + 3, ' ');
      if !KeywordAt(t, p, "endsetblock") then None
      else
        var q := OptChar(t, OptChar(t, OptChar(t, p + 11, ' '), ';'), ' ');
        if LitAt(t, q, "}}") then Some(q + 2 - b) else None
  }

  /** The lazy body `(.*?)` of a declaration: the first end marker at or after `b`. */
  function BodyEnd(t: string, b: nat): (r: Option<(nat, nat)>)
    ensures r.Some? ==> b <= r.value.0 < r.value.1 <= |t|
    ensures r.Some? ==> EndMarkerLen(t, r.value.0) == Some(r.value.1 - r.value.0)
    decreases |t| - b
  {
    if b >= |t| then None
    else match EndMarkerLen(t, b)
      case Some(n) => Some((b, b + n))
      case None => BodyEnd(t, b + 1)
  }

  /**
   * A whole declaration. The name ends at the first ` ?}}` and the body at the
   * first end marker after it; when no end marker follows, no later choice of
   * the name's end can find one either, so the match fails here.
   */
  function SetBlockAt(t: string): (m: Option<Hit>)
    ensures m.Some? ==> StartsWith(t, "{{@") && 0 < m.value.len <= |t|
  {
    if !StartsWith(t, "{{@") then None
    else
      var p := OptChar(t, 3, ' ');
      if !KeywordAt(t, p, "setblock") then None
      else
        var ns := OptChar(t, p + 8, ' ');
        match LazyAll(t, ns)
        case None => None
        case Some(nameEnds) =>
          match BodyEnd(t, nameEnds.1)
          case None => None
          case Some(bodyEnds) => Some(Hit(bodyEnds.1, t[ns..nameEnds.0], t[nameEnds.1..bodyEnds.0]))
  }

  /** `NAME ?}}` at offset `p`: the end of the match. */
  function RefTail(t: string, p: nat, name: string): (e: Option<nat>)
    ensures e.Some? ==> p + |name| + 2 <= e.value <= |t|
  {
    if !LitAt(t, p, name) then None
    else
      var q := OptChar(t, p + |name|, ' ');
      if LitAt(t, q, "}}") then Some(q + 2) else None
  }

  /**
   * `{{@ ?block ?NAME ?}}` with the name taken literally. The space before the
   * name is tried first and given back when the name itself starts with one.
   */
  function BlockRefAt(t: string, name: string): (m: Option<Hit>)
    ensures m.Some? ==> StartsWith(t, "{{@") && 0 < m.value.len <= |t|
  {
    if !StartsWith(t, "{{@") then None
    else
      var p := OptChar(t, 3, ' ');
      if !LitAt(t, p, "block") then None
      else
        var e := if p + 5 < |t| && t[p + 5] == ' ' && RefTail(t, p + 6, name).Some?
                 then RefTail(t, p + 6, name) else RefTail(t, p + 5, name);
        match e
        case None => None
        case Some(n) => Some(Hit(n, "", ""))
  }

  function AnyBlockRefAt(t: string): (m: Option<Hit>)
    ensures m.Some? ==> StartsWith(t, "{{@") && 0 < m.value.len <= |t|
  {
    if !StartsWith(t, "{{@") then None
    else
      var p := OptChar(t, 3, ' ');
      if !KeywordAt(t, p, "block") then None
      else
        var cs := OptChar(t, p + 5, ' ');
        match LazyLine(t, cs, false)
        case None => None
        case Some(ends) => Some(Hit(ends.1, t[cs..ends.0], ""))
  }

  function ParentAt(t: string): (m: Option<Hit>)
    ensures m.Some? ==> StartsWith(t, "{{@") && 0 < m.value.len <= |t|
  {
    if !StartsWith(t, "{{@") then None
    else
      var p := SkipSpaces(t, 3);
      if !LitAt(t, p, "parent") then None
      else
        var q := SkipSpaces(t, p + 6);
        if LitAt(t, q, "}}") then Some(Hit(q + 2, "", "")) else None
  }

  /** Does `r` match at the very start of `t`, and how. */
  function MatchAt(r: Regex, t: string): (m: Option<Hit>)
    ensures m.Some? ==> 0 < m.value.len <= |t|
    ensures m.Some? && r.OpensRaw() ==> StartsWith(t, "{{@")
    ensures m.Some? && r.Interp? ==> StartsWith(t, "{{")
    ensures m.Some? && r.Literal? ==> StartsWith(t, r.text) && m.value.len == |r.text|
  {
    match r
    case RawCode => SpanAt(t, "{{@")
    case Interp => SpanAt(t, "{{")
    case Include => IncludeAt(t)
    case SetBlock => SetBlockAt(t)
    case BlockRef(name) => BlockRefAt(t, name)
    case AnyBlockRef => AnyBlockRefAt(t)
    case Parent => ParentAt(t)
    case Literal(x) => if |x| > 0 && StartsWith(t, x) then Some(Hit(|x|, "", "")) else None
  }

  // ---------------------------------------------------------------------
  // The drivers, for any matcher

  /** A matcher: does a pattern match at the very start of a text, and how. */
  type Matcher = string -> Option<Hit>

  /** What to insert in place of a match. */
  type Replacer = Hit -> string

  /** `m` reports a non-empty match at the start of `t` that fits in `t`. */
  predicate HitAt(m: Matcher, t: string) {
    m(t).Some? && 0 < m(t).value.len <= |t|
  }

  /**
   * Replace every match, scanning left to right: at each position either a
   * match starts there and is replaced, scanning resuming right after it,
   * or the character is copied.
   */
  function ReplaceBy(m: Matcher, rep: Replacer, s: string): string
    decreases |s|
  {
    if s == [] then []
    else if HitAt(m, s) then rep(m(s).value) + ReplaceBy(m, rep, s[m(s).value.len..])
    else [s[0]] + ReplaceBy(m, rep, s[1..])
  }

  /** Every match, scanning left to right and resuming after each. */
  function MatchAllBy(m: Matcher, s: string): seq<Found>
    decreases |s|
  {
    if s == [] then []
    else if HitAt(m, s) then
      var h := m(s).value;
      [Found(s[..h.len], h.g1, h.g2)] + MatchAllBy(m, s[h.len..])
    else MatchAllBy(m, s[1..])
  }

  /** A match starts somewhere in `s`. */
  predicate MatchesBy(m: Matcher, s: string)
    decreases |s|
  {
    s != [] && (HitAt(m, s) || MatchesBy(m, s[1..]))
  }

  // ---------------------------------------------------------------------
  // The drivers for the source's patterns

  /** The matcher of one of the source's patterns. */
  function Pattern(r: Regex): Matcher {
    t => MatchAt(r, t)
  }

  function Replacement(w: Rewrite): Replacer {
    h => Apply(w, h)
  }

  /** `preg_replace(r, w, s)` (and `str_replace` for a literal search). */
  function PregReplace(r: Regex, w: Rewrite, s: string): string {
    ReplaceBy(Pattern(r), Replacement(w), s)
  }

  /** `preg_match_all(r, s, $m, PREG_SET_ORDER)`: the matches from left to right. */
  function PregMatchAll(r: Regex, s: string): seq<Found> {
    MatchAllBy(Pattern(r), s)
  }

  /** `preg_match` / `strpos(...) !== false`: the pattern matches somewhere. */
  predicate Matches(r: Regex, s: string) {
    MatchesBy(Pattern(r), s)
  }

  /** `str_replace(search, replace, s)`. */
  function StrReplace(search: string, replace: string, s: string): string {
    PregReplace(Literal(search), Const(replace), s)
  }

  /** Matching a pattern at a position is `MatchAt` there. */
  lemma HitAtPattern(r: Regex, t: string)
    ensures HitAt(Pattern(r), t) <==> MatchAt(r, t).Some?
    ensures HitAt(Pattern(r), t) ==> Pattern(r)(t) == MatchAt(r, t)
  {
  }

  /** A match at any offset means the pattern matches somewhere. */
  lemma {:induction false} MatchesFrom(m: Matcher, s: string, i: nat)
    requires i < |s| && HitAt(m, s[i..])
    ensures MatchesBy(m, s)
    decreases i
  {
    if i > 0 {
      assert s[1..][i - 1..] == s[i..];
      MatchesFrom(m, s[1..], i - 1);
    } else {
      assert s[0..] == s;
    }
  }

  /** A pattern that matches somewhere matches at some offset. */
  lemma {:induction false} MatchesSomewhere(m: Matcher, s: string) returns (i: nat)
    requires MatchesBy(m, s)
    ensures i < |s| && HitAt(m, s[i..])
    decreases |s|
  {
    if HitAt(m, s) {
      assert s[0..] == s;
      i := 0;
    } else {
      var j := MatchesSomewhere(m, s[1..]);
      assert s[1..][j..] == s[j + 1..];
      i := j + 1;
    }
  }
}
