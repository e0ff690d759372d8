/**
 * The cache policy of Template::compile, separated from the filesystem:
 * cache directory normalisation (setCacheDir), artifact path derivation,
 * the staleness test, and the artifact store whose files compile writes and
 * clearCache deletes. Modification times are inputs (`Option<int>`, None
 * where `@filemtime` returns false).
 */
module Cache {
  import opened Strings
  import opened Patterns

  /** The directory with its trailing slashes replaced by exactly one, Template.php:101. */
  function NormalizeDir(dir: string): (d: string)
    ensures 1 <= |d| <= |dir| + 1
    ensures EndsWith(d, "/")
    ensures |d| == 1 || d[|d| - 2] != '/'
    ensures d[..|d| - 1] == dir[..|d| - 1]
    ensures forall i :: |d| - 1 <= i < |dir| ==> dir[i] == '/'
  {
    TrimEndChar(dir, '/') + "/"
  }

  /** Normalising twice gives the same directory. */
  lemma NormalizeDirIdempotent(dir: string)
    ensures NormalizeDir(NormalizeDir(dir)) == NormalizeDir(dir)
  {
    var d := NormalizeDir(dir);
    assert d[..|d| - 1] + [d[|d| - 1]] == d;
  }

  /** The file name of an artifact: the source path with `.php` appended and every slash turned into an underscore, Template.php:65-66. */
  function ArtifactName(source: string): (n: string)
    ensures |n| == |source| + 4
    ensures '/' !in n
    ensures EndsWith(n, ".php")
    ensures forall i :: 0 <= i < |source| ==> n[i] == (if source[i] == '/' then '_' else source[i])
  {
    var s := source + ".php";
    var n := MapChar(s, '/', '_');
    assert forall i :: 0 <= i < |n| ==> n[i] != '/';
    assert n[|source|..] == ".php" by {
      forall i | |source| <= i < |n| ensures n[i] == ".php"[i - |source|] {
        assert s[i] == ".php"[i - |source|];
      }
    }
    n
  }

  /** The source path the artifact is keyed by: the resolved path when the file exists, else the path as given, Template.php:63-64. */
  function SourceKey(file: string, present: bool, realPath: string): (k: string)
    ensures present ==> k == realPath
    ensures !present ==> k == file
  {
    if present then realPath else file
  }

  /** The artifact path: the normalised directory followed by the artifact name, Template.php:67. */
  function ArtifactPath(cacheDir: string, source: string): (p: string)
    ensures StartsWith(p, NormalizeDir(cacheDir))
    ensures p[|NormalizeDir(cacheDir)|..] == ArtifactName(source)
    ensures '/' !in p[|NormalizeDir(cacheDir)|..]
  {
    NormalizeDir(cacheDir) + ArtifactName(source)
  }

  /**
   * Two spellings of existing files share one artifact exactly when they
   * resolve to the same path (for resolved paths without `_`): the artifact
   * depends on the resolved path only, never on the spelling.
   */
  lemma ArtifactOfResolved(cacheDir: string, f1: string, f2: string, r1: string, r2: string)
    requires '_' !in r1 && '_' !in r2
    ensures ArtifactPath(cacheDir, SourceKey(f1, true, r1)) == ArtifactPath(cacheDir, SourceKey(f2, true, r2)) <==> r1 == r2
  {
    var d := NormalizeDir(cacheDir);
    if ArtifactPath(cacheDir, r1) == ArtifactPath(cacheDir, r2) {
      assert ArtifactName(r1) == ArtifactPath(cacheDir, r1)[|d|..];
      ArtifactNameInjective(r1, r2);
    }
  }

  /** Sources whose names hold no underscore never share an artifact. */
  lemma ArtifactNameInjective(a: string, b: string)
    requires '_' !in a && '_' !in b
    requires ArtifactName(a) == ArtifactName(b)
    ensures a == b
  {
    assert |a| == |b|;
    forall i | 0 <= i < |a| ensures a[i] == b[i] {
      assert a[i] in a && b[i] in b;
    }
  }

  /** Two sources that the flattening maps to one artifact file. */
  lemma ArtifactNamesCollide()
    ensures ArtifactName("a/b") == ArtifactName("a_b")
  {
  }

  /**
   * PHP 8's `<` between two `@filemtime` results, each an int or `false`:
   * a comparison with `false` compares truth values, so `false < n` holds
   * exactly when `n != 0`, and `n < false` never holds.
   */
  function MtimeLess(a: Option<int>, b: Option<int>): (r: bool)
    ensures a.Some? && b.Some? ==> (r <==> a.value < b.value)
    ensures a.None? && b.Some? ==> (r <==> b.value != 0)
    ensures b.None? ==> !r
  {
    match (a, b)
    case (Some(x), Some(y)) => x < y
    case (None, Some(y)) => y != 0
    case (_, None) => false
  }

  /** The comparison is irreflexive and asymmetric, so equal times are never stale. */
  lemma MtimeLessStrict(a: Option<int>, b: Option<int>)
    ensures !MtimeLess(a, a)
    ensures MtimeLess(a, b) ==> !MtimeLess(b, a)
  {
  }

  /** It is not transitive: `false < -1` and `-1 < 0` hold, `false < 0` does not. */
  lemma MtimeLessNotTransitive()
    ensures MtimeLess(None, Some(-1)) && MtimeLess(Some(-1), Some(0)) && !MtimeLess(None, Some(0))
  {
  }

  /** The build decision of Template.php:70-72. */
  function NeedsBuild(sourceExists: bool, cacheEnabled: bool, artifactMtime: Option<int>, sourceMtime: Option<int>): (r: bool)
    ensures !sourceExists ==> r
    ensures !cacheEnabled ==> r
    ensures sourceExists && cacheEnabled && artifactMtime.Some? && sourceMtime.Some? ==>
              (r <==> artifactMtime.value < sourceMtime.value)
    ensures artifactMtime.None? && sourceMtime.Some? && sourceMtime.value != 0 ==> r
    ensures sourceExists && cacheEnabled && artifactMtime == sourceMtime ==> !r
  {
    !sourceExists || !cacheEnabled || MtimeLess(artifactMtime, sourceMtime)
  }

  /** What the glob of clearCache lists: an entry directly inside the directory whose name does not start with a dot. */
  predicate InGlob(path: string, dir: string) {
    StartsWith(path, dir) && |dir| < |path| && path[|dir|] != '.' && '/' !in path[|dir|..]
  }

  /**
   * The artifact of a source key lies where clearCache's glob lists it,
   * unless the key is empty or starts with a dot: the artifact name then
   * starts with a dot, and the glob skips such names.
   */
  lemma ArtifactInGlob(cacheDir: string, key: string)
    ensures InGlob(ArtifactPath(cacheDir, key), NormalizeDir(cacheDir)) <==> key != [] && key[0] != '.'
  {
    var d := NormalizeDir(cacheDir);
    var p := ArtifactPath(cacheDir, key);
    assert p[|d|..] == ArtifactName(key);
    if key == [] {
      assert ArtifactName(key)[0] == ".php"[0];
    }
  }

  /** The compiled files on disk, with their modification times. */
  class ArtifactStore {
    var files: map<string, string>
    var mtimes: map<string, int>

    ghost predicate Valid()
      reads this
    {
      files.Keys == mtimes.Keys
    }

    constructor ()
      ensures Valid() && files == map[] && mtimes == map[]
    {
      files := map[];
      mtimes := map[];
    }

    /** The modification time of a file, None when there is none. */
    function Mtime(path: string): (t: Option<int>)
      reads this
      ensures t.Some? <==> path in mtimes
      ensures t.Some? ==> t.value == mtimes[path]
    {
      if path in mtimes then Some(mtimes[path]) else None
    }

    /** Writes `text` to `path` at time `now`, Template.php:86. */
    method Write(path: string, text: string, now: int)
      requires Valid()
      modifies this
      ensures Valid()
      ensures files == old(files)[path := text]
      ensures mtimes == old(mtimes)[path := now]
    {
      files := files[path := text];
      mtimes := mtimes[path := now];
    }

    /** The deletion loop of clearCache, Template.php:112-114. */
    method Clear(dir: string)
      requires Valid()
      modifies this
      ensures Valid()
      ensures files == map p | p in old(files) && !InGlob(p, dir) :: old(files)[p]
      ensures mtimes == map p | p in old(mtimes) && !InGlob(p, dir) :: old(mtimes)[p]
    {
      var doomed := set p | p in files && InGlob(p, dir);
      while doomed != {}
        invariant Valid()
        invariant doomed <= files.Keys
        invariant forall p :: p in doomed ==> InGlob(p, dir)
        invariant forall p :: p in files ==> p in old(files) && files[p] == old(files)[p] && mtimes[p] == old(mtimes)[p]
        invariant forall p :: p in old(files) ==> (p in files <==> (!InGlob(p, dir) || p in doomed))
        decreases doomed
      {
        var p :| p in doomed;
        files := files - {p};
        mtimes := mtimes - {p};
        doomed := doomed - {p};
      }
    }
  }
}
