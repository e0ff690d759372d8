/**
 * The Template class (Template.php:7-204): its configuration, the
 * imperative passes that loop over matches or over the registry, and
 * compile, which decides whether the cached artifact is stale and, if so,
 * runs the five passes and writes the result.
 *
 * The filesystem is an input: `Sources` holds the template files, their
 * modification times and what `realpath` returns for them; the artifact
 * files live in an `ArtifactStore` object.
 */
module Engine {
  import opened Strings
  import opened Patterns
  import opened Passes
  import opened Cache
  import opened Registry

  /** The configuration array of the constructor; a missing key keeps the default. */
  datatype Config = Config(cacheDir: Option<string>, cacheEnabled: Option<bool>)

  /** The template files as the host filesystem shows them. */
  datatype Sources = Sources(files: map<string, string>, mtimes: map<string, int>, realPaths: map<string, string>)
  {
    /** The resolved path of a file; a path without an entry resolves to itself. */
    function RealPath(file: string): string {
      if file in realPaths then realPaths[file] else file
    }

    /** The modification time of a source file, None when there is none. */
    function Mtime(file: string): Option<int> {
      if file in mtimes then Some(mtimes[file]) else None
    }

    /** The path compile works with, Template.php:63-64. */
    function Key(file: string): string {
      SourceKey(file, file in files, RealPath(file))
    }
  }

  /** compileInclude, Template.php:123-133. */
  method CompileInclude(files: map<string, string>, ghost rank: map<string, nat>, path: string) returns (code: string)
    requires Ranked(files, rank)
    ensures code == Expand(files, rank, path)
    decreases RankOf(rank, path)
  {
    if path !in files {
      return "";
    }
    code := files[path];
    var ms := PregMatchAll(Include, code);
    ghost var bound := RankOf(rank, path);
    var i := 0;
    while i < |ms|
      invariant 0 <= i <= |ms|
      invariant ExpandAll(files, rank, code, ms[i..], bound) == ExpandAll(files, rank, files[path], ms, bound)
    {
      assert ms[i] in ms;
      var incl := CompileInclude(files, rank, ms[i].g1);
      code := StrReplace(ms[i].text, incl, code);
      assert ms[i..][1..] == ms[i + 1..];
      i := i + 1;
    }
    code := PregReplace(Include, Const(""), code);
  }

  /** compileSetBlock, Template.php:171-187. */
  method CompileSetBlock(reg: BlockRegistry, source: string) returns (code: string)
    requires reg.Valid()
    modifies reg
    ensures reg.Valid()
    ensures (reg.View(), code) == SetBlockPass(old(reg.View()), source)
  {
    var ms := PregMatchAll(SetBlock, source);
    code := source;
    var i := 0;
    while i < |ms|
      invariant 0 <= i <= |ms|
      invariant reg.Valid()
      invariant DeclareAll(reg.View(), code, ms[i..]) == SetBlockPass(old(reg.View()), source)
    {
      reg.Declare(ms[i].g1, ms[i].g2);
      code := StrReplace(ms[i].text, "", code);
      assert ms[i..][1..] == ms[i + 1..];
      i := i + 1;
    }
  }

  /** compileBlock, Template.php:195-203: it reads the registry and leaves it as it is. */
  method CompileBlock(reg: BlockRegistry, source: string) returns (code: string)
    requires reg.Valid()
    ensures code == BlockPass(reg.View(), source)
  {
    code := source;
    var i := 0;
    while i < |reg.order|
      invariant 0 <= i <= |reg.order|
      invariant SubstituteAll(reg.blocks, reg.order[i..], code) == SubstituteAll(reg.blocks, reg.order, source)
    {
      var name := reg.order[i];
      assert name in reg.blocks;
      code := PregReplace(BlockRef(name), Const(reg.blocks[name]), code);
      assert reg.order[i..][1..] == reg.order[i + 1..];
      i := i + 1;
    }
    code := PregReplace(AnyBlockRef, Const(""), code);
  }

  class Template {
    var cacheDir: string
    var cacheEnabled: bool
    /** The static `$blocks`, shared by every Template object given the same registry. */
    const registry: BlockRegistry
    /** The files of the cache directory. */
    const store: ArtifactStore

    ghost predicate Valid()
      reads this, registry, store
    {
      registry.Valid() && store.Valid()
    }

    /** Template.php:29-35. */
    constructor (conf: Config, registry: BlockRegistry, store: ArtifactStore)
      requires registry.Valid() && store.Valid()
      ensures Valid()
      ensures this.registry == registry && this.store == store
      ensures cacheDir == (if conf.cacheDir.Some? then conf.cacheDir.value else "")
      ensures cacheEnabled == (if conf.cacheEnabled.Some? then conf.cacheEnabled.value else true)
    {
      cacheDir := if conf.cacheDir.Some? then conf.cacheDir.value else "";
      cacheEnabled := if conf.cacheEnabled.Some? then conf.cacheEnabled.value else true;
      this.registry := registry;
      this.store := store;
    }

    /** setCacheDir, Template.php:99-105, without the mkdir and chmod. */
    method SetCacheDir() returns (dir: string)
      ensures dir == NormalizeDir(cacheDir)
      ensures EndsWith(dir, "/")
    {
      dir := TrimEndChar(cacheDir, '/') + "/";
    }

    /** Would compile rebuild the artifact of `file` now? Template.php:70-72. */
    function Stale(file: string, src: Sources): bool
      reads this, store
    {
      var key := src.Key(file);
      NeedsBuild(key in src.files, cacheEnabled, store.Mtime(ArtifactPath(cacheDir, key)), src.Mtime(key))
    }

    /**
     * compile, Template.php:59-92: the artifact path, and when the artifact is
     * stale, the five passes over the source and the write of the result at
     * time `now`.
     */
    method Compile(file: string, src: Sources, ghost rank: map<string, nat>, now: int) returns (cfile: string)
      requires Valid() && Ranked(src.files, rank)
      modifies registry, store
      ensures Valid()
      ensures cfile == ArtifactPath(cacheDir, src.Key(file))
      ensures old(Stale(file, src)) ==>
                var (blocks, code) := CompileSource(old(registry.View()), src.files, rank, src.Key(file));
                && registry.View() == blocks
                && store.files == old(store.files)[cfile := code]
                && store.mtimes == old(store.mtimes)[cfile := now]
      ensures !old(Stale(file, src)) ==>
                registry.View() == old(registry.View()) && store.files == old(store.files) && store.mtimes == old(store.mtimes)
      ensures var key := src.Key(file);
              key in src.files && cacheEnabled && src.Mtime(key).Some? && src.Mtime(key).value <= now ==> !Stale(file, src)
    {
      var cdir := SetCacheDir();
      var key := file;
      if key in src.files {
        key := src.RealPath(file);
      }
      assert key == src.Key(file);
      cfile := cdir + ArtifactName(key);
      assert cfile == ArtifactPath(cacheDir, key);
      var build := key !in src.files || !cacheEnabled || MtimeLess(store.Mtime(cfile), src.Mtime(key));
      assert build == Stale(file, src);
      if build {
        Rebuild(key, cfile, src, rank, now);
      }
    }

    /**
     * The rebuild branch of compile, Template.php:79-86: the five passes in
     * order over the source of `key`, starting from the current registry,
     * and the write of their text to `cfile` at time `now`.
     */
    method Rebuild(key: string, cfile: string, src: Sources, ghost rank: map<string, nat>, now: int)
      requires Valid() && Ranked(src.files, rank)
      modifies registry, store
      ensures Valid()
      ensures var (blocks, code) := CompileSource(old(registry.View()), src.files, rank, key);
              && registry.View() == blocks
              && store.files == old(store.files)[cfile := code]
              && store.mtimes == old(store.mtimes)[cfile := now]
    {
      ghost var blocks0 := registry.View();
      var code := CompileInclude(src.files, rank, key);
      ghost var included := code;
      code := CompileSetBlock(registry, code);
      assert (registry.View(), code) == SetBlockPass(blocks0, included);
      code := CompileBlock(registry, code);
      code := CompilePHP(code);
      code := CompileEcho(code);
      assert (registry.View(), code) == CompileSource(blocks0, src.files, rank, key);
      store.Write(cfile, code, now);
    }

    /** clearCache, Template.php:110-115. */
    method ClearCache()
      requires Valid()
      modifies store
      ensures Valid()
      ensures forall p :: p in store.files <==> p in old(store.files) && !InGlob(p, NormalizeDir(cacheDir))
      ensures forall p :: p in store.files ==> store.files[p] == old(store.files)[p]
      ensures forall p :: p in store.mtimes ==> store.mtimes[p] == old(store.mtimes)[p]
      ensures forall key :: key != [] && key[0] != '.' ==> store.Mtime(ArtifactPath(cacheDir, key)).None?
    {
      var cdir := SetCacheDir();
      store.Clear(cdir);
      forall key | key != [] && key[0] != '.' ensures store.Mtime(ArtifactPath(cacheDir, key)).None? {
        ArtifactInGlob(cacheDir, key);
      }
    }
  }
}
