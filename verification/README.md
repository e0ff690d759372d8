# Template.php in Dafny

A model of the template compiler in `Template.php` (kaisarsnippets/php-template).

A template is a text file with several kinds of markup:
- directives `{{@ ... }}`;
- interpolations `{{ ... }}`;
- include and extend directives;
- block declarations `{{@ setblock NAME }} ... {{@ endsetblock }}`;
- block references `{{@ block NAME }}`.

`compile` turns a template into PHP source in five passes, and caches the result as a file in a cache directory:
1. include expansion;
2. block declaration;
3. block substitution;
4. raw-code tags;
5. echo tags.

Declared blocks live in a static registry that outlasts one compile. A later declaration of a name can extend the earlier content through a `{{@ parent }}` placeholder.

The project has these modules:
- **Strings**: character predicates, `rtrim`, the slash-flattening `str_replace` and the dot-to-arrow rewrite.
- **Patterns**: one hand-written matcher for each regular expression of the source. On top of them sit `preg_replace` and `preg_match_all` with PREG_SET_ORDER. Matching is leftmost, resumes after each match, never rescans a replacement, and stops lazy groups at the first closing delimiter.
- **Cache**: cache directory normalisation, the artifact path, the staleness test (with PHP 8's comparison of `false` with an integer), and the artifact store as a class.
- **Passes**: the five passes as functions on text, and the registry as a value.
- **Registry**: the static block registry as a class with a map and an insertion order.
- **Engine**: the imperative parts, each proved equal to its function in Passes:
  - the include loop;
  - the declaration loop;
  - the substitution loop;
  - the `Template` class with its constructor, `setCacheDir`, `compile` and `clearCache`.
- **DriverFacts**: general facts about the drivers, such as "text without `{{@` passes through unchanged" and "a match at the front is replaced and the scan goes on after it".
- **RawCodeFacts, EchoFacts, BlockFacts, SetBlockFacts, IncludeFacts**: one theorem per pass, about what it does to a well-formed template.
  - A well-formed template is a sequence of pieces: plain text, and directives written in the pass's own syntax.
  - Each theorem states the pass's output piece by piece.
- **ParentFacts**: parent chaining. A declaration stores its body with every placeholder, in any spacing, replaced by the name's previous content.
- **ChainFacts**: parent chaining through the declaration pass. A block declared twice in one template ends up holding the second body with its placeholders filled by the first.
- **PipelineFacts**: a template without `{{` compiles to itself and leaves the registry alone.

The filesystem is an input:
- `Sources` holds the template files, their modification times and the results of `realpath`.
- `ArtifactStore` holds the cache directory's files and their times.
- The current time is a parameter of `Compile`.

A missing source does not stop `compile` by itself. `file_get_contents` (Template.php:124), called without `@`, emits a PHP warning and returns `false`; the `preg_*` calls read `false` as the empty text, and so the file compiles as an empty template. A missing included file with a nonempty path expands to the empty text in the same way. An empty path is different: under PHP 8, `file_get_contents("")` throws a `ValueError`, which the model does not follow (see "## Left out").

`compileInclude` has no guard against an include cycle. The model therefore requires a ghost rank on every file in `Sources` that strictly decreases along every include edge (`Passes.Ranked`).

## Model

| member | source | states |
|---|---|---|
| Cache.NormalizeDir | Template.php:101 | the directory ends in exactly one `/`; everything before it is the input; only slashes were removed |
| Cache.NormalizeDirIdempotent | Template.php:99-105 | normalising an already normalised directory changes nothing |
| Cache.ArtifactName | Template.php:65-66 | the artifact name is the source path plus `.php`, with every `/` turned into `_`, so it holds no slash |
| Cache.ArtifactPath | Template.php:65-67 | the artifact path is the normalised cache directory followed by the artifact name, which holds no further slash |
| Cache.ArtifactOfResolved | Template.php:63-67 | the artifact of an existing file depends on its resolved path only: two spellings share one artifact exactly when they resolve to the same path (for resolved paths without `_`) |
| Cache.ArtifactNameInjective | Template.php:65-66 | two source paths without `_` that share an artifact name are equal |
| Cache.ArtifactNamesCollide | Template.php:65-66 | `a/b` and `a_b` map to the same artifact name |
| Cache.MtimeLessStrict | Template.php:72 | PHP 8's `<` between two `@filemtime` results is irreflexive and asymmetric, so an artifact with the source's own time is never stale |
| Cache.MtimeLessNotTransitive | Template.php:72 | the same comparison is not transitive: `false < -1` and `-1 < 0`, but not `false < 0` |
| Cache.NeedsBuild | Template.php:70-72 | rebuild when the source is missing or caching is off; with both times known, iff the artifact is older; a missing artifact of a source with nonzero time is rebuilt; equal times are fresh |
| Cache.ArtifactInGlob | Template.php:112 | a key's artifact is among the files the glob lists iff the key is nonempty and does not start with a dot |
| Cache.ArtifactStore.Write | Template.php:86 | the written path now holds the text with time `now`; every other file is unchanged |
| Cache.ArtifactStore.Clear | Template.php:112-114 | after the loop, exactly the files the glob lists are gone; the rest keep their text and time |
| Strings.ArrowsChars | Template.php:159 | no dot survives the arrow rewrite; it adds only `-` and `>`; it never shortens the text |
| Strings.TrimEndChar | Template.php:101 | `rtrim` with one character: a prefix of the input, not ending in that character, and only that character was cut |
| Strings.MapChar | Template.php:65-66 | single-character `str_replace`: same length; each matching character replaced, every other one kept |
| EchoFacts.ArrowsIsStrReplace | Template.php:159 | the arrow rewrite equals `str_replace(".", "->", s)` as the literal-search driver computes it |
| Passes.ParentIffNormalized | Template.php:178-179 | a body holds a parent placeholder in any spacing iff its normalised form holds the literal `{{@parent}}` |
| Passes.NormalizeWithoutParent | Template.php:178 | a body without placeholders is not changed by normalisation |
| Passes.ResolveBlock | Template.php:178-183 | the stored content is the body as written when it has no placeholder, else the normalised body with `{{@parent}}` replaced by the current content |
| Passes.Declare | Template.php:175-183 | a declaration adds the name if new, with empty content first and at the end of the order; it stores the resolved content; other names are untouched; well-ordering is kept |
| Passes.EmptyBlocks | Template.php:22 | the registry starts empty and well ordered |
| Registry.BlockRegistry.constructor | Template.php:22 | a new registry is empty |
| Registry.BlockRegistry.Declare | Template.php:175-183 | the in-place update equals `Passes.Declare` on the old registry and keeps it well ordered |
| Engine.CompileInclude | Template.php:123-133 | the loop over the matches, recursing into each included file, computes `Passes.Expand` |
| Engine.CompileSetBlock | Template.php:171-187 | the loop over the declarations leaves the registry and the text that `Passes.SetBlockPass` gives |
| Engine.CompileBlock | Template.php:195-203 | the loop over the registry's names in insertion order, then the strip pass, computes `Passes.BlockPass` and does not change the registry |
| Engine.Template.constructor | Template.php:29-35 | a configured cache directory or cache flag overrides the defaults `""` and `true` |
| Engine.Template.SetCacheDir | Template.php:99-105 | returns the normalised cache directory, which ends in `/` |
| Engine.Template.Compile | Template.php:59-92 | returns the artifact path of the resolved key. When stale, it runs the five passes in order from the current registry and writes their text at `now`. Otherwise it changes neither the registry nor the store. A source that exists, with caching on and a time not after `now`, is fresh afterwards |
| Engine.Template.Rebuild | Template.php:79-86 | the rebuild branch: the registry and the text are those of the five passes run in order from the current registry, and the text is written at `now` with every other artifact unchanged |
| Engine.Template.ClearCache | Template.php:110-115 | exactly the files the glob lists are deleted; the rest keep their text and their modification time; afterwards no artifact of a nonempty, non-dot key exists |
| RawCodeFacts.CompilePHPPieces | Template.php:141-146 | on a well-formed template, every `{{@ EXPR }}` becomes `<?php EXPR ?>` with EXPR trimmed; the text between is unchanged; no `{{@` is left |
| EchoFacts.CompileEchoPieces | Template.php:155-163 | on a well-formed template, every `{{ EXPR }}` becomes `<?php echo $EXPR ?>` with EXPR trimmed and its dots turned into `->`; the text between is unchanged; no `{{` is left |
| BlockFacts.CompileBlockPieces | Template.php:195-203 | on a well-formed template whose block contents open no block reference, a reference to a registered name becomes its content and any other reference disappears; the text between is unchanged; no block reference is left |
| SetBlockFacts.SetBlockMatches | Template.php:172-173 | the match list is exactly the template's declarations, in document order, with name and body; bodies may hold any directive other than a declaration or its end marker, `{{@ parent }}` and raw code among them |
| SetBlockFacts.CompileSetBlockPieces | Template.php:171-187 | on a well-formed template, the registry receives every declaration in document order, each resolved against its parent through `Declare`; the text keeps exactly what lies between the declarations |
| ChainFacts.RedeclareChains | Template.php:171-187 | a template made of two declarations of one name: the entry holds the second body with each placeholder replaced by the first body, itself resolved against the name's earlier content; both declarations leave the text |
| ChainFacts.ParentChainExample | Template.php:171-187 | `{{@ setblock x }}A{{@ endsetblock }}{{@ setblock x }}{{@ parent }}B{{@ endsetblock }}` leaves the text empty and `x` holding `AB`, whatever the registry held |
| ParentFacts.ResolveBlockPieces | Template.php:178-183 | the stored content is the body with every placeholder, in any spacing, replaced by the previous content; a body without a placeholder is stored as written; the rest of the body may hold other directives |
| ParentFacts.DeclareExtends | Template.php:175-183 | a redeclaration fills its placeholders with what the registry held for the name, or with the empty text if the name had no entry |
| IncludeFacts.IncludeMatches | Template.php:125-126 | the match list is exactly the file's include and extend directives, in document order, with their paths, quoted or not |
| IncludeFacts.IncludePieces | Template.php:123-133 | on a well-formed file, every include and extend directive is replaced by the expansion of the file it names; the text around, other directives included, is copied; no include match is left, and the result is well-formed text again, so the theorem applies to the file's includers |
| PipelineFacts.PlainTemplate | Template.php:79-83 | a template without `{{` comes out of the five passes as it went in, and the registry is unchanged |

## Left out

- parse (Template.php:43-51) is not modelled. It extracts variables, executes the compiled PHP and captures its output.
- Filesystem effects are inputs: `realpath`, `file_exists`, `filemtime` and `file_get_contents` read the `Sources` value. `mkdir` and `chmod` (Template.php:87, 102-103) are not modelled at all.
- Cache.InGlob: the glob of Template.php:112 is modelled as a literal prefix test, so `*`, `?` and `[` in the cache directory are not interpreted as wildcards.
- Cache.ArtifactStore.Write always succeeds; a failing `file_put_contents` (Template.php:86) is not modelled.
- Modification times are unbounded integers. The current time is a parameter of `Compile`.
- Engine.Template.Compile: the include graph of every file in `Sources` must be acyclic (`Ranked`), including files the key never reaches. The source recurses without end on a cyclic include, and a cycle it never reaches does it no harm.
- Engine.CompileInclude: an empty include path, captured from `{{@ include }}`, `{{@ extend }}` or `{{@ include '' }}`, or a path holding a NUL character makes PHP 8's `file_get_contents` (Template.php:124) throw a `ValueError`, which aborts `compile`. The model does not raise this error: it expands such a path like any other, to the empty text when no file has that path.
- Engine.Template.Compile: `compile("")` throws in the source, because `file_exists("")` is false, the key stays `""` and reaches `file_get_contents("")` (Template.php:124). The model instead compiles the empty key as an empty template and writes its artifact. A template whose includes reach an empty or NUL-holding path is treated the same way.
- Engine.Template.Rebuild: for the empty key, and for a template whose includes reach an empty or NUL-holding path, the source throws inside the include pass and writes no artifact. The contract still promises the five passes' text, written at `now`.
- The E_WARNING that `file_get_contents` (Template.php:124) emits for a missing source or included file is not modelled; a host error handler that turns it into an exception would stop `compile`, while the model goes on with the empty text.
- `$` and `\` in replacement texts are treated literally. Template.php:198 passes block contents to `preg_replace` as replacement strings, where PCRE would interpret them.
- Block names are matched literally. Template.php:197 builds the pattern from the name without quoting, so PCRE metacharacters in a name change the pattern.
- BlockFacts.CompileBlockPieces: every name in the registry must be plain (no blanks, braces or newlines), including names the template never references, so one earlier `{{@ setblock my block }}` puts every later template outside the theorem.
- BlockFacts.CompileBlockPieces: only references written `{{@ block NAME }}` in lower case with single blanks are covered. The per-name pattern (Template.php:197) is case-sensitive, while the strip pattern (Template.php:200) is not.
- BlockFacts.CompileBlockPieces: text and block contents may hold no `{{@` followed, after an optional blank, by `block` in any letter case, and may not start with `@` or `{@`. This is stricter than the pass needs: a `{{@ BLOCK x }}` in a content would be stripped, but the theorem does not cover it.
- An expression made only of white space is not modelled exactly. PCRE then backtracks into the white space around the lazy group; the matchers require a non-space character in `{{@ ... }}` and `{{ ... }}`.
- Artifact paths are not claimed to be collision-free. Cache.ArtifactNamesCollide shows two sources that share one artifact.
- Engine.Template.ClearCache does not delete the artifact of an empty key or of a key starting with a dot. The glob skips dot names, and the model follows it.
- Names and paths in the pieces theorems have no blanks, braces or newlines, and include paths have no quotes.
- RawCodeFacts.CompilePHPPieces: plain text holds no `{{@`, since any `{{@` there would open a span. An expression has a non-space character, holds no `{{@` and does not close early (no `}}`, no final `}`). An expression with a nested `{{@` is handled by the source but not covered.
- EchoFacts.CompileEchoPieces: plain text holds no `{{` and does not end in `{`, and an expression holds no brace.
- SetBlockFacts.SetBlockMatches: declarations are spelled `{{@ setblock NAME }}BODY{{@ endsetblock }}` in lower case with single blanks. A body may not hold `{{@` followed, after an optional blank, by `setblock` or `endsetblock` in any case. Text between declarations shuns `setblock` the same way and may not start with `@` or `{@`.
- SetBlockFacts.CompileSetBlockPieces: the same conditions as SetBlockMatches.
- ParentFacts.ResolveBlockPieces: text in a body may not hold `{{@` followed, after white space, by `parent` in any case, nor start with `@` or `{@`. The placeholder pattern (Template.php:178) is case-sensitive, so this excludes some text the source copies unchanged.
- ParentFacts.DeclareExtends: the same body conditions as ResolveBlockPieces.
- IncludeFacts.IncludeMatches: directives are spelled `{{@ include PATH }}` or `{{@ extend PATH }}`, in lower case with single blanks, the path bare or in single quotes. The pattern at Template.php:125 also accepts other letter cases and missing blanks. Text may not hold `{{@` followed, after an optional blank, by `include` or `extend` in any case, nor start with `@` or `{@`.
- IncludeFacts.IncludePieces: the same spelling and text conditions as IncludeMatches. Each included file must expand to text under the same text condition. Every other directive may stand in a file and in its expansions.
- The single strip passes (Template.php:131, 144, 201) can join the text around a removed directive into a new one. No lemma states what happens then.
- The constructor's `(array)` cast of a non-array configuration is not modelled; `Config` is already a record.
- `PHP_EOL` and `__CLASS__` (Template.php:75-76) are assigned but never read, and are not modelled.
