/**
 * The five passes together (Template.php:79-83): a template in which no
 * `{{` occurs comes out of compile exactly as it went in, and the block
 * registry is left as it was.
 */
module PipelineFacts {
  import opened Strings
  import opened Patterns
  import opened Passes
  import opened DriverFacts

  /** Replacing the references of each name leaves text without `{{@` alone. */
  lemma {:induction false} SubstituteAllInert(content: map<string, string>, names: seq<string>, code: string)
    requires !Contains(code, "{{@")
    ensures SubstituteAll(content, names, code) == code
    decreases |names|
  {
    if names != [] {
      var value := if names[0] in content then content[names[0]] else "";
      InertUnchanged(BlockRef(names[0]), Const(value), code);
      SubstituteAllInert(content, names[1..], code);
    }
  }

  /** The interpolation pattern leaves text without `{{` alone. */
  lemma FlatUnchanged(w: Rewrite, code: string)
    requires !Contains(code, "{{")
    ensures PregReplace(Interp, w, code) == code
  {
    forall i | 0 <= i < |code| && i <= |code| ensures !HitAt(Pattern(Interp), code[i..]) {
      if HitAt(Pattern(Interp), code[i..]) {
        InterpHitOpens(code[i..]);
        OccursAtIsStartsWith(code, "{{", i);
      }
    }
    NoMatchNoChange(Pattern(Interp), Replacement(w), code);
  }

  /** A file without directive openers expands to itself. */
  lemma ExpandInert(files: map<string, string>, rank: map<string, nat>, path: string)
    requires Ranked(files, rank) && path in files && !Contains(files[path], "{{@")
    ensures Expand(files, rank, path) == files[path]
  {
    InertUnchanged(Include, Const(""), files[path]);
  }

  /**
   * compile on a template without `{{`: the compiled text is the template
   * itself and the registry is unchanged.
   */
  lemma PlainTemplate(b: Blocks, files: map<string, string>, rank: map<string, nat>, path: string)
    requires Ranked(files, rank) && path in files
    requires !Contains(files[path], "{{")
    ensures CompileSource(b, files, rank, path) == (b, files[path])
  {
    var code := files[path];
    assert !Contains(code, "{{@") by {
      forall k | 0 <= k <= |code| ensures !OccursAt(code, "{{@", k) {
        assert !OccursAt(code, "{{", k);
        if k + 3 <= |code| {
          assert code[k..k + 3][..2] == code[k..k + 2];
        }
      }
    }
    ExpandInert(files, rank, path);
    InertUnchanged(SetBlock, Const(""), code);
    SubstituteAllInert(b.content, b.order, code);
    InertUnchanged(AnyBlockRef, Const(""), code);
    InertUnchanged(RawCode, PhpTag, code);
    InertUnchanged(RawCode, Const(""), code);
    FlatUnchanged(EchoMark, code);
    FlatUnchanged(EchoTag, code);
  }
}
