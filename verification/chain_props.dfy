/**
 * A block declared twice, Template.php:172-183: the second declaration's
 * `{{@ parent }}` placeholders stand for what the first one stored, so a
 * layout can extend a block step by step.
 */
module ChainFacts {
  import opened Strings
  import opened Patterns
  import opened Passes
  import opened DriverFacts
  import B = BlockFacts
  import S = SetBlockFacts
  import P = ParentFacts

  /**
   * Two declarations of the same name in one template: the entry ends up
   * holding the second body with every placeholder replaced by the first
   * body, itself resolved against what the registry held before, and both
   * declarations are taken out of the text.
   */
  lemma RedeclareChains(b: Blocks, n: string, q1: seq<P.BodyPiece>, q2: seq<P.BodyPiece>)
    requires B.PlainName(n)
    requires P.BodyPiecesOk(q1) && P.BodyPiecesOk(q2)
    requires S.BodyOk(P.RenderBody(q1)) && S.BodyOk(P.RenderBody(q2))
    ensures var (r, code) := SetBlockPass(b, S.DeclText(n, P.RenderBody(q1)) + S.DeclText(n, P.RenderBody(q2)));
      code == "" && n in r.content && r.content[n] == P.Filled(q2, P.Filled(q1, b.Current(n)))
  {
    var body1, body2 := P.RenderBody(q1), P.RenderBody(q2);
    var ps := [S.Decl(n, body1), S.Decl(n, body2)];
    var tail := ps[1..];
    assert tail == [S.Decl(n, body2)] && tail[1..] == [];
    assert S.SetPiecesOk(ps) by {
      assert S.SetPieceOk(ps[0]) && S.SetPieceOk(ps[1]);
    }
    assert S.RenderSet(tail) == S.DeclText(n, body2) + S.RenderSet([]);
    assert S.RenderSet(ps) == S.DeclText(n, body1) + S.RenderSet(tail);
    assert S.RenderSet(ps) == S.DeclText(n, body1) + S.DeclText(n, body2);
    assert S.PlainText(tail) == S.PlainText([]) == [];
    S.CompileSetBlockPieces(b, ps);
    var b1 := Declare(b, n, body1);
    var b2 := Declare(b1, n, body2);
    assert S.DeclareEach(b1, tail) == S.DeclareEach(b2, []) == b2;
    assert SetBlockPass(b, S.RenderSet(ps)) == (b2, "");
    P.DeclareExtends(b, n, q1);
    P.DeclareExtends(b1, n, q2);
    assert n in b2.content;
  }

  /** `{{@ parent }}B` redeclaring a block that holds `A` yields `AB`. */
  lemma ParentChainExample(b: Blocks)
    ensures var (r, code) := SetBlockPass(b, ChainText); code == "" && "x" in r.content && r.content["x"] == "AB"
  {
    var q1 := [P.Text("A")];
    var q2 := [P.Placeholder(" ", " "), P.Text("B")];
    assert q1[1..] == [] && q2[1..] == [P.Text("B")] && q2[1..][1..] == [];
    assert P.RenderBody(q1) == "A";
    assert P.RenderBody(q2) == "{{@ parent }}B";
    assert P.Filled(q1, b.Current("x")) == "A";
    assert P.Filled(q2, "A") == "AB";
    ParentBodyOk();
    ChainTextParts();
    RedeclareChains(b, "x", q1, q2);
  }

  /** Two declarations of `x`, the second extending the first. */
  const ChainText := "{{@ setblock x }}A{{@ endsetblock }}" + "{{@ setblock x }}{{@ parent }}B{{@ endsetblock }}"

  lemma ChainTextParts()
    ensures ChainText == S.DeclText("x", "A") + S.DeclText("x", "{{@ parent }}B")
  {
    FirstDecl();
    SecondDecl();
  }

  lemma HeadX()
    ensures S.DeclHead("x") == "{{@ setblock x }}"
  {
  }

  lemma FirstDecl()
    ensures S.DeclText("x", "A") == "{{@ setblock x }}A{{@ endsetblock }}"
  {
    HeadX();
  }

  lemma SecondDecl()
    ensures S.DeclText("x", "{{@ parent }}B") == "{{@ setblock x }}{{@ parent }}B{{@ endsetblock }}"
  {
    HeadX();
  }

  /** A body that opens with a parent placeholder shuns the declaration keywords. */
  lemma ParentBodyOk()
    ensures S.BodyOk("{{@ parent }}B") && S.BodyOk("A")
  {
    var t := "{{@ parent }}B";
    forall k | 0 <= k < |t| && OccursAt(t, "{{@", k)
      ensures k == 0
    {
      assert t[k..k + 3][2] == t[k + 2] == '@';
    }
    assert Lead(t, 3, Blank) == 4;
    assert Departs(t, 4, "setblock") && Departs(t, 4, "endsetblock");
  }
}
