/**
 * `Template::$blocks`, the static block registry (Template.php:22): a map
 * from block name to content that keeps its keys in insertion order and
 * lives as long as the process, across compiles.
 */
module Registry {
  import opened Passes

  class BlockRegistry {
    var blocks: map<string, string>
    var order: seq<string>

    /** The registry as a value. */
    function View(): Blocks
      reads this
    {
      Blocks(blocks, order)
    }

    ghost predicate Valid()
      reads this
    {
      View().WellOrdered()
    }

    constructor ()
      ensures Valid() && View() == EmptyBlocks()
    {
      blocks := map[];
      order := [];
    }

    /** The body of compileSetBlock's loop for one declaration, Template.php:175-183. */
    method Declare(name: string, body: string)
      requires Valid()
      modifies this
      ensures Valid()
      ensures View() == Passes.Declare(old(View()), name, body)
    {
      if name !in blocks {
        blocks := blocks[name := ""];
        order := order + [name];
      }
      blocks := blocks[name := ResolveBlock(blocks[name], body)];
    }
  }
}
