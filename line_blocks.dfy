/**
 * A list of items rendered block by block: every item contributes the
 * three lines of its own block, after the blocks of the items before it.
 * Stated for any rendering, so that the order and layout facts do not
 * depend on what a block contains.
 */
module LineBlocks {

  const BlockSize: nat := 3

  /** Every item renders to exactly `BlockSize` lines. */
  ghost predicate FixedSize<T(!new)>(render: T -> seq<string>) {
    forall x :: |render(x)| == BlockSize
  }

  /** The blocks of `items`, in order, as one list of lines. */
  function RenderAll<T>(items: seq<T>, render: T -> seq<string>): seq<string> {
    if items == [] then []
    else RenderAll(items[..|items| - 1], render) + render(items[|items| - 1])
  }

  lemma {:induction false} RenderAllLength<T(!new)>(items: seq<T>, render: T -> seq<string>)
    requires FixedSize(render)
    ensures |RenderAll(items, render)| == BlockSize * |items|
  {
    if items != [] {
      RenderAllLength(items[..|items| - 1], render);
    }
  }

  /** Rendering one more item appends exactly its block. */
  lemma RenderAllSnoc<T>(items: seq<T>, render: T -> seq<string>, k: nat)
    requires k < |items|
    ensures RenderAll(items[..k + 1], render) == RenderAll(items[..k], render) + render(items[k])
  {
    assert items[..k + 1][..k] == items[..k];
  }

  /** Rendering a concatenation concatenates the renderings: no block spans two items. */
  lemma {:induction false} RenderAllAppend<T>(a: seq<T>, b: seq<T>, render: T -> seq<string>)
    ensures RenderAll(a + b, render) == RenderAll(a, render) + RenderAll(b, render)
  {
    if b == [] {
      assert a + b == a;
    } else {
      var init := b[..|b| - 1];
      assert (a + b)[..|a + b| - 1] == a + init;
      assert (a + b)[|a + b| - 1] == b[|b| - 1];
      RenderAllAppend(a, init, render);
    }
  }

  /** The `i`-th item's block, and nothing else, fills lines `3i` to `3i + 2`. */
  lemma {:induction false} RenderAllAt<T(!new)>(items: seq<T>, render: T -> seq<string>, i: nat)
    requires FixedSize(render)
    requires i < |items|
    ensures |RenderAll(items, render)| == BlockSize * |items|
    ensures RenderAll(items, render)[BlockSize * i..BlockSize * i + BlockSize] == render(items[i])
  {
    var n := |items|;
    var init := items[..n - 1];
    var before := RenderAll(init, render);
    RenderAllLength(items, render);
    RenderAllLength(init, render);
    if i < n - 1 {
      RenderAllAt(init, render, i);
      assert init[i] == items[i];
      assert (before + render(items[n - 1]))[BlockSize * i..BlockSize * i + BlockSize]
          == before[BlockSize * i..BlockSize * i + BlockSize];
    } else {
      assert (before + render(items[n - 1]))[|before|..] == render(items[n - 1]);
    }
  }

  /** Line `3i + j` of the rendering is line `j` of the `i`-th item's block. */
  lemma RenderAllLine<T(!new)>(items: seq<T>, render: T -> seq<string>, i: nat, j: nat)
    requires FixedSize(render)
    requires i < |items| && j < BlockSize
    ensures |RenderAll(items, render)| == BlockSize * |items|
    ensures RenderAll(items, render)[BlockSize * i + j] == render(items[i])[j]
  {
    RenderAllAt(items, render, i);
    var lines := RenderAll(items, render);
    assert lines[BlockSize * i + j] == lines[BlockSize * i..BlockSize * i + BlockSize][j];
  }
}
