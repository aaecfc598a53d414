/** Append-only text kept in blocks, so that appending never copies the whole. */
module ChunkedTexts {
  import opened Prelude

  /** Every block but the last is full, and the last is not empty. */
  ghost predicate Canonical<T>(blocks: seq<seq<T>>, size: nat) {
    && (forall i | 0 <= i < |blocks| - 1 :: |blocks[i]| == size)
    && (|blocks| > 0 ==> 0 < |blocks[|blocks| - 1]| <= size)
  }

  lemma FirstBlock<T>(blocks: seq<seq<T>>, size: nat)
    requires size > 0 && Canonical(blocks, size)
    ensures blocks == [] <==> Flatten(blocks) == []
    ensures blocks != [] ==>
              && blocks[0] == Flatten(blocks)[..Min(size, |Flatten(blocks)|)]
              && Flatten(blocks[1..]) == Flatten(blocks)[|blocks[0]|..]
              && Canonical(blocks[1..], size)
  {
    if blocks != [] && |blocks| == 1 {
      assert Flatten(blocks[1..]) == [];
    }
  }

  lemma {:induction false} CanonicalIsUnique<T>(a: seq<seq<T>>, b: seq<seq<T>>, size: nat)
    requires size > 0 && Canonical(a, size) && Canonical(b, size) && Flatten(a) == Flatten(b)
    ensures a == b
  {
    FirstBlock(a, size);
    FirstBlock(b, size);
    if a != [] {
      CanonicalIsUnique(a[1..], b[1..], size);
      assert a == [a[0]] + a[1..] && b == [b[0]] + b[1..];
    }
  }

  /**
   * Comparing blocks decides equality of the texts for one block size; with two
   * sizes it does so only for texts that fit in one block of either.
   */
  lemma BlocksDecideEquality<T>(a: seq<seq<T>>, m: nat, b: seq<seq<T>>, n: nat)
    requires m > 0 && n > 0 && Canonical(a, m) && Canonical(b, n)
    ensures a == b <==> Flatten(a) == Flatten(b) && (m == n || |Flatten(a)| <= Min(m, n))
  {
    FirstBlock(a, m);
    FirstBlock(b, n);
    if a == b && m != n && a != [] {
      assert |a| == 1;
      FlattenOne(a[0]);
      assert a == [a[0]];
    }
    if m == n && Flatten(a) == Flatten(b) {
      CanonicalIsUnique(a, b, m);
    }
    if Flatten(a) == Flatten(b) && |Flatten(a)| <= Min(m, n) && a != [] {
      assert a[0] == b[0] == Flatten(a);
      FirstBlock(a[1..], m);
      FirstBlock(b[1..], n);
      assert a == [a[0]] + a[1..] && b == [b[0]] + b[1..];
    }
  }

  lemma TopUp<T>(blocks: seq<seq<T>>, prefix: seq<T>, size: nat)
    requires Canonical(blocks, size) && |blocks| > 0
    requires |blocks[|blocks| - 1]| + |prefix| <= size
    ensures var n := |blocks| - 1;
            var topped := blocks[..n] + [blocks[n] + prefix];
            Canonical(topped, size) && Flatten(topped) == Flatten(blocks) + prefix
  {
    var n := |blocks| - 1;
    FlattenSnoc(blocks[..n], blocks[n]);
    FlattenSnoc(blocks[..n], blocks[n] + prefix);
    Assoc(Flatten(blocks[..n]), blocks[n], prefix);
    assert blocks == blocks[..n] + [blocks[n]];
  }

  lemma Push<T>(blocks: seq<seq<T>>, next: seq<T>, size: nat)
    requires Canonical(blocks, size) && 0 < |next| <= size
    requires |blocks| > 0 ==> |blocks[|blocks| - 1]| >= size
    ensures Canonical(blocks + [next], size)
  {
  }

  class ChunkedText<T(==)> {
    var blocks: seq<seq<T>>
    var length: nat
    const blockSize: nat

    ghost predicate Valid()
      reads this
    {
      blockSize > 0 && Canonical(blocks, blockSize) && length == |Text()|
    }

    ghost function Text(): seq<T>
      reads this
    {
      Flatten(blocks)
    }

    constructor (blockSize: int)
      ensures Valid() && Text() == [] && this.blockSize == Max(1, blockSize)
    {
      this.blockSize := Max(1, blockSize);
      blocks, length := [], 0;
    }

    method Append(value: seq<T>)
      requires Valid()
      modifies this
      ensures Valid() && Text() == old(Text()) + value
    {
      if value == [] {
        return;
      }
      hide Canonical, Flatten;
      ghost var whole := Text() + value;
      length := length + |value|;
      var remaining := value;
      if |blocks| > 0 && |blocks[|blocks| - 1]| < blockSize {
        var n := |blocks| - 1;
        var available := blockSize - |blocks[n]|;
        var prefix := remaining[..Min(available, |remaining|)];
        TopUp(blocks, prefix, blockSize);
        Assoc(Text(), prefix, remaining[|prefix|..]);
        assert value == prefix + remaining[|prefix|..];
        blocks := blocks[..n] + [blocks[n] + prefix];
        remaining := remaining[|prefix|..];
      }
      while remaining != []
        invariant Canonical(blocks, blockSize) && length == |whole|
        invariant remaining != [] && |blocks| > 0 ==> |blocks[|blocks| - 1]| >= blockSize
        invariant Text() + remaining == whole
        decreases |remaining|
      {
        var next := remaining[..Min(blockSize, |remaining|)];
        FlattenSnoc(blocks, next);
        Push(blocks, next, blockSize);
        Assoc(Text(), next, remaining[|next|..]);
        assert remaining == next + remaining[|next|..];
        blocks := blocks + [next];
        remaining := remaining[|next|..];
      }
      assert Text() + [] == Text();
    }

    method Clear()
      modifies this
      requires Valid()
      ensures Valid() && Text() == []
    {
      blocks, length := [], 0;
    }

    method Extend(chunks: seq<seq<T>>)
      requires Valid()
      modifies this
      ensures Valid() && Text() == old(Text()) + Flatten(chunks)
    {
      assert chunks[..0] == [];
      for i := 0 to |chunks|
        invariant Valid() && Text() == old(Text()) + Flatten(chunks[..i])
      {
        Append(chunks[i]);
        FlattenSnoc(chunks[..i], chunks[i]);
        assert chunks[..i + 1] == chunks[..i] + [chunks[i]];
        assert old(Text()) + (Flatten(chunks[..i]) + chunks[i]) == old(Text()) + Flatten(chunks[..i]) + chunks[i];
      }
      assert chunks[..|chunks|] == chunks;
    }

    /** The newest `maxChars` elements, reading only the blocks they are in. */
    method Tail(maxChars: int) returns (r: seq<T>)
      requires Valid()
      ensures r == Text()[|Text()| - Min(Max(0, maxChars), |Text()|)..]
    {
      var remaining := Max(0, maxChars);
      var selected: seq<T> := [];
      if remaining == 0 || blocks == [] {
        return [];
      }
      var i := |blocks|;
      ghost var text := Text();
      assert blocks[..i] == blocks;
      while i > 0 && remaining > 0
        invariant 0 <= i <= |blocks| && remaining >= 0
        invariant remaining + |selected| == Max(0, maxChars)
        invariant remaining > 0 ==> Flatten(blocks[..i]) + selected == text
        invariant remaining == 0 ==> |selected| <= |text| && selected == text[|text| - |selected|..]
        decreases i
      {
        i := i - 1;
        var block := blocks[i];
        FlattenSnoc(blocks[..i], block);
        assert blocks[..i + 1] == blocks[..i] + [block];
        if |block| <= remaining {
          assert Flatten(blocks[..i]) + (block + selected) == text;
          selected := block + selected;
          remaining := remaining - |block|;
        } else {
          var part := block[|block| - remaining..];
          assert text == (Flatten(blocks[..i]) + block[..|block| - remaining]) + (part + selected);
          selected := part + selected;
          remaining := 0;
        }
      }
      assert remaining > 0 ==> Flatten(blocks[..0]) == [];
      r := selected;
    }

    /** `==`: blocks are compared, not texts. */
    method Equals(other: ChunkedText<T>) returns (same: bool)
      requires Valid() && other.Valid()
      ensures same <==> Text() == other.Text()
                        && (blockSize == other.blockSize || |Text()| <= Min(blockSize, other.blockSize))
    {
      BlocksDecideEquality(blocks, blockSize, other.blocks, other.blockSize);
      same := blocks == other.blocks;
    }
  }
}
