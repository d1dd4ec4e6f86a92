/** One contiguous heap: bump allocation until it is exhausted, then first fit among freed blocks. */
module HeapMemory {
  import opened Wrappers
  import opened HeapBlocks

  datatype Error = NotExhausted | OutOfBounds

  /** A header word with a new size and the same flag. */
  function WithSize(w: Word, size: nat): Word
    requires size < WORD
  {
    if w >= FLAG && size < FLAG then size + FLAG else size
  }

  function MarkedAlloc(w: Word): Word { if w >= FLAG then w else w + FLAG }

  function MarkedFree(w: Word): Word { w % FLAG }

  lemma FreshHeader(w: Word, size: nat)
    requires size < FLAG
    ensures MarkedAlloc(WithSize(w, size)) == size + FLAG && MarkedFree(WithSize(w, size)) == size
  {
  }

  lemma MarkKeepsSize(w: Word)
    ensures MarkedAlloc(w) % FLAG == w % FLAG && MarkedAlloc(w) >= FLAG
  {
  }

  // ---------------------------------------------------------------- requests of every size

  /** Words, end of the row and pointer after a bump allocation, all in 32-bit arithmetic. */
  function Bumped(w: Words, offset: nat, heapSize: nat, size: nat): (Words, nat, Option<nat>)
    requires size < WORD && offset / 4 < |w|
  {
    var usedUp := (offset + size + MARKER) % WORD;
    if usedUp > heapSize then (w, offset, None)
    else (w[offset / 4 := MarkedAlloc(WithSize(w[offset / 4], size))], usedUp, Some(offset + MARKER))
  }

  /** What a request for n bytes is promised: nothing, and nothing changed, or a new last block of at least n bytes. */
  ghost predicate Serves(w: Words, offset: nat, heapSize: nat, n: nat, w': Words, offset': nat, r: Option<nat>)
    requires heapSize <= 4 * |w| && |w'| == |w| && offset <= heapSize && Tiled(w, 0, offset)
  {
    match r
    case None => w' == w && offset' == offset
    case Some(p) =>
      && offset' <= heapSize && Tiled(w', 0, offset')
      && var before, after := BlocksOf(w, 0, offset), BlocksOf(w', 0, offset');
      && |after| == |before| + 1 && after[..|before|] == before
      && after[|before|].Ptr() == p && after[|before|].used && after[|before|].size >= n
  }

  ghost predicate HeapOk(w: Words, offset: nat, heapSize: nat)
  {
    && heapSize % MEM_BLOCK == 0 && offset % MEM_BLOCK == 0 && offset <= heapSize <= 4 * |w| && heapSize < FLAG
    && Tiled(w, 0, offset)
  }

  lemma BumpedAppends(w: Words, offset: nat, heapSize: nat, size: nat)
    requires HeapOk(w, offset, heapSize) && Whole(size) && offset + size + MARKER <= heapSize
    ensures var (w', offset', r) := Bumped(w, offset, heapSize, size);
      && |w'| == |w| && HeapOk(w', offset', heapSize) && offset' == offset + MARKER + size && r == Some(offset + MARKER)
      && BlocksOf(w', 0, offset') == BlocksOf(w, 0, offset) + [Block(offset, size, true)]
  {
    hide Tiled, BlocksOf, Whole, Bumped, HeapOk;
    HeapBounds(w, offset, heapSize);
    BumpedFits(w, offset, heapSize, size);
    RowAppended(w, offset, heapSize, size);
  }

  lemma HeapBounds(w: Words, offset: nat, heapSize: nat)
    requires HeapOk(w, offset, heapSize)
    ensures offset <= heapSize <= 4 * |w| && heapSize < FLAG && Tiled(w, 0, offset)
    ensures offset % MEM_BLOCK == 0 && heapSize % MEM_BLOCK == 0
  {
  }

  /** The row with one more block at its end. */
  lemma RowAppended(w: Words, offset: nat, heapSize: nat, size: nat)
    requires HeapOk(w, offset, heapSize) && Whole(size) && offset + size + MARKER <= heapSize
    ensures offset / 4 < |w|
    ensures var w', end := w[offset / 4 := size + FLAG], offset + MARKER + size;
      && HeapOk(w', end, heapSize)
      && BlocksOf(w', 0, end) == BlocksOf(w, 0, offset) + [Block(offset, size, true)]
  {
    hide Tiled, BlocksOf, Whole;
    WholeEnd(offset, size);
    HeaderAppended(w, w[offset / 4 := size + FLAG], offset, size, true);
  }

  lemma BumpedFits(w: Words, offset: nat, heapSize: nat, size: nat)
    requires offset + size + MARKER <= heapSize <= 4 * |w| && heapSize < FLAG
    ensures Bumped(w, offset, heapSize, size)
         == (w[offset / 4 := size + FLAG], offset + MARKER + size, Some(offset + MARKER))
  {
    FreshHeader(w[offset / 4], size);
    hide MarkedAlloc, WithSize;
  }

  /** Past a wrapped sum the row does not reach the block that was handed out. */
  lemma WrappedIsLost(w: Words, offset: nat, heapSize: nat, size: nat, n: nat)
    requires HeapOk(w, offset, heapSize) && offset / 4 < |w| && size <= WORD - MARKER && offset + size + MARKER >= WORD
    ensures var (w', offset', r) := Bumped(w, offset, heapSize, size);
      |w'| == |w| && r == Some(offset + MARKER) && offset' <= offset && !Serves(w, offset, heapSize, n, w', offset', r)
  {
    hide BlocksOf;
    var (w', offset', r) := Bumped(w, offset, heapSize, size);
    assert offset' == offset + size + MARKER - WORD;
    if Tiled(w', 0, offset') {
      TilesAreRow(w', 0, offset');
      hide Tiled;
      var after := BlocksOf(w', 0, offset');
      forall i | 0 <= i < |after| ensures after[i].start < offset' { RowBounds(after, 0, offset', i); }
    }
  }

  /**
   A request is served, by a block of at least its size or by null, if and only if neither 32-bit sum wraps around;
   where rounding up wraps, null is still right when even the smallest block does not fit.
   */
  lemma ServesIff(w: Words, offset: nat, heapSize: nat, n: nat)
    requires HeapOk(w, offset, heapSize) && offset / 4 < |w| && 0 < n < WORD
    ensures var (w', offset', r) := Bumped(w, offset, heapSize, Adjusted(n));
      && |w'| == |w|
      && (Serves(w, offset, heapSize, n, w', offset', r) <==>
            if n <= WORD - MARKER then offset + Adjusted(n) + MARKER < WORD else offset + 8 > heapSize)
  {
    AdjustedIff(n);
    var size := Adjusted(n);
    WholeBound(size);
    hide Adjusted, Whole, Bumped, Serves, Tiled;
    if offset + size + MARKER >= WORD {
      WrappedIsLost(w, offset, heapSize, size, n);
    } else if offset + size + MARKER <= heapSize {
      FittingServes(w, offset, heapSize, size, n);
    } else {
      NullServes(w, offset, heapSize, size, n);
    }
  }

  /** A new last block serves a request that it is big enough for. */
  lemma FittingServes(w: Words, offset: nat, heapSize: nat, size: nat, n: nat)
    requires HeapOk(w, offset, heapSize) && Whole(size) && offset + size + MARKER <= heapSize
    ensures var (w', offset', r) := Bumped(w, offset, heapSize, size);
      |w'| == |w| && (Serves(w, offset, heapSize, n, w', offset', r) <==> size >= n)
  {
    BumpedAppends(w, offset, heapSize, size);
    hide Bumped, Tiled, BlocksOf, Whole;
  }

  lemma NullServes(w: Words, offset: nat, heapSize: nat, size: nat, n: nat)
    requires HeapOk(w, offset, heapSize) && offset / 4 < |w| && heapSize < offset + size + MARKER < WORD
    ensures var (w', offset', r) := Bumped(w, offset, heapSize, size);
      |w'| == |w| && Serves(w, offset, heapSize, n, w', offset', r)
  {
    hide Tiled;
  }

  lemma WholeBound(size: nat)
    requires size < WORD && Whole(size)
    ensures size <= WORD - MARKER
  {
  }

  /**
   On an empty heap of 8192 bytes the largest request is granted, takes up nothing, and shares its pointer with
   the next.
   */
  lemma LargestRequest(w: Words)
    requires |w| == 2048
    ensures Adjusted(0xFFFF_FFFC) == 0xFFFF_FFFC && Adjusted(0xFFFF_FFFD) == 4 && HeapOk(w, 0, 8192)
    ensures var (w', offset', r) := Bumped(w, 0, 8192, 0xFFFF_FFFC);
      && offset' == 0 && r == Some(4) && |w'| == |w| && !Serves(w, 0, 8192, 0xFFFF_FFFC, w', offset', r)
      && Bumped(w', offset', 8192, Adjusted(4)).2 == Some(4)
  {
    ServesIff(w, 0, 8192, 0xFFFF_FFFC);
  }

  /** The words of a block. */
  ghost predicate Covers(b: Block, k: nat) { b.start <= 4 * k < b.End() }

  /** The words of the blocks in use are the same. */
  ghost predicate Spared(b0: seq<Block>, w: Words, w': Words)
  {
    |w'| == |w| && forall b, k: nat :: InUse(b0, b) && Covers(b, k) && k < |w| ==> w'[k] == w[k]
  }

  lemma SparesItself(b0: seq<Block>, w: Words)
    ensures Spared(b0, w, w)
  {
  }

  lemma SparedStill(b0: seq<Block>, w: Words, w': Words, w'': Words)
    requires Spared(b0, w, w') && Spared(b0, w', w'')
    ensures Spared(b0, w, w'')
  {
  }

  lemma SparedMeans(b0: seq<Block>, w: Words, w': Words)
    requires Spared(b0, w, w')
    ensures |w'| == |w| && forall b, k: nat :: InUse(b0, b) && Covers(b, k) && k < |w| ==> w'[k] == w[k]
  {
  }

  class Memory {
    const words: array<Word>
    var heapSize: nat
    var offset: nat

    ghost predicate Valid()
      reads this, words
    {
      HeapOk(words[..], offset, heapSize)
    }

    /** The row of blocks that the headers describe. */
    ghost function Blocks(): seq<Block>
      requires Valid()
      reads this, words
    {
      BlocksOf(words[..], 0, offset)
    }

    constructor (memory: array<Word>, size: nat)
      requires size % MEM_BLOCK == 0 && size <= 4 * memory.Length && size < FLAG
      ensures Valid() && words == memory && heapSize == size && offset == 0 && Blocks() == []
    {
      words := memory;
      heapSize := size;
      offset := 0;
    }

    /** A request for n bytes, rounded up to whole memory blocks. */
    method Allocate(n: nat) returns (r: Result<Option<nat>, Error>)
      requires Valid() && n < WORD
      modifies this`offset, words
      ensures n == 0 ==> r == Ok(None)
      ensures n == 0 || r.Err? ==> offset == old(offset) && words[..] == old(words[..])
      ensures n > 0 && r.Ok? && old(offset) / 4 < words.Length ==>
        (words[..], offset, r.value) == Bumped(old(words[..]), old(offset), heapSize, Adjusted(n))
      ensures n > 0 ==>
        (r.Err? <==> old(offset) == 4 * words.Length && old(offset) + Adjusted(n) + MARKER >= WORD)
      ensures n > 0 && old(offset) + Adjusted(n) + MARKER < WORD ==>
        && Valid()
        && r == Ok(if old(offset) + Adjusted(n) + MARKER > heapSize then None else Some(old(offset) + MARKER))
        && Blocks() == old(Blocks()) + if r.value.Some? then [Block(old(offset), Adjusted(n), true)] else []
    {
      if n == 0 { return Ok(None); }
      AdjustedIff(n);
      hide Adjusted, Bumped, Tiled, BlocksOf;
      r := Malloc(Adjusted(n));
    }

    /** Bump allocation. It fails only when the sum wraps around and the header would lie outside the memory. */
    method Malloc(size: nat) returns (r: Result<Option<nat>, Error>)
      requires Valid() && Whole(size) && size < WORD
      modifies this`offset, words
      ensures r.Err? <==> old(offset) == 4 * words.Length && old(offset) + size + MARKER >= WORD
      ensures r.Err? ==> offset == old(offset) && words[..] == old(words[..])
      ensures r.Ok? && old(offset) / 4 < words.Length ==>
        (words[..], offset, r.value) == Bumped(old(words[..]), old(offset), heapSize, size)
      ensures old(offset) + size + MARKER < WORD ==>
        && Valid()
        && r == Ok(if old(offset) + size + MARKER > heapSize then None else Some(old(offset) + MARKER))
        && Blocks() == if r.value.Some? then old(Blocks()) + [Block(old(offset), size, true)] else old(Blocks())
      ensures forall k :: 0 <= k < words.Length && (4 * k != old(offset) || r == Ok(None)) ==> words[k] == old(words[k])
    {
      hide Tiled, BlocksOf;
      var usedUp := (offset + size + MARKER) % WORD;
      WholeBound(size);
      if usedUp > heapSize { return Ok(None); }
      var at := offset / 4;
      Quarter(offset);
      if at >= words.Length { return Err(OutOfBounds); }
      if offset + size + MARKER < WORD { BumpedAppends(words[..], offset, heapSize, size); }
      hide Whole;
      var p := offset + MARKER;
      words[at] := WithSize(words[at], size);
      words[at] := MarkedAlloc(words[at]);
      assert words[..] == old(words[..])[at := MarkedAlloc(WithSize(old(words[..])[at], size))];
      offset := usedUp;
      return Ok(Some(p));
    }

    /** Writes the header of a block at the end of the row. */
    method NewBuffer(size: nat, used: bool)
      requires Valid() && Whole(size) && offset + MARKER + size <= heapSize
      modifies this`offset, words
      ensures Valid() && offset == old(offset) + MARKER + size
      ensures Blocks() == old(Blocks()) + [Block(old(offset), size, used)]
      ensures forall k :: 0 <= k < words.Length && 4 * k != old(offset) ==> words[k] == old(words[k])
    {
      hide Tiled, BlocksOf, WithSize, MarkedAlloc, MarkedFree;
      var at := offset / 4;
      Quarter(offset);
      FreshHeader(words[at], size);
      words[at] := WithSize(words[at], size);
      words[at] := if used then MarkedAlloc(words[at]) else MarkedFree(words[at]);
      HeaderAppended(old(words[..]), words[..], offset, size, used);
      WholeEnd(offset, size);
      offset := offset + size + MARKER;
    }

    /** Gives a live block back. */
    method Free(ptr: nat, ghost i: nat)
      requires Valid() && i < |Blocks()| && Blocks()[i].Ptr() == ptr && Blocks()[i].used
      modifies words
      ensures Valid() && Blocks() == old(Blocks())[i := old(Blocks())[i].(used := false)]
      ensures forall k :: 0 <= k < words.Length && 4 * k != ptr - MARKER ==> words[k] == old(words[k])
    {
      hide Tiled, BlocksOf;
      BlockBoundary(words[..], 0, offset, i);
      Quarter(ptr - MARKER);
      words[(ptr - MARKER) / 4] := MarkedFree(words[(ptr - MARKER) / 4]);
      HeaderFreed(old(words[..]), words[..], offset, i);
    }

    /** Turns the rest of the heap into one free block. */
    method CleanupRemaining()
      requires Valid()
      modifies this`offset, words
      ensures Valid() && offset == heapSize
      ensures Blocks() == if old(offset) == heapSize then old(Blocks())
                          else old(Blocks()) + [Block(old(offset), RestSize(old(offset), heapSize), false)]
      ensures forall k :: 0 <= k < words.Length && 4 * k != old(offset) ==> words[k] == old(words[k])
    {
      if offset == heapSize { return; }
      hide Tiled, BlocksOf;
      var size := RestSize(offset, heapSize);
      WholeRest(offset, heapSize);
      NewBuffer(size, false);
    }

    /** The size a free block at o would have, joined with the free blocks after it as far as needed. */
    method PossibleSize(o: nat, needed: nat) returns (possible: nat)
      requires heapSize <= 4 * words.Length && o < heapSize && o % MEM_BLOCK == 0 && Tiled(words[..], o, heapSize)
      ensures Joins(words[..], o, heapSize, needed, possible)
    {
      hide Tiled, BlocksOf, Absorb, Whole;
      ghost var w := words[..];
      TileHead(w, o, heapSize);
      possible := words[o / 4] % FLAG;
      ghost var size := possible;
      while possible < needed && o + MARKER + possible < heapSize
        invariant o + MARKER + possible <= heapSize && Whole(possible) && Tiled(w, o + MARKER + possible, heapSize)
        invariant Absorb(size, BlocksOf(w, o + MARKER + size, heapSize), needed)
               == Absorb(possible, BlocksOf(w, o + MARKER + possible, heapSize), needed)
        decreases heapSize - possible
      {
        var at := o + MARKER + possible;
        WholeEnd(o, possible);
        var next := words[at / 4];
        if next >= FLAG { break; }
        AbsorbMore(w, at, heapSize, possible, needed);
        WholeSum(possible, next % FLAG);
        possible := possible + next % FLAG + MARKER;
      }
      WholeEnd(o, possible);
      AbsorbEnough(w, o + MARKER + possible, heapSize, possible, needed);
    }

    /** Joins the free block at o with those after it; splits off what is not needed. */
    method MergeContiguous(o: nat, needed: nat) returns (ok: bool)
      requires heapSize <= 4 * words.Length && heapSize < FLAG && o < heapSize && o % MEM_BLOCK == 0
      requires Tiled(words[..], o, heapSize) && !UsedAt(words[..], o) && Whole(needed)
      modifies words
      ensures Tiled(words[..], o, heapSize)
      ensures var m := MergeOf(old(words[..]), o, heapSize, needed);
        && ok == (m.size >= needed)
        && BlocksOf(words[..], o, heapSize)
            == (if ok then Unmarked(Cut(o, m.size, needed)) else [Block(o, m.size, false)]) + m.rest
        && forall k :: 0 <= k < words.Length && !(o <= 4 * k < o + MARKER + m.size) ==> words[k] == old(words[k])
    {
      hide Tiled, BlocksOf, Absorb, Whole, Cut, Unmarked;
      var possible := PossibleSize(o, needed);
      ghost var w := words[..];
      Quarter(o);
      var newSize := if possible < needed then possible else needed;
      SetSize(o, newSize);
      if possible > needed {
        WholeGap(possible, needed);
        WholeEnd(o, needed);
        Quarter(o + MARKER + needed);
        NewFree(o + MARKER + needed, possible - needed - MARKER);
        SplitWritten(w, words[..], o, heapSize, needed, possible);
      } else {
        JoinWritten(w, words[..], o, heapSize, possible);
        if possible == needed { CutWhole(o, needed); }
      }
      ok := newSize == needed;
    }

    /** Writes a new size into the header of a free block. */
    method SetSize(o: nat, size: nat)
      requires o / 4 < words.Length && words[o / 4] < FLAG && size < FLAG
      modifies words
      ensures words[..] == old(words[..])[o / 4 := size]
    {
      words[o / 4] := WithSize(words[o / 4], size);
    }

    /** Writes the header of a free block over whatever is there. */
    method NewFree(o: nat, size: nat)
      requires o / 4 < words.Length && size < FLAG
      modifies words
      ensures words[..] == old(words[..])[o / 4 := size]
    {
      FreshHeader(words[o / 4], size);
      words[o / 4] := WithSize(words[o / 4], size);
      words[o / 4] := MarkedFree(words[o / 4]);
    }

    /** First fit among the freed blocks of an exhausted heap; None when there is no room. */
    method MallocFromFreed(size: nat) returns (r: Result<Option<nat>, Error>)
      requires Valid() && Whole(size)
      modifies words
      ensures Valid()
      ensures r.Err? <==> offset != heapSize
      ensures r.Err? ==> words[..] == old(words[..])
      ensures r.Ok? ==> Fit(Blocks(), r.value) == FirstFit(old(Blocks()), size)
      ensures forall b, k: nat :: InUse(old(Blocks()), b) && Covers(b, k) && k < words.Length ==>
        words[k] == old(words[k])
    {
      if offset != heapSize { return Err(NotExhausted); }
      ghost var before := words[..];
      hide Tiled, BlocksOf, FirstFit, Whole, InUse, Covers, Walk, Spared;
      WalkStarts(before, heapSize, size);
      var found := SearchFreed(size, Blocks());
      SparedMeans(old(Blocks()), before, words[..]);
      return Ok(found);
    }

    /** The walk over the row. */
    method SearchFreed(size: nat, ghost b0: seq<Block>) returns (found: Option<nat>)
      requires heapSize < FLAG && heapSize <= 4 * words.Length && heapSize % MEM_BLOCK == 0 && Whole(size)
      requires Walk(b0, words[..], 0, heapSize, size)
      modifies words
      ensures Tiled(words[..], 0, heapSize) && FirstFit(b0, size) == Fit(BlocksOf(words[..], 0, heapSize), found)
      ensures Spared(b0, old(words[..]), words[..])
    {
      hide Tiled, BlocksOf, FirstFit, Whole, Walk, Spared;
      var o := 0;
      SparesItself(b0, words[..]);
      while o < heapSize
        invariant o % MEM_BLOCK == 0 && Walk(b0, words[..], o, heapSize, size)
        invariant Spared(b0, old(words[..]), words[..])
        decreases heapSize - o
      {
        ghost var w := words[..];
        var here := Visit(o, size, b0);
        SparedStill(b0, old(words[..]), w, words[..]);
        if here { return Some(o + MARKER); }
        WholeEnd(o, words[o / 4] % FLAG);
        o := o + MARKER + words[o / 4] % FLAG;
      }
      WalkBounds(b0, words[..], o, heapSize, size);
      WalkEnds(b0, words[..], heapSize, size);
      return None;
    }

    /** One block of the walk: when it is free, join it with what follows and take it if it is big enough. */
    method Visit(o: nat, size: nat, ghost b0: seq<Block>) returns (found: bool)
      requires heapSize < FLAG && heapSize <= 4 * words.Length && Whole(size)
      requires o < heapSize && o % MEM_BLOCK == 0 && Walk(b0, words[..], o, heapSize, size)
      modifies words
      ensures found ==>
        Tiled(words[..], 0, heapSize) && FirstFit(b0, size) == Fit(BlocksOf(words[..], 0, heapSize), Some(o + MARKER))
      ensures !found ==>
        Whole(SizeAt(words[..], o)) && Walk(b0, words[..], o + MARKER + SizeAt(words[..], o), heapSize, size)
      ensures Spared(b0, old(words[..]), words[..])
    {
      hide Tiled, BlocksOf, FirstFit, Absorb, Whole, InUse;
      ghost var w := words[..];
      TileHead(w, o, heapSize);
      if words[o / 4] >= FLAG {
        WalkUsed(b0, w, o, heapSize, size);
        return false;
      }
      found := MergeContiguous(o, size);
      MergeSpares(b0, w, o, heapSize, size);
      if !found {
        TileHead(words[..], o, heapSize);
        WalkJoined(b0, w, words[..], o, heapSize, size);
      } else {
        Quarter(o);
        ghost var merged := words[..];
        words[o / 4] := MarkedAlloc(words[o / 4]);
        WalkFound(b0, w, merged, words[..], o, heapSize, size);
      }
    }

    /** Grows the heap when the new memory directly follows it. */
    method ExpandMemory(start: nat, size: nat) returns (ok: bool)
      requires Valid() && size % MEM_BLOCK == 0
      requires start == heapSize ==> heapSize + size <= 4 * words.Length && heapSize + size < FLAG
      modifies this`heapSize
      ensures Valid() && ok == (start == old(heapSize))
      ensures heapSize == if ok then old(heapSize) + size else old(heapSize)
      ensures Blocks() == old(Blocks())
    {
      if heapSize != start { return false; }
      heapSize := heapSize + size;
      return true;
    }
  }

  // ---------------------------------------------------------------- joining and splitting in the words

  /** Joining from the block at o, as read from the headers. */
  ghost function MergeOf(w: Words, o: nat, end: nat, needed: nat): Merged
    requires end <= 4 * |w| && o < end && Tiled(w, o, end)
  {
    Absorb(SizeAt(w, o), BlocksOf(w, o + MARKER + SizeAt(w, o), end), needed)
  }

  /** `possible` is the joined size, and the headers after it describe the rest. */
  ghost predicate Joins(w: Words, o: nat, end: nat, needed: nat, possible: nat)
    requires end <= 4 * |w| && o < end && Tiled(w, o, end)
  {
    && o + MARKER + possible <= end && Whole(possible) && Tiled(w, o + MARKER + possible, end)
    && MergeOf(w, o, end, needed) == Merged(possible, BlocksOf(w, o + MARKER + possible, end))
  }

  lemma AbsorbMore(w: Words, at: nat, end: nat, size: nat, needed: nat)
    requires at < end <= 4 * |w| && at % MEM_BLOCK == 0 && Tiled(w, at, end) && !UsedAt(w, at) && size < needed
    ensures var next := at + MARKER + SizeAt(w, at);
      && Whole(SizeAt(w, at)) && next <= end && Tiled(w, next, end)
      && Absorb(size, BlocksOf(w, at, end), needed)
          == Absorb(size + MARKER + SizeAt(w, at), BlocksOf(w, next, end), needed)
  {
    hide Tiled, BlocksOf;
    TileHead(w, at, end);
  }

  lemma AbsorbEnough(w: Words, at: nat, end: nat, size: nat, needed: nat)
    requires at <= end <= 4 * |w| && at % MEM_BLOCK == 0 && Tiled(w, at, end)
    requires size >= needed || at == end || UsedAt(w, at)
    ensures Absorb(size, BlocksOf(w, at, end), needed) == Merged(size, BlocksOf(w, at, end))
  {
    hide Tiled, BlocksOf;
    if at == end { NoTile(w, end); } else { TileHead(w, at, end); }
  }

  // ---------------------------------------------------------------- walking the row

  /**
   The part of the row before o is settled; first fit on the part from o on gives what first fit on the whole
   row gives.
   */
  ghost predicate Walk(b0: seq<Block>, w: Words, o: nat, end: nat, needed: nat)
  {
    && o <= end <= 4 * |w| && Tiled(w, 0, o) && Tiled(w, o, end)
    && var later := FirstFit(BlocksOf(w, o, end), needed);
    && FirstFit(b0, needed) == Fit(BlocksOf(w, 0, o) + later.blocks, later.found)
    && forall b :: InUse(b0, b) ==> b.End() <= o || InUse(BlocksOf(w, o, end), b)
  }

  lemma WalkStarts(w: Words, end: nat, needed: nat)
    requires end <= 4 * |w| && Tiled(w, 0, end)
    ensures Walk(BlocksOf(w, 0, end), w, 0, end, needed)
  {
    hide FirstFit;
    NoTile(w, 0);
  }

  lemma WalkBounds(b0: seq<Block>, w: Words, o: nat, end: nat, needed: nat)
    requires Walk(b0, w, o, end, needed)
    ensures o <= end && Tiled(w, 0, o)
  {
  }

  lemma WalkEnds(b0: seq<Block>, w: Words, end: nat, needed: nat)
    requires end % MEM_BLOCK == 0 && Walk(b0, w, end, end, needed)
    ensures FirstFit(b0, needed) == Fit(BlocksOf(w, 0, end), None)
  {
    NoTile(w, end);
    hide Tiled, BlocksOf;
    assert FirstFit([], needed) == Fit([], None);
  }

  lemma {:induction false} WalkUsed(b0: seq<Block>, w: Words, o: nat, end: nat, needed: nat)
    requires o < end && o % MEM_BLOCK == 0 && Walk(b0, w, o, end, needed) && UsedAt(w, o)
    ensures Walk(b0, w, o + MARKER + SizeAt(w, o), end, needed)
  {
    hide Tiled, BlocksOf, Absorb, Cut;
    var next := o + MARKER + SizeAt(w, o);
    TileHead(w, o, end);
    Advance(w, o, end);
    var b := Block(o, SizeAt(w, o), true);
    var tail := BlocksOf(w, next, end);
    assert ([b] + tail)[1..] == tail;
    forall c | InUse([b] + tail, c) ensures c.End() <= next || InUse(tail, c) { }
    assert BlocksOf(w, 0, o) + ([b] + FirstFit(tail, needed).blocks)
        == BlocksOf(w, 0, o) + [b] + FirstFit(tail, needed).blocks;
  }

  /** One block further the settled part has one block more. */
  lemma Advance(w: Words, o: nat, end: nat)
    requires o < end <= 4 * |w| && o % MEM_BLOCK == 0 && Tiled(w, 0, o) && Tiled(w, o, end)
    ensures var next := o + MARKER + SizeAt(w, o);
      && next <= end && Tiled(w, 0, next)
      && BlocksOf(w, 0, next) == BlocksOf(w, 0, o) + [Block(o, SizeAt(w, o), UsedAt(w, o))]
  {
    hide Tiled, BlocksOf;
    TileHead(w, o, end);
    var next := o + MARKER + SizeAt(w, o);
    WholeEnd(o, SizeAt(w, o));
    NoTile(w, next);
    TileHead(w, o, next);
    TilesJoin(w, 0, o, next);
  }

  /** The free blocks that are joined hold nothing of a block in use. */
  lemma {:induction false} MergeSpares(b0: seq<Block>, w: Words, o: nat, end: nat, needed: nat)
    requires o < end && o % MEM_BLOCK == 0 && Walk(b0, w, o, end, needed) && !UsedAt(w, o)
    ensures var m := MergeOf(w, o, end, needed);
      forall b :: InUse(b0, b) ==> b.End() <= o || (InUse(m.rest, b) && o + MARKER + m.size <= b.start)
  {
    hide Tiled, BlocksOf, FirstFit;
    TileHead(w, o, end);
    var size := SizeAt(w, o);
    var rest := BlocksOf(w, o + MARKER + size, end);
    TilesAreRow(w, o + MARKER + size, end);
    AbsorbRow(o, size, rest, end, needed);
    var m := MergeOf(w, o, end, needed);
    forall b | InUse(b0, b) && !(b.End() <= o) ensures InUse(m.rest, b) && o + MARKER + m.size <= b.start {
      assert InUse(rest, b);
      AbsorbKeepsUsed(size, rest, needed, b);
      var i :| 0 <= i < |m.rest| && m.rest[i] == b;
      RowBounds(m.rest, o + MARKER + m.size, end, i);
    }
  }

  function Unmarked(blocks: seq<Block>): seq<Block>
    requires blocks != []
  {
    [blocks[0].(used := false)] + blocks[1..]
  }

  lemma WholeEnd(o: nat, size: nat)
    requires o % MEM_BLOCK == 0 && Whole(size)
    ensures (o + MARKER + size) % MEM_BLOCK == 0
  {
  }

  /** What a header leaves of the bytes from o to end. */
  function RestSize(o: nat, end: nat): nat { if o + MARKER <= end then end - o - MARKER else 0 }

  lemma WholeRest(o: nat, end: nat)
    requires o % MEM_BLOCK == 0 && end % MEM_BLOCK == 0 && o < end
    ensures o + MARKER + RestSize(o, end) == end && Whole(RestSize(o, end))
  {
  }

  lemma WholeSum(a: nat, b: nat)
    requires Whole(a) && Whole(b)
    ensures Whole(a + b + MARKER)
  {
  }

  lemma WholeGap(a: nat, b: nat)
    requires Whole(a) && Whole(b) && a > b
    ensures a - b >= MEM_BLOCK && Whole(a - b - MARKER)
  {
  }

  lemma JoinWritten(w: Words, w': Words, o: nat, end: nat, size: nat)
    requires end <= 4 * |w| && end < FLAG && o % MEM_BLOCK == 0 && o + MARKER + size <= end && Whole(size)
    requires Tiled(w, o + MARKER + size, end) && w' == w[o / 4 := size]
    ensures Tiled(w', o, end)
    ensures BlocksOf(w', o, end) == [Block(o, size, false)] + BlocksOf(w, o + MARKER + size, end)
  {
    hide Tiled, BlocksOf;
    Quarter(o);
    SameTiles(w, w', o + MARKER + size, end);
    TileHead(w', o, end);
  }

  lemma SplitWritten(w: Words, w': Words, o: nat, end: nat, needed: nat, size: nat)
    requires end <= 4 * |w| && end < FLAG && o % MEM_BLOCK == 0 && o + MARKER + size <= end
    requires Whole(size) && Whole(needed) && size > needed && needed + MARKER <= size
    requires Tiled(w, o + MARKER + size, end)
    requires var at := o + MARKER + needed;
      w' == w[o / 4 := needed][at / 4 := size - needed - MARKER]
    ensures Tiled(w', o, end)
    ensures BlocksOf(w', o, end) == Unmarked(Cut(o, size, needed)) + BlocksOf(w, o + MARKER + size, end)
  {
    hide Tiled, BlocksOf, Whole;
    var at, left := o + MARKER + needed, size - needed - MARKER;
    WholeGap(size, needed);
    WholeEnd(o, needed);
    var w1 := w[at / 4 := left];
    JoinWritten(w, w1, at, end, left);
    TwoHeaders(w, o, at, needed, left);
    JoinWritten(w1, w', o, end, needed);
    var rest := BlocksOf(w, o + MARKER + size, end);
    assert [Block(o, needed, false)] + ([Block(at, left, false)] + rest)
        == [Block(o, needed, false), Block(at, left, false)] + rest;
    CutInTwo(o, size, needed);
  }

  /** Two headers may be written in either order. */
  lemma TwoHeaders(w: Words, o: nat, at: nat, first: nat, second: nat)
    requires o % MEM_BLOCK == 0 && at % MEM_BLOCK == 0 && o < at && at / 4 < |w| && first < WORD && second < WORD
    ensures w[o / 4 := first][at / 4 := second] == w[at / 4 := second][o / 4 := first]
  {
    Quarter(o);
    Quarter(at);
  }

  lemma CutWhole(o: nat, size: nat)
    ensures Unmarked(Cut(o, size, size)) == [Block(o, size, false)]
  {
  }

  lemma CutInTwo(o: nat, size: nat, needed: nat)
    requires size > needed && needed + MARKER <= size
    ensures Unmarked(Cut(o, size, needed))
         == [Block(o, needed, false), Block(o + MARKER + needed, size - needed - MARKER, false)]
  {
  }

  lemma Quarter(o: nat)
    requires o % MEM_BLOCK == 0
    ensures 4 * (o / 4) == o
  {
  }

  /** A header written at the end of the row adds a block to it. */
  lemma HeaderAppended(w: Words, w': Words, o: nat, size: nat, used: bool)
    requires |w'| == |w| && o + MARKER + size <= 4 * |w| && Whole(size)
    requires size < FLAG && o % MEM_BLOCK == 0 && Tiled(w, 0, o)
    requires w' == w[o / 4 := if used then size + FLAG else size]
    ensures Tiled(w', 0, o + MARKER + size)
    ensures BlocksOf(w', 0, o + MARKER + size) == BlocksOf(w, 0, o) + [Block(o, size, used)]
  {
    Quarter(o);
    WholeEnd(o, size);
    HeaderWritten(w', o, size, used);
    hide Tiled, BlocksOf, Whole, SizeAt, UsedAt;
    var end := o + MARKER + size;
    SameTiles(w, w', 0, o);
    NoTile(w', end);
    TileHead(w', o, end);
    TilesJoin(w', 0, o, end);
  }

  lemma HeaderWritten(w: Words, o: nat, size: nat, used: bool)
    requires o / 4 < |w| && size < FLAG && w[o / 4] == if used then size + FLAG else size
    ensures SizeAt(w, o) == size && UsedAt(w, o) == used
  {
  }

  lemma NoTile(w: Words, o: nat)
    requires o <= 4 * |w| && o % MEM_BLOCK == 0
    ensures Tiled(w, o, o) && BlocksOf(w, o, o) == []
  {
  }

  lemma FreeKeepsSize(w: Words, w': Words, o: nat)
    requires o / 4 < |w| && w' == w[o / 4 := MarkedFree(w[o / 4])]
    ensures SizeAt(w', o) == SizeAt(w, o) && !UsedAt(w', o)
  {
  }

  lemma HeaderFreed(w: Words, w': Words, end: nat, i: nat)
    requires end <= 4 * |w| && Tiled(w, 0, end) && i < |BlocksOf(w, 0, end)|
    requires var b := BlocksOf(w, 0, end)[i];
      b.start / 4 < |w| && w' == w[b.start / 4 := MarkedFree(w[b.start / 4])]
    ensures Tiled(w', 0, end)
    ensures BlocksOf(w', 0, end) == BlocksOf(w, 0, end)[i := BlocksOf(w, 0, end)[i].(used := false)]
  {
    hide Tiled, BlocksOf, Whole, MarkedFree, SizeAt, UsedAt;
    var blocks := BlocksOf(w, 0, end);
    var b := blocks[i];
    BlockBoundary(w, 0, end, i);
    Quarter(b.start);
    SameTiles(w, w', 0, b.start);
    FreeKeepsSize(w, w', b.start);
    HeadRemarked(w, w', b.start, end, false);
    TilesJoin(w', 0, b.start, end);
    assert blocks[..i] + blocks[i..][0 := b.(used := false)] == blocks[i := b.(used := false)];
  }

  /** Marking the header of the first block as free or in use changes that block's mark only. */
  lemma HeadRemarked(w: Words, w': Words, o: nat, end: nat, used: bool)
    requires o < end <= 4 * |w| && o % MEM_BLOCK == 0 && Tiled(w, o, end)
    requires |w'| == |w| && forall k :: 0 <= k < |w| && k != o / 4 ==> w'[k] == w[k]
    requires SizeAt(w', o) == SizeAt(w, o) && UsedAt(w', o) == used
    ensures Tiled(w', o, end) && BlocksOf(w, o, end) != []
    ensures BlocksOf(w', o, end) == BlocksOf(w, o, end)[0 := BlocksOf(w, o, end)[0].(used := used)]
  {
    hide Tiled, BlocksOf, Whole, SizeAt, UsedAt;
    Quarter(o);
    TileHead(w, o, end);
    var next := o + MARKER + SizeAt(w, o);
    SameTiles(w, w', next, end);
    TileHead(w', o, end);
    var b, rest := Block(o, SizeAt(w, o), UsedAt(w, o)), BlocksOf(w, next, end);
    assert ([b] + rest)[0 := b.(used := used)] == [b.(used := used)] + rest;
  }

  lemma {:induction false} WalkJoined(b0: seq<Block>, w: Words, w': Words, o: nat, end: nat, needed: nat)
    requires o < end && o % MEM_BLOCK == 0 && Walk(b0, w, o, end, needed) && !UsedAt(w, o) && |w'| == |w|
    requires MergeOf(w, o, end, needed).size < needed
    requires Tiled(w', o, end)
    requires BlocksOf(w', o, end)
        == [Block(o, MergeOf(w, o, end, needed).size, false)] + MergeOf(w, o, end, needed).rest
    requires forall k :: 0 <= k < |w| && 4 * k < o ==> w'[k] == w[k]
    requires forall b :: InUse(b0, b) ==> b.End() <= o || InUse(MergeOf(w, o, end, needed).rest, b)
    ensures Walk(b0, w', o + MARKER + SizeAt(w', o), end, needed)
  {
    hide Tiled, BlocksOf, Absorb, Cut;
    var m := MergeOf(w, o, end, needed);
    TileHead(w, o, end);
    TileHead(w', o, end);
    SameTiles(w, w', 0, o);
    Advance(w', o, end);
    var b := Block(o, m.size, false);
    var next := o + MARKER + m.size;
    assert SizeAt(w', o) == BlocksOf(w', o, end)[0].size == m.size;
    assert BlocksOf(w', next, end) == ([b] + m.rest)[1..] == m.rest;
    FirstFitJoined(BlocksOf(w, o, end), needed, m);
    assert BlocksOf(w, 0, o) + ([b] + FirstFit(m.rest, needed).blocks)
        == BlocksOf(w, 0, o) + [b] + FirstFit(m.rest, needed).blocks;
  }

  lemma {:induction false} FirstFitJoined(blocks: seq<Block>, needed: nat, m: Merged)
    requires blocks != [] && !blocks[0].used && m == Absorb(blocks[0].size, blocks[1..], needed)
    ensures m.size < needed ==>
      FirstFit(blocks, needed)
      == Fit([Block(blocks[0].start, m.size, false)] + FirstFit(m.rest, needed).blocks, FirstFit(m.rest, needed).found)
    ensures m.size >= needed ==>
      FirstFit(blocks, needed) == Fit(Cut(blocks[0].start, m.size, needed) + m.rest, Some(blocks[0].Ptr()))
  {
    hide Absorb, Cut;
  }

  lemma {:induction false} WalkFound(b0: seq<Block>, w: Words, w': Words, w'': Words, o: nat, end: nat, needed: nat)
    requires o < end && o % MEM_BLOCK == 0 && Walk(b0, w, o, end, needed) && !UsedAt(w, o) && |w'| == |w|
    requires MergeOf(w, o, end, needed).size >= needed
    requires Tiled(w', o, end)
    requires BlocksOf(w', o, end)
        == Unmarked(Cut(o, MergeOf(w, o, end, needed).size, needed)) + MergeOf(w, o, end, needed).rest
    requires forall k :: 0 <= k < |w| && 4 * k < o ==> w'[k] == w[k]
    requires w'' == w'[o / 4 := MarkedAlloc(w'[o / 4])]
    ensures Tiled(w'', 0, end) && FirstFit(b0, needed) == Fit(BlocksOf(w'', 0, end), Some(o + MARKER))
  {
    hide Tiled, BlocksOf, Absorb, FirstFit;
    var m := MergeOf(w, o, end, needed);
    var cut := Cut(o, m.size, needed);
    TileHead(w, o, end);
    FirstFitJoined(BlocksOf(w, o, end), needed, m);
    Quarter(o);
    SameTiles(w, w'', 0, o);
    AllocKeepsSize(w', w'', o);
    HeadRemarked(w', w'', o, end, true);
    TilesJoin(w'', 0, o, end);
    hide Walk, InUse;
    assert BlocksOf(w'', o, end) == cut + m.rest by {
      hide MarkedAlloc, SizeAt, UsedAt, Whole;
      assert BlocksOf(w', o, end) == Unmarked(cut) + m.rest;
      assert BlocksOf(w', o, end)[0] == Unmarked(cut)[0];
      assert (Unmarked(cut) + m.rest)[0 := cut[0]] == cut + m.rest;
    }
  }

  lemma AllocKeepsSize(w: Words, w': Words, o: nat)
    requires o / 4 < |w| && w' == w[o / 4 := MarkedAlloc(w[o / 4])]
    ensures SizeAt(w', o) == SizeAt(w, o) && UsedAt(w', o)
  {
    MarkKeepsSize(w[o / 4]);
  }
}
