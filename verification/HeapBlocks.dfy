/**
 The block structure of a contract's heap, as values (contracts/eosiolib/eosiolib.cpp). The heap is a
 row of 32-bit words. A block is a header word followed by its payload; the header holds the payload
 size in bytes, and its top bit says whether the block is in use. Offsets are in bytes.
 */
module HeapBlocks {
  import opened Wrappers

  const WORD: nat := 0x1_0000_0000
  const FLAG: nat := 0x8000_0000
  const MARKER: nat := 4
  const MEM_BLOCK: nat := 8

  type Word = w: nat | w < 0x1_0000_0000
  type Words = seq<Word>

  /** A block: the offset of its header, the size of its payload, and whether it is in use. */
  datatype Block = Block(start: nat, size: nat, used: bool) {
    function End(): nat { start + 4 + size }
    function Ptr(): nat { start + 4 }
  }

  /** A payload size such that header and payload together fill whole memory blocks. */
  predicate Whole(size: nat) { (size + MARKER) % MEM_BLOCK == 0 }

  /** A requested size brought up to whole memory blocks, in 32-bit arithmetic. */
  function Adjusted(size: nat): (r: nat)
    requires size < WORD
    ensures r < WORD
  {
    var remainder := (size + MARKER) % WORD % MEM_BLOCK;
    if remainder > 0 then (size + (MEM_BLOCK - remainder)) % WORD else size
  }

  /** The last three sizes wrap around and become the smallest one. */
  lemma AdjustedIff(size: nat)
    requires 0 < size < WORD
    ensures Whole(Adjusted(size))
    ensures if size <= WORD - MARKER then size <= Adjusted(size) < size + MEM_BLOCK else Adjusted(size) == 4
  {
  }

  function SizeAt(w: Words, o: nat): nat
    requires o / 4 < |w|
  {
    w[o / 4] % FLAG
  }

  predicate UsedAt(w: Words, o: nat)
    requires o / 4 < |w|
  {
    w[o / 4] >= FLAG
  }

  /** Headers and payloads fill the bytes from o to end exactly, in whole memory blocks. */
  predicate Tiled(w: Words, o: nat, end: nat)
    requires end <= 4 * |w|
    decreases end - o
  {
    && o % MEM_BLOCK == 0
    && (|| o == end
        || (&& o < end && Whole(SizeAt(w, o)) && o + MARKER + SizeAt(w, o) <= end
            && Tiled(w, o + MARKER + SizeAt(w, o), end)))
  }

  function BlocksOf(w: Words, o: nat, end: nat): seq<Block>
    requires end <= 4 * |w| && Tiled(w, o, end)
    decreases end - o
  {
    if o == end then [] else [Block(o, SizeAt(w, o), UsedAt(w, o))] + BlocksOf(w, o + MARKER + SizeAt(w, o), end)
  }

  // ---------------------------------------------------------------- reading tiles

  /** Only the words between o and end matter. */
  lemma {:induction false} SameTiles(w: Words, w': Words, o: nat, end: nat)
    requires end <= 4 * |w| && end <= 4 * |w'| && Tiled(w, o, end)
    requires forall k :: o / 4 <= k < |w| && k < |w'| && 4 * k < end ==> w[k] == w'[k]
    ensures Tiled(w', o, end) && BlocksOf(w', o, end) == BlocksOf(w, o, end)
    decreases end - o
  {
    if o < end {
      SameTiles(w, w', o + MARKER + SizeAt(w, o), end);
    }
  }

  /** The first block of a row, and the rest. */
  lemma TileHead(w: Words, o: nat, end: nat)
    requires end <= 4 * |w| && o < end && o % MEM_BLOCK == 0
    ensures var next := o + MARKER + SizeAt(w, o);
      Whole(SizeAt(w, o)) && next <= end && Tiled(w, next, end) <==> Tiled(w, o, end)
    ensures Tiled(w, o, end) ==>
      BlocksOf(w, o, end) == [Block(o, SizeAt(w, o), UsedAt(w, o))] + BlocksOf(w, o + MARKER + SizeAt(w, o), end)
  {
  }

  lemma {:induction false} TilesJoin(w: Words, o: nat, m: nat, end: nat)
    requires m <= end <= 4 * |w| && Tiled(w, o, m) && Tiled(w, m, end)
    ensures Tiled(w, o, end) && BlocksOf(w, o, end) == BlocksOf(w, o, m) + BlocksOf(w, m, end)
    decreases m - o
  {
    if o < m {
      hide Tiled, BlocksOf;
      TileAligned(w, o, m);
      TileHead(w, o, m);
      TileHead(w, o, end);
      TilesJoin(w, o + MARKER + SizeAt(w, o), m, end);
    }
  }

  lemma TileAligned(w: Words, o: nat, end: nat)
    requires end <= 4 * |w| && Tiled(w, o, end)
    ensures o % MEM_BLOCK == 0 && o <= end
  {
  }

  /** A block of the row is where the headers say it is. */
  lemma {:induction false} BlockBoundary(w: Words, o: nat, end: nat, i: nat)
    requires end <= 4 * |w| && Tiled(w, o, end) && i < |BlocksOf(w, o, end)|
    ensures var b := BlocksOf(w, o, end)[i];
      && o <= b.start < end && b.start % MEM_BLOCK == 0 && b.End() <= end
      && Tiled(w, o, b.start) && Tiled(w, b.start, end)
      && b == Block(b.start, SizeAt(w, b.start), UsedAt(w, b.start))
      && BlocksOf(w, o, b.start) == BlocksOf(w, o, end)[..i] && BlocksOf(w, b.start, end) == BlocksOf(w, o, end)[i..]
    decreases end - o
  {
    var b := BlocksOf(w, o, end)[i];
    if i == 0 {
      assert BlocksOf(w, o, o) == [];
    } else {
      var next := o + MARKER + SizeAt(w, o);
      TileHead(w, o, end);
      hide Tiled, BlocksOf, Whole, SizeAt, UsedAt;
      BlockBoundary(w, next, end, i - 1);
      TileHead(w, o, b.start);
    }
  }

  /** Blocks follow one another without gap or overlap, in whole memory blocks. */
  predicate Row(blocks: seq<Block>, o: nat, end: nat)
  {
    if blocks == [] then o == end
    else blocks[0].start == o && Whole(blocks[0].size) && Row(blocks[1..], blocks[0].End(), end)
  }

  lemma {:induction false} TilesAreRow(w: Words, o: nat, end: nat)
    requires end <= 4 * |w| && Tiled(w, o, end)
    ensures Row(BlocksOf(w, o, end), o, end)
    decreases end - o
  {
    if o < end {
      TileAligned(w, o, end);
      TileHead(w, o, end);
      hide Tiled, BlocksOf, Whole, SizeAt, UsedAt;
      var next := o + MARKER + SizeAt(w, o);
      TilesAreRow(w, next, end);
      assert BlocksOf(w, o, end)[1..] == BlocksOf(w, next, end);
    }
  }

  lemma {:induction false} RowBounds(blocks: seq<Block>, o: nat, end: nat, i: nat)
    requires Row(blocks, o, end) && i < |blocks|
    ensures o <= blocks[i].start && blocks[i].End() <= end
    ensures i > 0 ==> blocks[0].End() <= blocks[i].start
    decreases |blocks|
  {
    RowGrows(blocks, o, end);
    if i > 0 { RowBounds(blocks[1..], blocks[0].End(), end, i - 1); }
    else { RowGrows(blocks[1..], blocks[0].End(), end); }
  }

  lemma {:induction false} RowGrows(blocks: seq<Block>, o: nat, end: nat)
    requires Row(blocks, o, end)
    ensures o <= end
    decreases |blocks|
  {
    if blocks != [] { RowGrows(blocks[1..], blocks[0].End(), end); }
  }

  /** Payloads of different blocks are disjoint and inside the heap. */
  lemma {:induction false} PayloadsDisjoint(blocks: seq<Block>, o: nat, end: nat, i: nat, j: nat)
    requires Row(blocks, o, end) && i < j < |blocks|
    ensures o < blocks[i].Ptr() && blocks[i].End() <= blocks[j].start < blocks[j].Ptr() && blocks[j].End() <= end
    decreases |blocks|
  {
    RowBounds(blocks, o, end, i);
    RowBounds(blocks, o, end, j);
    if i > 0 {
      PayloadsDisjoint(blocks[1..], blocks[0].End(), end, i - 1, j - 1);
    }
  }

  // ---------------------------------------------------------------- first fit, on values

  datatype Merged = Merged(size: nat, rest: seq<Block>)

  /** Joins following free blocks to a free block of the given size until it is big enough or none follows. */
  function Absorb(size: nat, rest: seq<Block>, needed: nat): Merged
    decreases |rest|
  {
    if size >= needed || rest == [] || rest[0].used then Merged(size, rest)
    else Absorb(size + MARKER + rest[0].size, rest[1..], needed)
  }

  datatype Fit = Fit(blocks: seq<Block>, found: Option<nat>)

  /** The block cut to the size needed, and what is left of it as a free block. */
  function Cut(start: nat, size: nat, needed: nat): seq<Block>
    requires size >= needed
  {
    if size - needed < MARKER then [Block(start, needed, true)]
    else [Block(start, needed, true), Block(start + MARKER + needed, size - needed - MARKER, false)]
  }

  /**
   First fit: the first free block that, joined with the free blocks after it, is big enough. Free
   blocks passed over on the way stay joined.
   */
  function FirstFit(blocks: seq<Block>, needed: nat): Fit
    decreases |blocks|
  {
    if blocks == [] then Fit([], None)
    else if blocks[0].used then
      var later := FirstFit(blocks[1..], needed);
      Fit([blocks[0]] + later.blocks, later.found)
    else
      var m := Absorb(blocks[0].size, blocks[1..], needed);
      AbsorbShortens(blocks[0].size, blocks[1..], needed);
      if m.size >= needed then Fit(Cut(blocks[0].start, m.size, needed) + m.rest, Some(blocks[0].Ptr()))
      else
        var later := FirstFit(m.rest, needed);
        Fit([Block(blocks[0].start, m.size, false)] + later.blocks, later.found)
  }

  lemma {:induction false} AbsorbShortens(size: nat, rest: seq<Block>, needed: nat)
    ensures |Absorb(size, rest, needed).rest| <= |rest|
    decreases |rest|
  {
    if !(size >= needed || rest == [] || rest[0].used) {
      AbsorbShortens(size + MARKER + rest[0].size, rest[1..], needed);
    }
  }

  /** Joining keeps the row: the joined block ends where the rest begins. */
  lemma {:induction false} AbsorbRow(start: nat, size: nat, rest: seq<Block>, end: nat, needed: nat)
    requires Whole(size) && Row(rest, start + MARKER + size, end)
    ensures var m := Absorb(size, rest, needed);
      Whole(m.size) && m.size >= size && Row(m.rest, start + MARKER + m.size, end)
    decreases |rest|
  {
    if !(size >= needed || rest == [] || rest[0].used) {
      AbsorbRow(start, size + MARKER + rest[0].size, rest[1..], end, needed);
    }
  }

  /** First fit keeps the row tiled. */
  lemma {:induction false} FirstFitRow(blocks: seq<Block>, o: nat, end: nat, needed: nat)
    requires Row(blocks, o, end) && Whole(needed)
    ensures Row(FirstFit(blocks, needed).blocks, o, end)
    decreases |blocks|
  {
    if blocks != [] {
      var b := blocks[0];
      if b.used {
        FirstFitRow(blocks[1..], b.End(), end, needed);
      } else {
        var m := Absorb(b.size, blocks[1..], needed);
        AbsorbShortens(b.size, blocks[1..], needed);
        AbsorbRow(o, b.size, blocks[1..], end, needed);
        if m.size >= needed {
          CutRow(o, m.size, needed, m.rest, end);
        } else {
          FirstFitRow(m.rest, o + MARKER + m.size, end, needed);
        }
      }
    }
  }

  lemma CutRow(start: nat, size: nat, needed: nat, rest: seq<Block>, end: nat)
    requires Whole(size) && Whole(needed) && size >= needed && Row(rest, start + MARKER + size, end)
    ensures Row(Cut(start, size, needed) + rest, start, end)
  {
    var cut := Cut(start, size, needed);
    if |cut| == 1 {
      assert size == needed;
      assert (cut + rest)[1..] == rest;
    } else {
      assert (cut + rest)[1..] == [cut[1]] + rest;
      assert ([cut[1]] + rest)[1..] == rest;
    }
  }

  predicate InUse(blocks: seq<Block>, b: Block)
  {
    b.used && b in blocks
  }

  lemma {:induction false} AbsorbKeepsUsed(size: nat, rest: seq<Block>, needed: nat, b: Block)
    ensures InUse(rest, b) <==> InUse(Absorb(size, rest, needed).rest, b)
    decreases |rest|
  {
    if !(size >= needed || rest == [] || rest[0].used) {
      AbsorbKeepsUsed(size + MARKER + rest[0].size, rest[1..], needed, b);
    }
  }

  /** The blocks in use after first fit are those before and, when it succeeds, the one it returns. */
  lemma {:induction false} FirstFitKeepsUsed(blocks: seq<Block>, needed: nat, b: Block)
    ensures var r := FirstFit(blocks, needed);
      InUse(r.blocks, b) <==> InUse(blocks, b) || (r.found == Some(b.Ptr()) && b.size == needed && b.used)
    decreases |blocks|
  {
    if blocks != [] {
      if blocks[0].used {
        FirstFitKeepsUsed(blocks[1..], needed, b);
      } else {
        AbsorbShortens(blocks[0].size, blocks[1..], needed);
        AbsorbKeepsUsed(blocks[0].size, blocks[1..], needed, b);
        FirstFitKeepsUsed(Absorb(blocks[0].size, blocks[1..], needed).rest, needed, b);
      }
    }
  }

  // ---------------------------------------------------------------- when first fit finds nothing

  predicate AllFree(blocks: seq<Block>, i: nat, j: nat)
  {
    j <= |blocks| && forall k :: i <= k < j ==> !blocks[k].used
  }

  /** No run of adjacent free blocks, joined into one, would hold the request. */
  predicate NoRoom(blocks: seq<Block>, needed: nat)
  {
    forall i, j :: 0 <= i < j <= |blocks| && AllFree(blocks, i, j) ==> blocks[j - 1].End() < blocks[i].Ptr() + needed
  }

  /** How far joining goes. */
  lemma {:induction false} AbsorbStops(start: nat, size: nat, rest: seq<Block>, end: nat, needed: nat) returns (a: nat)
    requires Row(rest, start + MARKER + size, end)
    ensures var m := Absorb(size, rest, needed);
      && a <= |rest| && m.rest == rest[a..] && AllFree(rest, 0, a)
      && start + MARKER + m.size == (if a == 0 then start + MARKER + size else rest[a - 1].End())
      && (m.size >= needed || a == |rest| || rest[a].used)
    decreases |rest|
  {
    if size >= needed || rest == [] || rest[0].used {
      a := 0;
    } else {
      a := AbsorbStops(start, size + MARKER + rest[0].size, rest[1..], end, needed);
      a := a + 1;
    }
  }

  lemma {:induction false} RowFrom(blocks: seq<Block>, o: nat, end: nat, i: nat)
    requires Row(blocks, o, end) && i < |blocks|
    ensures Row(blocks[i..], blocks[i].start, end)
    ensures i + 1 < |blocks| ==> blocks[i + 1].start == blocks[i].End()
    decreases |blocks|
  {
    if i > 0 { RowFrom(blocks[1..], blocks[0].End(), end, i - 1); assert blocks[1..][i - 1..] == blocks[i..]; }
  }

  /**
   Dropping the first c blocks, of which the free ones form a small run ended by a block in use, changes
   nothing about room.
   */
  lemma {:induction false} NoRoomAfter(blocks: seq<Block>, o: nat, end: nat, needed: nat, c: nat)
    requires Row(blocks, o, end) && 0 < c <= |blocks| && AllFree(blocks, 0, c)
    requires c == |blocks| || blocks[c].used
    requires blocks[c - 1].End() < blocks[0].Ptr() + needed
    ensures NoRoom(blocks, needed) <==> NoRoom(blocks[c..], needed)
  {
    var rest := blocks[c..];
    if NoRoom(rest, needed) {
      forall i, j | 0 <= i < j <= |blocks| && AllFree(blocks, i, j)
        ensures blocks[j - 1].End() < blocks[i].Ptr() + needed
      {
        if i >= c {
          assert AllFree(rest, i - c, j - c);
          assert rest[j - c - 1] == blocks[j - 1] && rest[i - c] == blocks[i];
        } else {
          assert j <= c;
          if i > 0 { PayloadsDisjoint(blocks, o, end, 0, i); }
          if j < c { PayloadsDisjoint(blocks, o, end, j - 1, c - 1); }
        }
      }
    }
    if NoRoom(blocks, needed) {
      forall i, j | 0 <= i < j <= |rest| && AllFree(rest, i, j) ensures rest[j - 1].End() < rest[i].Ptr() + needed {
        forall k | i + c <= k < j + c ensures !blocks[k].used { assert blocks[k] == rest[k - c]; }
        assert AllFree(blocks, i + c, j + c);
        assert rest[j - 1] == blocks[j + c - 1] && rest[i] == blocks[i + c];
      }
    }
  }

  lemma NoRoomAfterUsed(blocks: seq<Block>, needed: nat)
    requires blocks != [] && blocks[0].used
    ensures NoRoom(blocks, needed) <==> NoRoom(blocks[1..], needed)
  {
    var rest := blocks[1..];
    if NoRoom(rest, needed) {
      forall i, j | 0 <= i < j <= |blocks| && AllFree(blocks, i, j)
        ensures blocks[j - 1].End() < blocks[i].Ptr() + needed
      {
        assert i > 0;
        assert AllFree(rest, i - 1, j - 1);
      }
    }
    if NoRoom(blocks, needed) {
      forall i, j | 0 <= i < j <= |rest| && AllFree(rest, i, j) ensures rest[j - 1].End() < rest[i].Ptr() + needed {
        forall k | i + 1 <= k < j + 1 ensures !blocks[k].used { assert blocks[k] == rest[k - 1]; }
        assert AllFree(blocks, i + 1, j + 1);
      }
    }
  }

  /** First fit finds nothing exactly when no run of adjacent free blocks is big enough. */
  lemma {:induction false} FirstFitComplete(blocks: seq<Block>, o: nat, end: nat, needed: nat)
    requires Row(blocks, o, end)
    ensures FirstFit(blocks, needed).found.None? <==> NoRoom(blocks, needed)
    decreases |blocks|
  {
    hide NoRoom;
    if blocks == [] {
      NoRoomInNothing(needed);
    } else if blocks[0].used {
      NoRoomAfterUsed(blocks, needed);
      FirstFitComplete(blocks[1..], blocks[0].End(), end, needed);
    } else {
      var m := Absorb(blocks[0].size, blocks[1..], needed);
      AbsorbShortens(blocks[0].size, blocks[1..], needed);
      var a := AbsorbStops(o, blocks[0].size, blocks[1..], end, needed);
      var c := a + 1;
      assert m.rest == blocks[c..];
      assert AllFree(blocks, 0, c) by {
        forall k | 0 <= k < c ensures !blocks[k].used { if k > 0 { assert blocks[k] == blocks[1..][k - 1]; } }
      }
      assert o + MARKER + m.size == blocks[c - 1].End();
      if m.size >= needed {
        RoomFound(blocks, needed, c);
      } else {
        NoRoomAfter(blocks, o, end, needed, c);
        if m.rest != [] {
          RowFrom(blocks, o, end, c);
          FirstFitComplete(m.rest, blocks[c].start, end, needed);
        } else {
          NoRoomInNothing(needed);
        }
      }
    }
  }

  lemma NoRoomInNothing(needed: nat)
    ensures NoRoom([], needed)
  {
  }

  lemma RoomFound(blocks: seq<Block>, needed: nat, c: nat)
    requires 0 < c <= |blocks| && AllFree(blocks, 0, c) && blocks[c - 1].End() >= blocks[0].Ptr() + needed
    ensures !NoRoom(blocks, needed)
  {
  }

  // ---------------------------------------------------------------- which block is taken

  /** Every run of adjacent free blocks that starts before block c is too small. */
  predicate TooSmallBefore(blocks: seq<Block>, needed: nat, c: nat)
  {
    forall i, j :: 0 <= i < j <= |blocks| && i < c && AllFree(blocks, i, j) ==>
      blocks[j - 1].End() < blocks[i].Ptr() + needed
  }

  /** The block taken is free, and it is the first from which enough adjacent free memory starts. */
  lemma {:induction false} FirstFitIsFirst(blocks: seq<Block>, o: nat, end: nat, needed: nat) returns (c: nat)
    requires Row(blocks, o, end) && FirstFit(blocks, needed).found.Some?
    ensures c < |blocks| && !blocks[c].used && FirstFit(blocks, needed).found == Some(blocks[c].Ptr())
    ensures TooSmallBefore(blocks, needed, c)
    decreases |blocks|
  {
    hide TooSmallBefore;
    if blocks[0].used {
      c := FirstFitIsFirst(blocks[1..], blocks[0].End(), end, needed);
      c := c + 1;
      SmallAfterUsed(blocks, needed, c);
    } else {
      var m := Absorb(blocks[0].size, blocks[1..], needed);
      AbsorbShortens(blocks[0].size, blocks[1..], needed);
      if m.size >= needed {
        c := 0;
        NothingBefore(blocks, needed);
      } else {
        var a := AbsorbStops(o, blocks[0].size, blocks[1..], end, needed);
        a := a + 1;
        assert m.rest == blocks[a..];
        assert AllFree(blocks, 0, a) by {
          forall k | 0 <= k < a ensures !blocks[k].used { if k > 0 { assert blocks[k] == blocks[1..][k - 1]; } }
        }
        assert m.rest != [];
        RowFrom(blocks, o, end, a);
        c := FirstFitIsFirst(m.rest, blocks[a].start, end, needed);
        c := c + a;
        SmallAfterFree(blocks, o, end, needed, a, c);
      }
    }
  }

  lemma NothingBefore(blocks: seq<Block>, needed: nat)
    ensures TooSmallBefore(blocks, needed, 0)
  {
  }

  lemma SmallAfterUsed(blocks: seq<Block>, needed: nat, c: nat)
    requires blocks != [] && blocks[0].used && c > 0 && TooSmallBefore(blocks[1..], needed, c - 1)
    ensures TooSmallBefore(blocks, needed, c)
  {
    var rest := blocks[1..];
    forall i, j | 0 <= i < j <= |blocks| && i < c && AllFree(blocks, i, j)
      ensures blocks[j - 1].End() < blocks[i].Ptr() + needed
    {
      assert i > 0;
      assert AllFree(rest, i - 1, j - 1);
    }
  }

  /** A run of free blocks that is too small as a whole, and ends at a block in use, is too small from everywhere. */
  lemma SmallAfterFree(blocks: seq<Block>, o: nat, end: nat, needed: nat, a: nat, c: nat)
    requires Row(blocks, o, end) && 0 < a < |blocks| && AllFree(blocks, 0, a) && blocks[a].used && c >= a
    requires blocks[a - 1].End() < blocks[0].Ptr() + needed && TooSmallBefore(blocks[a..], needed, c - a)
    ensures TooSmallBefore(blocks, needed, c)
  {
    var rest := blocks[a..];
    forall i, j | 0 <= i < j <= |blocks| && i < c && AllFree(blocks, i, j)
      ensures blocks[j - 1].End() < blocks[i].Ptr() + needed
    {
      if i >= a {
        assert AllFree(rest, i - a, j - a);
        assert rest[j - a - 1] == blocks[j - 1] && rest[i - a] == blocks[i];
      } else {
        assert j <= a;
        if i > 0 { PayloadsDisjoint(blocks, o, end, 0, i); }
        if j < a { PayloadsDisjoint(blocks, o, end, j - 1, a - 1); }
      }
    }
  }

  /** No two of the first m blocks are adjacent and both free. */
  predicate Joined(blocks: seq<Block>, m: nat)
  {
    forall k :: 0 <= k && k + 1 < m && k + 1 < |blocks| ==> blocks[k].used || blocks[k + 1].used
  }

  /** Adjacent free blocks before the one taken, or all of them when none is, have been joined. */
  lemma {:induction false} FirstFitJoins(blocks: seq<Block>, needed: nat) returns (m: nat)
    ensures var r := FirstFit(blocks, needed);
      && Joined(r.blocks, m)
      && (r.found.None? ==> m == |r.blocks|)
      && (r.found.Some? ==> m < |r.blocks| && r.blocks[m].used && r.found == Some(r.blocks[m].Ptr()))
      && (blocks != [] && blocks[0].used ==> r.blocks != [] && r.blocks[0] == blocks[0])
    decreases |blocks|
  {
    m := 0;
    if blocks != [] {
      var r := FirstFit(blocks, needed);
      if blocks[0].used {
        m := FirstFitJoins(blocks[1..], needed);
        JoinedMore(blocks[0], FirstFit(blocks[1..], needed).blocks, m);
        m := m + 1;
      } else {
        var a := Absorb(blocks[0].size, blocks[1..], needed);
        AbsorbShortens(blocks[0].size, blocks[1..], needed);
        AbsorbEnds(blocks[0].size, blocks[1..], needed);
        if a.size < needed {
          m := FirstFitJoins(a.rest, needed);
          JoinedMore(Block(blocks[0].start, a.size, false), FirstFit(a.rest, needed).blocks, m);
          m := m + 1;
        }
      }
    }
  }

  lemma JoinedMore(b: Block, later: seq<Block>, m: nat)
    requires Joined(later, m) && (b.used || later == [] || later[0].used)
    ensures Joined([b] + later, m + 1)
  {
    var all := [b] + later;
    forall k | 0 <= k && k + 1 < m + 1 && k + 1 < |all| ensures all[k].used || all[k + 1].used {
      if k > 0 { assert all[k] == later[k - 1] && all[k + 1] == later[k]; }
    }
  }

  lemma {:induction false} AbsorbEnds(size: nat, rest: seq<Block>, needed: nat)
    ensures var m := Absorb(size, rest, needed);
      m.size < needed ==> m.rest == [] || m.rest[0].used
    decreases |rest|
  {
    if !(size >= needed || rest == [] || rest[0].used) {
      AbsorbEnds(size + MARKER + rest[0].size, rest[1..], needed);
    }
  }
}
