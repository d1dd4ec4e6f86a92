/** The block log: appending, reading back, and opening with whatever index is left on disk. */
module BlockLog {
  import opened Wrappers
  import opened BlockLogFormat

  /** An index is kept as it is when its last entry points at the last block, and rebuilt otherwise. */
  predicate Trusted<B>(c: Codec<B>, index: Bytes, bs: seq<B>)
    requires bs != []
  {
    Mapped(index) >= POS_SIZE && Last64(index) == Ok(Start(c, bs, |bs| - 1))
  }

  function Reopened<B>(c: Codec<B>, index: Bytes, bs: seq<B>): Bytes
    requires bs != []
  {
    if Trusted(c, index, bs) then index else IndexOf(c, bs)
  }

  /** Whatever number of entries at the end were lost, opening ends with the index that appending built. */
  lemma LostEntriesAreRebuilt<B(!new)>(c: Codec<B>, bs: seq<B>, k: nat)
    requires Fits(c, bs) && bs != [] && k <= |bs|
    ensures Reopened(c, IndexOf(c, bs)[..POS_SIZE * k], bs) == IndexOf(c, bs)
  {
    hide LogOf, Le, FromLe, IndexOf;
    var index := IndexOf(c, bs)[..POS_SIZE * k];
    if 0 < k < |bs| {
      IndexAt(c, bs, k - 1);
      assert index[|index| - POS_SIZE..] == IndexOf(c, bs)[POS_SIZE * (k - 1)..POS_SIZE * k];
      StartsIncrease(c, bs, k - 1, |bs| - 1);
    }
  }

  /** What the last eight bytes of the first `length` bytes of the index come to, when they straddle two entries. */
  function Misread<B>(c: Codec<B>, bs: seq<B>, length: nat): nat
    requires POS_SIZE < length < POS_SIZE * |bs| && length % POS_SIZE != 0
  {
    var k := length / POS_SIZE;
    Across(Start(c, bs, k - 1), Start(c, bs, k), length % POS_SIZE)
  }

  /**
   Opening recovers from an index cut to this many bytes: so few that it counts as empty, or a whole number of entries,
   or a broken entry at the end that is not misread as the position of the last block.
   */
  predicate Recoverable<B>(c: Codec<B>, bs: seq<B>, length: nat)
    requires bs != [] && length <= POS_SIZE * |bs|
  {
    || length < VERSION_SIZE
    || (length >= POS_SIZE && (length % POS_SIZE == 0 || Misread(c, bs, length) != Start(c, bs, |bs| - 1)))
  }

  lemma CutAcross(index: Bytes, at: nat, r: nat, first: Bytes, second: Bytes)
    requires r < POS_SIZE && at + POS_SIZE + POS_SIZE <= |index|
    requires index[at..at + POS_SIZE] == first && index[at + POS_SIZE..at + POS_SIZE + POS_SIZE] == second
    ensures index[..at + POS_SIZE + r][at + r..] == first[r..] + second[..r]
  {
    var cut := index[..at + POS_SIZE + r][at + r..];
    forall i | 0 <= i < POS_SIZE ensures cut[i] == (first[r..] + second[..r])[i] {
      if i < POS_SIZE - r { assert first[i + r] == index[at + i + r]; }
      else { assert second[i + r - POS_SIZE] == index[at + i + r]; }
    }
  }

  lemma Straddles<B(!new)>(c: Codec<B>, bs: seq<B>, length: nat)
    requires Fits(c, bs) && POS_SIZE < length < POS_SIZE * |bs| && length % POS_SIZE != 0
    ensures Last64(IndexOf(c, bs)[..length]) == Ok(Misread(c, bs, length))
  {
    hide LogOf, Le, FromLe, IndexOf, Across;
    var k, r := length / POS_SIZE, length % POS_SIZE;
    var index := IndexOf(c, bs);
    var m, n := Start(c, bs, k - 1), Start(c, bs, k);
    LogPrefix(c, bs, k - 1);
    EntryAt(c, bs, k - 1);
    EntryAt(c, bs, k);
    CutAcross(index, POS_SIZE * (k - 1), r, Le(m, POS_SIZE), Le(n, POS_SIZE));
    ReadAcross(m, n, r);
  }

  /** Of all beginnings of the true index, opening ends with the whole index exactly for the recoverable ones. */
  lemma CutIndexIff<B(!new)>(c: Codec<B>, bs: seq<B>, length: nat)
    requires Fits(c, bs) && bs != [] && length <= POS_SIZE * |bs|
    ensures var index := IndexOf(c, bs)[..length];
      Recoverable(c, bs, length) <==> !(VERSION_SIZE <= |index| < POS_SIZE) && Reopened(c, index, bs) == IndexOf(c, bs)
  {
    hide LogOf, Le, FromLe, IndexOf, Across;
    if length % POS_SIZE == 0 {
      LostEntriesAreRebuilt(c, bs, length / POS_SIZE);
    } else if length > POS_SIZE {
      Straddles(c, bs, length);
    }
  }

  class Log<B(!new)> {
    const codec: Codec<B>
    var blockFile: Bytes
    var indexFile: Bytes
    var head: Option<B>

    constructor (codec: Codec<B>, blockFile: Bytes, indexFile: Bytes)
      ensures this.codec == codec && this.blockFile == blockFile && this.indexFile == indexFile && head == None
    {
      this.codec, this.blockFile, this.indexFile, head := codec, blockFile, indexFile, None;
    }

    /** The files and the head after appending these blocks. */
    ghost predicate Holds(bs: seq<B>)
      reads this
    {
      && Fits(codec, bs)
      && blockFile == LogOf(codec, bs)
      && (if bs == [] then Mapped(indexFile) == 0 && head.None?
          else indexFile == IndexOf(codec, bs) && head == Some(bs[|bs| - 1]))
    }

    method Reset()
      requires Faithful(codec)
      modifies this
      ensures blockFile == LogOf(codec, []) && Mapped(indexFile) == 0 && head == old(head)
      ensures head.None? ==> Holds([])
    {
      indexFile := [0];
      blockFile := Le(VERSION, VERSION_SIZE);
    }

    /** Goes through exactly for the next block, if it is not too large; otherwise nothing changes. */
    method Append(block: B, ghost bs: seq<B>) returns (r: Result<nat, LogError>)
      requires Holds(bs) && |blockFile| + MAX_BLOCK_SIZE + POS_SIZE < POS_LIMIT
      modifies this
      ensures r.Ok? <==> |codec.pack(block)| <= 2_097_152 && codec.num(block) == |bs| + 1
      ensures r.Err? ==> r.error == if |codec.pack(block)| > 2_097_152 then TooLarge else WrongPosition
      ensures if r.Ok? then Holds(bs + [block]) && r.value == Start(codec, bs, |bs|) else unchanged(this)
    {
      hide LogOf, Le, FromLe, IndexOf;
      var indexPos := Mapped(indexFile);
      var data := codec.pack(block);
      if |data| > MAX_BLOCK_SIZE { return Err(TooLarge); }
      if indexPos != POS_SIZE * (codec.num(block) - 1) { return Err(WrongPosition); }
      var blockPos := Mapped(blockFile);
      blockFile := blockFile[..blockPos] + data + Le(blockPos, POS_SIZE);
      indexFile := indexFile[..indexPos] + Le(blockPos, POS_SIZE);
      head := Some(block);
      ghost var bs' := bs + [block];
      assert bs'[..|bs|] == bs && bs'[..|bs'|] == bs' && bs[..|bs|] == bs;
      StartStep(codec, bs', |bs|);
      IndexStep(codec, bs', |bs|);
      EmptyIndex(codec);
      return Ok(blockPos);
    }

    /** Every appended block is found under its number, and nothing under any other number. */
    method ReadBlockByNum(n: nat, ghost bs: seq<B>) returns (r: Result<Option<B>, LogError>)
      requires Holds(bs)
      ensures r == Ok(if 1 <= n <= |bs| then Some(bs[n - 1]) else None)
    {
      hide LogOf, Le, FromLe, IndexOf;
      if head.None? || n == 0 || n > codec.num(head.value) { return Ok(None); }
      IndexAt(codec, bs, n - 1);
      ReadAt(codec, bs, n - 1);
      var pos := Get64(indexFile, POS_SIZE * (n - 1)).value;
      var found := Read(codec, blockFile, pos).value;
      assert codec.num(found.0) == n;
      return Ok(Some(found.0));
    }

    /** The last block of the log; a file that holds only the version has none and is an error. */
    method ReadHead(ghost bs: seq<B>) returns (r: Result<Option<B>, LogError>)
      ensures Mapped(blockFile) == 0 ==> r == Ok(None)
      ensures Fits(codec, bs) && blockFile == LogOf(codec, bs) ==>
        r == if bs == [] then Err(BeyondEnd) else Ok(Some(bs[|bs| - 1]))
    {
      if Mapped(blockFile) == 0 { return Ok(None); }
      if Fits(codec, bs) && blockFile == LogOf(codec, bs) && bs != [] {
        LastMarker(codec, bs);
        ReadAt(codec, bs, |bs| - 1);
      }
      hide Le, FromLe, Fits;
      var pos :- Last64(blockFile);
      var found :- Read(codec, blockFile, pos);
      return Ok(Some(found.0));
    }

    /** Walks the log from its first record and writes down where each one starts. */
    method ConstructIndex(ghost bs: seq<B>) returns (r: Result<(), LogError>)
      requires Fits(codec, bs) && bs != [] && blockFile == LogOf(codec, bs) && head == Some(bs[|bs| - 1])
      modifies this`indexFile
      ensures r.Ok? && indexFile == IndexOf(codec, bs)
    {
      hide LogOf, Le, FromLe, IndexOf;
      indexFile := seq(codec.num(head.value) * POS_SIZE, _ => 0);
      var pos: int := VERSION_SIZE;
      LastMarker(codec, bs);
      FirstStart(codec, bs);
      EmptyIndex(codec);
      var endPos := Last64(blockFile).value;
      var i := 0;
      while pos <= endPos
        invariant 0 <= i <= |bs| && pos == Start(codec, bs, i)
        invariant |indexFile| == POS_SIZE * |bs| && indexFile[..POS_SIZE * i] == IndexOf(codec, bs[..i])
        decreases |bs| - i
      {
        if i == |bs| { StartsIncrease(codec, bs, |bs| - 1, i); }
        ReadAt(codec, bs, i);
        IndexStep(codec, bs, i);
        var at := POS_SIZE * i;
        indexFile := indexFile[..at] + Le(pos, POS_SIZE) + indexFile[at + POS_SIZE..];
        assert indexFile[..at + POS_SIZE] == IndexOf(codec, bs[..i]) + Le(pos, POS_SIZE);
        var found := Read(codec, blockFile, pos).value;
        pos := found.1;
        i := i + 1;
      }
      if i < |bs| - 1 { StartsIncrease(codec, bs, i, |bs| - 1); }
      assert indexFile[..POS_SIZE * |bs|] == indexFile && bs[..|bs|] == bs;
      return Ok(());
    }

    /**
     * Opens the files of a log of these blocks. It fails exactly on an index file that is no longer empty and too
     * short for one entry; a file with no records that still has an index is thrown away with it.
     */
    method Open(ghost bs: seq<B>) returns (r: Result<(), LogError>)
      requires Faithful(codec)
      requires if bs == [] then |blockFile| <= VERSION_SIZE + VERSION_SIZE
               else Fits(codec, bs) && blockFile == LogOf(codec, bs)
      modifies this
      ensures bs != [] ==> (r.Err? <==> VERSION_SIZE <= |old(indexFile)| < POS_SIZE)
      ensures bs != [] && r.Ok? ==>
        && blockFile == old(blockFile) && head == Some(bs[|bs| - 1])
        && indexFile == Reopened(codec, old(indexFile), bs)
      ensures bs != [] && old(indexFile) <= IndexOf(codec, bs) ==>
        (r.Ok? && Holds(bs) <==> Recoverable(codec, bs, |old(indexFile)|))
      ensures bs != [] && r.Err? ==>
        blockFile == old(blockFile) && indexFile == old(indexFile) && head == Some(bs[|bs| - 1])
      ensures bs == [] ==> r.Ok? && head == old(head) && Mapped(indexFile) == 0
      ensures bs == [] && Mapped(old(indexFile)) > 0 ==> blockFile == [0] && indexFile == [0]
      ensures bs == [] && Mapped(old(indexFile)) == 0 ==>
        && blockFile == (if old(blockFile) == [] then [0] else old(blockFile))
        && indexFile == (if old(indexFile) == [] then [0] else old(indexFile))
    {
      hide LogOf, IndexOf, Fits, Recoverable, Reopened;
      r := OpenFiles(bs);
      if bs != [] && old(indexFile) <= IndexOf(codec, bs) {
        CutIndexIff(codec, bs, |old(indexFile)|);
        assert IndexOf(codec, bs)[..|old(indexFile)|] == old(indexFile);
      }
    }

    method OpenFiles(ghost bs: seq<B>) returns (r: Result<(), LogError>)
      requires Faithful(codec)
      requires if bs == [] then |blockFile| <= VERSION_SIZE + VERSION_SIZE
               else Fits(codec, bs) && blockFile == LogOf(codec, bs)
      modifies this
      ensures bs != [] ==> (r.Err? <==> VERSION_SIZE <= |old(indexFile)| < POS_SIZE)
      ensures bs != [] && r.Ok? ==>
        && blockFile == old(blockFile) && head == Some(bs[|bs| - 1])
        && indexFile == Reopened(codec, old(indexFile), bs)
      ensures bs != [] && r.Err? ==>
        blockFile == old(blockFile) && indexFile == old(indexFile) && head == Some(bs[|bs| - 1])
      ensures bs == [] ==> r.Ok? && head == old(head) && Mapped(indexFile) == 0
      ensures bs == [] && Mapped(old(indexFile)) > 0 ==> blockFile == [0] && indexFile == [0]
      ensures bs == [] && Mapped(old(indexFile)) == 0 ==>
        && blockFile == (if old(blockFile) == [] then [0] else old(blockFile))
        && indexFile == (if old(indexFile) == [] then [0] else old(indexFile))
    {
      hide LogOf, Le, FromLe, IndexOf, Fits;
      if |blockFile| == 0 { blockFile := [0]; }
      if |indexFile| == 0 { indexFile := [0]; }
      if |blockFile| > VERSION_SIZE + VERSION_SIZE {
        VersionAt(codec, bs);
        if FromLe(blockFile[..VERSION_SIZE]) != VERSION { return Err(Unsupported); }
        var last := ReadHead(bs);
        head := last.value;
        LastMarker(codec, bs);
        if |indexFile| >= VERSION_SIZE {
          var blockPos := Last64(blockFile).value;
          var indexPos :- Last64(indexFile);
          if blockPos != indexPos { r := ConstructIndex(bs); return; }
        } else {
          r := ConstructIndex(bs);
          return;
        }
      } else if |indexFile| >= VERSION_SIZE {
        blockFile, indexFile := [0], [0];
      }
      return Ok(());
    }
  }

  lemma EmptyIndex<B(!new)>(c: Codec<B>)
    ensures forall bs: seq<B> :: bs[..0] == [] && IndexOf(c, bs[..0]) == []
  {
    forall bs: seq<B> ensures bs[..0] == [] && IndexOf(c, bs[..0]) == [] { assert bs[..0] == []; }
  }

  lemma FirstStart<B(!new)>(c: Codec<B>, bs: seq<B>)
    ensures Start(c, bs, 0) == VERSION_SIZE
  {
    assert bs[..0] == [];
  }

  lemma VersionAt<B(!new)>(c: Codec<B>, bs: seq<B>)
    ensures LogOf(c, bs)[..VERSION_SIZE] == Le(VERSION, VERSION_SIZE)
    ensures FromLe(Le(VERSION, VERSION_SIZE)) == VERSION
  {
    LogPrefix(c, bs, 0);
    assert bs[..0] == [];
    assert Power(4) == 65536 * Power(2);
    LeRoundTrip(VERSION, VERSION_SIZE);
  }
}
