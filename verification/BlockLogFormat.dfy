/** The block log and its index as bytes, and how a block is read back from any position. */
module BlockLogFormat {
  import opened Wrappers
  import opened Arithmetic

  type Bytes = seq<int>

  const MAX_BLOCK_SIZE := 2 * 1024 * 1024
  const VERSION := 1
  const VERSION_SIZE := 4
  const POS_SIZE := 8
  const POS_LIMIT := 0x1_0000_0000_0000_0000

  datatype LogError = BeyondEnd | Truncated | WrongMarker | TooLarge | WrongPosition | WrongNumber | Unsupported

  /** How blocks become bytes, and their numbers. */
  datatype Codec<!B> = Codec(pack: B -> Bytes, unpack: Bytes -> Option<(B, nat)>, num: B -> nat)

  /** Unpacking reads back a packed block, whatever follows it, and stops where the block ends. */
  ghost predicate Faithful<B(!new)>(c: Codec<B>) {
    forall b: B, rest: Bytes :: c.unpack(c.pack(b) + rest) == Some((b, |c.pack(b)|))
  }

  // ----- Integers in memory order -----

  function Le(n: nat, width: nat): (s: Bytes)
    ensures |s| == width
  {
    if width == 0 then [] else [n % 256] + Le(n / 256, width - 1)
  }

  function FromLe(s: Bytes): int {
    if s == [] then 0 else s[0] + 256 * FromLe(s[1..])
  }

  function Power(width: nat): (p: nat)
    ensures p > 0
  {
    if width == 0 then 1 else 256 * Power(width - 1)
  }

  lemma {:induction false} LeRoundTrip(n: nat, width: nat)
    requires n < Power(width)
    ensures FromLe(Le(n, width)) == n
  {
    if width > 0 {
      LeRoundTrip(n / 256, width - 1);
      assert Le(n, width)[1..] == Le(n / 256, width - 1);
    }
  }

  /** The i-th byte counts multiples of the i-th power of 256. */
  lemma {:induction false} LeByte(n: nat, width: nat, i: nat)
    requires i < width
    ensures Le(n, width)[i] == High(n, i) % 256
    decreases i
  {
    if i > 0 { LeByte(n / 256, width - 1, i - 1); }
  }

  /** A log begins with version 1 in four bytes, and its first block follows them. */
  lemma LogBegins<B(!new)>(c: Codec<B>, bs: seq<B>)
    ensures LogOf(c, bs)[..4] == [1, 0, 0, 0] && Start(c, bs, 0) == 4
  {
    LogPrefix(c, bs, 0);
    assert Le(1, 4) == [1, 0, 0, 0] by {
      assert Le(1, 4) == [1] + Le(0, 3) && Le(0, 3) == [0] + Le(0, 2) && Le(0, 2) == [0] + Le(0, 1);
    }
    assert bs[..0] == [];
  }

  lemma PosRoundTrip(n: nat)
    requires n < POS_LIMIT
    ensures FromLe(Le(n, POS_SIZE)) == n
  {
    PowerLimit();
    LeRoundTrip(n, POS_SIZE);
  }

  // ----- Pieces of integers -----

  /** What is left of an integer when its r low bytes are dropped. */
  function High(n: nat, r: nat): nat {
    if r == 0 then n else High(n / 256, r - 1)
  }

  lemma {:induction false} LeSplit(n: nat, r: nat, width: nat)
    requires r <= width
    ensures Le(n, width) == Le(n, r) + Le(High(n, r), width - r)
  {
    if r > 0 {
      LeSplit(n / 256, r - 1, width - 1);
      assert [n % 256] + (Le(n / 256, r - 1) + Le(High(n, r), width - r)) == Le(n, r) + Le(High(n, r), width - r);
    }
  }

  lemma Scaled(x: nat, y: nat, a: nat)
    requires x <= y
    ensures a * x <= a * y
  {
  }

  lemma {:induction false} FromLeConcat(a: Bytes, b: Bytes)
    ensures FromLe(a + b) == FromLe(a) + Power(|a|) * FromLe(b)
    decreases |a|
  {
    if a == [] {
      assert a + b == b;
    } else {
      FromLeConcat(a[1..], b);
      assert (a + b)[1..] == a[1..] + b;
      var p, y := Power(|a| - 1), FromLe(b);
      assert 256 * (p * y) == (256 * p) * y;
    }
  }

  /** The remainder by 256 p is the low byte and the remainder of the rest by p. */
  lemma LowBytes(n: nat, p: nat)
    requires p > 0
    ensures n % (256 * p) == n % 256 + 256 * (n / 256 % p)
  {
    var q := n / 256;
    assert q == p * (q / p) + q % p;
    assert 256 * (p * (q / p)) == (256 * p) * (q / p);
    Scaled(q % p + 1, p, 256);
    DivModUnique(n, 256 * p, q / p, n % 256 + 256 * (q % p));
  }

  lemma {:induction false} FromLeCut(n: nat, width: nat)
    ensures FromLe(Le(n, width)) == n % Power(width)
  {
    if width > 0 {
      FromLeCut(n / 256, width - 1);
      assert Le(n, width)[1..] == Le(n / 256, width - 1);
      LowBytes(n, Power(width - 1));
    } else {
      assert n % 1 == 0;
    }
  }

  /** What 8 bytes read across two integers come to: the high bytes of the first, then the low bytes of the second. */
  function Across(m: nat, n: nat, r: nat): nat
    requires 0 < r < POS_SIZE
  {
    High(m, r) + Power(POS_SIZE - r) * (n % Power(r))
  }

  lemma ReadAcross(m: nat, n: nat, r: nat)
    requires m < POS_LIMIT && 0 < r < POS_SIZE
    ensures FromLe(Le(m, POS_SIZE)[r..] + Le(n, POS_SIZE)[..r]) == Across(m, n, r)
  {
    hide Le, FromLe, Power, High;
    LeSplit(m, r, POS_SIZE);
    LeSplit(n, r, POS_SIZE);
    var high, low := Le(High(m, r), POS_SIZE - r), Le(n, r);
    assert Le(m, POS_SIZE)[r..] == high && Le(n, POS_SIZE)[..r] == low;
    FromLeConcat(high, low);
    FromLeCut(n, r);
    PowerLimit();
    HighFits(m, r, POS_SIZE);
    LeRoundTrip(High(m, r), POS_SIZE - r);
  }

  lemma PowerLimit()
    ensures Power(8) == POS_LIMIT
  {
    assert Power(2) == 65536 && Power(4) == 65536 * Power(2) && Power(6) == 65536 * Power(4);
  }

  lemma {:induction false} HighFits(m: nat, r: nat, width: nat)
    requires m < Power(width) && r <= width
    ensures High(m, r) < Power(width - r)
  {
    if r > 0 { HighFits(m / 256, r - 1, width - 1); }
  }

  // ----- Files -----

  /** A file too short to hold anything counts as empty. */
  function Mapped(file: Bytes): nat {
    if |file| < VERSION_SIZE then 0 else |file|
  }

  function Get64(file: Bytes, pos: nat): Result<int, LogError> {
    if pos + POS_SIZE > Mapped(file) then Err(BeyondEnd) else Ok(FromLe(file[pos..pos + POS_SIZE]))
  }

  function Last64(file: Bytes): Result<int, LogError> {
    if POS_SIZE > Mapped(file) then Err(BeyondEnd) else Ok(FromLe(file[|file| - POS_SIZE..]))
  }

  /** The block at a position and the position after its record. */
  function Read<B>(c: Codec<B>, file: Bytes, pos: int): Result<(B, int), LogError> {
    if !(0 <= pos < Mapped(file)) then Err(BeyondEnd) else
    var available := Mapped(file) - pos;
    var size := if available < MAX_BLOCK_SIZE then available else MAX_BLOCK_SIZE;
    match c.unpack(file[pos..pos + size])
    case None => Err(Truncated)
    case Some((block, length)) =>
      var marker :- Get64(file, pos + length);
      if marker != pos then Err(WrongMarker) else Ok((block, pos + length + POS_SIZE))
  }

  // ----- What appending builds -----

  function LogOf<B>(c: Codec<B>, bs: seq<B>): (log: Bytes)
    ensures |log| >= VERSION_SIZE
    ensures bs != [] ==> |log| >= VERSION_SIZE + POS_SIZE
  {
    if bs == [] then Le(VERSION, VERSION_SIZE) else
    var before := LogOf(c, bs[..|bs| - 1]);
    before + c.pack(bs[|bs| - 1]) + Le(|before|, POS_SIZE)
  }

  /** Where the record of block i starts. */
  function Start<B>(c: Codec<B>, bs: seq<B>, i: nat): nat
    requires i <= |bs|
  {
    |LogOf(c, bs[..i])|
  }

  function IndexOf<B>(c: Codec<B>, bs: seq<B>): (index: Bytes)
    ensures |index| == POS_SIZE * |bs|
  {
    if bs == [] then [] else IndexOf(c, bs[..|bs| - 1]) + Le(Start(c, bs, |bs| - 1), POS_SIZE)
  }

  ghost predicate Fits<B(!new)>(c: Codec<B>, bs: seq<B>) {
    && Faithful(c)
    && (forall i :: 0 <= i < |bs| ==> |c.pack(bs[i])| <= MAX_BLOCK_SIZE && c.num(bs[i]) == i + 1)
    && |LogOf(c, bs)| < POS_LIMIT
  }

  lemma StartStep<B(!new)>(c: Codec<B>, bs: seq<B>, i: nat)
    requires i < |bs|
    ensures LogOf(c, bs[..i + 1]) == LogOf(c, bs[..i]) + c.pack(bs[i]) + Le(Start(c, bs, i), POS_SIZE)
    ensures Start(c, bs, i + 1) == Start(c, bs, i) + |c.pack(bs[i])| + POS_SIZE
  {
    assert bs[..i + 1][..i] == bs[..i];
  }

  /** The log of the first i blocks is the first part of the log. */
  lemma {:induction false} LogPrefix<B(!new)>(c: Codec<B>, bs: seq<B>, i: nat)
    requires i <= |bs|
    ensures Start(c, bs, i) <= |LogOf(c, bs)|
    ensures LogOf(c, bs)[..Start(c, bs, i)] == LogOf(c, bs[..i])
    ensures i < |bs| ==> Start(c, bs, i) < |LogOf(c, bs)|
  {
    if i == |bs| {
      assert bs[..i] == bs;
    } else {
      var most := bs[..|bs| - 1];
      LogPrefix(c, most, i);
      assert most[..i] == bs[..i];
      assert LogOf(c, bs)[..|LogOf(c, most)|] == LogOf(c, most);
    }
  }

  /** The bytes from a block's start on: the block, its marker, and the rest of the log. */
  lemma RecordAt<B(!new)>(c: Codec<B>, bs: seq<B>, i: nat)
    requires i < |bs|
    ensures Start(c, bs, i + 1) == Start(c, bs, i) + |c.pack(bs[i])| + POS_SIZE <= |LogOf(c, bs)|
    ensures var data := c.pack(bs[i]); var from := Start(c, bs, i);
      && LogOf(c, bs)[from..from + |data|] == data
      && LogOf(c, bs)[from + |data|..from + |data| + POS_SIZE] == Le(from, POS_SIZE)
  {
    hide LogOf;
    LogPrefix(c, bs, i + 1);
    StartStep(c, bs, i);
    var data, from, log := c.pack(bs[i]), Start(c, bs, i), LogOf(c, bs);
    var part := LogOf(c, bs[..i + 1]);
    assert log[from..from + |data|] == part[from..from + |data|];
    assert log[from + |data|..from + |data| + POS_SIZE] == part[from + |data|..from + |data| + POS_SIZE];
  }

  /** Reading at a block's start returns that block and where the next one starts. */
  lemma ReadAt<B(!new)>(c: Codec<B>, bs: seq<B>, i: nat)
    requires Fits(c, bs) && i < |bs|
    ensures Read(c, LogOf(c, bs), Start(c, bs, i)) == Ok((bs[i], Start(c, bs, i + 1)))
  {
    hide LogOf, Le, FromLe;
    RecordAt(c, bs, i);
    LogPrefix(c, bs, i);
    var log, from, data := LogOf(c, bs), Start(c, bs, i), c.pack(bs[i]);
    var size := if |log| - from < MAX_BLOCK_SIZE then |log| - from else MAX_BLOCK_SIZE;
    assert log[from..from + size] == data + log[from + |data|..from + size];
    PosRoundTrip(from);
  }

  lemma LastMarker<B(!new)>(c: Codec<B>, bs: seq<B>)
    requires Fits(c, bs) && bs != []
    ensures Last64(LogOf(c, bs)) == Ok(Start(c, bs, |bs| - 1))
  {
    var log, from := LogOf(c, bs), Start(c, bs, |bs| - 1);
    LogPrefix(c, bs, |bs| - 1);
    assert log[|log| - POS_SIZE..] == Le(from, POS_SIZE);
    PosRoundTrip(from);
  }

  lemma {:induction false} IndexPrefix<B(!new)>(c: Codec<B>, bs: seq<B>, i: nat)
    requires i <= |bs|
    ensures IndexOf(c, bs)[..POS_SIZE * i] == IndexOf(c, bs[..i])
  {
    if i == |bs| {
      assert bs[..i] == bs;
    } else {
      var most := bs[..|bs| - 1];
      IndexPrefix(c, most, i);
      assert most[..i] == bs[..i];
      assert IndexOf(c, bs)[..POS_SIZE * |most|] == IndexOf(c, most);
    }
  }

  lemma IndexStep<B(!new)>(c: Codec<B>, bs: seq<B>, i: nat)
    requires i < |bs|
    ensures IndexOf(c, bs[..i + 1]) == IndexOf(c, bs[..i]) + Le(Start(c, bs, i), POS_SIZE)
  {
    assert bs[..i + 1][..i] == bs[..i];
  }

  lemma EntryAt<B(!new)>(c: Codec<B>, bs: seq<B>, i: nat)
    requires i < |bs|
    ensures IndexOf(c, bs)[POS_SIZE * i..POS_SIZE * (i + 1)] == Le(Start(c, bs, i), POS_SIZE)
  {
    hide LogOf, Le, IndexOf;
    IndexPrefix(c, bs, i + 1);
    IndexStep(c, bs, i);
    var index := IndexOf(c, bs);
    assert index[POS_SIZE * i..POS_SIZE * (i + 1)] == index[..POS_SIZE * (i + 1)][POS_SIZE * i..];
  }

  /** Entry i of the index is where block i starts. */
  lemma IndexAt<B(!new)>(c: Codec<B>, bs: seq<B>, i: nat)
    requires Fits(c, bs) && i < |bs|
    ensures Get64(IndexOf(c, bs), POS_SIZE * i) == Ok(Start(c, bs, i))
  {
    hide LogOf, Le, FromLe, IndexOf;
    EntryAt(c, bs, i);
    LogPrefix(c, bs, i);
    PosRoundTrip(Start(c, bs, i));
  }

  lemma {:induction false} StartsIncrease<B(!new)>(c: Codec<B>, bs: seq<B>, i: nat, j: nat)
    requires i < j <= |bs|
    ensures Start(c, bs, i) < Start(c, bs, j)
  {
    StartStep(c, bs, j - 1);
    if i < j - 1 { StartsIncrease(c, bs, i, j - 1); }
  }
}
