/** A block log whose index, cut inside an entry, is mistaken for complete. */
module BlockLogExample {
  import opened Wrappers
  import opened BlockLogFormat
  import opened BlockLog

  /** Blocks that carry nothing but a number and a length, written in unary. */
  datatype Tally = Tally(num: nat, fill: nat)

  function Ones(n: nat): (s: Bytes)
    ensures |s| == n
  {
    seq(n, _ => 1)
  }

  function Pack(b: Tally): (s: Bytes)
    ensures |s| == b.num + b.fill + 2
  {
    Ones(b.num) + [0] + Ones(b.fill) + [0]
  }

  /** The number of leading ones. */
  function Count(s: Bytes): (n: nat)
    ensures n <= |s|
  {
    if s == [] || s[0] != 1 then 0 else 1 + Count(s[1..])
  }

  function Unpack(s: Bytes): Option<(Tally, nat)> {
    var num := Count(s);
    if num == |s| then None else
    var fill := Count(s[num + 1..]);
    if num + 1 + fill == |s| then None else Some((Tally(num, fill), num + fill + 2))
  }

  const TALLIES := Codec(Pack, Unpack, (b: Tally) => b.num)

  lemma {:induction false} CountOnes(n: nat, rest: Bytes)
    requires rest != [] && rest[0] == 0
    ensures Count(Ones(n) + rest) == n
  {
    if n == 0 {
      assert Ones(0) + rest == rest;
    } else {
      CountOnes(n - 1, rest);
      assert (Ones(n) + rest)[1..] == Ones(n - 1) + rest;
    }
  }

  lemma TalliesFaithful()
    ensures Faithful(TALLIES)
  {
    forall b: Tally, rest: Bytes ensures Unpack(Pack(b) + rest) == Some((b, |Pack(b)|)) {
      var s := Pack(b) + rest;
      var later := Ones(b.fill) + ([0] + rest);
      assert s == Ones(b.num) + ([0] + later);
      CountOnes(b.num, [0] + later);
      assert s[b.num + 1..] == later;
      CountOnes(b.fill, [0] + rest);
    }
  }

  /** The third block starts at 256 times the start of the second. */
  function Three(): seq<Tally> { [Tally(1, 0), Tally(2, 3813), Tally(3, 0)] }

  lemma ThreeStarts()
    ensures Fits(TALLIES, Three())
    ensures Start(TALLIES, Three(), 1) == 15 && Start(TALLIES, Three(), 2) == 3840
  {
    hide LogOf, Pack, Unpack;
    TalliesFaithful();
    var bs := Three();
    FirstStart(TALLIES, bs);
    StartStep(TALLIES, bs, 0);
    StartStep(TALLIES, bs, 1);
    StartStep(TALLIES, bs, 2);
    assert bs[..3] == bs;
  }

  /**
   The first 15 bytes of this index are kept as they are: seven of them are read as the position of the last
   block.
   */
  lemma BrokenIndexIsTrusted()
    ensures var index := IndexOf(TALLIES, Three())[..15];
      && Fits(TALLIES, Three()) && Trusted(TALLIES, index, Three())
      && Reopened(TALLIES, index, Three()) != IndexOf(TALLIES, Three())
  {
    ThreeStarts();
    hide LogOf, IndexOf, Le, FromLe;
    Straddles(TALLIES, Three(), 15);
    SmallAcross();
    var first := Start(TALLIES, Three(), 0);
    FirstStart(TALLIES, Three());
  }

  lemma SmallAcross()
    ensures Across(4, 15, 7) == 3840
  {
    assert High(4, 1) == 0;
    HighZero(6);
    assert High(4, 7) == High(0, 6);
    assert Power(1) == 256 && Power(2) == 65536 && Power(7) > 15 by {
      assert Power(3) > 15 && Power(5) > 15;
    }
  }

  lemma {:induction false} HighZero(r: nat)
    ensures High(0, r) == 0
  {
    if r > 0 { HighZero(r - 1); }
  }
}
