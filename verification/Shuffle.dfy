/** The seeded Fisher-Yates shuffle that orders the block producers of a round. */
module Shuffle {
  import opened Basics

  const WORD: nat := 0x1_0000_0000_0000_0000
  const HALF: nat := 0x1_0000_0000
  const MULTIPLIER: nat := 2685821657736338717

  /** Bitwise exclusive or. */
  function Xor(a: nat, b: nat): nat
    decreases a + b
  {
    if a == 0 then b
    else if b == 0 then a
    else 2 * Xor(a / 2, b / 2) + (a + b) % 2
  }

  /** The random numbers of one shuffle, by position. */
  type Draws = nat -> nat

  /** One draw of the xorshift generator: 64-bit arithmetic, seeded by a 32-bit slot number. */
  function Draw(seed: nat, i: nat): nat
  {
    var k0 := (seed % HALF * HALF + i * MULTIPLIER) % WORD;
    var k1 := Xor(k0, k0 / 0x1000);
    var k2 := Xor(k1, k1 * 0x200_0000 % WORD);
    var k3 := Xor(k2, k2 / 0x800_0000);
    k3 * MULTIPLIER % WORD
  }

  function XorShift(seed: nat): Draws
  {
    (i: nat) => Draw(seed, i)
  }

  /** The position that the i-th of `s` items is exchanged with. */
  function Partner(draws: Draws, i: nat, s: nat): (j: nat)
    requires i < s
    ensures i <= j < s
  {
    i + draws(i) % (s - i)
  }

  function Swapped<T>(items: seq<T>, i: nat, j: nat): (r: seq<T>)
    requires i < |items| && j < |items|
    ensures |r| == |items|
  {
    items[i := items[j]][j := items[i]]
  }

  /** Rounds `i` onwards of shuffling the part of `items` that starts at `from`. */
  function ShuffledFrom<T>(items: seq<T>, from: nat, draws: Draws, i: nat): (r: seq<T>)
    requires from + i <= |items|
    ensures |r| == |items|
    decreases |items| - from - i
  {
    if from + i == |items| then items
    else ShuffledFrom(Swapped(items, from + i, from + Partner(draws, i, |items| - from)), from, draws, i + 1)
  }

  /** The result of shuffling items[from..]. */
  function Shuffled<T>(items: seq<T>, from: nat, draws: Draws): (r: seq<T>)
    requires from <= |items|
    ensures |r| == |items|
  {
    if |items| - from <= 1 then items else ShuffledFrom(items, from, draws, 0)
  }

  lemma SwapPermutes<T>(items: seq<T>, i: nat, j: nat)
    requires i < |items| && j < |items|
    ensures multiset(Swapped(items, i, j)) == multiset(items)
  {
  }

  lemma {:induction false} ShuffledFromPermutes<T>(items: seq<T>, from: nat, draws: Draws, i: nat)
    requires from + i <= |items|
    ensures multiset(ShuffledFrom(items, from, draws, i)) == multiset(items)
    decreases |items| - from - i
  {
    hide Partner, Swapped;
    if from + i < |items| {
      var j := from + Partner(draws, i, |items| - from);
      SwapPermutes(items, from + i, j);
      ShuffledFromPermutes(Swapped(items, from + i, j), from, draws, i + 1);
    }
  }

  lemma {:induction false} ShuffledFromKeeps<T>(items: seq<T>, from: nat, draws: Draws, i: nat, k: nat)
    requires k < from + i <= |items|
    ensures ShuffledFrom(items, from, draws, i)[k] == items[k]
    decreases |items| - from - i
  {
    if from + i < |items| {
      ShuffledFromKeeps(Swapped(items, from + i, from + Partner(draws, i, |items| - from)), from, draws, i + 1, k);
    }
  }

  /** A shuffle only reorders, and leaves the items before `from` where they were. */
  lemma ShufflePermutes<T>(items: seq<T>, from: nat, draws: Draws)
    requires from <= |items|
    ensures multiset(Shuffled(items, from, draws)) == multiset(items)
    ensures forall k :: 0 <= k < from ==> Shuffled(items, from, draws)[k] == items[k]
  {
    if |items| - from > 1 {
      ShuffledFromPermutes(items, from, draws, 0);
      forall k | 0 <= k < from ensures Shuffled(items, from, draws)[k] == items[k] {
        ShuffledFromKeeps(items, from, draws, 0, k);
      }
    }
  }

  // ---------------------------------------------------------------- one value of the generator

  function Pow2(k: nat): (p: nat)
    ensures p > 0
  {
    if k == 0 then 1 else 2 * Pow2(k - 1)
  }

  lemma {:induction false} XorUnfold(a: nat, b: nat)
    ensures Xor(a, b) == 2 * Xor(a / 2, b / 2) + (a + b) % 2
    decreases a + b
  {
    if a == 0 && b > 0 {
      assert Xor(0, b / 2) == b / 2;
    } else if b == 0 && a > 0 {
      assert Xor(a / 2, 0) == a / 2;
    }
  }

  /** High and low bits are combined separately. */
  lemma {:induction false} XorSplit(k: nat, a: nat, x: nat, b: nat, y: nat)
    requires x < Pow2(k) && y < Pow2(k)
    ensures Xor(a * Pow2(k) + x, b * Pow2(k) + y) == Xor(a, b) * Pow2(k) + Xor(x, y)
    decreases k
  {
    hide Xor;
    if k == 0 {
      assert Xor(0, 0) == 0 by { ApartOnes(); }
    } else {
      var p := Pow2(k - 1);
      XorSplit(k - 1, a, x / 2, b, y / 2);
      Twice(a, p);
      Twice(b, p);
      Twice(Xor(a, b), p);
      XorStep(a * p, x, b * p, y, Xor(a, b) * p);
    }
  }

  lemma Twice(a: nat, p: nat)
    ensures a * (2 * p) == 2 * (a * p)
  {
  }

  lemma XorStep(u: nat, x: nat, w: nat, y: nat, z: nat)
    requires Xor(u + x / 2, w + y / 2) == z + Xor(x / 2, y / 2)
    ensures Xor(2 * u + x, 2 * w + y) == 2 * z + Xor(x, y)
  {
    hide Xor;
    XorUnfold(2 * u + x, 2 * w + y);
    XorUnfold(x, y);
    Halves(u, x);
    Halves(w, y);
    Halves(u + w, x + y);
  }

  lemma Halves(u: nat, x: nat)
    ensures (2 * u + x) / 2 == u + x / 2 && (2 * u + x) % 2 == x % 2
  {
  }

  /** Numbers without a bit in common are added. */
  lemma XorApart(k: nat, a: nat, y: nat)
    requires y < Pow2(k)
    ensures Xor(a * Pow2(k), y) == a * Pow2(k) + y == Xor(y, a * Pow2(k))
  {
    hide Xor, Pow2;
    XorSplit(k, a, 0, 0, y);
    XorSplit(k, 0, y, a, 0);
    ApartOnes();
  }

  lemma Powers()
    ensures Pow2(20) == 0x10_0000 && Pow2(30) == 0x4000_0000 && Pow2(32) == 0x1_0000_0000
    ensures Pow2(45) == 0x2000_0000_0000
  {
    assert Pow2(10) == 1024;
    assert Pow2(20) == 1024 * 1024 by { assert Pow2(20) == 1024 * Pow2(10) by { hide *; PowSum(10, 10); } }
    assert Pow2(30) == Pow2(10) * Pow2(20) by { hide *; PowSum(10, 20); }
    assert Pow2(32) == 4 * Pow2(30);
    assert Pow2(40) == Pow2(10) * Pow2(30) by { hide *; PowSum(10, 30); }
    assert Pow2(45) == 32 * Pow2(40);
  }

  lemma {:induction false} PowSum(a: nat, b: nat)
    ensures Pow2(a + b) == Pow2(a) * Pow2(b)
    decreases a
  {
    if a > 0 { PowSum(a - 1, b); }
  }

  /** The first draw of seed 1: its set bits never meet, so the three exclusive ors are sums. */
  lemma FirstDrawOfOne()
    ensures Draw(1, 0) == 4396774442519208864
  {
    Powers();
    hide Pow2, Xor;
    var k0, k1 := 0x1_0000_0000, 0x1_0010_0000;
    XorApart(32, 1, k0 / 0x1000);
    assert Xor(k0, k0 / 0x1000) == k1;
    XorApart(45, k1 * 0x200_0000 / Pow2(45), k1);
    var k2 := k1 * 0x200_0000 + k1;
    assert k1 * 0x200_0000 % WORD == k1 * 0x200_0000 == k1 * 0x200_0000 / Pow2(45) * Pow2(45);
    assert Xor(k1, k1 * 0x200_0000 % WORD) == k2;
    var low := k2 / 0x800_0000;
    XorApart(20, 1, low % Pow2(20));
    XorSplit(30, 0, Pow2(20), 1, low % Pow2(20));
    ApartOnes();
    XorSplit(32, k2 / Pow2(32), k2 % Pow2(32), 0, low);
    assert k2 % Pow2(32) == Pow2(20) && low == Pow2(30) + low % Pow2(20);
    assert k2 == k2 / Pow2(32) * Pow2(32) + k2 % Pow2(32);
    assert Xor(k2, low) == k2 + low;
  }

  lemma ApartOnes()
    ensures forall a: nat :: Xor(a, 0) == a && Xor(0, a) == a
  {
  }

  // ---------------------------------------------------------------- every order comes out of exactly one choice

  /** Only the draws from round i on matter from round i on. */
  lemma {:induction false} LaterDraws<T>(items: seq<T>, from: nat, d: Draws, e: Draws, i: nat)
    requires from + i <= |items| && forall k :: k >= i ==> d(k) == e(k)
    ensures ShuffledFrom(items, from, d, i) == ShuffledFrom(items, from, e, i)
    decreases |items| - from - i
  {
    if from + i < |items| {
      LaterDraws(Swapped(items, from + i, from + Partner(d, i, |items| - from)), from, d, e, i + 1);
    }
  }

  /** One round, and that its item is placed for good. */
  lemma Round<T>(items: seq<T>, from: nat, d: Draws, i: nat)
    requires from + i < |items|
    ensures var j := from + Partner(d, i, |items| - from);
      && ShuffledFrom(items, from, d, i) == ShuffledFrom(Swapped(items, from + i, j), from, d, i + 1)
      && ShuffledFrom(items, from, d, i)[from + i] == items[j]
  {
    ShuffledFromKeeps(Swapped(items, from + i, from + Partner(d, i, |items| - from)), from, d, i + 1, from + i);
  }

  /** Two shuffles of distinct items that come out alike have exchanged the same items in every round. */
  lemma {:induction false} SameOrderSameDraws<T>(items: seq<T>, from: nat, d: Draws, e: Draws, i: nat, k: nat)
    requires from + i <= |items| && i <= k < |items| - from && Distinct(items)
    requires ShuffledFrom(items, from, d, i) == ShuffledFrom(items, from, e, i)
    ensures Partner(d, k, |items| - from) == Partner(e, k, |items| - from)
    decreases k - i
  {
    hide ShuffledFrom, Swapped, Partner;
    var n := |items| - from;
    Round(items, from, d, i);
    Round(items, from, e, i);
    var a, b := from + Partner(d, i, n), from + Partner(e, i, n);
    SameItem(items, a, b);
    if k > i {
      SwapDistinct(items, from + i, a);
      SameOrderSameDraws(Swapped(items, from + i, a), from, d, e, i + 1, k);
    }
  }

  lemma SameItem<T>(items: seq<T>, a: nat, b: nat)
    requires a < |items| && b < |items| && Distinct(items) && items[a] == items[b]
    ensures a == b
  {
  }

  lemma SwapDistinct<T>(items: seq<T>, i: nat, j: nat)
    requires i < |items| && j < |items| && Distinct(items)
    ensures Distinct(Swapped(items, i, j))
  {
  }

  lemma Parts<T>(items: seq<T>, at: nat)
    requires at <= |items|
    ensures multiset(items) == multiset(items[..at]) + multiset(items[at..])
  {
    assert items == items[..at] + items[at..];
  }

  /** The item wanted next is among those not yet placed. */
  lemma StillThere<T>(items: seq<T>, wanted: seq<T>, at: nat) returns (j: nat)
    requires multiset(items) == multiset(wanted) && at < |items| == |wanted| && items[..at] == wanted[..at]
    ensures at <= j < |items| && items[j] == wanted[at]
  {
    Parts(items, at);
    Parts(wanted, at);
    assert multiset(items[at..]) == multiset(items) - multiset(items[..at]);
    assert multiset(wanted[at..]) == multiset(wanted) - multiset(wanted[..at]);
    assert wanted[at..][0] in multiset(wanted[at..]);
    assert wanted[at] in items[at..];
    var x :| 0 <= x < |items[at..]| && items[at..][x] == wanted[at];
    j := at + x;
  }

  lemma {:induction false} DrawsFor<T>(items: seq<T>, from: nat, i: nat, wanted: seq<T>) returns (draws: Draws)
    requires from + i <= |items| == |wanted| && multiset(items) == multiset(wanted)
    requires items[..from + i] == wanted[..from + i]
    ensures ShuffledFrom(items, from, draws, i) == wanted
    decreases |items| - from - i
  {
    if from + i == |items| {
      draws := (x: nat) => 0;
      assert items == items[..from + i] && wanted == wanted[..from + i];
    } else {
      hide ShuffledFrom, Swapped, Partner;
      var j := StillThere(items, wanted, from + i);
      var next := Swapped(items, from + i, j);
      SwapPermutes(items, from + i, j);
      Placed(items, wanted, from + i, j);
      var later := DrawsFor(next, from, i + 1, wanted);
      draws := DrawFirst(items, from, i, j, later);
    }
  }

  /** The draws that exchange with j in round i and go on as given. */
  lemma DrawFirst<T>(items: seq<T>, from: nat, i: nat, j: nat, later: Draws) returns (draws: Draws)
    requires from + i <= j < |items|
    ensures ShuffledFrom(items, from, draws, i) == ShuffledFrom(Swapped(items, from + i, j), from, later, i + 1)
  {
    hide ShuffledFrom, Swapped;
    draws := (x: nat) => if x == i then j - from - i else later(x);
    Exactly(draws, i, |items| - from);
    Round(items, from, draws, i);
    LaterDraws(Swapped(items, from + i, j), from, draws, later, i + 1);
  }

  lemma Exactly(draws: Draws, i: nat, s: nat)
    requires i < s && draws(i) < s - i
    ensures Partner(draws, i, s) == i + draws(i)
  {
  }

  lemma Placed<T>(items: seq<T>, wanted: seq<T>, at: nat, j: nat)
    requires at <= j < |items| == |wanted| && items[..at] == wanted[..at] && items[j] == wanted[at]
    ensures Swapped(items, at, j)[..at + 1] == wanted[..at + 1]
  {
    assert Swapped(items, at, j)[..at] == items[..at];
  }

  /** The exchanges are the same in all of s rounds. */
  predicate SameChoices(d: Draws, e: Draws, s: nat)
  {
    forall i :: 0 <= i < s ==> Partner(d, i, s) == Partner(e, i, s)
  }

  /**
   The shuffle is fair: of distinct items, every order of those from the starting position on comes out
   for some draws, and for no two draws that exchange differently in any round.
   */
  lemma ShuffleIsFair<T>(items: seq<T>, from: nat, wanted: seq<T>) returns (draws: Draws)
    requires from <= |items| && Distinct(items)
    requires multiset(wanted) == multiset(items) && |wanted| == |items| && wanted[..from] == items[..from]
    ensures Shuffled(items, from, draws) == wanted
    ensures forall other: Draws :: Shuffled(items, from, other) == wanted ==>
      SameChoices(other, draws, |items| - from)
  {
    draws := DrawsFor(items, from, 0, wanted);
    if |items| - from <= 1 {
      OneOrder(items, from, wanted);
    } else {
      forall other: Draws | Shuffled(items, from, other) == wanted ensures SameChoices(other, draws, |items| - from) {
        var n := |items| - from;
        forall i | 0 <= i < n ensures Partner(other, i, n) == Partner(draws, i, n) {
          SameOrderSameDraws(items, from, other, draws, 0, i);
        }
      }
    }
  }

  lemma OneOrder<T>(items: seq<T>, from: nat, wanted: seq<T>)
    requires from <= |items| <= from + 1 && |wanted| == |items|
    requires multiset(wanted) == multiset(items) && wanted[..from] == items[..from]
    ensures wanted == items
  {
    if from < |items| { var j := StillThere(items, wanted, from); }
    assert wanted == wanted[..from] + wanted[from..] && items == items[..from] + items[from..];
  }

  /** The in-place loop: exchange each item with a drawn later one. */
  method ShuffleInPlace<T>(items: array<T>, from: nat, draws: Draws)
    requires from <= items.Length
    modifies items
    ensures items[..] == Shuffled(old(items[..]), from, draws)
  {
    var s := items.Length - from;
    if s <= 1 { return; }
    for i := 0 to s
      invariant ShuffledFrom(items[..], from, draws, i) == ShuffledFrom(old(items[..]), from, draws, 0)
    {
      var j := Partner(draws, i, s);
      ghost var before := items[..];
      items[from + i], items[from + j] := items[from + j], items[from + i];
      assert items[..] == Swapped(before, from + i, from + j);
    }
  }
}
