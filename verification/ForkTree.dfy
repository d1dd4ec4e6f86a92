/** The tree of block states that the fork database keeps, by block id, and what lies below a block in it. */
module ForkTree {
  import opened Basics

  type Name = nat
  type BlockId = nat

  datatype Block = Block(
    id: BlockId,
    previous: BlockId,
    num: nat,
    dpos: nat,
    bft: nat,
    inCurrentChain: bool,
    schedule: seq<Name>,
    confirmations: seq<Name>)

  type Index = map<BlockId, Block>

  /** x leads to a by following `previous` n times, through blocks of the index. */
  ghost predicate Reaches(ix: Index, x: BlockId, a: BlockId, n: nat)
    decreases n
  {
    if n == 0 then x == a else x in ix && Reaches(ix, ix[x].previous, a, n - 1)
  }

  /** x is a or a descendant of a. */
  ghost predicate Descends(ix: Index, x: BlockId, a: BlockId)
  {
    exists n: nat :: Reaches(ix, x, a, n)
  }

  /** Blocks sit under their ids, and a child's number is one more than its parent's. */
  predicate Numbered(ix: Index)
  {
    forall x :: x in ix ==> ix[x].id == x && (ix[x].previous in ix ==> ix[x].num == ix[ix[x].previous].num + 1)
  }

  /** A forest whose roots are all children of one block outside it. */
  predicate Linked(ix: Index, rootId: BlockId, rootNum: nat)
  {
    && Numbered(ix)
    && forall x :: x in ix && ix[x].previous !in ix ==> ix[x].previous == rootId && ix[x].num == rootNum + 1
  }

  /** What is left when a block and everything built on it are taken out. */
  ghost function Without(ix: Index, id: BlockId): Index
  {
    map x | x in ix && !Descends(ix, x, id) :: ix[x]
  }

  /** Everything built on a block, without the block. */
  ghost function Below(ix: Index, id: BlockId): Index
  {
    map x | x in ix && x != id && Descends(ix, x, id) :: ix[x]
  }

  // ---------------------------------------------------------------- descent

  lemma DescendsSelf(ix: Index, a: BlockId)
    ensures Descends(ix, a, a)
  {
    assert Reaches(ix, a, a, 0);
  }

  lemma DescendsUp(ix: Index, x: BlockId, a: BlockId)
    requires x in ix && Descends(ix, ix[x].previous, a)
    ensures Descends(ix, x, a)
  {
    var n: nat :| Reaches(ix, ix[x].previous, a, n);
    assert Reaches(ix, x, a, n + 1);
  }

  lemma DescendsStep(ix: Index, x: BlockId, a: BlockId)
    requires x != a && Descends(ix, x, a)
    ensures x in ix && Descends(ix, ix[x].previous, a)
  {
    var n: nat :| Reaches(ix, x, a, n);
    assert Reaches(ix, ix[x].previous, a, n - 1);
  }

  lemma {:induction false} ReachesNum(ix: Index, x: BlockId, a: BlockId, n: nat)
    requires Numbered(ix) && x in ix && a in ix && Reaches(ix, x, a, n)
    ensures ix[x].num == ix[a].num + n
    decreases n
  {
    if n > 0 {
      if n > 1 {
        assert ix[x].previous in ix;
      }
      ReachesNum(ix, ix[x].previous, a, n - 1);
    }
  }

  lemma {:induction false} ReachesTrans(ix: Index, x: BlockId, y: BlockId, a: BlockId, m: nat, n: nat)
    requires Reaches(ix, x, y, m) && Reaches(ix, y, a, n)
    ensures Reaches(ix, x, a, m + n)
    decreases m
  {
    if m > 0 {
      ReachesTrans(ix, ix[x].previous, y, a, m - 1, n);
    }
  }

  lemma DescendsTrans(ix: Index, x: BlockId, y: BlockId, a: BlockId)
    requires Descends(ix, x, y) && Descends(ix, y, a)
    ensures Descends(ix, x, a)
  {
    var m: nat :| Reaches(ix, x, y, m);
    var n: nat :| Reaches(ix, y, a, n);
    ReachesTrans(ix, x, y, a, m, n);
  }

  /** A block has one ancestor at each distance. */
  lemma {:induction false} ReachesUnique(ix: Index, x: BlockId, a: BlockId, b: BlockId, n: nat)
    requires Reaches(ix, x, a, n) && Reaches(ix, x, b, n)
    ensures a == b
    decreases n
  {
    if n > 0 {
      ReachesUnique(ix, ix[x].previous, a, b, n - 1);
    }
  }

  /** Two ancestors of the same number are the same. */
  lemma SameLevelAncestor(ix: Index, x: BlockId, a: BlockId, b: BlockId)
    requires Numbered(ix) && x in ix && a in ix && b in ix && ix[a].num == ix[b].num
    requires Descends(ix, x, a) && Descends(ix, x, b)
    ensures a == b
  {
    var m: nat :| Reaches(ix, x, a, m);
    var n: nat :| Reaches(ix, x, b, n);
    ReachesNum(ix, x, a, m);
    ReachesNum(ix, x, b, n);
    ReachesUnique(ix, x, a, b, m);
  }

  /** Every block of a linked index descends from the block its roots hang from. */
  lemma {:induction false} LinkedDescends(ix: Index, rootId: BlockId, rootNum: nat, x: BlockId)
    requires Linked(ix, rootId, rootNum) && x in ix
    ensures ix[x].num > rootNum && Descends(ix, x, rootId)
    decreases ix[x].num
  {
    var p := ix[x].previous;
    if p in ix {
      LinkedDescends(ix, rootId, rootNum, p);
    } else {
      DescendsSelf(ix, rootId);
    }
    DescendsUp(ix, x, rootId);
  }

  /** In a linked index every block descends from a root. */
  lemma {:induction false} RootOf(ix: Index, rootId: BlockId, rootNum: nat, x: BlockId) returns (r: BlockId)
    requires Linked(ix, rootId, rootNum) && x in ix
    ensures r in ix && ix[r].num == rootNum + 1 && Descends(ix, x, r)
    decreases ix[x].num
  {
    if ix[x].previous in ix {
      r := RootOf(ix, rootId, rootNum, ix[x].previous);
      DescendsUp(ix, x, r);
    } else {
      r := x;
      DescendsSelf(ix, x);
    }
  }

  // ---------------------------------------------------------------- taking parts out

  lemma WithoutLinked(ix: Index, rootId: BlockId, rootNum: nat, id: BlockId)
    requires Linked(ix, rootId, rootNum)
    ensures Linked(Without(ix, id), rootId, rootNum)
  {
    var r := Without(ix, id);
    forall x | x in r && ix[x].previous in ix ensures ix[x].previous in r {
      if Descends(ix, ix[x].previous, id) {
        DescendsUp(ix, x, id);
      }
    }
  }

  /** The strict descendants of a root hang from it. */
  lemma BelowLinked(ix: Index, rootId: BlockId, rootNum: nat, h: BlockId)
    requires Linked(ix, rootId, rootNum) && h in ix && ix[h].num == rootNum + 1
    ensures Linked(Below(ix, h), h, ix[h].num)
  {
    var r := Below(ix, h);
    forall x | x in r
      ensures ix[x].previous == h || ix[x].previous in r
      ensures ix[x].previous in ix
    {
      DescendsStep(ix, x, h);
      if ix[x].previous != h {
        DescendsStep(ix, ix[x].previous, h);
      }
    }
  }

  /** Below a root and not below any other root is the same thing. */
  lemma BelowIsTheRest(ix: Index, rootId: BlockId, rootNum: nat, h: BlockId)
    requires Linked(ix, rootId, rootNum) && h in ix && ix[h].num == rootNum + 1
    ensures forall x :: x in ix && x != h ==>
      (Descends(ix, x, h) <==> forall y :: y in ix && ix[y].num == rootNum + 1 && y != h ==> !Descends(ix, x, y))
  {
    forall x | x in ix && x != h
      ensures Descends(ix, x, h) <==> forall y :: y in ix && ix[y].num == rootNum + 1 && y != h ==> !Descends(ix, x, y)
    {
      var r := RootOf(ix, rootId, rootNum, x);
      if Descends(ix, x, h) {
        forall y | y in ix && ix[y].num == rootNum + 1 && y != h ensures !Descends(ix, x, y) {
          if Descends(ix, x, y) { SameLevelAncestor(ix, x, h, y); }
        }
      }
    }
  }

  /** z is not built on any of the given blocks. */
  ghost predicate Clear(ix: Index, z: BlockId, gone: set<BlockId>)
  {
    forall g :: g in gone ==> !Descends(ix, z, g)
  }

  /** The index without block h and without everything built on the given blocks. */
  ghost function Rest(ix: Index, h: BlockId, gone: set<BlockId>): Index
  {
    map z | z in ix && z != h && Clear(ix, z, gone) :: ix[z]
  }

  /** With one root and some other roots' trees gone, what is built on a further root is still the same. */
  lemma {:induction false} ReachesInRest(ix: Index, rootId: BlockId, rootNum: nat, h: BlockId, gone: set<BlockId>,
                                         x: BlockId, y: BlockId, n: nat)
    requires Linked(ix, rootId, rootNum)
    requires h in ix ==> ix[h].num == rootNum + 1
    requires y in ix && ix[y].num == rootNum + 1
    requires x in Rest(ix, h, gone) && Reaches(ix, x, y, n)
    ensures Reaches(Rest(ix, h, gone), x, y, n)
    decreases n
  {
    if n > 1 {
      var p := ix[x].previous;
      ReachesNum(ix, p, y, n - 1);
      forall g | g in gone ensures !Descends(ix, p, g) {
        if Descends(ix, p, g) { DescendsUp(ix, x, g); }
      }
      ReachesInRest(ix, rootId, rootNum, h, gone, p, y, n - 1);
    }
  }

  lemma WithoutFromRest(ix: Index, rootId: BlockId, rootNum: nat, h: BlockId, gone: set<BlockId>, y: BlockId)
    requires Linked(ix, rootId, rootNum)
    requires h in ix ==> ix[h].num == rootNum + 1
    requires y in ix && ix[y].num == rootNum + 1
    ensures Without(Rest(ix, h, gone), y) == Rest(ix, h, gone + {y})
  {
    var rest := Rest(ix, h, gone);
    forall x | x in rest ensures Descends(rest, x, y) <==> Descends(ix, x, y) {
      DescendsInRest(ix, rootId, rootNum, h, gone, x, y);
    }
    hide Descends;
    assert forall x :: x in ix ==> (Clear(ix, x, gone + {y}) <==> Clear(ix, x, gone) && !Descends(ix, x, y));
  }

  lemma DescendsInRest(ix: Index, rootId: BlockId, rootNum: nat, h: BlockId, gone: set<BlockId>, x: BlockId, y: BlockId)
    requires Linked(ix, rootId, rootNum)
    requires h in ix ==> ix[h].num == rootNum + 1
    requires y in ix && ix[y].num == rootNum + 1 && x in Rest(ix, h, gone)
    ensures Descends(Rest(ix, h, gone), x, y) <==> Descends(ix, x, y)
  {
    if Descends(ix, x, y) {
      var n: nat :| Reaches(ix, x, y, n);
      ReachesInRest(ix, rootId, rootNum, h, gone, x, y, n);
    }
    if Descends(Rest(ix, h, gone), x, y) {
      var n: nat :| Reaches(Rest(ix, h, gone), x, y, n);
      ReachesInMore(Rest(ix, h, gone), ix, x, y, n);
    }
  }

  /** The blocks of a number, other than h. */
  function Others(ix: Index, h: BlockId, num: nat): set<BlockId>
  {
    set y | y in ix && ix[y].num == num && y != h
  }

  /** With every other root's tree gone, what is left is built on the root h. */
  lemma RestIsBelow(ix: Index, rootId: BlockId, rootNum: nat, h: BlockId)
    requires Linked(ix, rootId, rootNum) && h in ix && ix[h].num == rootNum + 1
    ensures Rest(ix, h, Others(ix, h, rootNum + 1)) == Below(ix, h)
  {
    BelowIsTheRest(ix, rootId, rootNum, h);
    var gone := Others(ix, h, rootNum + 1);
    assert forall x :: x in ix && x != h ==> (Clear(ix, x, gone) <==> Descends(ix, x, h));
  }

  lemma RestIsEmpty(ix: Index, rootId: BlockId, rootNum: nat, h: BlockId)
    requires Linked(ix, rootId, rootNum) && h !in ix
    ensures Rest(ix, h, Others(ix, h, rootNum + 1)) == map[]
  {
    forall x | x in ix ensures !Clear(ix, x, Others(ix, h, rootNum + 1)) {
      var r := RootOf(ix, rootId, rootNum, x);
      assert r in Others(ix, h, rootNum + 1);
    }
  }

  lemma {:induction false} ReachesInMore(cur: Index, ix: Index, x: BlockId, y: BlockId, n: nat)
    requires forall z :: z in cur ==> z in ix && cur[z] == ix[z]
    requires Reaches(cur, x, y, n)
    ensures Reaches(ix, x, y, n)
    decreases n
  {
    if n > 0 {
      ReachesInMore(cur, ix, cur[x].previous, y, n - 1);
    }
  }

  // ---------------------------------------------------------------- chains through the tree

  /** Of two ancestors of a block, the one with the higher number descends from the other. */
  lemma {:induction false} AncestorsOrdered(ix: Index, x: BlockId, a: BlockId, b: BlockId, m: nat, n: nat)
    requires Reaches(ix, x, a, m) && Reaches(ix, x, b, n) && m <= n
    ensures Reaches(ix, a, b, n - m)
    decreases m
  {
    if m > 0 {
      AncestorsOrdered(ix, ix[x].previous, a, b, m - 1, n - 1);
    }
  }

  lemma HigherAncestorDescends(ix: Index, x: BlockId, a: BlockId, b: BlockId)
    requires Numbered(ix) && x in ix && a in ix && b in ix && ix[a].num >= ix[b].num
    requires Descends(ix, x, a) && Descends(ix, x, b)
    ensures Descends(ix, a, b)
  {
    var m: nat :| Reaches(ix, x, a, m);
    var n: nat :| Reaches(ix, x, b, n);
    ReachesNum(ix, x, a, m);
    ReachesNum(ix, x, b, n);
    AncestorsOrdered(ix, x, a, b, m, n);
  }

  /** Between two blocks built on o, the path stays among the blocks built on o. */
  lemma {:induction false} ReachesBelow(ix: Index, o: BlockId, x: BlockId, y: BlockId, n: nat)
    requires Numbered(ix) && o in ix && x in Below(ix, o) && y in Below(ix, o) && Reaches(ix, x, y, n)
    ensures Reaches(Below(ix, o), x, y, n)
    decreases n
  {
    if n > 1 {
      var p := ix[x].previous;
      assert Descends(ix, p, y) by { assert Reaches(ix, p, y, n - 1); }
      DescendsTrans(ix, p, y, o);
      ReachesNum(ix, p, y, n - 1);
      BelowIsHigher(ix, o, y);
      ReachesBelow(ix, o, p, y, n - 1);
    }
  }

  lemma BelowIsHigher(ix: Index, o: BlockId, y: BlockId)
    requires Numbered(ix) && o in ix && y in Below(ix, o)
    ensures ix[y].num > ix[o].num
  {
    var n: nat :| Reaches(ix, y, o, n);
    ReachesNum(ix, y, o, n);
  }

  // ---------------------------------------------------------------- lists of ids

  /** The members of a set, in some order. */
  method Listed(s: set<BlockId>) returns (q: seq<BlockId>)
    ensures Distinct(q) && forall x :: x in q <==> x in s
  {
    q := [];
    var rest := s;
    while rest != {}
      invariant rest <= s && Distinct(q)
      invariant forall x :: x in q <==> x in s && x !in rest
    {
      var x :| x in rest;
      q := q + [x];
      rest := rest - {x};
    }
  }

  function Elems(q: seq<BlockId>): set<BlockId>
  {
    set x | x in q
  }

  /** Two indexes with the same ids, numbers and links. */
  predicate SameShape(a: Index, b: Index)
  {
    && a.Keys == b.Keys
    && forall x :: x in a ==> a[x].id == b[x].id && a[x].previous == b[x].previous && a[x].num == b[x].num
  }

  lemma SameShapeLinked(a: Index, b: Index, rootId: BlockId, rootNum: nat)
    requires Linked(a, rootId, rootNum) && SameShape(a, b)
    ensures Linked(b, rootId, rootNum)
  {
  }

  lemma SameDescent(a: Index, b: Index, x: BlockId, y: BlockId)
    requires SameShape(a, b) && Descends(a, x, y)
    ensures Descends(b, x, y)
  {
    var n: nat :| Reaches(a, x, y, n);
    SameReach(a, b, x, y, n);
  }

  lemma {:induction false} SameReach(a: Index, b: Index, x: BlockId, y: BlockId, n: nat)
    requires SameShape(a, b) && Reaches(a, x, y, n)
    ensures Reaches(b, x, y, n)
    decreases n
  {
    if n > 0 { SameReach(a, b, a[x].previous, y, n - 1); }
  }
}
