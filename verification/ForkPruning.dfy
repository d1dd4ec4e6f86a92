/** The orders of the fork database, and what pruning the oldest blocks one by one leaves of the tree. */
module ForkPruning {
  import opened Wrappers
  import opened ForkTree

  // ---------------------------------------------------------------- orders

  /** The order of head choice: DPoS irreversible number, then BFT irreversible number, then block number. */
  predicate Better(a: Block, b: Block)
  {
    || a.dpos > b.dpos
    || (a.dpos == b.dpos && a.bft > b.bft)
    || (a.dpos == b.dpos && a.bft == b.bft && a.num > b.num)
  }

  predicate Maximal(ix: Index, h: BlockId)
  {
    h in ix && forall x :: x in ix ==> !Better(ix[x], ix[h])
  }

  /**
   A best block has the greatest irreversible number, of those the greatest BFT number, and of those the greatest
   number.
   */
  lemma MaximalIff(ix: Index, h: BlockId)
    requires h in ix
    ensures Maximal(ix, h) <==> forall x :: x in ix ==>
      && ix[x].dpos <= ix[h].dpos
      && (ix[x].dpos == ix[h].dpos ==> ix[x].bft <= ix[h].bft)
      && (ix[x].dpos == ix[h].dpos && ix[x].bft == ix[h].bft ==> ix[x].num <= ix[h].num)
  {
  }

  /** The head is a best block; only an empty index has none. */
  predicate HeadOk(ix: Index, head: Option<BlockId>)
  {
    if ix == map[] then head == None else head.Some? && Maximal(ix, head.value)
  }

  /** The order of age: lower block numbers first, and of equal numbers the current chain first. */
  predicate Older(a: Block, b: Block)
  {
    a.num < b.num || (a.num == b.num && a.inCurrentChain && !b.inCurrentChain)
  }

  predicate Oldest(ix: Index, o: BlockId)
  {
    o in ix && forall x :: x in ix ==> !Older(ix[x], ix[o])
  }

  /** An oldest block has the least number, and is marked as current if any block of that number is. */
  lemma OldestIff(ix: Index, o: BlockId)
    requires o in ix
    ensures Oldest(ix, o) <==> forall x :: x in ix ==>
      ix[o].num <= ix[x].num && (ix[x].num == ix[o].num && ix[x].inCurrentChain ==> ix[o].inCurrentChain)
  {
  }

  /** Whatever block one starts from, some block is oldest. */
  lemma {:induction false} OldestFrom(ix: Index, x: BlockId) returns (o: BlockId)
    requires x in ix
    ensures Oldest(ix, o) && !Older(ix[x], ix[o])
    decreases ix[x].num, !ix[x].inCurrentChain
  {
    if Oldest(ix, x) {
      o := x;
    } else {
      var y :| y in ix && Older(ix[y], ix[x]);
      o := OldestFrom(ix, y);
    }
  }

  // ---------------------------------------------------------------- sequences of prunings

  /** No block older than the number is left. */
  predicate Done(ix: Index, lib: nat)
  {
    forall x :: x in ix ==> ix[x].num >= lib
  }

  /**
   One after the other, the announced blocks were oldest, were older than lib, and left exactly what was built on them.
   Between blocks of the same age any may come first.
   */
  ghost predicate Prunes(ix: Index, lib: nat, announced: seq<Block>, left: Index)
    decreases |announced|
  {
    if announced == [] then left == ix
    else
      var b := announced[0];
      && b.id in ix && ix[b.id] == b && Oldest(ix, b.id) && b.num < lib
      && Prunes(Below(ix, b.id), lib, announced[1..], left)
  }

  lemma FirstPruned(ix: Index, lib: nat, announced: seq<Block>, left: Index)
    requires Prunes(ix, lib, announced, left)
    ensures announced == [] ==> left == ix
    ensures announced != [] ==>
      && announced[0].id in ix && Oldest(ix, announced[0].id) && ix[announced[0].id].num < lib
      && Prunes(Below(ix, announced[0].id), lib, announced[1..], left)
  {
  }

  /** The prunings so far lead from ix to cur, and can be continued. */
  ghost predicate Extends(ix: Index, lib: nat, sofar: seq<Block>, cur: Index)
  {
    forall more, left :: Prunes(cur, lib, more, left) ==> Prunes(ix, lib, sofar + more, left)
  }

  lemma ExtendsStart(ix: Index, lib: nat)
    ensures Extends(ix, lib, [], ix)
  {
    forall more, left | Prunes(ix, lib, more, left) ensures Prunes(ix, lib, [] + more, left) {
      assert [] + more == more;
    }
  }

  lemma ExtendsStep(ix: Index, lib: nat, sofar: seq<Block>, cur: Index, o: BlockId)
    requires Extends(ix, lib, sofar, cur) && Oldest(cur, o) && cur[o].num < lib && cur[o].id == o
    ensures Extends(ix, lib, sofar + [cur[o]], Below(cur, o))
  {
    forall more, left | Prunes(Below(cur, o), lib, more, left) ensures Prunes(ix, lib, sofar + [cur[o]] + more, left) {
      var next := [cur[o]] + more;
      assert next[1..] == more;
      assert Prunes(cur, lib, next, left);
      assert sofar + next == sofar + [cur[o]] + more;
    }
  }

  lemma ExtendsEnd(ix: Index, lib: nat, sofar: seq<Block>, cur: Index)
    requires Extends(ix, lib, sofar, cur)
    ensures Prunes(ix, lib, sofar, cur)
  {
    assert Prunes(cur, lib, [], cur);
    assert sofar + [] == sofar;
  }

  /** A block to prune in a linked index is one of its roots. */
  lemma OldestIsRoot(ix: Index, rootId: BlockId, rootNum: nat, o: BlockId)
    requires Linked(ix, rootId, rootNum) && Oldest(ix, o)
    ensures o in ix && ix[o].num == rootNum + 1 && ix[o].previous == rootId && ix[o].previous !in ix
  {
    var r := RootOf(ix, rootId, rootNum, o);
    LinkedDescends(ix, rootId, rootNum, o);
    if ix[o].previous in ix { LinkedDescends(ix, rootId, rootNum, ix[o].previous); }
  }

  /** What is built on a block built on o is the same with or without the rest of the tree. */
  lemma BelowBelow(ix: Index, o: BlockId, y: BlockId)
    requires Numbered(ix) && o in ix && y in Below(ix, o)
    ensures Below(Below(ix, o), y) == Below(ix, y)
  {
    var below := Below(ix, o);
    BelowIsHigher(ix, o, y);
    forall x | x in ix ensures x in Below(below, y) <==> x in Below(ix, y) {
      if x in Below(ix, y) {
        DescendsTrans(ix, x, y, o);
        BelowIsHigher(ix, y, x);
        var n: nat :| Reaches(ix, x, y, n);
        ReachesBelow(ix, o, x, y, n);
      }
      if x in Below(below, y) {
        var n: nat :| Reaches(below, x, y, n);
        ReachesInMore(below, ix, x, y, n);
      }
    }
  }

  /** What is left when the given blocks have been announced: everything, or what is built on the last of them. */
  ghost function Kept(ix: Index, announced: seq<Block>): Index
  {
    if announced == [] then ix else Below(ix, announced[|announced| - 1].id)
  }

  /** However ties are broken, pruning leaves exactly what is built on the last block announced. */
  lemma {:induction false} PrunesKeeps(ix: Index, rootId: BlockId, rootNum: nat, lib: nat, announced: seq<Block>,
                                       left: Index)
    requires Linked(ix, rootId, rootNum) && Prunes(ix, lib, announced, left)
    ensures left == Kept(ix, announced)
    ensures forall b :: b in announced ==> b.id in ix && ix[b.id] == b && b.num < lib
    decreases |announced|
  {
    hide Linked, Oldest, Below, Descends;
    if announced != [] {
      var o := announced[0].id;
      OldestIsRoot(ix, rootId, rootNum, o);
      BelowLinked(ix, rootId, rootNum, o);
      BelowIsPart(ix, o);
      PrunesKeeps(Below(ix, o), o, rootNum + 1, lib, announced[1..], left);
      if |announced| > 1 {
        var last := announced[|announced| - 1];
        assert announced[1..][|announced| - 2] == last;
        LinkedNumbered(ix, rootId, rootNum);
        BelowBelow(ix, o, last.id);
      }
    }
  }

  lemma BelowIsPart(ix: Index, o: BlockId)
    ensures forall x :: x in Below(ix, o) ==> x in ix && Below(ix, o)[x] == ix[x]
  {
  }

  lemma LinkedNumbered(ix: Index, rootId: BlockId, rootNum: nat)
    requires Linked(ix, rootId, rootNum)
    ensures Numbered(ix)
  {
  }

  /** Pruning can go on until enough blocks have been announced or none is old enough. */
  lemma {:induction false} PrunesExist(ix: Index, lib: nat, n: nat) returns (announced: seq<Block>, left: Index)
    requires Numbered(ix)
    ensures Prunes(ix, lib, announced, left) && |announced| <= n && (|announced| == n || Done(left, lib))
    ensures left.Keys <= ix.Keys
    decreases n
  {
    if n == 0 || Done(ix, lib) {
      announced, left := [], ix;
    } else {
      var x :| x in ix && ix[x].num < lib;
      var o := OldestFrom(ix, x);
      BelowNumbered(ix, o);
      announced, left := PrunesExist(Below(ix, o), lib, n - 1);
      announced := [ix[o]] + announced;
    }
  }

  lemma BelowNumbered(ix: Index, o: BlockId)
    requires Numbered(ix)
    ensures Numbered(Below(ix, o))
  {
  }

  // ---------------------------------------------------------------- whether the head survives

  /**
   Every ancestor of the head that may be pruned comes before its siblings in the order of age: it is marked as current
   and they are not. An ancestor without siblings need not be marked.
   */
  ghost predicate Favoured(ix: Index, rootNum: nat, head: BlockId, lib: nat, n: nat)
  {
    forall a, s :: a in ix && s in ix && Rivals(ix, a, s) && Descends(ix, head, a)
      && ix[a].num < lib && ix[a].num <= rootNum + n
      ==> ix[a].inCurrentChain && !ix[s].inCurrentChain
  }

  predicate Rivals(ix: Index, a: BlockId, s: BlockId)
    requires a in ix && s in ix
  {
    a != s && ix[a].previous == ix[s].previous
  }

  /** The oldest block can only be the head's ancestor when that one is favoured. */
  lemma FavouredOldest(ix: Index, rootId: BlockId, rootNum: nat, head: BlockId, lib: nat, n: nat, o: BlockId)
    requires Linked(ix, rootId, rootNum) && head in ix && lib <= ix[head].num && n > 0
    requires Favoured(ix, rootNum, head, lib, n) && Oldest(ix, o) && ix[o].num < lib
    ensures head in Below(ix, o)
  {
    OldestIsRoot(ix, rootId, rootNum, o);
    var r := RootOf(ix, rootId, rootNum, head);
    RootHangs(ix, rootId, rootNum, r);
    if r != o {
      assert Rivals(ix, r, o);
      assert Older(ix[r], ix[o]);
    }
  }

  lemma RootHangs(ix: Index, rootId: BlockId, rootNum: nat, r: BlockId)
    requires Linked(ix, rootId, rootNum) && r in ix && ix[r].num == rootNum + 1
    ensures ix[r].previous == rootId && rootId !in ix
  {
    if ix[r].previous in ix { LinkedDescends(ix, rootId, rootNum, ix[r].previous); }
    if rootId in ix { LinkedDescends(ix, rootId, rootNum, rootId); }
  }

  lemma FavouredBelow(ix: Index, rootNum: nat, head: BlockId, lib: nat, n: nat, o: BlockId)
    requires n > 0 && Favoured(ix, rootNum, head, lib, n)
    ensures Favoured(Below(ix, o), rootNum + 1, head, lib, n - 1)
  {
    var below := Below(ix, o);
    forall a, s | a in below && s in below && Rivals(below, a, s) && Descends(below, head, a) && below[a].num < lib
        && below[a].num <= rootNum + n ensures below[a].inCurrentChain && !below[s].inCurrentChain {
      var m: nat :| Reaches(below, head, a, m);
      ReachesInMore(below, ix, head, a, m);
      assert Rivals(ix, a, s);
    }
  }

  /** A favoured head survives, however ties are broken. */
  lemma {:induction false} FavouredSurvives(ix: Index, rootId: BlockId, rootNum: nat, head: BlockId, lib: nat, n: nat,
                                            announced: seq<Block>, left: Index)
    requires Linked(ix, rootId, rootNum) && head in ix && lib <= ix[head].num
    requires Favoured(ix, rootNum, head, lib, n)
    requires Prunes(ix, lib, announced, left) && |announced| <= n
    ensures head in left
    decreases |announced|
  {
    hide Linked, Oldest, Favoured, Below, Descends, Prunes;
    FirstPruned(ix, lib, announced, left);
    if announced != [] {
      var o := announced[0].id;
      FavouredStep(ix, rootId, rootNum, head, lib, n, o);
      FavouredSurvives(Below(ix, o), o, rootNum + 1, head, lib, n - 1, announced[1..], left);
    }
  }

  /** Pruning the oldest block leaves a favoured head favoured. */
  lemma FavouredStep(ix: Index, rootId: BlockId, rootNum: nat, head: BlockId, lib: nat, n: nat, o: BlockId)
    requires Linked(ix, rootId, rootNum) && head in ix && lib <= ix[head].num && n > 0
    requires Favoured(ix, rootNum, head, lib, n) && Oldest(ix, o) && ix[o].num < lib
    ensures var below := Below(ix, o);
      && head in below && below[head] == ix[head]
      && Linked(below, o, rootNum + 1) && Favoured(below, rootNum + 1, head, lib, n - 1)
  {
    hide Linked, Oldest, Favoured, Below, Descends;
    FavouredOldest(ix, rootId, rootNum, head, lib, n, o);
    BelowIsPart(ix, o);
    OldestIsRoot(ix, rootId, rootNum, o);
    BelowLinked(ix, rootId, rootNum, o);
    FavouredBelow(ix, rootNum, head, lib, n, o);
  }

  /** Pruning a block that is not the head's ancestor loses the head. */
  lemma LoseAt(ix: Index, rootId: BlockId, rootNum: nat, head: BlockId, lib: nat, n: nat, o: BlockId)
    returns (announced: seq<Block>, left: Index)
    requires Linked(ix, rootId, rootNum) && n > 0 && Oldest(ix, o) && ix[o].num < lib && !Descends(ix, head, o)
    ensures Prunes(ix, lib, announced, left) && |announced| <= n && (|announced| == n || Done(left, lib))
    ensures head !in left
  {
    LinkedNumbered(ix, rootId, rootNum);
    BelowNumbered(ix, o);
    announced, left := PrunesExist(Below(ix, o), lib, n - 1);
    announced := [ix[o]] + announced;
  }

  /** Of two roots of which the first is not favoured over the second, one that is not the first may be pruned first. */
  lemma RivalFirst(ix: Index, rootId: BlockId, rootNum: nat, a: BlockId, s: BlockId) returns (o: BlockId)
    requires Linked(ix, rootId, rootNum) && a in ix && s in ix && a != s
    requires ix[a].num == rootNum + 1 && ix[s].num == rootNum + 1 && !(ix[a].inCurrentChain && !ix[s].inCurrentChain)
    ensures Oldest(ix, o) && o != a && ix[o].num == rootNum + 1
  {
    o := OldestFrom(ix, s);
    OldestIsRoot(ix, rootId, rootNum, o);
    if o == a {
      o := s;
    }
  }

  /** A head that is not favoured is lost for some way of breaking ties. */
  lemma {:induction false} UnfavouredLost(ix: Index, rootId: BlockId, rootNum: nat, head: BlockId, lib: nat, n: nat)
    returns (announced: seq<Block>, left: Index)
    requires Linked(ix, rootId, rootNum) && head in ix && lib <= ix[head].num
    requires !Favoured(ix, rootNum, head, lib, n)
    ensures Prunes(ix, lib, announced, left) && |announced| <= n && (|announced| == n || Done(left, lib))
    ensures head !in left
    decreases n
  {
    var a, s :| a in ix && s in ix && Rivals(ix, a, s) && Descends(ix, head, a)
      && ix[a].num < lib && ix[a].num <= rootNum + n
      && !(ix[a].inCurrentChain && !ix[s].inCurrentChain);
    LinkedDescends(ix, rootId, rootNum, a);
    var r := RootOf(ix, rootId, rootNum, head);
    if ix[a].num == rootNum + 1 {
      RootHangs(ix, rootId, rootNum, a);
      var o := RivalFirst(ix, rootId, rootNum, a, s);
      NotBoth(ix, rootId, rootNum, head, a, o);
      announced, left := LoseAt(ix, rootId, rootNum, head, lib, n, o);
    } else if o :| Oldest(ix, o) && o != r {
      OldestIsRoot(ix, rootId, rootNum, o);
      NotBoth(ix, rootId, rootNum, head, r, o);
      announced, left := LoseAt(ix, rootId, rootNum, head, lib, n, o);
    } else {
      var o := OldestFrom(ix, a);
      assert o == r;
      BelowLinked(ix, rootId, rootNum, r);
      StillRivals(ix, rootId, rootNum, head, r, a, s);
      announced, left := UnfavouredLost(Below(ix, r), r, rootNum + 1, head, lib, n - 1);
      announced := [ix[r]] + announced;
    }
  }

  lemma NotBoth(ix: Index, rootId: BlockId, rootNum: nat, head: BlockId, a: BlockId, o: BlockId)
    requires Linked(ix, rootId, rootNum) && head in ix && a in ix && o in ix && a != o && ix[a].num == ix[o].num
    requires Descends(ix, head, a)
    ensures !Descends(ix, head, o)
  {
    if Descends(ix, head, o) { SameLevelAncestor(ix, head, a, o); }
  }

  /** Above the root, an ancestor of the head and its sibling are both built on the head's root. */
  lemma StillRivals(ix: Index, rootId: BlockId, rootNum: nat, head: BlockId, r: BlockId, a: BlockId, s: BlockId)
    requires Linked(ix, rootId, rootNum) && head in ix && r in ix && a in ix && s in ix
    requires ix[r].num == rootNum + 1 && ix[a].num > rootNum + 1 && Rivals(ix, a, s)
    requires Descends(ix, head, r) && Descends(ix, head, a)
    ensures var below := Below(ix, r);
      a in below && s in below && head in below && Rivals(below, a, s) && Descends(below, head, a)
  {
    HigherAncestorDescends(ix, head, a, r);
    DescendsStep(ix, a, r);
    DescendsUp(ix, s, r);
    var p := ix[a].previous;
    if s == r { RootHangs(ix, rootId, rootNum, r); DescendsStep(ix, a, r); LinkedDescends(ix, rootId, rootNum, a); }
    if head == r { AncestorNotHigher(ix, head, a); }
    var n: nat :| Reaches(ix, head, a, n);
    ReachesBelow(ix, r, head, a, n);
  }

  lemma AncestorNotHigher(ix: Index, x: BlockId, a: BlockId)
    requires Numbered(ix) && x in ix && a in ix && Descends(ix, x, a)
    ensures ix[a].num <= ix[x].num
  {
    var n: nat :| Reaches(ix, x, a, n);
    ReachesNum(ix, x, a, n);
  }

  /** The head survives pruning for every way of breaking ties if and only if it is favoured. */
  lemma HeadSurvivesIff(ix: Index, rootId: BlockId, rootNum: nat, head: BlockId, lib: nat, n: nat)
    requires Linked(ix, rootId, rootNum) && head in ix && lib <= ix[head].num
    ensures Favoured(ix, rootNum, head, lib, n) <==>
      forall announced, left ::
        Prunes(ix, lib, announced, left) && |announced| <= n && (|announced| == n || Done(left, lib)) ==>
          head in left
  {
    hide Favoured, Prunes, Linked, Done;
    if Favoured(ix, rootNum, head, lib, n) {
      forall announced, left | Prunes(ix, lib, announced, left) && |announced| <= n ensures head in left {
        FavouredSurvives(ix, rootId, rootNum, head, lib, n, announced, left);
      }
    } else {
      var announced, left := UnfavouredLost(ix, rootId, rootNum, head, lib, n);
    }
  }
}
