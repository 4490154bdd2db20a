/**
 The block index: a tree of blocks linked by `pprev`, with a skip list threaded through it
 by `pskip`, and the active chain.  Fast searches are proved against the plain walk along
 `pprev`.
 */
module Chain {

  // ---------------------------------------------------------------- skip heights

  /** Bitwise and of two non-negative numbers. */
  function And(a: nat, b: nat): nat {
    if a == 0 || b == 0 then 0 else (if a % 2 == 1 && b % 2 == 1 then 1 else 0) + 2 * And(a / 2, b / 2)
  }

  lemma {:induction false} AndSelf(n: nat)
    ensures And(n, n) == n
  {
    if n > 0 {
      AndSelf(n / 2);
    }
  }

  /** Clearing the lowest set bit of a positive number leaves a smaller one. */
  lemma {:induction false} AndBelow(n: nat)
    requires n > 0
    ensures And(n, n - 1) < n
  {
    if n % 2 == 1 {
      assert n / 2 == (n - 1) / 2;
      AndSelf(n / 2);
    } else {
      assert (n - 1) / 2 == n / 2 - 1;
      AndBelow(n / 2);
    }
  }

  function InvertLowestOne(n: nat): (r: nat)
    ensures n > 0 ==> r < n
  {
    if n == 0 then 0 else AndBelow(n); And(n, n - 1)
  }

  function Pow2(k: nat): nat {
    if k == 0 then 1 else 2 * Pow2(k - 1)
  }

  lemma ClearOdd(j: nat)
    ensures InvertLowestOne(2 * j + 1) == 2 * j
  {
    var n := 2 * j + 1;
    assert n / 2 == j && (n - 1) / 2 == j;
    AndSelf(j);
  }

  lemma ClearEven(h: nat)
    requires h > 0
    ensures InvertLowestOne(2 * h) == 2 * InvertLowestOne(h)
  {
    assert 2 * h / 2 == h && (2 * h - 1) / 2 == h - 1;
  }

  /** An odd multiple of a power of two. */
  function Odd(k: nat, j: nat): nat {
    if k == 0 then 2 * j + 1 else 2 * Odd(k - 1, j)
  }

  /** The even multiple of the same power just below it. */
  function Even(k: nat, j: nat): nat {
    if k == 0 then 2 * j else 2 * Even(k - 1, j)
  }

  /** Every positive number is an odd multiple of a power of two. */
  lemma {:induction false} OddPart(n: nat) returns (k: nat, j: nat)
    requires n > 0
    ensures n == Odd(k, j)
  {
    if n % 2 == 1 {
      k, j := 0, n / 2;
    } else {
      k, j := OddPart(n / 2);
      k := k + 1;
    }
  }

  /** These are what they are called: products with the power. */
  lemma {:induction false} Products(k: nat, j: nat)
    ensures Odd(k, j) == Pow2(k) * (2 * j + 1) > 0 && Even(k, j) == Pow2(k) * (2 * j)
  {
    if k > 0 {
      Products(k - 1, j);
      Regroup(Pow2(k - 1), 2 * j + 1);
      Regroup(Pow2(k - 1), 2 * j);
    }
  }

  lemma Regroup(a: nat, b: nat)
    ensures 2 * a * b == 2 * (a * b)
  {
  }

  lemma {:induction false} LowestOne(k: nat, j: nat)
    ensures InvertLowestOne(Odd(k, j)) == Even(k, j)
  {
    hide InvertLowestOne;
    if k == 0 {
      ClearOdd(j);
    } else {
      LowestOne(k - 1, j);
      Products(k - 1, j);
      ClearEven(Odd(k - 1, j));
    }
  }

  /**
   Where skips go.  From an even height, to the height with its lowest set bit cleared; from an odd
   height above one, to one more than the even height below it with its two lowest set bits cleared.
   */
  lemma SkipHeightIs(height: nat) returns (k: nat, j: nat, k': nat, j': nat)
    requires height > 1
    ensures var n := if height % 2 == 0 then height else height - 1;
            n == Pow2(k) * (2 * j + 1) && k > 0
    ensures height % 2 == 0 ==> GetSkipHeight(height) == Pow2(k) * (2 * j)
    ensures height % 2 == 1 && j == 0 ==> GetSkipHeight(height) == 1
    ensures height % 2 == 1 && j > 0 ==>
              Pow2(k) * (2 * j) == Pow2(k') * (2 * j' + 1) && GetSkipHeight(height) == Pow2(k') * (2 * j') + 1
  {
    hide InvertLowestOne, Pow2;
    var n := if height % 2 == 0 then height else height - 1;
    k, j := OddPart(n);
    k', j' := 0, 0;
    Products(k, j);
    LowestOne(k, j);
    if height % 2 == 1 {
      if j == 0 {
        ClearNothing();
      } else {
        EvenPositive(k, j);
        k', j' := OddPart(Even(k, j));
        Products(k', j');
        LowestOne(k', j');
      }
    }
  }

  lemma ClearNothing()
    ensures InvertLowestOne(0) == 0
  {
  }

  lemma {:induction false} EvenPositive(k: nat, j: nat)
    requires j > 0
    ensures Even(k, j) > 0
  {
    if k > 0 {
      EvenPositive(k - 1, j);
    }
  }

  /** A skip always goes down, so following skips terminates. */
  function GetSkipHeight(height: nat): (r: nat)
    ensures height > 0 ==> r < height
  {
    if height < 2 then 0
    else if height % 2 == 1 then InvertLowestOne(InvertLowestOne(height - 1)) + 1
    else InvertLowestOne(height)
  }

  // ---------------------------------------------------------------- the tree

  class BlockIndex {
    var pprev: BlockIndex?
    var pskip: BlockIndex?
    var nHeight: int

    /** The ancestor at a height, by skips where they help; null for a height the block does not have. */
    method GetAncestor(height: int, ghost tree: set<BlockIndex>) returns (r: BlockIndex?)
      requires IsTree(tree) && SkipsOk(tree) && this in tree
      ensures height < 0 || height > nHeight ==> r == null
      ensures 0 <= height <= nHeight ==> r == Ancestor(tree, this, height)
    {
      if height > nHeight || height < 0 {
        return null;
      }
      var walk := this;
      var heightWalk := nHeight;
      while heightWalk > height
        invariant walk in tree && height <= heightWalk == walk.nHeight <= nHeight
        invariant Ancestor(tree, walk, height) == Ancestor(tree, this, height)
      {
        var heightSkip := GetSkipHeight(heightWalk);
        var heightSkipPrev := GetSkipHeight(heightWalk - 1);
        if walk.pskip != null &&
           (heightSkip == height ||
            (heightSkip > height && !(heightSkipPrev < heightSkip - 2 && heightSkipPrev >= height))) {
          AncestorOfAncestor(tree, walk, heightSkip, height);
          walk := walk.pskip;
          heightWalk := heightSkip;
        } else {
          assert walk.pprev != null;
          walk := walk.pprev;
          heightWalk := heightWalk - 1;
        }
      }
      r := walk;
    }

    /** Sets this block's skip pointer; the block's ancestry must be in the tree already. */
    method BuildSkip(ghost tree: set<BlockIndex>)
      requires IsTree(tree) && SkipsOk(tree) && this in tree
      modifies `pskip
      ensures SkipsOk(tree)
      ensures nHeight > 0 ==> pskip != null && pskip == Ancestor(tree, this, GetSkipHeight(nHeight))
      ensures nHeight == 0 ==> pskip == old(pskip)
    {
      if pprev != null {
        var skip := pprev.GetAncestor(GetSkipHeight(nHeight), tree);
        pskip := skip;
      }
    }
  }

  /** Heights count the steps to the root, and the tree holds the parents of its blocks. */
  ghost predicate IsTree(tree: set<BlockIndex>)
    reads tree`pprev, tree`nHeight
  {
    && (forall b :: b in tree ==> 0 <= b.nHeight)
    && (forall b {:trigger b.pprev} :: b in tree ==>
          && (b.pprev == null <==> b.nHeight == 0)
          && (b.pprev != null ==> b.pprev in tree && b.pprev.nHeight == b.nHeight - 1))
  }

  /** The block at height `h` on the way from `b` to the root, by walking `pprev`. */
  ghost function Ancestor(tree: set<BlockIndex>, b: BlockIndex, h: int): (r: BlockIndex)
    requires IsTree(tree) && b in tree && 0 <= h <= b.nHeight
    reads tree`pprev, tree`nHeight
    ensures r in tree && r.nHeight == h
    decreases b.nHeight
  {
    if h == b.nHeight then b else Ancestor(tree, b.pprev, h)
  }

  /** Every skip pointer that is set points to the ancestor at the skip height. */
  ghost predicate SkipsOk(tree: set<BlockIndex>)
    requires IsTree(tree)
    reads tree
  {
    forall b :: b in tree && b.pskip != null ==> b.nHeight > 0 && SkipsRight(tree, b)
  }

  ghost predicate SkipsRight(tree: set<BlockIndex>, b: BlockIndex)
    requires IsTree(tree) && b in tree && b.nHeight > 0
    reads tree
  {
    b.pskip == Ancestor(tree, b, GetSkipHeight(b.nHeight))
  }

  lemma {:induction false} AncestorOfAncestor(tree: set<BlockIndex>, b: BlockIndex, k: int, h: int)
    requires IsTree(tree) && b in tree && 0 <= h <= k <= b.nHeight
    ensures Ancestor(tree, Ancestor(tree, b, k), h) == Ancestor(tree, b, h)
    decreases b.nHeight
  {
    if k < b.nHeight {
      AncestorOfAncestor(tree, b.pprev, k, h);
    }
  }

  ghost predicate IsAncestor(tree: set<BlockIndex>, c: BlockIndex, b: BlockIndex)
    requires IsTree(tree) && b in tree
    reads tree`pprev, tree`nHeight
  {
    c in tree && c.nHeight <= b.nHeight && Ancestor(tree, b, c.nHeight) == c
  }

  // ---------------------------------------------------------------- last common ancestor

  ghost predicate Common(tree: set<BlockIndex>, c: BlockIndex, a: BlockIndex, b: BlockIndex)
    requires IsTree(tree) && a in tree && b in tree
    reads tree`pprev, tree`nHeight
  {
    IsAncestor(tree, c, a) && IsAncestor(tree, c, b)
  }

  /** Moving from `b` to its ancestor at height `k` keeps the ancestors up to `k`. */
  lemma AncestorsBelow(tree: set<BlockIndex>, c: BlockIndex, b: BlockIndex, k: int)
    requires IsTree(tree) && b in tree && c in tree && 0 <= k <= b.nHeight
    ensures c.nHeight <= k ==> (IsAncestor(tree, c, b) <==> IsAncestor(tree, c, Ancestor(tree, b, k)))
  {
    if c.nHeight <= k {
      AncestorOfAncestor(tree, b, k, c.nHeight);
    }
  }

  /** Two blocks whose ancestors at height `k` differ have the same common ancestors as those. */
  lemma ForkBelow(tree: set<BlockIndex>, c: BlockIndex, a: BlockIndex, b: BlockIndex, k: int)
    requires IsTree(tree) && a in tree && b in tree && c in tree && 0 <= k <= a.nHeight == b.nHeight
    requires Ancestor(tree, a, k) != Ancestor(tree, b, k)
    ensures Common(tree, c, a, b) <==> Common(tree, c, Ancestor(tree, a, k), Ancestor(tree, b, k))
  {
    AncestorsBelow(tree, c, a, k);
    AncestorsBelow(tree, c, b, k);
    if Common(tree, c, a, b) && c.nHeight > k {
      AncestorOfAncestor(tree, a, c.nHeight, k);
      AncestorOfAncestor(tree, b, c.nHeight, k);
    }
  }

  /** Different blocks of one height share only the ancestors of their parents. */
  lemma ForkAtParents(tree: set<BlockIndex>, c: BlockIndex, a: BlockIndex, b: BlockIndex)
    requires IsTree(tree) && a in tree && b in tree && c in tree && a != b && a.nHeight == b.nHeight > 0
    ensures Common(tree, c, a, b) <==> Common(tree, c, a.pprev, b.pprev)
  {
  }

  /** One tree: a single root, and every other block with its skip pointer built. */
  ghost predicate Built(tree: set<BlockIndex>)
    requires IsTree(tree)
    reads tree
  {
    && SkipsOk(tree)
    && (forall b :: b in tree && b.nHeight > 0 ==> b.pskip != null)
    && (forall a, b :: a in tree && b in tree && a.nHeight == 0 && b.nHeight == 0 ==> a == b)
  }

  ghost predicate SameCommon(tree: set<BlockIndex>, a: BlockIndex, b: BlockIndex, a': BlockIndex, b': BlockIndex)
    requires IsTree(tree) && a in tree && b in tree && a' in tree && b' in tree
    reads tree`pprev, tree`nHeight
  {
    forall c :: c in tree ==> (Common(tree, c, a, b) <==> Common(tree, c, a', b'))
  }

  /** The fork point of two blocks: the highest block that is an ancestor of, or equal to, both. */
  method LastCommonAncestor(pa: BlockIndex, pb: BlockIndex, ghost tree: set<BlockIndex>) returns (r: BlockIndex)
    requires IsTree(tree) && Built(tree) && pa in tree && pb in tree
    ensures r in tree && Common(tree, r, pa, pb)
    ensures forall c :: c in tree && Common(tree, c, pa, pb) ==> c.nHeight <= r.nHeight
  {
    hide SameCommon, Common, Ancestor;
    var a, b := Level(pa, pb, tree);
    while a != b
      invariant a in tree && b in tree && a.nHeight == b.nHeight
      invariant SameCommon(tree, pa, pb, a, b)
      decreases a.nHeight
    {
      var c, d := SkipToFork(a, b, tree);
      CommonTransitive(tree, pa, pb, a, b, c, d);
      ParentsCommon(tree, c, d);
      CommonTransitive(tree, pa, pb, c, d, c.pprev, d.pprev);
      a, b := c.pprev, d.pprev;
    }
    r := a;
    SelfCommon(tree, pa, pb, a);
  }

  /** Brings the two blocks to the same height. */
  method Level(pa: BlockIndex, pb: BlockIndex, ghost tree: set<BlockIndex>) returns (a: BlockIndex, b: BlockIndex)
    requires IsTree(tree) && SkipsOk(tree) && pa in tree && pb in tree
    ensures a in tree && b in tree && a.nHeight == b.nHeight && SameCommon(tree, pa, pb, a, b)
  {
    hide SameCommon, Common;
    a, b := pa, pb;
    if a.nHeight > b.nHeight {
      LevelCommon(tree, pa, pb);
      a := a.GetAncestor(b.nHeight, tree);
    } else if b.nHeight > a.nHeight {
      LevelCommon(tree, pb, pa);
      b := b.GetAncestor(a.nHeight, tree);
    } else {
      SameCommonSelf(tree, pa, pb);
    }
  }

  lemma SameCommonSelf(tree: set<BlockIndex>, a: BlockIndex, b: BlockIndex)
    requires IsTree(tree) && a in tree && b in tree
    ensures SameCommon(tree, a, b, a, b)
  {
  }

  lemma CommonTransitive(tree: set<BlockIndex>, a: BlockIndex, b: BlockIndex, c: BlockIndex, d: BlockIndex,
                         e: BlockIndex, f: BlockIndex)
    requires IsTree(tree) && a in tree && b in tree && c in tree && d in tree && e in tree && f in tree
    requires SameCommon(tree, a, b, c, d) && SameCommon(tree, c, d, e, f)
    ensures SameCommon(tree, a, b, e, f)
  {
    hide Common;
  }

  lemma ParentsCommon(tree: set<BlockIndex>, a: BlockIndex, b: BlockIndex)
    requires IsTree(tree) && a in tree && b in tree && a != b && a.nHeight == b.nHeight > 0
    ensures SameCommon(tree, a, b, a.pprev, b.pprev)
  {
    forall c | c in tree ensures Common(tree, c, a, b) <==> Common(tree, c, a.pprev, b.pprev) {
      ForkAtParents(tree, c, a, b);
    }
  }

  /** When both walks have met, the meeting point is the highest common ancestor. */
  lemma SelfCommon(tree: set<BlockIndex>, pa: BlockIndex, pb: BlockIndex, a: BlockIndex)
    requires IsTree(tree) && pa in tree && pb in tree && a in tree && SameCommon(tree, pa, pb, a, a)
    ensures Common(tree, a, pa, pb)
    ensures forall c :: c in tree && Common(tree, c, pa, pb) ==> c.nHeight <= a.nHeight
  {
    assert Common(tree, a, a, a);
  }

  lemma LevelCommon(tree: set<BlockIndex>, a: BlockIndex, b: BlockIndex)
    requires IsTree(tree) && a in tree && b in tree && a.nHeight >= b.nHeight
    ensures SameCommon(tree, a, b, Ancestor(tree, a, b.nHeight), b)
    ensures SameCommon(tree, b, a, b, Ancestor(tree, a, b.nHeight))
  {
    forall c | c in tree
      ensures Common(tree, c, a, b) <==> Common(tree, c, Ancestor(tree, a, b.nHeight), b)
      ensures Common(tree, c, b, a) <==> Common(tree, c, b, Ancestor(tree, a, b.nHeight))
    {
      AncestorsBelow(tree, c, a, b.nHeight);
    }
  }

  /** The inner loop: jump back in step until the skip pointers agree; the blocks stay different. */
  method SkipToFork(pa: BlockIndex, pb: BlockIndex, ghost tree: set<BlockIndex>) returns (a: BlockIndex, b: BlockIndex)
    requires IsTree(tree) && Built(tree) && pa in tree && pb in tree && pa.nHeight == pb.nHeight && pa != pb
    ensures a in tree && b in tree && a != b && 0 < a.nHeight == b.nHeight <= pa.nHeight
    ensures SameCommon(tree, pa, pb, a, b)
  {
    hide SameCommon, Common, Ancestor;
    a, b := pa, pb;
    SameCommonSelf(tree, pa, pb);
    while a.pskip != b.pskip
      invariant a in tree && b in tree && a != b && a.nHeight == b.nHeight <= pa.nHeight
      invariant SameCommon(tree, pa, pb, a, b)
      decreases a.nHeight
    {
      assert a.nHeight > 0;
      assert SkipsRight(tree, a) && SkipsRight(tree, b);
      assert a.pskip.nHeight == b.pskip.nHeight;
      SkipsCommon(tree, a, b);
      CommonTransitive(tree, pa, pb, a, b, a.pskip, b.pskip);
      a, b := a.pskip, b.pskip;
    }
  }

  lemma SkipsCommon(tree: set<BlockIndex>, a: BlockIndex, b: BlockIndex)
    requires IsTree(tree) && a in tree && b in tree && a.nHeight == b.nHeight > 0
    requires SkipsRight(tree, a) && SkipsRight(tree, b) && a.pskip != b.pskip
    ensures SameCommon(tree, a, b, a.pskip, b.pskip)
  {
    forall c | c in tree ensures Common(tree, c, a, b) <==> Common(tree, c, a.pskip, b.pskip) {
      ForkBelow(tree, c, a, b, GetSkipHeight(a.nHeight));
    }
  }

  // ---------------------------------------------------------------- the active chain

  class ActiveChain {
    var vChain: seq<BlockIndex?>

    constructor ()
      ensures vChain == []
    {
      vChain := [];
    }

    /** Height `h` holds a block of height `h` whose parent is at height `h - 1`. */
    ghost predicate WellFormed(tree: set<BlockIndex>)
      reads this, tree`pprev, tree`nHeight
    {
      forall h :: 0 <= h < |vChain| ==> LinkedAt(tree, vChain, h)
    }

    function Height(): int
      reads this
    {
      |vChain| - 1
    }

    function At(height: int): BlockIndex?
      reads this
    {
      if height < 0 || height >= |vChain| then null else vChain[height]
    }

    predicate Contains(b: BlockIndex)
      reads this, b
    {
      At(b.nHeight) == b
    }

    /**
     Makes `block` the tip.  The walk stops at the first block already in place, and still
     every height ends up with the new tip's ancestor.
     */
    method SetTip(block: BlockIndex, ghost tree: set<BlockIndex>)
      requires IsTree(tree) && WellFormed(tree) && block in tree
      modifies this
      ensures WellFormed(tree) && |vChain| == block.nHeight + 1
      ensures forall h :: 0 <= h <= block.nHeight ==> vChain[h] == Ancestor(tree, block, h)
    {
      hide Ancestor, OnChain;
      var size := block.nHeight + 1;
      ghost var before := vChain;
      vChain := if |vChain| >= size then vChain[..size] else vChain + seq(size - |vChain|, _ => null);
      var index := FillDown(block, tree);
      if index != null {
        RestInPlace(tree, block, before, vChain, index);
      }
      LinkedUp(tree, block, vChain);
    }

    /** Writes the ancestors of `block` from the top down, until one is found in place. */
    method FillDown(block: BlockIndex, ghost tree: set<BlockIndex>) returns (index: BlockIndex?)
      requires IsTree(tree) && block in tree && |vChain| == block.nHeight + 1
      modifies this
      ensures index == null ==> OnChain(tree, block, vChain, 0)
      ensures index != null ==> IsAncestor(tree, index, block) && OnChain(tree, block, vChain, index.nHeight + 1)
      ensures index != null ==> |vChain| == block.nHeight + 1 && vChain[index.nHeight] == index
      ensures index != null ==> forall h :: 0 <= h <= index.nHeight ==> vChain[h] == old(vChain)[h]
    {
      hide Ancestor, OnChain;
      var at: BlockIndex := block;
      AncestorSelf(tree, block);
      NothingYet(tree, block, vChain);
      while vChain[at.nHeight] != at
        invariant |vChain| == block.nHeight + 1 && IsAncestor(tree, at, block)
        invariant OnChain(tree, block, vChain, at.nHeight + 1)
        invariant forall h :: 0 <= h <= at.nHeight ==> vChain[h] == old(vChain)[h]
        decreases at.nHeight
      {
        ExtendDown(tree, block, vChain, at);
        ParentIsAncestor(tree, at, block);
        vChain := vChain[at.nHeight := at];
        if at.pprev == null {
          return null;
        }
        at := at.pprev;
      }
      index := at;
    }

    /** The highest ancestor of `block`, or `block` itself, that is in the chain; null if none is. */
    method FindFork(block: BlockIndex?, ghost tree: set<BlockIndex>) returns (r: BlockIndex?)
      requires IsTree(tree) && SkipsOk(tree) && WellFormed(tree) && (block != null ==> block in tree)
      ensures block == null ==> r == null
      ensures r != null ==> IsAncestor(tree, r, block) && Contains(r)
      ensures block != null ==> forall c :: c in tree && IsAncestor(tree, c, block) && Contains(c) ==>
                r != null && c.nHeight <= r.nHeight
    {
      if block == null {
        return null;
      }
      hide Ancestor;
      var index: BlockIndex? := block;
      AncestorSelf(tree, block);
      if block.nHeight > Height() {
        index := block.GetAncestor(Height(), tree);
        if Height() >= 0 {
          AncestorIsAncestor(tree, block, Height());
        }
      }
      while index != null && !Contains(index)
        invariant index != null ==> IsAncestor(tree, index, block)
        invariant forall c :: c in tree && IsAncestor(tree, c, block) && Contains(c) ==>
                    index != null && c.nHeight <= index.nHeight
        decreases if index == null then 0 else index.nHeight + 1
      {
        ParentIsAncestor(tree, index, block);
        index := index.pprev;
      }
      r := index;
    }
  }

  /** The chain holds at height `h` a block of that height, whose parent it holds just below. */
  ghost predicate LinkedAt(tree: set<BlockIndex>, chain: seq<BlockIndex?>, h: int)
    reads tree`pprev, tree`nHeight
  {
    && 0 <= h < |chain| && chain[h] != null && chain[h] in tree && chain[h].nHeight == h
    && (h > 0 ==> chain[h].pprev == chain[h - 1])
  }

  lemma AncestorSelf(tree: set<BlockIndex>, b: BlockIndex)
    requires IsTree(tree) && b in tree
    ensures IsAncestor(tree, b, b)
  {
  }

  lemma AncestorIsAncestor(tree: set<BlockIndex>, b: BlockIndex, h: int)
    requires IsTree(tree) && b in tree && 0 <= h <= b.nHeight
    ensures IsAncestor(tree, Ancestor(tree, b, h), b)
  {
  }

  lemma ParentIsAncestor(tree: set<BlockIndex>, c: BlockIndex, b: BlockIndex)
    requires IsTree(tree) && b in tree && IsAncestor(tree, c, b)
    ensures c.pprev != null ==> IsAncestor(tree, c.pprev, b)
    ensures forall d :: d in tree && IsAncestor(tree, d, b) && d.nHeight == c.nHeight ==> d == c
  {
    if c.pprev != null {
      AncestorOfAncestor(tree, b, c.nHeight, c.nHeight - 1);
    }
  }

  /** From height `from` up, the chain holds the ancestors of `block`. */
  ghost predicate OnChain(tree: set<BlockIndex>, block: BlockIndex, chain: seq<BlockIndex?>, from: int)
    requires IsTree(tree) && block in tree
    reads tree`pprev, tree`nHeight
  {
    |chain| == block.nHeight + 1 &&
    forall h :: 0 <= from <= h <= block.nHeight ==> chain[h] == Ancestor(tree, block, h)
  }

  lemma NothingYet(tree: set<BlockIndex>, block: BlockIndex, chain: seq<BlockIndex?>)
    requires IsTree(tree) && block in tree && |chain| == block.nHeight + 1
    ensures OnChain(tree, block, chain, block.nHeight + 1)
  {
  }

  lemma ExtendDown(tree: set<BlockIndex>, block: BlockIndex, chain: seq<BlockIndex?>, index: BlockIndex)
    requires IsTree(tree) && block in tree && IsAncestor(tree, index, block)
    requires OnChain(tree, block, chain, index.nHeight + 1)
    ensures |chain| == block.nHeight + 1 && OnChain(tree, block, chain[index.nHeight := index], index.nHeight)
  {
  }

  /** The early exit is sound: below a block already in place the old chain is the block's own. */
  lemma RestInPlace(tree: set<BlockIndex>, block: BlockIndex, before: seq<BlockIndex?>, chain: seq<BlockIndex?>,
                    index: BlockIndex)
    requires IsTree(tree) && block in tree && IsAncestor(tree, index, block)
    requires OnChain(tree, block, chain, index.nHeight + 1) && chain[index.nHeight] == index
    requires forall i :: 0 <= i < |before| ==> LinkedAt(tree, before, i)
    requires forall h :: 0 <= h <= index.nHeight ==> chain[h] == (if h < |before| then before[h] else null)
    ensures OnChain(tree, block, chain, 0)
  {
    forall h | 0 <= h <= index.nHeight ensures chain[h] == Ancestor(tree, block, h) {
      InPlace(tree, before, index.nHeight, h);
      AncestorOfAncestor(tree, block, index.nHeight, h);
    }
  }

  lemma LinkedUp(tree: set<BlockIndex>, block: BlockIndex, chain: seq<BlockIndex?>)
    requires IsTree(tree) && block in tree && OnChain(tree, block, chain, 0)
    ensures |chain| == block.nHeight + 1
    ensures forall h :: 0 <= h < |chain| ==> chain[h] == Ancestor(tree, block, h)
    ensures forall h :: 0 <= h < |chain| ==> LinkedAt(tree, chain, h)
  {
    forall h | 0 <= h < |chain| ensures LinkedAt(tree, chain, h) {
      if h > 0 {
        AncestorOfAncestor(tree, block, h, h - 1);
      }
    }
  }

  /** In a well-formed chain every block's ancestors are the blocks below it. */
  lemma {:induction false} InPlace(tree: set<BlockIndex>, chain: seq<BlockIndex?>, k: int, h: int)
    requires IsTree(tree) && 0 <= h <= k < |chain|
    requires forall i :: 0 <= i < |chain| ==> LinkedAt(tree, chain, i)
    ensures chain[k] != null && chain[k] in tree && chain[k].nHeight == k && Ancestor(tree, chain[k], h) == chain[h]
  {
    assert LinkedAt(tree, chain, k);
    if h < k {
      InPlace(tree, chain, k - 1, h);
    }
  }
}
