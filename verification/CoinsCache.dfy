/**
 The cache objects themselves: a `CoinsViewCache` updates its map of entries, its count of
 dirty entries and its memory total in place, and reaches down a chain of bases to a
 database.  Each method is tied to the operations of `CoinsStack` through `Value()`.
 */
module CoinsCache {
  import opened Wrappers
  import opened CoinsStack

  // ---------------------------------------------------------------- totals

  /** The number of dirty entries and the memory of all cached coins. */
  datatype Totals = Totals(dirty: nat, usage: nat)

  function Count(x: Entry): nat {
    if x.isDirty then 1 else 0
  }

  ghost function Tally(e: Entries): Totals {
    if e == map[] then Totals(0, 0)
    else
      var k :| k in e;
      var rest := Tally(e - {k});
      Totals(Count(e[k]) + rest.dirty, e[k].MemoryUsage() + rest.usage)
  }

  lemma {:induction false} TallyWithout(e: Entries, k: OutPoint)
    requires k in e
    ensures Tally(e) == Totals(Count(e[k]) + Tally(e - {k}).dirty, e[k].MemoryUsage() + Tally(e - {k}).usage)
  {
    var j :| j in e && Tally(e) == Totals(Count(e[j]) + Tally(e - {j}).dirty,
                                          e[j].MemoryUsage() + Tally(e - {j}).usage);
    if j != k {
      TallyWithout(e - {j}, k);
      TallyWithout(e - {k}, j);
      assert e - {j} - {k} == e - {k} - {j};
    }
  }

  /** Overwriting or inserting one entry moves the totals by that entry alone. */
  lemma TallyUpdate(e: Entries, k: OutPoint, x: Entry)
    ensures var rest := Tally(e - {k});
            && Tally(e[k := x]) == Totals(rest.dirty + Count(x), rest.usage + x.MemoryUsage())
            && (if k in e then Tally(e) == Totals(rest.dirty + Count(e[k]), rest.usage + e[k].MemoryUsage())
                else Tally(e) == rest)
  {
    TallyWithout(e[k := x], k);
    assert e[k := x] - {k} == e - {k};
    if k in e {
      TallyWithout(e, k);
    } else {
      assert e - {k} == e;
    }
  }

  /** The first total is the number of dirty entries. */
  lemma {:induction false} TallyCounts(e: Entries)
    ensures Tally(e).dirty == |set k | k in e && e[k].isDirty|
  {
    var dirty := set k | k in e && e[k].isDirty;
    if e == map[] {
      assert dirty == {};
    } else {
      var k :| k in e;
      TallyWithout(e, k);
      TallyCounts(e - {k});
      var rest := set j | j in e - {k} && (e - {k})[j].isDirty;
      assert dirty == if e[k].isDirty then rest + {k} else rest;
    }
  }

  lemma {:induction false} NothingDirty(e: Entries)
    requires forall k :: k in e ==> !e[k].isDirty
    ensures Tally(e).dirty == 0
  {
    TallyCounts(e);
    assert (set k | k in e && e[k].isDirty) == {};
  }

  // ---------------------------------------------------------------- the walk over flagged entries

  function Find(e: Entries, k: OutPoint): Option<Entry> {
    if k in e then Some(e[k]) else None
  }

  /** The parent when the entries in `done` have been written. */
  ghost predicate PartlyWritten(now: Entries, child: Entries, parent: Entries, done: set<OutPoint>) {
    forall k :: Find(now, k) == if k in done then After(child, parent, k) else Find(parent, k)
  }

  /** The child when the walk has passed the entries in `done`. */
  ghost predicate PartlyWalked(now: Entries, child: Entries, done: set<OutPoint>, willErase: bool) {
    forall k :: Find(now, k) == if k in done && !willErase then Find(Unflagged(child), k) else Find(child, k)
  }

  lemma SameFinds(a: Entries, b: Entries)
    requires forall k :: Find(a, k) == Find(b, k)
    ensures a == b
  {
    forall k ensures k in a <==> k in b {
      assert Find(a, k) == Find(b, k);
    }
    forall k | k in a ensures a[k] == b[k] {
      assert Find(a, k) == Find(b, k);
    }
  }

  ghost function Flagged(e: Entries): set<OutPoint> {
    set k | k in e && (e[k].isDirty || e[k].isFresh)
  }

  lemma WalkDone(now: Entries, child: Entries, willErase: bool)
    requires PartlyWalked(now, child, Flagged(child), willErase)
    ensures now == if willErase then child else Unflagged(child)
  {
    SameFinds(now, if willErase then child else Unflagged(child));
  }

  lemma WriteDone(now: Entries, child: Entries, parent: Entries)
    requires PartlyWritten(now, child, parent, Flagged(child))
    ensures now == Written(child, parent)
  {
    SameFinds(now, Written(child, parent));
  }

  lemma NoneMisapplied(child: Entries, parent: Entries)
    requires forall k :: k in Flagged(child) ==> !Misapplied(child, parent, k)
    ensures forall k :: !Misapplied(child, parent, k)
  {
  }

  lemma NoneDirty(e: Entries)
    ensures Tally(e - Flagged(e)).dirty == 0
  {
    NothingDirty(e - Flagged(e));
  }

  lemma MoveOne<T>(done: set<T>, todo: set<T>, x: T)
    requires x in todo && done !! todo
    ensures (done + {x}) + (todo - {x}) == done + todo && done + {x} !! todo - {x}
  {
  }

  /** The parent's side of one step of the walk. */
  lemma WriteOne(now: Entries, next: Entries, child: Entries, parent: Entries, done: set<OutPoint>, k: OutPoint)
    requires PartlyWritten(now, child, parent, done)
    requires k in child && k !in done && k in Flagged(child)
    requires if child[k].isDirty then Find(next, k) == Merged(child[k], now, k) else next == now
    requires forall j :: j != k ==> Find(next, j) == Find(now, j)
    ensures PartlyWritten(next, child, parent, done + {k})
  {
    assert Find(now, k) == Find(parent, k);
    forall j ensures Find(next, j) == if j in done + {k} then After(child, parent, j) else Find(parent, j) {
      if j != k {
        assert Find(next, j) == Find(now, j);
      }
    }
  }

  /** The database when the entries in `done` have been written. */
  ghost predicate PartlyStored(now: View, child: Entries, before: View, done: set<OutPoint>) {
    forall k :: Lookup(now, k) == Lookup(if k in done then WrittenToDatabase(child, before) else before, k)
  }

  lemma StoreOne(now: View, child: Entries, before: View, done: set<OutPoint>, k: OutPoint)
    requires PartlyStored(now, child, before, done) && k in child && k !in done
    ensures PartlyStored(Stored(now, k, child[k]), child, before, done + {k})
  {
    var next := Stored(now, k, child[k]);
    assert Lookup(now, k) == Lookup(before, k);
    forall j ensures Lookup(next, j)
                     == Lookup(if j in done + {k} then WrittenToDatabase(child, before) else before, j) {
      if j != k {
        assert Lookup(next, j) == Lookup(now, j);
      }
    }
  }

  function Stored(coins: View, k: OutPoint, entry: Entry): View {
    if !entry.isDirty then coins
    else if entry.coin.None? then coins - {k}
    else coins[k := entry.coin.value]
  }

  lemma StoreDone(now: View, child: Entries, before: View)
    requires PartlyStored(now, child, before, Flagged(child))
    ensures now == WrittenToDatabase(child, before)
  {
    var all := WrittenToDatabase(child, before);
    forall k ensures Lookup(now, k) == Lookup(all, k) {
      assert Lookup(now, k) == Lookup(if k in Flagged(child) then all else before, k);
    }
    SameLookups(now, all);
  }

  lemma AddedView(e: Entries, b: Stack, k: OutPoint, coin: Coin, possibleOverwrite: bool)
    ensures var r := Add(e, k, coin, possibleOverwrite);
            r.Added? ==> ViewOf(Cache(r.entries, b)) == ViewOf(Cache(e, b))[k := coin]
  {
    if Add(e, k, coin, possibleOverwrite).Added? {
      AddShows(e, b, k, coin, possibleOverwrite);
    }
  }

  class CoinsDatabase {
    var coins: View

    constructor (coins: View)
      ensures this.coins == coins
    {
      this.coins := coins;
    }

    /** The database takes every dirty entry the child's walk visits. */
    method BatchWrite(child: CoinsViewCache, willErase: bool)
      requires child.Valid() && child.base == null && child.db == this
      modifies this, child
      ensures coins == WrittenToDatabase(old(child.coins), old(coins))
      ensures child.coins == if willErase then old(child.coins) else Unflagged(old(child.coins))
      ensures child.dirtyCount == 0 && child.usage == Tally(child.coins).usage
    {
      assert child as object != this;
      ghost var c0, v0 := child.coins, coins;
      var todo := set k | k in child.coins && (child.coins[k].isDirty || child.coins[k].isFresh);
      ghost var done: set<OutPoint> := {};
      assert c0 - done == c0;
      while todo != {}
        invariant done !! todo && done + todo == Flagged(c0)
        invariant PartlyStored(coins, c0, v0, done)
        invariant PartlyWalked(child.coins, c0, done, willErase)
        invariant child.dirtyCount == Tally(c0 - done).dirty && child.usage == Tally(child.coins).usage
        decreases |todo|
      {
        var k :| k in todo;
        assert Find(child.coins, k) == Find(c0, k);
        var entry := child.coins[k];
        StoreOne(coins, c0, v0, done, k);
        coins := Stored(coins, k, entry);
        assert PartlyStored(coins, c0, v0, done + {k});
        child.Advance(k, willErase, c0, done);
        MoveOne(done, todo, k);
        done, todo := done + {k}, todo - {k};
      }
      NothingDirty(c0 - done);
      StoreDone(coins, c0, v0);
      WalkDone(child.coins, c0, willErase);
    }
  }

  class CoinsViewCache {
    /** The cache below, or null when this cache sits directly on the database. */
    const base: CoinsViewCache?
    const db: CoinsDatabase
    ghost const Repr: set<object>

    var coins: Entries
    var dirtyCount: nat
    var usage: nat

    /** The shape of the chain of bases; it never changes. */
    ghost predicate Linked()
      decreases Repr
    {
      && this in Repr && db in Repr
      && (base == null ==> Repr == {this, db})
      && (base != null ==>
            this !in base.Repr && Repr == {this} + base.Repr && base.db == db && base.Linked())
    }

    ghost predicate Exact()
      reads this
    {
      Tally(coins) == Totals(dirtyCount, usage)
    }

    /** The running totals of this layer and of all layers below are exact. */
    ghost predicate Valid()
      reads Repr
      decreases Repr, 0
    {
      && Linked()
      && Exact()
      && (base != null ==> base.Valid())
    }

    ghost function Value(): Stack
      requires Linked()
      reads Repr
      decreases Repr
    {
      Cache(coins, if base == null then Database(db.coins) else base.Value())
    }

    ghost function Below(): Stack
      requires Linked()
      reads Repr
    {
      if base == null then Database(db.coins) else base.Value()
    }

    constructor OnDatabase(db: CoinsDatabase)
      ensures Valid() && Value() == Cache(map[], Database(db.coins))
      ensures base == null && this.db == db
    {
      base, this.db, Repr := null, db, {this, db};
      coins, dirtyCount, usage := map[], 0, 0;
    }

    constructor OnCache(base: CoinsViewCache)
      requires base.Valid()
      ensures Valid() && Value() == Cache(map[], base.Value())
      ensures this.base == base
    {
      this.base, db, Repr := base, base.db, {this} + base.Repr;
      coins, dirtyCount, usage := map[], 0, 0;
    }

    /** A lookup that leaves every layer as it is. */
    method PeekCoin(k: OutPoint) returns (r: Option<Coin>)
      requires Linked()
      ensures r == Lookup(ViewOf(Value()), k)
      decreases Repr
    {
      if k in coins {
        r := coins[k].coin;
      } else if base == null {
        r := if k in db.coins then Some(db.coins[k]) else None;
      } else {
        r := base.PeekCoin(k);
      }
    }

    method FetchCoin(k: OutPoint) returns (found: bool)
      requires Valid()
      modifies Repr
      ensures Valid() && Value() == Fetch(old(Value()), k)
      ensures found <==> k in coins
      decreases Repr, 0
    {
      if k in coins {
        return true;
      }
      var coin;
      if base == null {
        coin := if k in db.coins then Some(db.coins[k]) else None;
      } else {
        coin := base.GetCoin(k);
      }
      if coin.None? {
        return false;
      }
      var entry := Entry(coin, false, false);
      TallyUpdate(coins, k, entry);
      coins := coins[k := entry];
      usage := usage + coin.value.MemoryUsage();
      found := true;
    }

    /** A lookup that fills the caches on its way; it hands back what `PeekCoin` would have. */
    method GetCoin(k: OutPoint) returns (r: Option<Coin>)
      requires Valid()
      modifies Repr
      ensures Valid() && Value() == Fetch(old(Value()), k)
      ensures r == Lookup(ViewOf(old(Value())), k)
      decreases Repr, 1
    {
      FetchHolds(Value(), k);
      var found := FetchCoin(k);
      r := if found then coins[k].coin else None;
    }

    /** `thrown` when an unspent coin of this cache would be overwritten without permission. */
    method AddCoin(k: OutPoint, coin: Coin, possibleOverwrite: bool) returns (thrown: bool)
      requires Valid()
      modifies this
      ensures Valid()
      ensures match Add(old(coins), k, coin, possibleOverwrite)
              case Added(e) => !thrown && coins == e
              case Unspendable => !thrown && coins == old(coins)
              case OverwritesUnspent => thrown && coins == old(coins)
      ensures Below() == old(Below())
      ensures thrown <==>
                !possibleOverwrite && !coin.IsUnspendable() && k in old(coins) && old(coins)[k].coin.Some?
      ensures thrown || coin.IsUnspendable() ==> Value() == old(Value())
      ensures !thrown && !coin.IsUnspendable() ==>
                && ViewOf(Value()) == ViewOf(old(Value()))[k := coin]
                && k in coins && coins == old(coins)[k := coins[k]]
                && coins[k].coin == Some(coin) && coins[k].isDirty
                && (coins[k].isFresh <==>
                      || (k in old(coins) && old(coins)[k].isFresh)
                      || (!possibleOverwrite && (k in old(coins) ==> !old(coins)[k].isDirty)))
    {
      AddedView(coins, Below(), k, coin, possibleOverwrite);
      if coin.IsUnspendable() {
        return false;
      }
      var inserted := k !in coins;
      var entry := if inserted then Entry(None, false, false) else coins[k];
      var markFresh := false;
      if !possibleOverwrite {
        if entry.coin.Some? {
          return true;
        }
        markFresh := !entry.isDirty;
      }
      Put(k, coin, entry.isFresh || markFresh);
      thrown := false;
    }

    /** Stores a dirty entry for `k` and moves the totals accordingly. */
    method Put(k: OutPoint, coin: Coin, asFresh: bool)
      requires Valid()
      modifies this
      ensures Valid() && coins == old(coins)[k := Entry(Some(coin), true, asFresh)]
      ensures Below() == old(Below())
    {
      var entry := Entry(Some(coin), true, asFresh);
      TallyUpdate(coins, k, entry);
      if k in coins {
        dirtyCount := dirtyCount - if coins[k].isDirty then 1 else 0;
        usage := usage - coins[k].MemoryUsage();
      }
      coins := coins[k := entry];
      dirtyCount := dirtyCount + 1;
      usage := usage + coin.MemoryUsage();
    }

    /** `spent` is also true where the cache already held the coin as spent; `moved` is then None. */
    method SpendCoin(k: OutPoint) returns (spent: bool, moved: Option<Coin>)
      requires Valid()
      modifies Repr
      ensures Valid()
      ensures Value() == Step(old(Value()), SpendCall(k)).0
      ensures moved == Lookup(ViewOf(old(Value())), k)
      ensures spent <==> k in old(coins) || moved.Some?
      ensures forall j :: j != k ==> Find(coins, j) == Find(old(coins), j)
      ensures k in coins <==> spent && !(k in old(coins) && old(coins)[k].isFresh)
      ensures k in coins ==> coins[k] == Entry(None, true, false)
    {
      FetchHolds(Value(), k);
      var found := FetchCoin(k);
      if !found {
        return false, None;
      }
      moved := SpendHeld(k);
      spent := true;
    }

    /** The part of `SpendCoin` that follows the fetch. */
    method SpendHeld(k: OutPoint) returns (moved: Option<Coin>)
      requires Valid() && k in coins
      modifies this
      ensures Valid() && coins == Spend(old(coins), k) && moved == old(coins[k].coin)
      ensures Below() == old(Below())
    {
      var entry := coins[k];
      var cleared := Entry(None, true, false);
      TallyUpdate(coins, k, cleared);
      dirtyCount := dirtyCount - if entry.isDirty then 1 else 0;
      usage := usage - entry.MemoryUsage();
      moved := entry.coin;
      if entry.isFresh {
        coins := coins - {k};
      } else {
        coins := coins[k := cleared];
        dirtyCount := dirtyCount + 1;
      }
    }

    /** `NextAndMaybeErase`: the child's side of the walk passes the entry `k`. */
    method Advance(k: OutPoint, willErase: bool, ghost c0: Entries, ghost done: set<OutPoint>)
      requires k in coins && k !in done && Find(coins, k) == Find(c0, k) && k in Flagged(c0)
      requires PartlyWalked(coins, c0, done, willErase)
      requires dirtyCount == Tally(c0 - done).dirty && usage == Tally(coins).usage
      modifies this
      ensures PartlyWalked(coins, c0, done + {k}, willErase)
      ensures dirtyCount == Tally(c0 - (done + {k})).dirty && usage == Tally(coins).usage
    {
      var entry := coins[k];
      TallyWithout(c0 - done, k);
      assert c0 - done - {k} == c0 - (done + {k});
      dirtyCount := dirtyCount - if entry.isDirty then 1 else 0;
      if !willErase {
        TallyUpdate(coins, k, Entry(entry.coin, false, false));
        if entry.coin.None? {
          coins := coins - {k};
        } else {
          coins := coins[k := Entry(entry.coin, false, false)];
        }
      }
    }

    /** The walk over `child` has passed the entries in `done`. */
    ghost predicate Midway(child: CoinsViewCache, c0: Entries, p0: Entries, done: set<OutPoint>, willErase: bool)
      reads this, child
    {
      && done <= Flagged(c0) && (forall k :: k in done ==> !Misapplied(c0, p0, k))
      && PartlyWritten(coins, c0, p0, done) && Exact()
      && PartlyWalked(child.coins, c0, done, willErase)
      && child.dirtyCount == Tally(c0 - done).dirty && child.usage == Tally(child.coins).usage
    }

    /**
     Takes the dirty entries of `child`, in whatever order the walk visits them.  It throws
     exactly when some FRESH entry of the child is unspent here.  Thrown or not, the entries in
     `done` have then been taken and no others, and the totals here are exact; a throw leaves every
     entry not in `done` untouched on both sides, flags included.
     */
    method BatchWrite(child: CoinsViewCache, willErase: bool) returns (thrown: bool, ghost done: set<OutPoint>)
      requires child.Valid() && child.base == this
      modifies this, child
      ensures thrown <==> exists k :: Misapplied(old(child.coins), old(coins), k)
      ensures Valid() && Midway(child, old(child.coins), old(coins), done, willErase)
      ensures !thrown ==> coins == Written(old(child.coins), old(coins))
      ensures !thrown ==> child.coins == if willErase then old(child.coins) else Unflagged(old(child.coins))
      ensures !thrown ==> child.dirtyCount == 0 && child.usage == Tally(child.coins).usage
    {
      hide Tally, Written, Unflagged, Misapplied, Flagged, PartlyWritten, PartlyWalked;
      assert child != this;
      thrown, done := Walk(child, willErase);
    }

    method Walk(child: CoinsViewCache, willErase: bool) returns (thrown: bool, ghost done: set<OutPoint>)
      requires child != this && Exact() && child.Exact()
      modifies this, child
      ensures thrown <==> exists k :: Misapplied(old(child.coins), old(coins), k)
      ensures Midway(child, old(child.coins), old(coins), done, willErase)
      ensures !thrown ==> coins == Written(old(child.coins), old(coins))
      ensures !thrown ==> child.coins == if willErase then old(child.coins) else Unflagged(old(child.coins))
      ensures !thrown ==> child.dirtyCount == 0
    {
      ghost var c0, p0 := child.coins, coins;
      var todo := set k | k in child.coins && (child.coins[k].isDirty || child.coins[k].isFresh);
      done := {};
      assert c0 - done == c0;
      assert Midway(child, c0, p0, done, willErase) && todo == Flagged(c0);
      hide Tally, Written, Unflagged, Midway, Exact, Misapplied, Flagged, PartlyWritten, PartlyWalked;
      while todo != {}
        invariant done !! todo && done + todo == Flagged(c0)
        invariant Midway(child, c0, p0, done, willErase)
        decreases |todo|
      {
        var k :| k in todo;
        thrown := Transfer(child, k, willErase, c0, p0, done);
        if thrown {
          MidwayExact(child, c0, p0, done, willErase);
          return;
        }
        MoveOne(done, todo, k);
        done, todo := done + {k}, todo - {k};
      }
      thrown := false;
      assert done == Flagged(c0);
      MidwayExact(child, c0, p0, done, willErase);
      NoneMisapplied(c0, p0);
      NoneDirty(c0);
      WriteDone(coins, c0, p0);
      WalkDone(child.coins, c0, willErase);
    }

    lemma MidwayExact(child: CoinsViewCache, c0: Entries, p0: Entries, done: set<OutPoint>, willErase: bool)
      requires Midway(child, c0, p0, done, willErase)
      ensures Exact() && PartlyWritten(coins, c0, p0, done) && PartlyWalked(child.coins, c0, done, willErase)
      ensures child.dirtyCount == Tally(c0 - done).dirty && forall k :: k in done ==> !Misapplied(c0, p0, k)
    {
    }

    /** One turn of the walk. */
    method Transfer(child: CoinsViewCache, k: OutPoint, willErase: bool,
                    ghost c0: Entries, ghost p0: Entries, ghost done: set<OutPoint>) returns (thrown: bool)
      requires child != this && k in Flagged(c0) && k !in done && Midway(child, c0, p0, done, willErase)
      modifies this, child
      ensures thrown <==> Misapplied(c0, p0, k)
      ensures Midway(child, c0, p0, if thrown then done else done + {k}, willErase)
    {
      hide Tally, Written, Unflagged;
      assert Find(child.coins, k) == Find(c0, k) && Find(coins, k) == Find(p0, k);
      var entry := child.coins[k];
      ghost var now := coins;
      thrown := false;
      if entry.isDirty {
        thrown := Take(k, entry);
        if thrown {
          return;
        }
      }
      WriteOne(now, coins, c0, p0, done, k);
      child.Advance(k, willErase, c0, done);
    }

    /** The body of the `BatchWrite` loop for one dirty entry of the child. */
    method Take(k: OutPoint, entry: Entry) returns (thrown: bool)
      requires entry.isDirty
      requires Exact()
      modifies this
      ensures thrown <==> entry.isFresh && k in old(coins) && old(coins)[k].coin.Some?
      ensures Exact() && (thrown ==> coins == old(coins))
      ensures !thrown ==> Find(coins, k) == Merged(entry, old(coins), k)
      ensures forall j :: j != k ==> Find(coins, j) == Find(old(coins), j)
    {
      if k !in coins {
        if !(entry.isFresh && entry.coin.None?) {
          var mine := Entry(entry.coin, true, entry.isFresh);
          TallyUpdate(coins, k, mine);
          coins := coins[k := mine];
          dirtyCount := dirtyCount + 1;
          usage := usage + mine.MemoryUsage();
        }
      } else {
        var mine := coins[k];
        if entry.isFresh && mine.coin.Some? {
          return true;
        }
        var mine' := Entry(entry.coin, true, mine.isFresh);
        TallyUpdate(coins, k, mine');
        usage := usage - mine.MemoryUsage();
        if mine.isFresh && entry.coin.None? {
          dirtyCount := dirtyCount - if mine.isDirty then 1 else 0;
          coins := coins - {k};
        } else {
          coins := coins[k := mine'];
          usage := usage + mine'.MemoryUsage();
          if !mine.isDirty {
            dirtyCount := dirtyCount + 1;
          }
        }
      }
      thrown := false;
    }

    /** Writes all changes down and empties this cache; it cannot throw on a consistent stack. */
    method Flush() returns (thrown: bool)
      requires Valid()
      modifies Repr
      ensures StackOk(old(Value())) ==> !thrown
      ensures !thrown ==> Valid() && Value() == Step(old(Value()), FlushCall(0)).0
      ensures !thrown ==> coins == map[] && dirtyCount == 0 && usage == 0
    {
      thrown := Push(true);
      if thrown {
        return;
      }
      coins, usage := map[], 0;
    }

    /** Writes all changes down and keeps the unspent coins cached. */
    method Sync() returns (thrown: bool)
      requires Valid()
      modifies Repr
      ensures StackOk(old(Value())) ==> !thrown
      ensures !thrown ==> Valid() && Value() == Step(old(Value()), SyncCall(0)).0
      ensures !thrown ==> Flagged(coins) == {}
      ensures StackOk(old(Value())) ==>
                && (forall k :: k in coins <==> k in old(coins) && old(coins)[k].coin.Some?)
                && (forall k :: k in coins ==> coins[k] == Entry(old(coins)[k].coin, false, false))
    {
      ghost var e, below := coins, Below();
      thrown := Push(false);
      if StackOk(Cache(e, below)) {
        UnflaggedOutcome(e, below);
      }
      if !thrown {
        NothingDirty(coins);
      }
    }

    /** Hands this cache's walk to its base. */
    method Push(willErase: bool) returns (thrown: bool)
      requires Valid()
      modifies Repr
      ensures StackOk(old(Value())) ==> !thrown
      ensures !thrown ==> (base != null ==> base.Valid())
      ensures !thrown ==> Below() == WriteDown(old(coins), old(Below()))
      ensures !thrown ==> coins == if willErase then old(coins) else Unflagged(old(coins))
      ensures !thrown ==> dirtyCount == 0 && usage == Tally(coins).usage
    {
      if base == null {
        db.BatchWrite(this, willErase);
        thrown := false;
      } else {
        ghost var child, parent, rest := coins, base.coins, base.Below();
        ghost var done;
        assert Value() == Cache(child, Cache(parent, rest));
        thrown, done := base.BatchWrite(this, willErase);
        if thrown && StackOk(Cache(child, Cache(parent, rest))) {
          ghost var k :| Misapplied(child, parent, k);
          NeverMisapplied(child, parent, rest, k);
          assert false;
        }
      }
    }

    method Reset()
      requires Valid()
      modifies this
      ensures Valid() && Value() == Step(old(Value()), ResetCall).0 && coins == map[] && Below() == old(Below())
    {
      coins, usage, dirtyCount := map[], 0, 0;
    }

    method UncacheCoin(k: OutPoint)
      requires Valid()
      modifies this
      ensures Valid() && Value() == Step(old(Value()), UncacheCall(0, k)).0
      ensures k in coins <==> k in old(coins) && old(coins)[k].isDirty
      ensures forall j :: j != k || j in coins ==> Find(coins, j) == Find(old(coins), j)
    {
      if k in coins && !coins[k].isDirty {
        TallyUpdate(coins, k, coins[k]);
        usage := usage - coins[k].MemoryUsage();
        coins := coins - {k};
      }
    }

    /**
     Recomputes both totals and checks the flags of every entry.  The checks pass exactly
     when the totals are exact and no entry has a flag combination the design rules out.
     */
    method SanityCheck() returns (ok: bool)
      ensures ok <==>
              && (forall k :: k in coins ==>
                    if coins[k].coin.None? then coins[k].isDirty && !coins[k].isFresh
                    else coins[k].isDirty || !coins[k].isFresh)
              && Exact()
    {
      var todo := coins;
      var recomputed, count := 0, 0;
      while todo != map[]
        invariant todo.Keys <= coins.Keys && forall k :: k in todo ==> todo[k] == coins[k]
        invariant recomputed + Tally(todo).usage == Tally(coins).usage
        invariant count + Tally(todo).dirty == Tally(coins).dirty
        invariant forall k :: k in coins && k !in todo ==>
                    if coins[k].coin.None? then coins[k].isDirty && !coins[k].isFresh
                    else coins[k].isDirty || !coins[k].isFresh
        decreases |todo|
      {
        var k :| k in todo;
        var entry := todo[k];
        if (entry.coin.None? && !(entry.isDirty && !entry.isFresh)) ||
           (entry.coin.Some? && !(entry.isDirty || !entry.isFresh)) {
          return false;
        }
        TallyUpdate(todo, k, entry);
        recomputed := recomputed + entry.MemoryUsage();
        count := count + if entry.isDirty then 1 else 0;
        todo := todo - {k};
      }
      ok := count == dirtyCount && recomputed == usage;
    }
  }

  /** Every entry of a consistent stack passes the flag checks of `SanityCheck`. */
  lemma ConsistentEntriesPass(e: Entries, b: Stack)
    requires StackOk(Cache(e, b))
    ensures forall k :: k in e ==>
              if e[k].coin.None? then e[k].isDirty && !e[k].isFresh else e[k].isDirty || !e[k].isFresh
  {
    forall k | k in e ensures EntryOk(e[k], Lookup(ViewOf(b), k)) {
    }
  }
}
