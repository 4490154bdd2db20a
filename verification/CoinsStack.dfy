/**
 A stack of write-back coin caches over a database, as plain values.

 `Stack` is the meaning of a chain of `CCoinsViewCache` objects (see CoinsCache.dfy for
 the objects themselves).  The module states what each operation does to the stack, the
 invariant that spans its layers, and that every guarded run of operations shows exactly
 the coins a pile of plain maps would show.
 */
module CoinsStack {
  import opened Wrappers

  // ---------------------------------------------------------------- coins and entries

  datatype OutPoint = OutPoint(hash: int, n: nat)

  const MAX_SCRIPT_SIZE: nat := 10000
  const OP_RETURN: nat := 0x6a

  /** An unspent output; a spent coin is `None` wherever an `Option<Coin>` is stored. */
  datatype Coin = Coin(value: nat, script: seq<nat>, height: nat, coinBase: bool) {
    predicate IsUnspendable() {
      (|script| > 0 && script[0] == OP_RETURN) || |script| > MAX_SCRIPT_SIZE
    }

    /** Heap bytes of the script: up to 36 bytes are stored in place. */
    function MemoryUsage(): nat {
      if |script| <= 36 then 0 else (|script| + 31) / 16 * 16
    }
  }

  datatype Entry = Entry(coin: Option<Coin>, isDirty: bool, isFresh: bool) {
    function MemoryUsage(): nat {
      if coin.None? then 0 else coin.value.MemoryUsage()
    }
  }

  type Entries = map<OutPoint, Entry>
  type View = map<OutPoint, Coin>

  function Lookup(v: View, k: OutPoint): Option<Coin> {
    if k in v then Some(v[k]) else None
  }

  /** The coins seen through a cache holding `e` over a view `below`. */
  function Overlay(e: Entries, below: View): View {
    map k | k in e.Keys + below.Keys && (k in e ==> e[k].coin.Some?)
      :: if k in e then e[k].coin.value else below[k]
  }

  // ---------------------------------------------------------------- the stack

  datatype Stack = Database(coins: View) | Cache(entries: Entries, base: Stack)

  function Depth(s: Stack): nat {
    match s
    case Database(_) => 0
    case Cache(_, b) => 1 + Depth(b)
  }

  function ViewOf(s: Stack): View {
    match s
    case Database(c) => c
    case Cache(e, b) => Overlay(e, ViewOf(b))
  }

  /** The views of all layers, the top one first, the database last. */
  function Views(s: Stack): (r: seq<View>)
    ensures |r| == Depth(s) + 1 && r[0] == ViewOf(s)
  {
    match s
    case Database(c) => [c]
    case Cache(e, b) => [ViewOf(s)] + Views(b)
  }

  /** What one cached entry may be, given what the layer below shows for the same outpoint. */
  predicate EntryOk(e: Entry, below: Option<Coin>) {
    && (e.coin.None? ==> e.isDirty && !e.isFresh)
    && (e.isFresh ==> e.isDirty && below.None?)
    && (!e.isDirty ==> e.coin == below)
  }

  ghost predicate LayerOk(e: Entries, below: View) {
    forall k :: k in e ==> EntryOk(e[k], Lookup(below, k))
  }

  /** The invariant that spans layers. */
  ghost predicate StackOk(s: Stack) {
    match s
    case Database(_) => true
    case Cache(e, b) => LayerOk(e, ViewOf(b)) && StackOk(b)
  }

  // ---------------------------------------------------------------- operations

  /** Looking up `k` copies an unspent coin from the base into every layer that missed it. */
  function Fetch(s: Stack, k: OutPoint): Stack {
    match s
    case Database(_) => s
    case Cache(e, b) =>
      if k in e then s
      else
        var below := Lookup(ViewOf(b), k);
        Cache(if below.Some? then e[k := Entry(below, false, false)] else e, Fetch(b, k))
  }

  datatype AddResult = Added(entries: Entries) | Unspendable | OverwritesUnspent

  function Add(e: Entries, k: OutPoint, coin: Coin, possibleOverwrite: bool): AddResult {
    if coin.IsUnspendable() then Unspendable
    else
      var prior := if k in e then e[k] else Entry(None, false, false);
      if !possibleOverwrite && prior.coin.Some? then OverwritesUnspent
      else
        var markFresh := !possibleOverwrite && !prior.isDirty;
        Added(e[k := Entry(Some(coin), true, prior.isFresh || markFresh)])
  }

  function Spend(e: Entries, k: OutPoint): Entries
    requires k in e
  {
    if e[k].isFresh then e - {k} else e[k := Entry(None, true, false)]
  }

  function Uncache(e: Entries, k: OutPoint): Entries {
    if k in e && !e[k].isDirty then e - {k} else e
  }

  /** A FRESH dirty entry of the child that the parent holds unspent makes `BatchWrite` throw. */
  predicate Misapplied(child: Entries, parent: Entries, k: OutPoint) {
    k in child && child[k].isDirty && child[k].isFresh && k in parent && parent[k].coin.Some?
  }

  /** The parent's entry for `k` once the child's entry has been written to it. */
  function Merged(c: Entry, parent: Entries, k: OutPoint): Option<Entry> {
    if !c.isDirty then
      if k in parent then Some(parent[k]) else None
    else if k !in parent then
      if c.isFresh && c.coin.None? then None else Some(Entry(c.coin, true, c.isFresh))
    else if parent[k].isFresh && c.coin.None? then None
    else Some(Entry(c.coin, true, parent[k].isFresh))
  }

  function After(child: Entries, parent: Entries, k: OutPoint): Option<Entry> {
    if k in child then Merged(child[k], parent, k)
    else if k in parent then Some(parent[k])
    else None
  }

  /** The parent's entries after a whole `BatchWrite`. */
  function Written(child: Entries, parent: Entries): Entries {
    map k | k in child.Keys + parent.Keys && After(child, parent, k).Some? :: After(child, parent, k).value
  }

  function WrittenToDatabase(child: Entries, coins: View): View {
    map k | k in child.Keys + coins.Keys && (if k in child && child[k].isDirty then child[k].coin.Some? else k in coins)
      :: if k in child && child[k].isDirty then child[k].coin.value else coins[k]
  }

  /** A non-erasing walk drops the spent flagged entries and clears the flags of the others. */
  function Unflagged(e: Entries): Entries {
    map k | k in e && !((e[k].isDirty || e[k].isFresh) && e[k].coin.None?) :: Entry(e[k].coin, false, false)
  }

  function WriteDown(child: Entries, base: Stack): Stack {
    match base
    case Database(c) => Database(WrittenToDatabase(child, c))
    case Cache(e, b) => Cache(Written(child, e), b)
  }

  // ---------------------------------------------------------------- what each operation keeps

  /** The FRESH throw of `BatchWrite` cannot be reached from a consistent stack. */
  lemma NeverMisapplied(child: Entries, e: Entries, b: Stack, k: OutPoint)
    requires StackOk(Cache(child, Cache(e, b)))
    ensures !Misapplied(child, e, k)
  {
    assert k in child ==> EntryOk(child[k], Lookup(ViewOf(Cache(e, b)), k));
  }

  lemma {:induction false} FetchKeeps(s: Stack, k: OutPoint)
    requires StackOk(s)
    ensures StackOk(Fetch(s, k)) && Views(Fetch(s, k)) == Views(s)
  {
    match s
    case Database(_) =>
    case Cache(e, b) =>
      if k !in e {
        FetchKeeps(b, k);
        assert ViewOf(Fetch(b, k)) == Views(Fetch(b, k))[0] == ViewOf(b);
        SameLookups(ViewOf(Fetch(s, k)), ViewOf(s));
      }
  }

  /** After a fetch the top layer holds an entry for `k` exactly when it did or its view has the coin. */
  lemma FetchHolds(s: Stack, k: OutPoint)
    requires s.Cache?
    ensures Fetch(s, k).Cache?
    ensures k in Fetch(s, k).entries <==> k in s.entries || k in ViewOf(s)
    ensures k in Fetch(s, k).entries ==> Fetch(s, k).entries[k].coin == Lookup(ViewOf(s), k)
  {
  }

  /**
   Adding a coin keeps the invariant exactly when it is a no-op, may overwrite, meets an
   entry in this very cache, or finds nothing unspent below.
   */
  lemma AddKeepsIff(e: Entries, b: Stack, k: OutPoint, coin: Coin, possibleOverwrite: bool)
    requires StackOk(Cache(e, b))
    requires Add(e, k, coin, possibleOverwrite).Added?
    ensures StackOk(Cache(Add(e, k, coin, possibleOverwrite).entries, b)) <==>
            possibleOverwrite || k in e || k !in ViewOf(b)
  {
    var e' := Add(e, k, coin, possibleOverwrite).entries;
    if k in e {
      assert EntryOk(e[k], Lookup(ViewOf(b), k));
    }
    assert EntryOk(e'[k], Lookup(ViewOf(b), k)) <==> possibleOverwrite || k in e || k !in ViewOf(b);
  }

  lemma AddShows(e: Entries, b: Stack, k: OutPoint, coin: Coin, possibleOverwrite: bool)
    requires Add(e, k, coin, possibleOverwrite).Added?
    ensures ViewOf(Cache(Add(e, k, coin, possibleOverwrite).entries, b)) == ViewOf(Cache(e, b))[k := coin]
  {
  }

  /** A coin can never be spent if its script starts with opcode 106 or is longer than 10000 bytes. */
  lemma UnspendableIff(c: Coin)
    ensures c.IsUnspendable() <==> (c.script != [] && c.script[0] == 106) || |c.script| > 10000
  {
  }

  /**
   An add is refused exactly when it would overwrite an unspent coin of this very cache without
   permission.  Where it goes ahead the entry is dirty, and FRESH if it was or if the cache had no
   unflushed change for it and no overwriting was foreseen.
   */
  lemma AddOutcome(e: Entries, k: OutPoint, coin: Coin, possibleOverwrite: bool)
    ensures var r := Add(e, k, coin, possibleOverwrite);
            && (r.Unspendable? <==> coin.IsUnspendable())
            && (r.OverwritesUnspent? <==>
                  !coin.IsUnspendable() && !possibleOverwrite && k in e && e[k].coin.Some?)
            && (r.Added? ==>
                  && r.entries.Keys == e.Keys + {k} && (forall j :: j in e && j != k ==> r.entries[j] == e[j])
                  && r.entries[k].coin == Some(coin) && r.entries[k].isDirty
                  && (r.entries[k].isFresh <==>
                        || (k in e && e[k].isFresh)
                        || (!possibleOverwrite && (k in e ==> !e[k].isDirty))))
  {
  }

  /** A FRESH coin leaves no trace when it is spent; any other leaves a dirty spent entry. */
  lemma SpendOutcome(e: Entries, k: OutPoint)
    requires k in e
    ensures var r := Spend(e, k);
            && (forall j :: j != k ==> (j in r <==> j in e) && (j in e ==> r[j] == e[j]))
            && (k in r <==> !e[k].isFresh)
            && (k in r ==> r[k] == Entry(None, true, false))
  {
  }

  /** A clean entry is gone, a dirty one stays, and no other is touched. */
  lemma UncacheOutcome(e: Entries, k: OutPoint)
    ensures var r := Uncache(e, k);
            && (forall j :: j != k ==> (j in r <==> j in e) && (j in e ==> r[j] == e[j]))
            && (k in r <==> k in e && e[k].isDirty)
            && (k in r ==> r[k] == e[k])
  {
  }

  /** After a `Sync` exactly the unspent coins are cached, all clean. */
  lemma UnflaggedOutcome(e: Entries, b: Stack)
    requires StackOk(Cache(e, b))
    ensures var r := Unflagged(e);
            && (forall k :: k in r <==> k in e && e[k].coin.Some?)
            && (forall k :: k in r ==> r[k] == Entry(e[k].coin, false, false))
  {
    forall k | k in e ensures EntryOk(e[k], Lookup(ViewOf(b), k)) {
    }
  }

  /**
   The parent's entry after a write.  A dirty entry of the child is taken over as dirty, and it is
   FRESH if nothing is below the parent: as the parent says if it has an entry, else as the child
   says.  A spent coin with nothing below is dropped altogether.
   */
  lemma WrittenOutcome(child: Entries, parent: Entries, k: OutPoint)
    ensures var r := Written(child, parent);
            if k in child && child[k].isDirty then
              var bare := if k in parent then parent[k].isFresh else child[k].isFresh;
              && (k in r <==> child[k].coin.Some? || !bare)
              && (k in r ==> r[k] == Entry(child[k].coin, true, bare))
            else
              && (k in r <==> k in parent)
              && (k in r ==> r[k] == parent[k])
  {
  }

  /** Some layer above the named one holds `k`. */
  predicate HeldAbove(s: Stack, depth: nat, k: OutPoint)
    requires depth <= Depth(s)
  {
    depth > 0 && (k in s.entries || HeldAbove(s.base, depth - 1, k))
  }

  /**
   A lookup adds a clean copy of the coin to every layer from the top down to the first that holds
   the outpoint, and touches no other entry of any layer.
   */
  lemma {:induction false} FetchFills(s: Stack, k: OutPoint, depth: nat)
    requires depth < Depth(s)
    ensures Depth(Fetch(s, k)) == Depth(s) && At(s, depth).Cache? && At(Fetch(s, k), depth).Cache?
    ensures var e, r := At(s, depth).entries, At(Fetch(s, k), depth).entries;
            && (forall j :: j != k ==> (j in r <==> j in e) && (j in e ==> r[j] == e[j]))
            && (k in r <==> k in e || (!HeldAbove(s, depth, k) && k in ViewOf(At(s, depth))))
            && (k in e ==> r[k] == e[k])
            && (k in r && k !in e ==> r[k] == Entry(Lookup(ViewOf(At(s, depth)), k), false, false))
  {
    FetchDepth(s, k);
    if depth > 0 {
      FetchFills(s.base, k, depth - 1);
    }
  }

  lemma {:induction false} FetchDepth(s: Stack, k: OutPoint)
    ensures Depth(Fetch(s, k)) == Depth(s)
  {
    if s.Cache? {
      FetchDepth(s.base, k);
    }
  }

  /** Deleting a FRESH entry instead of recording the spend is sound because nothing lies below. */
  lemma SpendKeeps(e: Entries, b: Stack, k: OutPoint)
    requires StackOk(Cache(e, b)) && k in e
    ensures StackOk(Cache(Spend(e, k), b))
    ensures ViewOf(Cache(Spend(e, k), b)) == ViewOf(Cache(e, b)) - {k}
  {
    assert EntryOk(e[k], Lookup(ViewOf(b), k));
    SameLookups(ViewOf(Cache(Spend(e, k), b)), ViewOf(Cache(e, b)) - {k});
  }

  lemma UncacheKeeps(e: Entries, b: Stack, k: OutPoint)
    requires StackOk(Cache(e, b))
    ensures StackOk(Cache(Uncache(e, k), b))
    ensures ViewOf(Cache(Uncache(e, k), b)) == ViewOf(Cache(e, b))
  {
    if k in e {
      assert EntryOk(e[k], Lookup(ViewOf(b), k));
    }
    SameLookups(ViewOf(Cache(Uncache(e, k), b)), ViewOf(Cache(e, b)));
  }

  /** Writing a consistent child down makes the parent show what the child showed. */
  lemma WriteDownKeeps(e: Entries, b: Stack)
    requires StackOk(Cache(e, b))
    ensures StackOk(WriteDown(e, b))
    ensures ViewOf(WriteDown(e, b)) == ViewOf(Cache(e, b))
    ensures WriteDown(e, b).Cache? == b.Cache?
    ensures b.Cache? ==> WriteDown(e, b).base == b.base
  {
    match b
    case Database(c) =>
      forall k ensures Lookup(WrittenToDatabase(e, c), k) == Lookup(Overlay(e, c), k) {
        if k in e {
          assert EntryOk(e[k], Lookup(c, k));
        }
      }
      SameLookups(WrittenToDatabase(e, c), Overlay(e, c));
    case Cache(p, bb) =>
      var below := ViewOf(bb);
      forall k ensures Lookup(Overlay(Written(e, p), below), k) == Lookup(Overlay(e, Overlay(p, below)), k) {
        MergeShows(e, p, below, k);
      }
      SameLookups(Overlay(Written(e, p), below), Overlay(e, Overlay(p, below)));
      forall k | k in Written(e, p) ensures EntryOk(Written(e, p)[k], Lookup(below, k)) {
        MergeShows(e, p, below, k);
      }
  }

  /** The pointwise step of `WriteDownKeeps`. */
  lemma MergeShows(child: Entries, parent: Entries, below: View, k: OutPoint)
    requires LayerOk(parent, below) && LayerOk(child, Overlay(parent, below))
    ensures var r := After(child, parent, k);
            && Lookup(Overlay(child, Overlay(parent, below)), k)
               == (if r.Some? then r.value.coin else Lookup(below, k))
            && (r.Some? ==> EntryOk(r.value, Lookup(below, k)))
  {
    if k in child {
      assert EntryOk(child[k], Lookup(Overlay(parent, below), k));
    }
    if k in parent {
      assert EntryOk(parent[k], Lookup(below, k));
    }
  }

  lemma SameLookups(v: View, w: View)
    requires forall k :: Lookup(v, k) == Lookup(w, k)
    ensures v == w
  {
    forall k ensures k in v <==> k in w {
      assert Lookup(v, k) == Lookup(w, k);
    }
    forall k | k in v ensures v[k] == w[k] {
      assert Lookup(v, k) == Lookup(w, k);
    }
  }

  /** After a `Sync` the child's remaining entries are clean copies of what the parent now shows. */
  lemma SyncKeeps(e: Entries, b: Stack)
    requires StackOk(Cache(e, b))
    ensures StackOk(Cache(Unflagged(e), WriteDown(e, b)))
    ensures ViewOf(Cache(Unflagged(e), WriteDown(e, b))) == ViewOf(Cache(e, b))
  {
    WriteDownKeeps(e, b);
    var v := ViewOf(Cache(e, b));
    forall k ensures SyncedEntry(e, v, k) {
      if k in e {
        assert EntryOk(e[k], Lookup(ViewOf(b), k)) && Lookup(v, k) == e[k].coin;
      }
    }
    hide WriteDown, Unflagged, EntryOk;
    forall k ensures Lookup(Overlay(Unflagged(e), v), k) == Lookup(v, k) {
      assert SyncedEntry(e, v, k);
    }
    SameLookups(Overlay(Unflagged(e), v), v);
    forall k | k in Unflagged(e) ensures EntryOk(Unflagged(e)[k], Lookup(v, k)) {
      assert SyncedEntry(e, v, k);
    }
  }

  ghost predicate SyncedEntry(e: Entries, v: View, k: OutPoint) {
    var u := Unflagged(e);
    k in u ==> u[k].coin == Lookup(v, k) && EntryOk(u[k], Lookup(v, k))
  }

  /** A `Flush` leaves an empty cache over a base that shows the same coins. */
  lemma FlushKeeps(e: Entries, b: Stack)
    requires StackOk(Cache(e, b))
    ensures StackOk(Cache(map[], WriteDown(e, b)))
    ensures ViewOf(Cache(map[], WriteDown(e, b))) == ViewOf(Cache(e, b))
  {
    WriteDownKeeps(e, b);
    SameLookups(Overlay(map[], ViewOf(WriteDown(e, b))), ViewOf(WriteDown(e, b)));
  }

  // ---------------------------------------------------------------- runs

  /**
   One call on a stack.  Lookups, `Uncache`, `Flush` and `Sync` name a layer by its distance
   from the top; the calls that change coins work on the top layer; `Push` puts an empty
   cache on the stack and `Pop` destroys the top one without flushing it.
   */
  datatype Call =
    | AddCall(k: OutPoint, coin: Coin, possibleOverwrite: bool)
    | SpendCall(k: OutPoint)
    | GetCall(depth: nat, k: OutPoint)
    | PeekCall(depth: nat, k: OutPoint)
    | UncacheCall(depth: nat, k: OutPoint)
    | FlushCall(depth: nat)
    | SyncCall(depth: nat)
    | ResetCall
    | PushCall
    | PopCall

  /** The stack below `depth` layers. */
  function At(s: Stack, depth: nat): Stack
    requires depth <= Depth(s)
  {
    if depth == 0 then s else At(s.base, depth - 1)
  }

  /** Replace the part of `s` that starts `depth` layers down. */
  function Replace(s: Stack, depth: nat, part: Stack): Stack
    requires depth <= Depth(s)
  {
    if depth == 0 then part else Cache(s.entries, Replace(s.base, depth - 1, part))
  }

  /** The calls that exist: a cache operation needs a cache at the named layer. */
  predicate Applicable(depth: nat, c: Call) {
    match c
    case GetCall(d, _) => d <= depth
    case PeekCall(d, _) => d <= depth
    case UncacheCall(d, _) => d < depth
    case FlushCall(d) => d < depth
    case SyncCall(d) => d < depth
    case PushCall => true
    case _ => 0 < depth
  }

  /** A call's new stack and the coin it hands back. */
  function Step(s: Stack, c: Call): (Stack, Option<Coin>)
    requires Applicable(Depth(s), c)
  {
    match c
    case AddCall(k, coin, possibleOverwrite) =>
      (var r := Add(s.entries, k, coin, possibleOverwrite);
       if r.Added? then Cache(r.entries, s.base) else s, None)
    case SpendCall(k) =>
      var f := Fetch(s, k);
      FetchHolds(s, k);
      if k in f.entries then (Cache(Spend(f.entries, k), f.base), f.entries[k].coin) else (f, None)
    case GetCall(d, k) =>
      (Replace(s, d, Fetch(At(s, d), k)), Lookup(ViewOf(At(s, d)), k))
    case PeekCall(d, k) => (s, Lookup(ViewOf(At(s, d)), k))
    case UncacheCall(d, k) =>
      AtDepth(s, d);
      (Replace(s, d, Cache(Uncache(At(s, d).entries, k), At(s, d).base)), None)
    case FlushCall(d) =>
      AtDepth(s, d);
      (Replace(s, d, Cache(map[], WriteDown(At(s, d).entries, At(s, d).base))), None)
    case SyncCall(d) =>
      AtDepth(s, d);
      (Replace(s, d, Cache(Unflagged(At(s, d).entries), WriteDown(At(s, d).entries, At(s, d).base))), None)
    case ResetCall => (Cache(map[], s.base), None)
    case PushCall => (Cache(map[], s), None)
    case PopCall => (s.base, None)
  }

  lemma {:induction false} AtDepth(s: Stack, depth: nat)
    requires depth <= Depth(s)
    ensures Depth(At(s, depth)) == Depth(s) - depth
    ensures ViewOf(At(s, depth)) == Views(s)[depth]
    ensures StackOk(s) ==> StackOk(At(s, depth))
  {
    if depth > 0 {
      AtDepth(s.base, depth - 1);
    }
  }

  /** The same call on a pile of plain maps, the top one first. */
  function PlainStep(p: seq<View>, c: Call): (seq<View>, Option<Coin>)
    requires |p| > 0 && Applicable(|p| - 1, c)
  {
    match c
    case AddCall(k, coin, _) =>
      (if coin.IsUnspendable() then p else p[0 := p[0][k := coin]], None)
    case SpendCall(k) => (p[0 := p[0] - {k}], Lookup(p[0], k))
    case GetCall(d, k) => (p, Lookup(p[d], k))
    case PeekCall(d, k) => (p, Lookup(p[d], k))
    case UncacheCall(_, _) => (p, None)
    case FlushCall(d) => (p[d + 1 := p[d]], None)
    case SyncCall(d) => (p[d + 1 := p[d]], None)
    case ResetCall => (p[0 := p[1]], None)
    case PushCall => ([p[0]] + p, None)
    case PopCall => (p[1..], None)
  }

  /** What callers owe: no plain add over an unspent coin. */
  predicate Guarded(p: seq<View>, c: Call)
    requires |p| > 0
  {
    && Applicable(|p| - 1, c)
    && (c.AddCall? && !c.possibleOverwrite && !c.coin.IsUnspendable() ==> c.k !in p[0])
  }

  function Run(s: Stack, calls: seq<Call>): (Stack, seq<Option<Coin>>)
    decreases |calls|
  {
    if calls == [] || !Applicable(Depth(s), calls[0]) then (s, [])
    else
      var (s1, out) := Step(s, calls[0]);
      var (s2, outs) := Run(s1, calls[1..]);
      (s2, [out] + outs)
  }

  function PlainRun(p: seq<View>, calls: seq<Call>): (r: (seq<View>, seq<Option<Coin>>))
    requires |p| > 0
    ensures |r.0| > 0
    decreases |calls|
  {
    if calls == [] || !Applicable(|p| - 1, calls[0]) then (p, [])
    else
      var (p1, out) := PlainStep(p, calls[0]);
      var (p2, outs) := PlainRun(p1, calls[1..]);
      (p2, [out] + outs)
  }

  predicate GuardedRun(p: seq<View>, calls: seq<Call>)
    requires |p| > 0
    decreases |calls|
  {
    calls == [] ||
    (Guarded(p, calls[0]) && GuardedRun(PlainStep(p, calls[0]).0, calls[1..]))
  }

  /** Replacing a lower part by one that shows the same in all its layers changes no view. */
  lemma {:induction false} LowerStep(s: Stack, d: nat, part: Stack)
    requires d <= Depth(s) && StackOk(s) && StackOk(part)
    requires Views(part) == Views(At(s, d))
    ensures StackOk(Replace(s, d, part)) && Views(Replace(s, d, part)) == Views(s)
  {
    if d > 0 {
      LowerStep(s.base, d - 1, part);
      assert ViewOf(Replace(s.base, d - 1, part)) == Views(s.base)[0];
    }
  }

  /** Replacing a layer so that it and its base both show the layer's coins changes no other view. */
  lemma {:induction false} WriteStep(s: Stack, d: nat, part: Stack)
    requires d < Depth(s) && StackOk(s) && StackOk(part) && Depth(At(s, d)) > 0
    requires Views(part) == Views(At(s, d))[1 := ViewOf(At(s, d))]
    ensures StackOk(Replace(s, d, part)) && Views(Replace(s, d, part)) == Views(s)[d + 1 := Views(s)[d]]
  {
    if d > 0 {
      WriteStep(s.base, d - 1, part);
      assert ViewOf(Replace(s.base, d - 1, part)) == Views(s.base)[0];
    }
  }

  /** One guarded add. */
  lemma AddStepRefines(s: Stack, c: Call)
    requires StackOk(s) && Guarded(Views(s), c) && c.AddCall?
    ensures StackOk(Step(s, c).0)
    ensures Views(Step(s, c).0) == PlainStep(Views(s), c).0
  {
    if !c.coin.IsUnspendable() {
      AddKeepsIff(s.entries, s.base, c.k, c.coin, c.possibleOverwrite);
      AddShows(s.entries, s.base, c.k, c.coin, c.possibleOverwrite);
    }
  }

  /** One spend, of a coin that exists or not. */
  lemma SpendStepRefines(s: Stack, c: Call)
    requires StackOk(s) && Guarded(Views(s), c) && c.SpendCall?
    ensures StackOk(Step(s, c).0)
    ensures Views(Step(s, c).0) == PlainStep(Views(s), c).0
    ensures Step(s, c).1 == PlainStep(Views(s), c).1
  {
    FetchKeeps(s, c.k);
    FetchHolds(s, c.k);
    var f := Fetch(s, c.k);
    var s' := Step(s, c).0;
    assert ViewOf(f) == ViewOf(s) && Views(f)[1..] == Views(s)[1..];
    if c.k in f.entries {
      SpendKeeps(f.entries, f.base, c.k);
    } else {
      assert ViewOf(s) - {c.k} == ViewOf(s);
    }
    assert Views(s') == [ViewOf(s) - {c.k}] + Views(f.base);
  }

  /** `Reset`, and putting on or taking off a layer. */
  lemma LayerStepRefines(s: Stack, c: Call)
    requires StackOk(s) && Guarded(Views(s), c)
    requires c.ResetCall? || c.PushCall? || c.PopCall?
    ensures StackOk(Step(s, c).0)
    ensures Views(Step(s, c).0) == PlainStep(Views(s), c).0
  {
    match c
    case ResetCall => SameLookups(ViewOf(Cache(map[], s.base)), ViewOf(s.base));
    case PushCall => SameLookups(ViewOf(Cache(map[], s)), ViewOf(s));
    case PopCall =>
  }

  /** One lookup or `Uncache` on any layer. */
  lemma LookupStepRefines(s: Stack, c: Call)
    requires StackOk(s) && Guarded(Views(s), c)
    requires c.GetCall? || c.PeekCall? || c.UncacheCall?
    ensures StackOk(Step(s, c).0)
    ensures Views(Step(s, c).0) == PlainStep(Views(s), c).0
    ensures Step(s, c).1 == PlainStep(Views(s), c).1
  {
    AtDepth(s, c.depth);
    var t := At(s, c.depth);
    match c
    case GetCall(d, k) =>
      FetchKeeps(t, k);
      LowerStep(s, d, Fetch(t, k));
    case PeekCall(d, k) =>
    case UncacheCall(d, k) =>
      UncacheKeeps(t.entries, t.base, k);
      LowerStep(s, d, Cache(Uncache(t.entries, k), t.base));
  }

  /** After a write, the layer and its base show what the layer showed; deeper layers are untouched. */
  lemma WriteShows(e: Entries, b: Stack, left: Entries)
    requires StackOk(Cache(e, b)) && (left == map[] || left == Unflagged(e))
    ensures StackOk(Cache(left, WriteDown(e, b)))
    ensures Views(Cache(left, WriteDown(e, b))) == Views(Cache(e, b))[1 := ViewOf(Cache(e, b))]
  {
    if left == map[] {
      FlushKeeps(e, b);
    } else {
      SyncKeeps(e, b);
    }
    WrittenViews(e, b);
  }

  lemma WrittenViews(e: Entries, b: Stack)
    requires StackOk(Cache(e, b))
    ensures Views(WriteDown(e, b)) == Views(b)[0 := ViewOf(Cache(e, b))]
  {
    WriteDownKeeps(e, b);
  }

  /** One `Flush` or `Sync` of any layer. */
  lemma WriteStepRefines(s: Stack, c: Call)
    requires StackOk(s) && Guarded(Views(s), c)
    requires c.FlushCall? || c.SyncCall?
    ensures StackOk(Step(s, c).0)
    ensures Views(Step(s, c).0) == PlainStep(Views(s), c).0
  {
    AtDepth(s, c.depth);
    var t := At(s, c.depth);
    var left := if c.FlushCall? then map[] else Unflagged(t.entries);
    WriteShows(t.entries, t.base, left);
    WriteStep(s, c.depth, Cache(left, WriteDown(t.entries, t.base)));
  }

  /** One guarded call: the invariant survives, and stack and plain maps move in step. */
  lemma StepRefines(s: Stack, c: Call)
    requires StackOk(s) && Guarded(Views(s), c)
    ensures StackOk(Step(s, c).0)
    ensures Views(Step(s, c).0) == PlainStep(Views(s), c).0
    ensures Step(s, c).1 == PlainStep(Views(s), c).1
  {
    if c.FlushCall? || c.SyncCall? {
      WriteStepRefines(s, c);
    } else if c.GetCall? || c.PeekCall? || c.UncacheCall? {
      LookupStepRefines(s, c);
    } else if c.AddCall? {
      AddStepRefines(s, c);
    } else if c.SpendCall? {
      SpendStepRefines(s, c);
    } else {
      LayerStepRefines(s, c);
    }
  }

  /**
   Every guarded run on a consistent stack of any depth over any database hands back the
   coins, and leaves every layer showing the coins, of the same run on plain maps.
   */
  lemma {:induction false} RunRefines(s: Stack, calls: seq<Call>)
    requires StackOk(s) && GuardedRun(Views(s), calls)
    ensures StackOk(Run(s, calls).0)
    ensures Views(Run(s, calls).0) == PlainRun(Views(s), calls).0
    ensures Run(s, calls).1 == PlainRun(Views(s), calls).1
    ensures |Run(s, calls).1| == |calls|
    decreases |calls|
  {
    if calls != [] {
      StepRefines(s, calls[0]);
      RunRefines(Step(s, calls[0]).0, calls[1..]);
    }
  }

  /**
   Without the guard the law fails: an unguarded add over an unspent coin of the base is
   marked FRESH, so spending it forgets the spend and the old coin shows again.
   */
  lemma UnguardedAddResurrects(k: OutPoint, prior: Coin, coin: Coin)
    requires !coin.IsUnspendable()
    ensures var s := Cache(map[], Database(map[k := prior]));
            var calls := [AddCall(k, coin, false), SpendCall(k)];
            && StackOk(s)
            && Lookup(ViewOf(Run(s, calls).0), k) == Some(prior)
            && Lookup(PlainRun(Views(s), calls).0[0], k) == None
  {
    var s := Cache(map[], Database(map[k := prior]));
    var calls := [AddCall(k, coin, false), SpendCall(k)];
    var s1 := Step(s, calls[0]).0;
    assert s1 == Cache(map[k := Entry(Some(coin), true, true)], Database(map[k := prior]));
    var s2 := Step(s1, calls[1]).0;
    assert Fetch(s1, k) == s1;
    assert s2 == Cache(map[k := Entry(Some(coin), true, true)] - {k}, Database(map[k := prior]));
    assert calls[1..] == [SpendCall(k)] && calls[1..][1..] == [];
    assert Run(s1, calls[1..]).0 == s2;
    assert Run(s, calls).0 == s2;
    var p1 := PlainStep(Views(s), calls[0]).0;
    assert PlainRun(p1, calls[1..]).0 == PlainStep(p1, calls[1]).0;
    assert PlainRun(Views(s), calls).0 == PlainStep(p1, calls[1]).0;
  }

  // ---------------------------------------------------------------- changing a lower layer

  /** The lowest entry for `k` among the `depth` layers above the named one. */
  function NearestAbove(s: Stack, depth: nat, k: OutPoint): Option<Entry>
    requires depth <= Depth(s)
  {
    if depth == 0 then None
    else
      var lower := NearestAbove(s.base, depth - 1, k);
      if lower.Some? then lower else if k in s.entries then Some(s.entries[k]) else None
  }

  /** An entry that stays right when the coin below it becomes `now`: dirty, and FRESH only over nothing. */
  predicate Undisturbed(e: Option<Entry>, now: Option<Coin>) {
    e.Some? ==> e.value.isDirty && (e.value.isFresh ==> now.None?)
  }

  ghost predicate ChangeKept(s: Stack, depth: nat, part: Stack, k: OutPoint)
    requires depth <= Depth(s)
  {
    var now := Lookup(ViewOf(part), k);
    now != Lookup(ViewOf(At(s, depth)), k) ==> Undisturbed(NearestAbove(s, depth, k), now)
  }

  /** After a change below, the top shows it exactly where no layer between holds the outpoint. */
  lemma {:induction false} LowerShows(s: Stack, depth: nat, part: Stack, k: OutPoint)
    requires depth <= Depth(s)
    ensures Lookup(ViewOf(Replace(s, depth, part)), k) ==
            if NearestAbove(s, depth, k).Some? then Lookup(ViewOf(s), k) else Lookup(ViewOf(part), k)
    ensures NearestAbove(s, depth, k).None? ==> Lookup(ViewOf(s), k) == Lookup(ViewOf(At(s, depth)), k)
  {
    if depth > 0 {
      LowerShows(s.base, depth - 1, part, k);
    }
  }

  /** The outpoint `k` in the top layer: its entry is right or the change reaches it and disturbs it. */
  lemma TopEntryIff(s: Stack, depth: nat, part: Stack, k: OutPoint)
    requires 0 < depth <= Depth(s) && LayerOk(s.entries, ViewOf(s.base))
    ensures ChangeKept(s, depth, part, k) <==>
            && ChangeKept(s.base, depth - 1, part, k)
            && (k in s.entries ==> EntryOk(s.entries[k], Lookup(ViewOf(Replace(s.base, depth - 1, part)), k)))
  {
    LowerShows(s.base, depth - 1, part, k);
    if k in s.entries {
      assert EntryOk(s.entries[k], Lookup(ViewOf(s.base), k));
    }
    hide ViewOf, Replace, LayerOk;
  }

  /**
   Replacing the stack from some layer down, so that it shows other coins, keeps the layers above
   consistent exactly when each outpoint that changes is undisturbed in the first layer above that
   holds it.
   */
  lemma {:induction false} LowerChangeIff(s: Stack, depth: nat, part: Stack)
    requires depth <= Depth(s) && StackOk(s) && StackOk(part)
    ensures StackOk(Replace(s, depth, part)) <==> forall k :: ChangeKept(s, depth, part, k)
  {
    if depth > 0 {
      LowerChangeIff(s.base, depth - 1, part);
      forall k
        ensures ChangeKept(s, depth, part, k) <==>
                && ChangeKept(s.base, depth - 1, part, k)
                && (k in s.entries ==>
                    EntryOk(s.entries[k], Lookup(ViewOf(Replace(s.base, depth - 1, part)), k)))
      {
        TopEntryIff(s, depth, part, k);
      }
      hide ChangeKept, EntryOk;
    }
  }

  lemma {:induction false} ReplacedPart(s: Stack, depth: nat, part: Stack)
    requires depth <= Depth(s)
    ensures StackOk(Replace(s, depth, part)) ==> StackOk(part)
  {
    if depth > 0 {
      ReplacedPart(s.base, depth - 1, part);
    }
  }

  /** One outpoint changes, or none. */
  lemma LowerOneIff(s: Stack, depth: nat, part: Stack, k: OutPoint)
    requires depth <= Depth(s) && StackOk(s) && StackOk(part)
    requires forall j :: j != k ==> Lookup(ViewOf(part), j) == Lookup(ViewOf(At(s, depth)), j)
    ensures StackOk(Replace(s, depth, part)) <==> ChangeKept(s, depth, part, k)
  {
    LowerChangeIff(s, depth, part);
    forall j | j != k ensures ChangeKept(s, depth, part, j) {
    }
  }

  /** An add below the top: the guard of that layer, and the layers above undisturbed by the new coin. */
  lemma LowerAddIff(s: Stack, depth: nat, k: OutPoint, coin: Coin, possibleOverwrite: bool)
    requires depth < Depth(s) && StackOk(s) && At(s, depth).Cache?
    requires Add(At(s, depth).entries, k, coin, possibleOverwrite).Added?
    ensures var t := At(s, depth);
            StackOk(Replace(s, depth, Cache(Add(t.entries, k, coin, possibleOverwrite).entries, t.base))) <==>
            && (possibleOverwrite || k in t.entries || k !in ViewOf(t.base))
            && (Lookup(ViewOf(t), k) == Some(coin) || Undisturbed(NearestAbove(s, depth, k), Some(coin)))
  {
    var t := At(s, depth);
    var part := Cache(Add(t.entries, k, coin, possibleOverwrite).entries, t.base);
    AtDepth(s, depth);
    AddKeepsIff(t.entries, t.base, k, coin, possibleOverwrite);
    AddShows(t.entries, t.base, k, coin, possibleOverwrite);
    ReplacedPart(s, depth, part);
    if StackOk(part) {
      LowerOneIff(s, depth, part, k);
    }
  }

  /** A spend below the top: the layers above must hold the outpoint dirty, or not at all. */
  lemma LowerSpendIff(s: Stack, depth: nat, k: OutPoint)
    requires depth < Depth(s) && StackOk(s) && At(s, depth).Cache?
    ensures Fetch(At(s, depth), k).Cache?
    ensures var t := At(s, depth); var f := Fetch(t, k);
            k in f.entries ==>
            (StackOk(Replace(s, depth, Cache(Spend(f.entries, k), f.base))) <==>
             k !in ViewOf(t) || Undisturbed(NearestAbove(s, depth, k), None))
  {
    var t := At(s, depth);
    AtDepth(s, depth);
    FetchHolds(t, k);
    FetchKeeps(t, k);
    var f := Fetch(t, k);
    assert ViewOf(f) == Views(f)[0] == ViewOf(t);
    if k in f.entries {
      SpendKeeps(f.entries, f.base, k);
      LowerOneIff(s, depth, Cache(Spend(f.entries, k), f.base), k);
    }
  }

  /** A `Reset` below the top: the same for every outpoint it gives back to the base. */
  lemma LowerResetIff(s: Stack, depth: nat)
    requires depth < Depth(s) && StackOk(s) && At(s, depth).Cache?
    ensures var t := At(s, depth);
            StackOk(Replace(s, depth, Cache(map[], t.base))) <==>
            forall k :: Lookup(ViewOf(t.base), k) != Lookup(ViewOf(t), k) ==>
                          Undisturbed(NearestAbove(s, depth, k), Lookup(ViewOf(t.base), k))
  {
    var t := At(s, depth);
    AtDepth(s, depth);
    var part := Cache(map[], t.base);
    SameLookups(ViewOf(part), ViewOf(t.base));
    LowerChangeIff(s, depth, part);
    forall k
      ensures ChangeKept(s, depth, part, k) <==>
              (Lookup(ViewOf(t.base), k) != Lookup(ViewOf(t), k) ==>
                 Undisturbed(NearestAbove(s, depth, k), Lookup(ViewOf(t.base), k)))
    {
    }
  }
}
