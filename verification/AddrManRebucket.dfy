/**
 Reading a manager that was written under another asmap version or with another number of buckets,
 so that every bucket may have changed.  The recorded buckets are then not used: every entry of the
 new table gets at most the one slot that its own source gives it.  An entry of either table is lost
 only to another entry that has taken its slot.
 */
module AddrManRebucket {
  import opened Wrappers
  import opened AddrManState
  import opened AddrManBooks
  import opened AddrManSteps
  import opened AddrManStore
  import opened AddrManRoundTrip
  import opened SetSizes

  /** The slot that its own source gives an entry. */
  function Home(p: Params, key: Key, i: Info): Slot {
    p.SourceSlot(key, i.service, i.source)
  }

  // ---------------------------------------------------------------- placing

  ghost predicate HoldsHome(p: Params, t: State, slot: Slot) {
    slot in t.newTable && t.newTable[slot] in t.info && slot == Home(p, t.key, t.info[t.newTable[slot]])
  }

  /** The slot that the source of entry `i` gives it is taken. */
  ghost predicate HomeTaken(p: Params, t: State, i: Id) {
    i in t.info && Home(p, t.key, t.info[i]) in t.newTable
  }

  /** What has been placed when the entries in `done` have had their turn. */
  ghost predicate HomeStage(p: Params, s: State, m: seq<Id>, t: State, done: set<Id>) {
    && Books(p, t, {}, Below(s.nNew)) && Copied(s, t, m, |m|)
    && t.key == s.key && t.nNew == s.nNew && t.nTried == |m| - s.nNew && t.nextId == |m| && t.collisions == {}
    && (forall slot :: slot in t.newTable ==> HoldsHome(p, t, slot))
    && (forall i :: i in done ==> HomeTaken(p, t, i))
  }

  /** An entry that only its own slot can hold has one reference at most. */
  lemma OneReference(p: Params, t: State, zero: set<Id>, i: Id)
    requires Books(p, t, {}, zero) && i in t.info && forall slot :: slot in t.newTable ==> HoldsHome(p, t, slot)
    ensures var home := Home(p, t.key, t.info[i]);
            t.info[i].refCount == if home in t.newTable && t.newTable[home] == i then 1 else 0
  {
    hide Books;
    BooksRefs(p, t, {}, zero, i);
    var home := Home(p, t.key, t.info[i]);
    forall slot | slot in SlotsOf(t.newTable, i) ensures slot == home {
      assert HoldsHome(p, t, slot);
    }
    if home in t.newTable && t.newTable[home] == i {
      assert SlotsOf(t.newTable, i) == {home};
    } else {
      assert SlotsOf(t.newTable, i) == {};
    }
  }

  lemma HomeStep(p: Params, s: State, m: seq<Id>, t: State, done: set<Id>, e: Reference)
    requires Readable(p, s, m) && 0 <= e.index < s.nNew && HomeStage(p, s, m, t, done)
    ensures HomeStage(p, s, m, PlaceOne(p, t, false, e), done + {e.index})
  {
    hide Books, Link;
    ReadableSize(p, s, m);
    ReadableAt(p, s, m, e.index);
    assert CopyOf(s, t, m, e.index);
    OneReference(p, t, Below(s.nNew), e.index);
    var home := Home(p, t.key, t.info[e.index]);
    if home !in t.newTable {
      SourceSlotFits(p, t.key, t.info[e.index].service, t.info[e.index].source);
      LinkKeeps(p, t, {}, Below(s.nNew), e.index, home);
      ZeroGrows(p, Link(t, e.index, home), {}, Below(s.nNew) - {e.index}, Below(s.nNew));
      LinkedHome(p, s, m, t, done, e.index);
    }
  }

  lemma LinkedHome(p: Params, s: State, m: seq<Id>, t: State, done: set<Id>, i: Id)
    requires i in t.info && Copied(s, t, m, |m|)
    requires forall slot :: slot in t.newTable ==> HoldsHome(p, t, slot)
    requires forall j :: j in done ==> HomeTaken(p, t, j)
    ensures var u := Link(t, i, Home(p, t.key, t.info[i]));
            && Copied(s, u, m, |m|) && SameElsewhere(t, u)
            && (forall slot :: slot in u.newTable ==> HoldsHome(p, u, slot))
            && (forall j :: j in done + {i} ==> HomeTaken(p, u, j))
  {
    var u := Link(t, i, Home(p, t.key, t.info[i]));
    forall j | 0 <= j < |m| ensures CopyOf(s, u, m, j) {
      assert CopyOf(s, t, m, j);
    }
    forall slot | slot in u.newTable ensures HoldsHome(p, u, slot) {
      assert slot in t.newTable ==> HoldsHome(p, t, slot);
    }
    forall j | j in done + {i} ensures HomeTaken(p, u, j) {
      assert j in done ==> HomeTaken(p, t, j);
    }
  }

  function IndexSet(es: seq<Reference>): set<Id> {
    set e | e in es :: e.index
  }

  lemma {:induction false} AllHome(p: Params, s: State, m: seq<Id>, s2: State, es: seq<Reference>)
    requires Readable(p, s, m) && HomeStage(p, s, m, s2, {})
    requires forall e :: e in es ==> 0 <= e.index < s.nNew
    ensures HomeStage(p, s, m, PlaceAll(p, s2, false, es), IndexSet(es))
  {
    hide Books, Readable, Params.Ok, PlaceOne, HomeStage;
    if es == [] {
      assert IndexSet(es) == {};
    } else {
      var n := |es| - 1;
      AllHome(p, s, m, s2, es[..n]);
      assert es == es[..n] + [es[n]];
      HomeStep(p, s, m, PlaceAll(p, s2, false, es[..n]), IndexSet(es[..n]), es[n]);
      assert IndexSet(es) == IndexSet(es[..n]) + {es[n].index};
    }
  }

  // ---------------------------------------------------------------- pruning

  /** `u` is `t` without the entries in `gone`, which held nothing. */
  ghost predicate PrunedFrom(t: State, u: State, gone: set<Id>) {
    && u.info.Keys == t.info.Keys - gone && Repositions(t.info, u.info)
    && u.newTable == t.newTable && u.triedTable == t.triedTable
    && u.key == t.key && u.nextId == t.nextId && u.collisions == t.collisions && u.nTried == t.nTried
  }

  lemma {:induction false} PruneKeeps(p: Params, t: State, zero: set<Id>, pruned: seq<Id>)
    requires Books(p, t, {}, zero) && Distinct(pruned) && forall id :: id in pruned ==> id in Lost(t)
    ensures Books(p, DeleteAll(t, pruned), {}, zero)
    ensures PrunedFrom(t, DeleteAll(t, pruned), set id | id in pruned)
  {
    hide Books, Delete;
    if pruned == [] {
      assert (set id | id in pruned) == {};
    } else {
      var n := |pruned| - 1;
      assert pruned == pruned[..n] + [pruned[n]];
      PruneKeeps(p, t, zero, pruned[..n]);
      var u, id := DeleteAll(t, pruned[..n]), pruned[n];
      assert id in pruned && id !in pruned[..n];
      assert id in u.info.Keys && SameButPosition(t.info[id], u.info[id]);
      DeleteKeeps(p, u, {}, zero, id);
      ZeroGrows(p, Delete(u, id), {}, zero - {id}, zero);
      BooksRandom(p, u, {}, zero);
      PruneOne(t, u, (set x | x in pruned[..n]), id);
      assert (set x | x in pruned) == (set x | x in pruned[..n]) + {id};
    }
  }

  lemma PruneOne(t: State, u: State, gone: set<Id>, id: Id)
    requires PrunedFrom(t, u, gone) && RandomOk(u.info, u.random) && id in u.info
    ensures PrunedFrom(t, Delete(u, id), gone + {id})
  {
    hide RandomOk;
    DeleteFacts(u, id);
    DeleteFrame(u, id);
  }

  lemma DeleteFrame(u: State, id: Id)
    ensures var d := Delete(u, id);
            d.key == u.key && d.nextId == u.nextId && d.collisions == u.collisions && d.nTried == u.nTried
  {
  }

  // ---------------------------------------------------------------- the result

  /** Entry `i` of the copy is entry `m[i]`, apart from its references. */
  ghost predicate SameRecord(s: State, u: State, m: seq<Id>, i: Id) {
    && 0 <= i < |m| && m[i] in s.info && i in u.info
    && ToRecord(u.info[i]) == ToRecord(s.info[m[i]]) && u.info[i].inTried == s.info[m[i]].inTried
    && u.info[i].lastTry == 0 && u.info[i].lastCountAttempt == 0
  }

  /** The new entry `m[i]` has its home taken, by itself with one reference or else it is gone. */
  ghost predicate AtHome(p: Params, s: State, u: State, m: seq<Id>, i: Id)
    requires 0 <= i < |m| && m[i] in s.info
  {
    var home := Home(p, s.key, s.info[m[i]]);
    && home in u.newTable
    && (i in u.info <==> u.newTable[home] == i)
    && (i in u.info ==> u.info[i].refCount == 1)
  }

  /** No entry is invented or altered, and no tried entry is lost. */
  ghost predicate RecordsLeft(s: State, u: State, m: seq<Id>) {
    && (forall i :: i in u.info ==> SameRecord(s, u, m, i))
    && (forall i :: s.nNew <= i < |m| ==> i in u.info)
  }

  ghost predicate HoldsTried(p: Params, s: State, u: State, m: seq<Id>, i: Id) {
    && 0 <= i < |m| && m[i] in s.info
    && var slot := p.TriedSlot(s.key, s.info[m[i]].service);
       slot in u.triedTable && u.triedTable[slot] == i
  }

  /** Every tried entry listed holds the slot it has now. */
  ghost predicate TriedAtHome(p: Params, s: State, u: State, m: seq<Id>) {
    forall i :: s.nNew <= i < |m| ==> HoldsTried(p, s, u, m, i)
  }

  /** Every new entry of `s` has its home taken, and no slot is taken that is not its holder's home. */
  ghost predicate NewAtHome(p: Params, s: State, u: State, m: seq<Id>)
    requires 0 <= s.nNew <= |m|
  {
    && (forall i :: 0 <= i < s.nNew ==> m[i] in s.info && AtHome(p, s, u, m, i))
    && (forall slot :: slot in u.newTable ==>
          var i := u.newTable[slot];
          0 <= i < s.nNew && m[i] in s.info && slot == Home(p, s.key, s.info[m[i]]))
  }

  /**
   `u` is what is left of `s` when it is read with parameters `p`: the tried entries listed, each in
   the slot it has now, and new entries each in the slot of its own source only.
   */
  ghost predicate Rehomed(p: Params, s: State, u: State, m: seq<Id>) {
    && u.key == s.key && 0 <= s.nNew <= |m| && u.nTried == |m| - s.nNew
    && RecordsLeft(s, u, m) && TriedAtHome(p, s, u, m) && NewAtHome(p, s, u, m)
  }

  lemma HomeEntry(p: Params, s: State, m: seq<Id>, t: State, done: set<Id>, i: Id)
    requires Readable(p, s, m) && HomeStage(p, s, m, t, done) && 0 <= i < |m|
    ensures i in t.info && SameRecord(s, t, m, i) && Home(p, t.key, t.info[i]) == Home(p, s.key, s.info[m[i]])
    ensures i < s.nNew <==> !t.info[i].inTried
    ensures t.info[i].refCount == if var h := Home(p, t.key, t.info[i]); h in t.newTable && t.newTable[h] == i then 1 else 0
  {
    hide Books;
    ReadableAt(p, s, m, i);
    assert CopyOf(s, t, m, i);
    OneReference(p, t, Below(s.nNew), i);
  }

  lemma HomeLeft(p: Params, s: State, m: seq<Id>, t: State, u: State, i: Id)
    requires Readable(p, s, m) && HomeStage(p, s, m, t, Below(s.nNew)) && 0 <= i < s.nNew
    requires PrunedFrom(t, u, Lost(t))
    ensures m[i] in s.info && AtHome(p, s, u, m, i)
  {
    hide Books;
    ReadableSize(p, s, m);
    HomeEntry(p, s, m, t, Below(s.nNew), i);
    assert HomeTaken(p, t, i);
    assert i in u.info <==> i in t.info.Keys - Lost(t);
    if i in u.info {
      assert SameButPosition(t.info[i], u.info[i]);
    }
  }

  lemma RecordLeft(p: Params, s: State, m: seq<Id>, t: State, u: State, i: Id)
    requires Readable(p, s, m) && HomeStage(p, s, m, t, Below(s.nNew))
    requires PrunedFrom(t, u, Lost(t))
    ensures i in u.info ==> SameRecord(s, u, m, i) && (u.info[i].inTried || u.info[i].refCount > 0)
    ensures s.nNew <= i < |m| ==> i in u.info
  {
    hide Books;
    ReadableSize(p, s, m);
    CopiedSize(s, t, m, |m|);
    if 0 <= i < |m| {
      HomeEntry(p, s, m, t, Below(s.nNew), i);
      assert i in u.info <==> i in t.info.Keys - Lost(t);
      if i in u.info {
        assert SameButPosition(t.info[i], u.info[i]);
      }
    } else {
      assert i !in t.info.Keys;
    }
  }

  lemma SlotLeft(p: Params, s: State, m: seq<Id>, t: State, slot: Slot)
    requires Readable(p, s, m) && HomeStage(p, s, m, t, Below(s.nNew)) && slot in t.newTable
    ensures var i := t.newTable[slot];
            0 <= i < s.nNew && m[i] in s.info && slot == Home(p, s.key, s.info[m[i]])
  {
    hide Books;
    ReadableSize(p, s, m);
    CopiedSize(s, t, m, |m|);
    assert HoldsHome(p, t, slot);
    var i := t.newTable[slot];
    assert i in t.info.Keys;
    HomeEntry(p, s, m, t, Below(s.nNew), i);
    HolderIsNew(p, t, Below(s.nNew), slot);
  }

  lemma HolderIsNew(p: Params, t: State, zero: set<Id>, slot: Slot)
    requires Books(p, t, {}, zero) && slot in t.newTable
    ensures t.newTable[slot] in t.info && !t.info[t.newTable[slot]].inTried
  {
  }

  lemma TriedLeft(p: Params, s: State, m: seq<Id>, t: State, i: Id)
    requires Readable(p, s, m) && HomeStage(p, s, m, t, Below(s.nNew)) && s.nNew <= i < |m|
    ensures HoldsTried(p, s, t, m, i)
  {
    hide Books;
    ReadableSize(p, s, m);
    HomeEntry(p, s, m, t, Below(s.nNew), i);
    TriedSlotTaken(p, t, Below(s.nNew), i);
  }

  lemma TriedSlotTaken(p: Params, t: State, zero: set<Id>, i: Id)
    requires Books(p, t, {}, zero) && i in t.info && t.info[i].inTried
    ensures var slot := p.TriedSlot(t.key, t.info[i].service); slot in t.triedTable && t.triedTable[slot] == i
  {
  }

  lemma RehomedAfter(p: Params, s: State, m: seq<Id>, t: State, pruned: seq<Id>)
    requires Readable(p, s, m) && HomeStage(p, s, m, t, Below(s.nNew))
    requires Distinct(pruned) && forall id :: id in pruned <==> id in Lost(t)
    ensures var u := DeleteAll(t, pruned); Sound(p, u) && Rehomed(p, s, u, m)
  {
    HomeBooks(p, s, m, t, Below(s.nNew));
    hide Books, DeleteAll, Readable, HomeStage, PrunedFrom, Rehomed, Lost, Params.Ok, Below, Sound, Distinct;
    PruneKeeps(p, t, Below(s.nNew), pruned);
    var u := DeleteAll(t, pruned);
    SameIds(pruned, Lost(t));
    SoundLeft(p, s, m, t, u);
    AllLeft(p, s, m, t, u);
  }

  lemma SameIds(ids: seq<Id>, all: set<Id>)
    requires forall id :: id in ids <==> id in all
    ensures (set id | id in ids) == all
  {
    forall id ensures id in (set x | x in ids) <==> id in all {
    }
  }

  lemma HomeBooks(p: Params, s: State, m: seq<Id>, t: State, done: set<Id>)
    requires HomeStage(p, s, m, t, done)
    ensures Books(p, t, {}, Below(s.nNew)) && t.key == s.key && t.nTried == |m| - s.nNew
    ensures t.collisions == {} && t.nextId == |m|
  {
  }

  lemma PrunedFrame(t: State, u: State, gone: set<Id>)
    requires PrunedFrom(t, u, gone)
    ensures u.nextId == t.nextId && u.collisions == t.collisions
  {
  }

  lemma SoundLeft(p: Params, s: State, m: seq<Id>, t: State, u: State)
    requires Readable(p, s, m) && HomeStage(p, s, m, t, Below(s.nNew))
    requires PrunedFrom(t, u, Lost(t)) && Books(p, u, {}, Below(s.nNew))
    ensures Sound(p, u)
  {
    HomeBooks(p, s, m, t, Below(s.nNew));
    PrunedFrame(t, u, Lost(t));
    hide Books, Readable, HomeStage, Lost, Params.Ok, Below, PrunedFrom, Sound;
    NoneUnreferenced(p, s, m, t, u);
    NoZero(p, u, Below(s.nNew));
    QuietSound(p, u);
  }

  lemma NoneUnreferenced(p: Params, s: State, m: seq<Id>, t: State, u: State)
    requires Readable(p, s, m) && HomeStage(p, s, m, t, Below(s.nNew)) && PrunedFrom(t, u, Lost(t))
    ensures forall i :: i in u.info ==> u.info[i].inTried || u.info[i].refCount > 0
  {
    hide Books, Readable, HomeStage, Lost, Params.Ok, Below, PrunedFrom, SameRecord;
    forall i | i in u.info ensures u.info[i].inTried || u.info[i].refCount > 0 {
      RecordLeft(p, s, m, t, u, i);
    }
  }

  lemma QuietSound(p: Params, s: State)
    requires Consistent(p, s) && s.collisions == {} && 0 <= s.nextId
    ensures Sound(p, s)
  {
    BooksOk(p, s);
    hide Books;
  }

  lemma AllLeft(p: Params, s: State, m: seq<Id>, t: State, u: State)
    requires Readable(p, s, m) && HomeStage(p, s, m, t, Below(s.nNew))
    requires PrunedFrom(t, u, Lost(t))
    ensures Rehomed(p, s, u, m)
  {
    HomeBooks(p, s, m, t, Below(s.nNew));
    hide Books, Readable, HomeStage, Lost, RecordsLeft, TriedAtHome, NewAtHome;
    ReadableSize(p, s, m);
    AllRecords(p, s, m, t, u);
    AllTried(p, s, m, t, u);
    AllNew(p, s, m, t, u);
  }

  lemma AllRecords(p: Params, s: State, m: seq<Id>, t: State, u: State)
    requires Readable(p, s, m) && HomeStage(p, s, m, t, Below(s.nNew))
    requires PrunedFrom(t, u, Lost(t))
    ensures RecordsLeft(s, u, m)
  {
    hide Books, Readable, HomeStage, Lost, SameRecord, PrunedFrom;
    forall i | i in u.info ensures SameRecord(s, u, m, i) {
      RecordLeft(p, s, m, t, u, i);
    }
    forall i | s.nNew <= i < |m| ensures i in u.info {
      RecordLeft(p, s, m, t, u, i);
    }
  }

  lemma AllTried(p: Params, s: State, m: seq<Id>, t: State, u: State)
    requires Readable(p, s, m) && HomeStage(p, s, m, t, Below(s.nNew))
    requires PrunedFrom(t, u, Lost(t))
    ensures TriedAtHome(p, s, u, m)
  {
    hide Books, Readable, HomeStage, Lost;
    forall i | s.nNew <= i < |m| ensures HoldsTried(p, s, u, m, i) {
      TriedLeft(p, s, m, t, i);
    }
  }

  lemma AllNew(p: Params, s: State, m: seq<Id>, t: State, u: State)
    requires Readable(p, s, m) && HomeStage(p, s, m, t, Below(s.nNew))
    requires PrunedFrom(t, u, Lost(t))
    ensures 0 <= s.nNew <= |m| && NewAtHome(p, s, u, m)
  {
    hide Books, Readable, HomeStage, Lost, AtHome, Home;
    ReadableSize(p, s, m);
    forall i | 0 <= i < s.nNew ensures m[i] in s.info && AtHome(p, s, u, m, i) {
      HomeLeft(p, s, m, t, u, i);
    }
    forall slot | slot in u.newTable
      ensures var i := u.newTable[slot]; 0 <= i < s.nNew && m[i] in s.info && slot == Home(p, s.key, s.info[m[i]])
    {
      SlotLeft(p, s, m, t, slot);
    }
  }

  lemma BooksOk(p: Params, s: State)
    requires Consistent(p, s)
    ensures p.Ok()
  {
  }

  /** Every new entry has a reference in the file. */
  lemma AllReferred(p: Params, s: State, m: seq<Id>, ids: seq<Id>)
    requires p.Ok() && Consistent(p, s) && Listing(s, m) && ids == m[..s.nNew]
    ensures var es := RefsOf(s.newTable, ids, SlotList(s.newTable, p.newBuckets, p.bucketSize));
            (forall e :: e in es ==> 0 <= e.index < s.nNew) && IndexSet(es) == Below(s.nNew)
  {
    hide Books, Listing;
    var slots := SlotList(s.newTable, p.newBuckets, p.bucketSize);
    var es := RefsOf(s.newTable, ids, slots);
    SlotListFacts(s.newTable, p.newBuckets, p.bucketSize);
    ListingSize(s, m);
    forall e | e in es ensures 0 <= e.index < s.nNew {
      var k :| 0 <= k < |es| && es[k] == e;
      assert slots[k] in slots;
      NewIdListed(p, s, m, ids, slots[k]);
    }
    forall i | 0 <= i < s.nNew ensures i in IndexSet(es) {
      Referred(p, s, m, ids, slots, i);
    }
  }

  lemma Referred(p: Params, s: State, m: seq<Id>, ids: seq<Id>, slots: seq<Slot>, i: Id)
    requires p.Ok() && Consistent(p, s) && Listing(s, m) && 0 <= i < s.nNew && ids == m[..s.nNew]
    requires forall slot :: slot in slots <==>
               slot in s.newTable && 0 <= slot.bucket < p.newBuckets && 0 <= slot.pos < p.bucketSize
    ensures i in IndexSet(RefsOf(s.newTable, ids, slots))
  {
    hide Books;
    ListingAt(s, m, i);
    BooksEntry(p, s, m[i]);
    BooksRefs(p, s, {}, {}, m[i]);
    var es := RefsOf(s.newTable, ids, slots);
    assert SlotsOf(s.newTable, m[i]) != {};
    var slot :| slot in SlotsOf(s.newTable, m[i]);
    NewSlotOf(p, s, slot);
    NewIdListed(p, s, m, ids, slot);
    assert slot in slots;
    var k :| 0 <= k < |slots| && slots[k] == slot;
    var e := es[k];
    assert e in es && e == RefOf(s.newTable, ids, slot);
    assert m[e.index] == m[i];
  }

  // ---------------------------------------------------------------- tried entries that lose their slot

  function TriedSlotOf(p: Params, s: State, id: Id): Slot {
    if id in s.info then p.TriedSlot(s.key, s.info[id].service) else Slot(-1, -1)
  }

  /** Some entry of the list has the same tried slot. */
  predicate Clashes(p: Params, s: State, ids: seq<Id>, id: Id) {
    exists k :: 0 <= k < |ids| && TriedSlotOf(p, s, ids[k]) == TriedSlotOf(p, s, id)
  }

  /** The tried entries that find their slot free, in the order in which they are read. */
  function Kept(p: Params, s: State, ids: seq<Id>): seq<Id> {
    if ids == [] then []
    else
      var n := |ids| - 1;
      var rest := Kept(p, s, ids[..n]);
      if Clashes(p, s, rest, ids[n]) then rest else rest + [ids[n]]
  }

  /** The entries kept have different slots, and leave no slot free that one of the others has. */
  lemma {:induction false} KeptFacts(p: Params, s: State, ids: seq<Id>)
    ensures var k := Kept(p, s, ids);
            && |k| <= |ids| && (forall id :: id in k ==> id in ids)
            && (forall i, j :: 0 <= i < j < |k| ==> TriedSlotOf(p, s, k[i]) != TriedSlotOf(p, s, k[j]))
    ensures forall x :: Clashes(p, s, Kept(p, s, ids), x) <==> Clashes(p, s, ids, x)
  {
    if ids != [] {
      var n := |ids| - 1;
      KeptFacts(p, s, ids[..n]);
      assert ids == ids[..n] + [ids[n]];
      var rest, k := Kept(p, s, ids[..n]), Kept(p, s, ids);
      forall x ensures Clashes(p, s, k, x) <==> Clashes(p, s, ids, x) {
        ClashesMore(p, s, ids[..n], ids[n], x);
        ClashesMore(p, s, rest, ids[n], x);
        if TriedSlotOf(p, s, ids[n]) == TriedSlotOf(p, s, x) {
          SameClash(p, s, rest, ids[n], x);
        }
      }
    }
  }

  lemma ClashesMore(p: Params, s: State, ids: seq<Id>, id: Id, x: Id)
    ensures Clashes(p, s, ids + [id], x) <==> Clashes(p, s, ids, x) || TriedSlotOf(p, s, id) == TriedSlotOf(p, s, x)
  {
    hide TriedSlotOf;
    if Clashes(p, s, ids, x) {
      var k :| 0 <= k < |ids| && TriedSlotOf(p, s, ids[k]) == TriedSlotOf(p, s, x);
      assert (ids + [id])[k] == ids[k];
    }
    assert (ids + [id])[|ids|] == id;
  }

  lemma SameClash(p: Params, s: State, ids: seq<Id>, id: Id, x: Id)
    requires TriedSlotOf(p, s, id) == TriedSlotOf(p, s, x)
    ensures Clashes(p, s, ids, id) <==> Clashes(p, s, ids, x)
  {
  }

  /** A tried entry is kept exactly if none written before it has the same slot now. */
  lemma {:induction false} KeptIff(p: Params, s: State, ids: seq<Id>, n: nat)
    requires n < |ids| && Distinct(ids)
    ensures ids[n] in Kept(p, s, ids) <==> !Clashes(p, s, ids[..n], ids[n])
  {
    var last := |ids| - 1;
    assert ids == ids[..last] + [ids[last]];
    if n < last {
      KeptIff(p, s, ids[..last], n);
      assert ids[..last][..n] == ids[..n];
    } else {
      KeptFacts(p, s, ids[..last]);
      assert ids[last] !in ids[..last];
    }
  }

  lemma OtherSlot(p: Params, s: State, x: Id, y: Id)
    requires Consistent(p, s) && x in s.info && y in s.info && s.info[x].inTried && s.info[y].inTried && x != y
    ensures TriedSlotOf(p, s, x) != TriedSlotOf(p, s, y)
  {
    hide Books;
    if TriedSlotOf(p, s, x) == TriedSlotOf(p, s, y) {
      OneHolder(p, s, x, y);
    }
  }

  /** Under the writer's own parameters all are kept. */
  lemma {:induction false} KeptAll(p: Params, s: State, ids: seq<Id>)
    requires Consistent(p, s) && Distinct(ids) && forall id :: id in ids ==> id in s.info && s.info[id].inTried
    ensures Kept(p, s, ids) == ids
  {
    hide Books, TriedSlotOf;
    if ids != [] {
      var n := |ids| - 1;
      assert ids == ids[..n] + [ids[n]];
      KeptAll(p, s, ids[..n]);
      forall k | 0 <= k < n ensures TriedSlotOf(p, s, ids[k]) != TriedSlotOf(p, s, ids[n]) {
        OtherSlot(p, s, ids[k], ids[n]);
      }
    }
  }

  /** The slots taken are those of the entries read so far. */
  ghost predicate TakenBy(p: Params, s: State, t: State, ids: seq<Id>) {
    t.key == s.key && forall id :: id in s.info ==> (TriedSlotOf(p, s, id) in t.triedTable <==> Clashes(p, s, ids, id))
  }

  lemma TakeOne(p: Params, s: State, t: State, ids: seq<Id>, id: Id)
    requires TakenBy(p, s, t, ids) && id in s.info && p.isValid(s.info[id].service) && !Clashes(p, s, ids, id)
    ensures var u := LoadTriedOne(p, t, ToRecord(s.info[id])); TakenBy(p, s, u, ids + [id]) && u.nTried == t.nTried
  {
    hide Clashes;
    forall x ensures Clashes(p, s, ids + [id], x) <==> Clashes(p, s, ids, x) || TriedSlotOf(p, s, id) == TriedSlotOf(p, s, x) {
      ClashesMore(p, s, ids, id, x);
    }
  }

  ghost predicate AllIn(info: InfoMap, ids: seq<Id>) {
    forall id :: id in ids ==> id in info
  }

  /** Reading all the records comes to reading those of `k`, which lose nothing. */
  ghost predicate ReadsAs(p: Params, s: State, s1: State, ids: seq<Id>, k: seq<Id>) {
    && AllIn(s.info, ids) && AllIn(s.info, k)
    && var t := LoadTried(p, s1, Records(s.info, k));
       && TakenBy(p, s, t, k) && t.nTried == s1.nTried
       && LoadTried(p, s1, Records(s.info, ids)) == t.(nTried := s1.nTried - (|ids| - |k|))
  }

  lemma {:induction false} ReadKept(p: Params, s: State, s1: State, ids: seq<Id>)
    requires s1.triedTable == map[] && s1.key == s.key
    requires forall id :: id in ids ==> id in s.info && p.isValid(s.info[id].service)
    ensures ReadsAs(p, s, s1, ids, Kept(p, s, ids))
  {
    hide LoadTriedOne, TakenBy, Clashes, ReadsAs;
    if ids == [] {
      NoneRead(p, s, s1);
    } else {
      var n := |ids| - 1;
      var id := ids[n];
      assert ids == ids[..n] + [id] && id in ids;
      ReadKept(p, s, s1, ids[..n]);
      ReadOne(p, s, s1, ids[..n], Kept(p, s, ids[..n]), id);
    }
  }

  lemma NoneRead(p: Params, s: State, s1: State)
    requires s1.triedTable == map[] && s1.key == s.key
    ensures ReadsAs(p, s, s1, [], [])
  {
    NoneTaken(p, s, s1);
  }

  lemma ReadOne(p: Params, s: State, s1: State, ids: seq<Id>, k: seq<Id>, id: Id)
    requires ReadsAs(p, s, s1, ids, k) && id in s.info && p.isValid(s.info[id].service)
    ensures ReadsAs(p, s, s1, ids + [id], if Clashes(p, s, k, id) then k else k + [id])
  {
    hide LoadTriedOne, TakenBy, Clashes, Records, LoadTried;
    var t, r := LoadTried(p, s1, Records(s.info, k)), ToRecord(s.info[id]);
    RecordsMore(s.info, ids, id);
    LoadTriedMore(p, s1, Records(s.info, ids), r);
    var total := s1.nTried - (|ids| - |k|);
    if Clashes(p, s, k, id) {
      LostOne(p, s, t, k, id, total);
    } else {
      RecordsMore(s.info, k, id);
      LoadTriedMore(p, s1, Records(s.info, k), r);
      TakeOne(p, s, t, k, id);
      TotalApart(p, t, r, total);
    }
  }

  lemma NoneTaken(p: Params, s: State, s1: State)
    requires s1.triedTable == map[] && s1.key == s.key
    ensures TakenBy(p, s, s1, [])
  {
  }

  lemma RecordsMore(info: InfoMap, ids: seq<Id>, id: Id)
    requires (forall x :: x in ids ==> x in info) && id in info
    ensures (forall x :: x in ids + [id] ==> x in info)
    ensures Records(info, ids + [id]) == Records(info, ids) + [ToRecord(info[id])]
  {
  }

  lemma LoadTriedMore(p: Params, s1: State, rs: seq<Record>, r: Record)
    ensures LoadTried(p, s1, rs + [r]) == LoadTriedOne(p, LoadTried(p, s1, rs), r)
  {
    hide LoadTriedOne;
    assert (rs + [r])[..|rs|] == rs;
  }

  lemma LostOne(p: Params, s: State, t: State, ids: seq<Id>, id: Id, total: int)
    requires TakenBy(p, s, t, ids) && id in s.info && Clashes(p, s, ids, id)
    ensures LoadTriedOne(p, t.(nTried := total), ToRecord(s.info[id])) == t.(nTried := total - 1)
  {
    hide Clashes;
    assert TriedSlotOf(p, s, id) in t.triedTable;
  }

  /** The total has no part in what is read. */
  lemma TotalApart(p: Params, t: State, r: Record, total: int)
    ensures var u := LoadTriedOne(p, t, r);
            LoadTriedOne(p, t.(nTried := total), r) == u.(nTried := total + u.nTried - t.nTried)
  {
    hide AddCount, FromRecord, Params.TriedSlot;
    var slot := p.TriedSlot(t.key, r.service);
    if p.isValid(r.service) && slot !in t.triedTable {
      var i := FromRecord(r, true, |t.random|);
      assert LoadTriedOne(p, t, r) == TriedAdded(t, i, r.service, slot);
      assert LoadTriedOne(p, t.(nTried := total), r) == TriedAdded(t.(nTried := total), i, r.service, slot);
    }
  }

  function TriedAdded(t: State, i: Info, a: Service, slot: Slot): State {
    t.(info := t.info[t.nextId := i],
       byAddr := t.byAddr[a := t.nextId],
       random := t.random + [t.nextId],
       triedTable := t.triedTable[slot := t.nextId],
       nextId := t.nextId + 1,
       counts := AddCount(t.counts, a.host.network, 0, 1))
  }

  lemma {:induction false} TotalApartAll(p: Params, t: State, rs: seq<Record>, total: int)
    ensures LoadTried(p, t.(nTried := total), rs)
         == LoadTried(p, t, rs).(nTried := total + LoadTried(p, t, rs).nTried - t.nTried)
  {
    hide LoadTriedOne;
    if rs != [] {
      var u := LoadTried(p, t, rs[..|rs| - 1]);
      TotalApartAll(p, t, rs[..|rs| - 1], total);
      TotalApart(p, u, rs[|rs| - 1], total + u.nTried - t.nTried);
    }
  }

  lemma {:induction false} TotalApartNew(s: State, rs: seq<Record>, total: int)
    ensures LoadNew(s.(nTried := total), rs) == LoadNew(s, rs).(nTried := total)
  {
    if rs != [] {
      TotalApartNew(s, rs[..|rs| - 1], total);
      LoadNewUnfold(s, rs);
      LoadNewUnfold(s.(nTried := total), rs);
      hide LoadNew;
    }
  }

  lemma {:induction false} LoadNewLeavesTried(s: State, rs: seq<Record>)
    ensures LoadNew(s, rs).triedTable == s.triedTable && LoadNew(s, rs).key == s.key && LoadNew(s, rs).nTried == s.nTried
  {
    if rs != [] {
      LoadNewLeavesTried(s, rs[..|rs| - 1]);
    }
  }

  // ---------------------------------------------------------------- the whole load

  /** The entries the reader keeps are readable. */
  lemma KeptReadable(w: Params, p: Params, s: State, ids: seq<Id>, tried: seq<Id>)
    requires w.Ok() && p.Ok() && Consistent(w, s) && Listing(s, ids + tried) && |ids| == s.nNew
    requires forall a :: w.isValid(a) ==> p.isValid(a)
    ensures Readable(p, s, ids + Kept(p, s, tried))
    ensures forall id :: id in tried ==> id in s.info && p.isValid(s.info[id].service)
  {
    hide Books;
    ListingReadable(w, s, ids + tried);
    KeptFacts(p, s, tried);
    var m, full := ids + Kept(p, s, tried), ids + tried;
    forall id | id in tried ensures id in s.info && p.isValid(s.info[id].service) && s.info[id].inTried && EntryReadable(p, s.info[id]) {
      var k :| 0 <= k < |tried| && tried[k] == id;
      assert full[|ids| + k] == id;
    }
    forall i | 0 <= i < |m|
      ensures m[i] in s.info && (s.info[m[i]].inTried <==> s.nNew <= i) && EntryReadable(p, s.info[m[i]])
    {
      if i < |ids| {
        assert m[i] == full[i];
      } else {
        assert m[i] == Kept(p, s, tried)[i - |ids|] && m[i] in tried;
      }
    }
    KeptSlots(p, s, ids, tried);
    KeptAddresses(w, p, s, ids, tried);
    forall i, j | 0 <= i < j < |m| ensures s.info[m[i]].service != s.info[m[j]].service {
      assert OtherAddress(s, m, i, j);
    }
    KeySet(w, s);
  }

  lemma KeptSlots(p: Params, s: State, ids: seq<Id>, tried: seq<Id>)
    requires |ids| == s.nNew && forall id :: id in tried ==> id in s.info
    ensures var m := ids + Kept(p, s, tried);
            forall i, j :: s.nNew <= i < j < |m| ==>
              m[i] in s.info && m[j] in s.info
              && p.TriedSlot(s.key, s.info[m[i]].service) != p.TriedSlot(s.key, s.info[m[j]].service)
  {
    KeptFacts(p, s, tried);
    var k, m := Kept(p, s, tried), ids + Kept(p, s, tried);
    forall i, j | s.nNew <= i < j < |m|
      ensures m[i] in s.info && m[j] in s.info
           && p.TriedSlot(s.key, s.info[m[i]].service) != p.TriedSlot(s.key, s.info[m[j]].service)
    {
      assert m[i] == k[i - |ids|] && m[j] == k[j - |ids|] && m[i] in k && m[j] in k;
      assert TriedSlotOf(p, s, m[i]) != TriedSlotOf(p, s, m[j]);
    }
  }

  ghost predicate OtherAddress(s: State, m: seq<Id>, i: int, j: int)
    requires 0 <= i < |m| && 0 <= j < |m|
  {
    m[i] in s.info && m[j] in s.info && s.info[m[i]].service != s.info[m[j]].service
  }

  lemma KeptAddresses(w: Params, p: Params, s: State, ids: seq<Id>, tried: seq<Id>)
    requires Consistent(w, s) && Listing(s, ids + tried) && |ids| == s.nNew
    ensures var m := ids + Kept(p, s, tried); forall i, j :: 0 <= i < j < |m| ==> OtherAddress(s, m, i, j)
  {
    hide Books, Kept;
    KeptFacts(p, s, tried);
    var k, m := Kept(p, s, tried), ids + Kept(p, s, tried);
    forall i, j | 0 <= i < j < |m| ensures OtherAddress(s, m, i, j) {
      InFull(s, ids, tried, k, i);
      InFull(s, ids, tried, k, j);
      KeptDistinct(p, s, ids, tried, i, j);
      if s.info[m[i]].service == s.info[m[j]].service {
        SameAddressSameId(w, s, m[i], m[j]);
      }
    }
  }

  lemma KeptDistinct(p: Params, s: State, ids: seq<Id>, tried: seq<Id>, i: int, j: int)
    requires Listing(s, ids + tried) && |ids| == s.nNew && 0 <= i < j < |ids + Kept(p, s, tried)|
    ensures var m := ids + Kept(p, s, tried); m[i] != m[j]
  {
    KeptFacts(p, s, tried);
    hide Kept;
    var k, m, full := Kept(p, s, tried), ids + Kept(p, s, tried), ids + tried;
    InFull(s, ids, tried, k, i);
    InFull(s, ids, tried, k, j);
    if j < |ids| {
      assert m[i] == full[i] && m[j] == full[j];
    } else if |ids| <= i {
      assert m[i] == k[i - |ids|] && m[j] == k[j - |ids|];
      assert TriedSlotOf(p, s, k[i - |ids|]) != TriedSlotOf(p, s, k[j - |ids|]);
    }
  }

  lemma InFull(s: State, ids: seq<Id>, tried: seq<Id>, k: seq<Id>, i: int)
    requires Listing(s, ids + tried) && |ids| == s.nNew && 0 <= i < |ids + k| && forall id :: id in k ==> id in tried
    ensures var m := ids + k; m[i] in s.info && (s.info[m[i]].inTried <==> |ids| <= i)
  {
    var m, full := ids + k, ids + tried;
    if i < |ids| {
      assert m[i] == full[i];
    } else {
      assert m[i] == k[i - |ids|] && m[i] in k && m[i] in tried;
      var x :| 0 <= x < |tried| && tried[x] == m[i];
      assert full[|ids| + x] == m[i];
    }
  }

  /** A file whose buckets are not restored is read in three stages. */
  lemma ReadElsewhere(p: Params, f: File, asmap: int)
    requires f.format == FILE_FORMAT && f.compat == INCOMPATIBILITY_BASE + LOWEST_COMPATIBLE
    requires 0 <= FlipBit30(f.nUBuckets) == |f.buckets| && !(|f.buckets| == p.newBuckets && f.asmap == asmap)
    requires 0 <= f.nNew <= p.newBuckets * p.bucketSize && 0 <= f.nTried <= p.triedBuckets * p.bucketSize
    requires |f.records| == f.nNew + f.nTried
    ensures var s0 := Empty(f.key).(nNew := f.nNew, nTried := f.nTried);
            var s1 := LoadNew(s0, f.records[..f.nNew]).(nextId := f.nNew);
            var s2 := LoadTried(p, s1, f.records[f.nNew..|f.records|]);
            ReadAll(p, f, asmap) == Success(PlaceAll(p, s2, false, References(f.buckets, |f.buckets|, f.nNew)))
  {
    hide LoadNew, LoadTried, PlaceAll, References, FlipBit30;
  }

  lemma ReadyForHome(p: Params, s: State, m: seq<Id>, s2: State)
    requires Readable(p, s, m) && TriedStage(p, s, m, s2, |m|)
    ensures HomeStage(p, s, m, s2, {})
  {
    hide Books;
    ReadableSize(p, s, m);
    assert Stage(s2, |m|, s.nNew) == s2;
  }

  /** All records of a file, and only those that are kept: the same state before any reference is placed. */
  lemma EntriesKept(w: Params, p: Params, s: State, ids: seq<Id>, tried: seq<Id>) returns (s2: State)
    requires w.Ok() && p.Ok() && Consistent(w, s) && Listing(s, ids + tried) && |ids| == s.nNew
    requires forall a :: w.isValid(a) ==> p.isValid(a)
    requires forall id :: id in ids + tried ==> id in s.info
    ensures var rs := Records(s.info, ids + tried);
            var s0 := Empty(s.key).(nNew := s.nNew, nTried := s.nTried);
            var s1 := LoadNew(s0, rs[..s.nNew]).(nextId := s.nNew);
            s2 == LoadTried(p, s1, rs[s.nNew..|rs|])
    ensures var m := ids + Kept(p, s, tried); Readable(p, s, m) && TriedStage(p, s, m, s2, |m|)
  {
    hide Books, LoadNew, LoadTried, Readable, TriedStage, Listing, Kept;
    ListingSize(s, ids + tried);
    var kept := Kept(p, s, tried);
    var m := ids + kept;
    KeptReadable(w, p, s, ids, tried);
    ReadableSize(p, s, m);
    var total := |m| - s.nNew;
    var s0, s0' := Empty(s.key).(nNew := s.nNew, nTried := s.nTried), Empty(s.key).(nNew := s.nNew, nTried := total);
    SplitRecords(s.info, ids, tried);
    SplitRecords(s.info, ids, kept);
    var news := Records(s.info, ids);
    var s1, s1' := LoadNew(s0, news).(nextId := s.nNew), LoadNew(s0', news).(nextId := s.nNew);
    LoadNewLeavesTried(s0, news);
    TotalApartNew(s0, news, total);
    assert s0' == s0.(nTried := total);
    assert s1' == s1.(nTried := total);
    ReadKept(p, s, s1, tried);
    assert ReadsAs(p, s, s1, tried, kept);
    TotalApartAll(p, s1, Records(s.info, kept), total);
    s2 := EntriesRead(p, s, m);
  }

  lemma SplitRecords(info: InfoMap, ids: seq<Id>, tried: seq<Id>)
    requires forall id :: id in ids + tried ==> id in info
    ensures (forall id :: id in ids ==> id in info) && (forall id :: id in tried ==> id in info)
    ensures var rs := Records(info, ids + tried);
            |rs| == |ids| + |tried| && rs[..|ids|] == Records(info, ids) && rs[|ids|..|rs|] == Records(info, tried)
  {
    RecordsJoin(info, ids, tried);
  }

  /**
   A manager written with parameters `w` and read with parameters `p`, where the asmap version or the
   number of buckets differs and any bucket may have changed.  The load succeeds.  A tried entry is
   kept exactly if none written before it has the same slot now.  The slot that its own source gives a
   new entry is taken for every new entry, an entry is lost exactly if another one has taken that slot,
   and new entries hold no other slots.
   */
  lemma Rebuckets(w: Params, p: Params, s: State, order: seq<Id>, written: int, asmap: int, pruned: seq<Id>)
    requires w.Ok() && p.Ok() && Consistent(w, s) && IsOrder(s.info, order)
    requires forall a :: w.isValid(a) ==> p.isValid(a)
    requires !(w.newBuckets == p.newBuckets && written == asmap)
    requires s.nNew <= p.newBuckets * p.bucketSize && s.nTried <= p.triedBuckets * p.bucketSize
    requires var r := ReadAll(p, Serialize(w, s, order, written), asmap);
             r.Success? ==> Distinct(pruned) && forall id :: id in pruned <==> id in Lost(r.state)
    ensures var loaded := Load(p, Serialize(w, s, order, written), asmap, pruned);
            && loaded.Success? && Sound(p, loaded.state)
            && Rehomed(p, s, loaded.state, Pick(s.info, order, false) + Kept(p, s, Pick(s.info, order, true)))
  {
    hide Books, LoadNew, LoadTried, PlaceAll, TriedStage, HomeStage, SlotList, References, Listing, Records, Rehomed,
      Lost, DeleteAll, CollisionsOk, Readable, Kept;
    var f := Serialize(w, s, order, written);
    CountsFit(w, s);
    FileContent(w, s, order, written);
    FlipTwice(w.newBuckets);
    hide FlipBit30, Serialize, ReadAll;
    var ids, tried := Pick(s.info, order, false), Pick(s.info, order, true);
    ListingSize(s, ids + tried);
    ReadElsewhere(p, f, asmap);
    var s2 := EntriesKept(w, p, s, ids, tried);
    var m := ids + Kept(p, s, tried);
    ReadyForHome(p, s, m, s2);
    AllReferred(w, s, ids + tried, ids);
    var es := RefsOf(s.newTable, ids, SlotList(s.newTable, w.newBuckets, w.bucketSize));
    AllHome(p, s, m, s2, es);
    RehomedAfter(p, s, m, PlaceAll(p, s2, false, es), pruned);
  }
}
