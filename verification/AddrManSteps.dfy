/**
 The operations of the address manager: each restores full consistency, and what it may do
 to the tried table is stated exactly.  From this follow the facts about whole runs.
 */
module AddrManSteps {
  import opened Wrappers
  import opened AddrManState
  import opened AddrManBooks
  import opened SetSizes

  // ---------------------------------------------------------------- eviction and promotion

  /** An entry of tried goes back to new with one reference; nothing else in tried, and nothing free, is touched. */
  lemma EvictKeeps(p: Params, s: State, free: set<Id>, slot: Slot)
    requires p.Ok() && Books(p, s, free, {}) && slot in s.triedTable && s.triedTable[slot] !in free
    ensures var t, id := Evict(p, s, slot), s.triedTable[slot];
            && Books(p, t, free, {})
            && t.triedTable == s.triedTable - {slot} && SameAddresses(s.info, t.info)
            && t.key == s.key && t.nextId == s.nextId && t.collisions == s.collisions
            && id in t.info && !t.info[id].inTried && t.info[id].refCount == 1
            && t.info[id].service == s.info[id].service
            && forall j :: j in s.info && j != id && (s.info[j].inTried || j in free) ==>
                 j in t.info && SameButPosition(s.info[j], t.info[j])
  {
    hide Books, ClearNew;
    var id := s.triedTable[slot];
    TriedHolder(p, s, free, {}, slot);
    var i := s.info[id];
    SourceSlotFits(p, s.key, i.service, i.source);
    var at := p.SourceSlot(s.key, i.service, i.source);
    var t1 := Untry(s, slot);
    UntryKeeps(p, s, free, slot);
    EvictClears(p, t1, free + {id}, at);
    var t2 := ClearNew(t1, at);
    assert id in t2.info && SameButPosition(t1.info[id], t2.info[id]);
    UnfreeKeeps(p, t2, free + {id}, id);
    assert free + {id} - {id} == free;
    var t3 := CountNew(t2, id, 1);
    LinkKeeps(p, t3, free, {id}, id, at);
    assert {id} - {id} == {};
  }

  /** Clearing a slot of the new table touches no tried and no free entry. */
  lemma EvictClears(p: Params, s: State, free: set<Id>, at: Slot)
    requires Books(p, s, free, {})
    ensures var t := ClearNew(s, at);
            && Books(p, t, free, {})
            && at !in t.newTable && NewSideOnly(s, t) && SameAddresses(s.info, t.info)
            && forall j :: j in s.info && (s.info[j].inTried || j in free) ==>
                 j in t.info && SameButPosition(s.info[j], t.info[j])
  {
    ClearNewKeeps(p, s, free, {}, at);
    ClearNewFacts(s, at);
  }

  /**
   Promoting a new entry fills its tried slot.  Whoever held the slot is then in new with
   exactly one reference; every other tried entry stays as it was.
   */
  lemma MakeTriedKeeps(p: Params, s: State, id: Id)
    requires p.Ok() && Consistent(p, s) && id in s.info && !s.info[id].inTried && 0 < s.info[id].lastSuccess
    ensures var t, slot := MakeTried(p, s, id), p.TriedSlot(s.key, s.info[id].service);
            && Consistent(p, t)
            && t.triedTable == s.triedTable[slot := id] && SameAddresses(s.info, t.info)
            && t.key == s.key && t.nextId == s.nextId && t.collisions == s.collisions
            && id in t.info && t.info[id].inTried && t.info[id].service == s.info[id].service
            && (slot in s.triedTable ==>
                  var held := s.triedTable[slot];
                  held in t.info && !t.info[held].inTried && t.info[held].refCount == 1)
            && forall j :: j in s.info && s.info[j].inTried && !(slot in s.triedTable && s.triedTable[slot] == j) ==>
                 j in t.info && SameButPosition(s.info[j], t.info[j])
  {
    hide Books, Evict, UnlinkAll;
    var slot := p.TriedSlot(s.key, s.info[id].service);
    var t1 := UnlinkAll(s, id);
    UnlinkAllKeeps(p, s, id);
    UnlinkAllFacts(s, id);
    var t2 := CountNew(t1, id, -1);
    assert {} + {id} == {id};
    FreeKeeps(p, t1, {}, {}, id);
    var t3 := Evict(p, t2, slot);
    EvictIfHeld(p, t2, id, slot);
    TryKeeps(p, t3, {id}, {}, id);
    assert {id} - {id} == {};
    assert MakeTried(p, s, id) == Try(t3, id, slot);
  }

  lemma UnlinkAllFacts(s: State, id: Id)
    requires id in s.info
    ensures var t := UnlinkAll(s, id);
            && t == s.(info := t.info, newTable := t.newTable)
            && t.info == s.info[id := s.info[id].(refCount := 0)]
  {
  }

  /** The middle of `MakeTried`: make room in tried while `id` is in no table. */
  lemma EvictIfHeld(p: Params, s: State, id: Id, slot: Slot)
    requires p.Ok() && Books(p, s, {id}, {}) && id in s.info && !s.info[id].inTried
    ensures var t := Evict(p, s, slot);
            && Books(p, t, {id}, {})
            && t.triedTable == s.triedTable - {slot} && SameAddresses(s.info, t.info)
            && t.key == s.key && t.nextId == s.nextId && t.collisions == s.collisions
            && id in t.info && SameButPosition(s.info[id], t.info[id])
            && (slot in s.triedTable ==>
                  var held := s.triedTable[slot];
                  held in t.info && !t.info[held].inTried && t.info[held].refCount == 1 && held != id)
            && forall j :: j in s.info && s.info[j].inTried && !(slot in s.triedTable && s.triedTable[slot] == j) ==>
                 j in t.info && SameButPosition(s.info[j], t.info[j])
  {
    if slot in s.triedTable {
      hide Books, Evict;
      TriedHolder(p, s, {id}, {}, slot);
      EvictKeeps(p, s, {id}, slot);
    } else {
      assert s.triedTable - {slot} == s.triedTable;
    }
  }

  // ---------------------------------------------------------------- steps that leave tried alone

  /** Tried keeps its entries and its table, and no entry changes sides or address. */
  ghost predicate NewSideStep(s: State, t: State) {
    && t.key == s.key && s.nextId <= t.nextId && t.collisions == s.collisions && t.triedTable == s.triedTable
    && (forall j :: j in t.info ==>
          if j in s.info then t.info[j].service == s.info[j].service && t.info[j].inTried == s.info[j].inTried
          else s.nextId <= j && !t.info[j].inTried)
    && (forall j :: j in s.info && s.info[j].inTried ==> j in t.info)
  }

  lemma NewSideCompose(s: State, t: State, u: State)
    requires NewSideStep(s, t) && NewSideStep(t, u)
    requires forall j :: j in s.info ==> j < s.nextId
    ensures NewSideStep(s, u)
  {
  }

  lemma StatsStep(s: State, id: Id, i: Info)
    requires id in s.info && SamePlace(s.info[id], i)
    ensures NewSideStep(s, WithInfo(s, id, i))
  {
  }

  lemma DeleteStep(s: State, id: Id)
    requires RandomOk(s.info, s.random) && id in s.info && !s.info[id].inTried
    ensures NewSideStep(s, Delete(s, id))
  {
    DeleteFacts(s, id);
    SwapFrame(s, s.info[id].randomPos, |s.random| - 1);
  }

  lemma LinkStep(s: State, id: Id, slot: Slot)
    requires id in s.info
    ensures NewSideStep(s, Link(s, id, slot))
  {
  }

  lemma ClearNewStep(p: Params, s: State, zero: set<Id>, slot: Slot)
    requires Books(p, s, {}, zero)
    ensures NewSideStep(s, ClearNew(s, slot))
  {
    if slot in s.newTable {
      var id := s.newTable[slot];
      var t := Unlink(s, slot);
      RandomStays(s.info, s.random, id, t.info[id]);
      assert NewSideStep(s, t);
      DeleteStep(t, id);
      NewSideCompose(s, t, Delete(t, id));
    }
  }

  /** Placing an entry restores full consistency, whether it was new with no reference yet or not. */
  lemma PlaceKeeps(p: Params, s: State, zero: set<Id>, id: Id, source: NetAddr, now: int)
    requires p.Ok() && Books(p, s, {}, zero) && zero <= {id}
    requires id in s.info && !s.info[id].inTried && s.info[id].refCount < NEW_BUCKETS_PER_ADDRESS
    ensures Consistent(p, Place(p, s, id, source, now).0)
    ensures NewSideStep(s, Place(p, s, id, source, now).0)
  {
    hide Books, Delete, ClearNew, Link, NewSideStep;
    var slot := p.SourceSlot(s.key, s.info[id].service, source);
    SourceSlotFits(p, s.key, s.info[id].service, source);
    ZeroGrows(p, s, {}, zero, {id});
    assert {id} - {id} == {} && {} + {id} == {id};
    if slot !in s.newTable {
      LinkKeeps(p, s, {}, {id}, id, slot);
      LinkStep(s, id, slot);
    } else if s.newTable[slot] == id {
      HolderRefs(p, s, {id}, slot);
      ZeroShrinks(p, s, {}, {}, id);
      SameStep(s);
    } else if Place(p, s, id, source, now).1 {
      ReplaceKeeps(p, s, id, slot);
    } else if s.info[id].refCount == 0 {
      DeleteKeeps(p, s, {}, {id}, id);
      BooksRandom(p, s, {}, {id});
      DeleteStep(s, id);
    } else {
      BooksRefs(p, s, {}, {id}, id);
      ZeroShrinks(p, s, {}, {}, id);
      SameStep(s);
    }
  }

  lemma SameStep(s: State)
    ensures NewSideStep(s, s)
  {
  }

  lemma BooksRandom(p: Params, s: State, free: set<Id>, zero: set<Id>)
    requires Books(p, s, free, zero)
    ensures RandomOk(s.info, s.random)
    ensures forall j :: j in s.info ==> 0 <= j < s.nextId
  {
  }

  lemma BooksRefs(p: Params, s: State, free: set<Id>, zero: set<Id>, id: Id)
    requires Books(p, s, free, zero) && id in s.info
    ensures s.info[id].refCount == |SlotsOf(s.newTable, id)|
  {
  }

  /** A slot's holder has at least this reference. */
  lemma HolderRefs(p: Params, s: State, zero: set<Id>, slot: Slot)
    requires Books(p, s, {}, zero) && slot in s.newTable
    ensures s.newTable[slot] in s.info && s.info[s.newTable[slot]].refCount > 0
  {
    assert slot in SlotsOf(s.newTable, s.newTable[slot]);
  }

  /** Taking over a slot of the new table from another entry. */
  lemma ReplaceKeeps(p: Params, s: State, id: Id, slot: Slot)
    requires Books(p, s, {}, {id}) && slot in s.newTable && s.newTable[slot] != id
    requires id in s.info && !s.info[id].inTried && s.info[id].refCount < NEW_BUCKETS_PER_ADDRESS
    requires 0 <= slot.bucket < p.newBuckets && slot == p.NewSlot(s.key, s.info[id].service, slot.bucket)
    ensures Consistent(p, Link(ClearNew(s, slot), id, slot))
    ensures NewSideStep(s, Link(ClearNew(s, slot), id, slot))
  {
    BooksRandom(p, s, {}, {id});
    HolderRefs(p, s, {id}, slot);
    hide Books, ClearNew, Link, NewSideStep, RandomOk;
    ClearNewKeeps(p, s, {}, {id}, slot);
    ClearNewFacts(s, slot);
    var t := ClearNew(s, slot);
    assert id in t.info && SameButPosition(s.info[id], t.info[id]);
    LinkKeeps(p, t, {}, {id}, id, slot);
    assert {id} - {id} == {};
    ClearNewStep(p, s, {id}, slot);
    LinkStep(t, id, slot);
    NewSideCompose(s, t, Link(t, id, slot));
  }

  lemma FindRight(p: Params, s: State, a: Service)
    requires Consistent(p, s)
    ensures Find(s, a).None? <==> a !in s.byAddr
    ensures Find(s, a).Some? ==> Find(s, a).value in s.info && s.info[Find(s, a).value].service == a
  {
    if a in s.byAddr {
      var id := s.byAddr[a];
      assert id in s.info;
    }
  }

  /** `r` names the one entry with address `a`, or there is none. */
  ghost predicate IsEntryOf(info: InfoMap, a: Service, r: Option<Id>) {
    forall id :: r == Some(id) <==> id in info && info[id].service == a
  }

  lemma FoundIsEntry(p: Params, s: State, a: Service)
    ensures Consistent(p, s) ==> IsEntryOf(s.info, a, Find(s, a))
  {
    if Consistent(p, s) {
      FindRight(p, s, a);
      assert forall id :: id in s.info ==> s.byAddr[s.info[id].service] == id;
    }
  }

  lemma BooksEntry(p: Params, s: State, id: Id)
    requires Consistent(p, s) && id in s.info
    ensures 0 <= s.info[id].lastTry && 0 <= s.info[id].lastSuccess && p.isValid(s.info[id].service)
    ensures s.info[id].inTried ==> 0 < s.info[id].lastSuccess && s.info[id].refCount == 0
    ensures !s.info[id].inTried ==> 1 <= s.info[id].refCount <= NEW_BUCKETS_PER_ADDRESS
    ensures 0 <= id < s.nextId
  {
  }

  /** `AddSingle` keeps full consistency and never touches tried. */
  lemma AddSingleKeeps(p: Params, s: State, a: Address, source: NetAddr, penalty: int,
                       now: int, later: int, lucky: bool)
    requires p.Ok() && Consistent(p, s) && 0 <= s.nextId
    ensures Consistent(p, AddSingle(p, s, a, source, penalty, now, later, lucky).0)
    ensures NewSideStep(s, AddSingle(p, s, a, source, penalty, now, later, lucky).0)
  {
    hide Books, Place, NewSideStep, Create, Refresh;
    FindRight(p, s, a.service);
    SameStep(s);
    var penalty' := if a.service.host == source then 0 else penalty;
    if p.isRoutable(a.service) {
      match Find(s, a.service)
      case Some(id) =>
        RefreshStats(s.info[id], a, penalty', now);
        HearAgain(p, s, id, Refresh(s.info[id], a, penalty', now), source, later);
      case None =>
        HearFirst(p, s, a, source, Max(0, a.time - penalty'), later);
    }
  }

  lemma RefreshStats(i: Info, a: Address, penalty: int, now: int)
    ensures SamePlace(i, Refresh(i, a, penalty, now))
    ensures Refresh(i, a, penalty, now).lastTry == i.lastTry && Refresh(i, a, penalty, now).lastSuccess == i.lastSuccess
  {
  }

  lemma HearAgain(p: Params, s: State, id: Id, i: Info, source: NetAddr, later: int)
    requires p.Ok() && Consistent(p, s) && id in s.info && SamePlace(s.info[id], i)
    requires i.lastTry == s.info[id].lastTry && i.lastSuccess == s.info[id].lastSuccess
    ensures var t := WithInfo(s, id, i);
            && Consistent(p, t) && NewSideStep(s, t)
            && (!i.inTried && i.refCount != NEW_BUCKETS_PER_ADDRESS ==>
                  Consistent(p, Place(p, t, id, source, later).0)
                  && NewSideStep(s, Place(p, t, id, source, later).0))
  {
    BooksRandom(p, s, {}, {});
    hide Books, Place, NewSideStep, RandomOk;
    BooksEntry(p, s, id);
    StatsKeep(p, s, {}, {}, id, i);
    StatsStep(s, id, i);
    var t := WithInfo(s, id, i);
    if !i.inTried && i.refCount != NEW_BUCKETS_PER_ADDRESS {
      PlaceKeeps(p, t, {}, id, source, later);
      NewSideCompose(s, t, Place(p, t, id, source, later).0);
    }
  }

  lemma HearFirst(p: Params, s: State, a: Address, source: NetAddr, time: int, later: int)
    requires p.Ok() && Consistent(p, s) && 0 <= s.nextId && a.service !in s.byAddr && p.isValid(a.service)
    ensures var t := Create(s, a, source, time);
            && s.nextId in t.info
            && Consistent(p, Place(p, t, s.nextId, source, later).0)
            && NewSideStep(s, Place(p, t, s.nextId, source, later).0)
  {
    BooksRandom(p, s, {}, {});
    var t := Create(s, a, source, time);
    CreateKeeps(p, s, {}, a, source, time);
    assert {} + {s.nextId} == {s.nextId};
    CreateStep(s, a, source, time);
    assert t.info[s.nextId].refCount == 0 && !t.info[s.nextId].inTried;
    hide Books, Place, NewSideStep, RandomOk, Create;
    PlaceKeeps(p, t, {s.nextId}, s.nextId, source, later);
    NewSideCompose(s, t, Place(p, t, s.nextId, source, later).0);
  }

  lemma CreateStep(s: State, a: Address, source: NetAddr, time: int)
    requires forall j :: j in s.info ==> 0 <= j < s.nextId
    ensures NewSideStep(s, Create(s, a, source, time))
  {
  }

  // ---------------------------------------------------------------- good connections and collisions

  /** Every pending collision that still exists is outside tried and collides with somebody. */
  ghost predicate CollisionsOk(p: Params, s: State) {
    && |s.collisions| <= SET_TRIED_COLLISION_SIZE
    && forall id :: id in s.collisions ==>
         && id < s.nextId
         && (id in s.info ==> !s.info[id].inTried && p.TriedSlot(s.key, s.info[id].service) in s.triedTable)
  }

  ghost predicate Sound(p: Params, s: State) {
    p.Ok() && Consistent(p, s) && CollisionsOk(p, s) && 0 <= s.nextId
  }

  lemma NewSideCollisions(p: Params, s: State, t: State)
    requires CollisionsOk(p, s) && NewSideStep(s, t)
    ensures CollisionsOk(p, t)
  {
  }

  /** No tried entry leaves, and no tried slot empties. */
  ghost predicate TriedKept(s: State, t: State) {
    && s.triedTable.Keys <= t.triedTable.Keys
    && forall j :: j in s.info && s.info[j].inTried ==> j in t.info && t.info[j].inTried
  }

  lemma NewSideKeepsTried(s: State, t: State)
    requires NewSideStep(s, t)
    ensures TriedKept(s, t)
  {
  }

  /** Collisions survive a promotion of `id`, once `id` itself is not pending. */
  lemma PromotionCollisions(p: Params, s: State, t: State, id: Id, slot: Slot, pending: set<Id>)
    requires CollisionsOk(p, s) && Consistent(p, s) && Consistent(p, t) && id !in pending
    requires pending <= s.collisions
    requires t.triedTable == s.triedTable[slot := id] && SameAddresses(s.info, t.info)
    requires t.key == s.key && t.nextId == s.nextId
    ensures CollisionsOk(p, t.(collisions := pending))
  {
    SubsetSize(pending, s.collisions);
    forall j | j in pending && j in t.info
      ensures !t.info[j].inTried && p.TriedSlot(t.key, t.info[j].service) in t.triedTable
    {
      assert j in s.info && t.info[j].service == s.info[j].service;
    }
  }

  /** The statistics that a good connection resets. */
  function Succeeded(s: State, id: Id, time: int): State
    requires id in s.info
  {
    WithInfo(s.(lastGood := time), id, s.info[id].(lastSuccess := time, lastTry := time, attempts := 0))
  }

  /** What is done with the entry of a good connection once its statistics are set. */
  function Settled(p: Params, s: State, id: Id, testFirst: bool): (State, bool)
    requires id in s.info
  {
    var i := s.info[id];
    if i.inTried || i.refCount <= 0 then (s, false)
    else if testFirst && p.TriedSlot(s.key, i.service) in s.triedTable then
      (if |s.collisions| < SET_TRIED_COLLISION_SIZE then s.(collisions := s.collisions + {id}) else s, false)
    else (MakeTried(p, s, id), true)
  }

  lemma GoodIs(p: Params, s: State, a: Service, testFirst: bool, time: int)
    ensures match Find(s, a)
            case None => Good(p, s, a, testFirst, time) == (s.(lastGood := time), false)
            case Some(id) => id in s.info && Good(p, s, a, testFirst, time) == Settled(p, Succeeded(s, id, time), id, testFirst)
  {
    hide MakeTried;
  }

  lemma SucceededKeeps(p: Params, s: State, id: Id, time: int)
    requires Sound(p, s) && id in s.info && 0 < time
    ensures Sound(p, Succeeded(s, id, time)) && NewSideStep(s, Succeeded(s, id, time))
  {
    var s0 := s.(lastGood := time);
    assert Books(p, s0, {}, {});
    var i := s.info[id].(lastSuccess := time, lastTry := time, attempts := 0);
    StatsKeep(p, s0, {}, {}, id, i);
    assert NewSideStep(s, Succeeded(s, id, time));
    NewSideCollisions(p, s, Succeeded(s, id, time));
  }

  /** A public `Good` keeps everything sound and never removes an entry from tried. */
  lemma GoodKeeps(p: Params, s: State, a: Service, time: int)
    requires Sound(p, s) && 0 < time
    ensures Sound(p, Good(p, s, a, true, time).0)
    ensures TriedKept(s, Good(p, s, a, true, time).0)
  {
    hide Books, MakeTried;
    FindRight(p, s, a);
    assert Find(s.(lastGood := time), a) == Find(s, a);
    match Find(s, a)
    case None => LastGoodKeeps(p, s, time);
    case Some(id) =>
      var t := Succeeded(s, id, time);
      SucceededKeeps(p, s, id, time);
      NewSideKeepsTried(s, t);
      var slot := p.TriedSlot(s.key, a);
      if !t.info[id].inTried && t.info[id].refCount > 0 {
        if slot in t.triedTable {
          if |t.collisions| < SET_TRIED_COLLISION_SIZE {
            NoteCollision(p, t, id);
          }
        } else {
          PromoteIntoEmpty(p, t, id);
        }
      }
  }

  lemma LastGoodKeeps(p: Params, s: State, time: int)
    requires Sound(p, s)
    ensures Sound(p, s.(lastGood := time))
  {
  }

  lemma NoteCollision(p: Params, s: State, id: Id)
    requires Sound(p, s) && id in s.info && !s.info[id].inTried && |s.collisions| < SET_TRIED_COLLISION_SIZE
    requires p.TriedSlot(s.key, s.info[id].service) in s.triedTable
    ensures Sound(p, s.(collisions := s.collisions + {id}))
  {
    BooksEntry(p, s, id);
  }

  lemma PromoteIntoEmpty(p: Params, s: State, id: Id)
    requires Sound(p, s) && id in s.info && !s.info[id].inTried && 0 < s.info[id].lastSuccess
    requires p.TriedSlot(s.key, s.info[id].service) !in s.triedTable
    ensures Sound(p, MakeTried(p, s, id)) && TriedKept(s, MakeTried(p, s, id))
  {
    hide Books, MakeTried;
    MakeTriedKeeps(p, s, id);
    var t := MakeTried(p, s, id);
    PromotionCollisions(p, s, t, id, p.TriedSlot(s.key, s.info[id].service), s.collisions);
    assert t.(collisions := s.collisions) == t;
  }

  /** What leaving tried takes: an old success, and a place in new with one reference. */
  ghost predicate ProperlyEvicted(s: State, t: State, j: Id, now: int)
    requires j in s.info
  {
    && now - s.info[j].lastSuccess >= REPLACEMENT
    && j in t.info && !t.info[j].inTried && t.info[j].refCount == 1
  }

  /** One turn of `ResolveCollisions_` keeps everything sound and evicts only properly. */
  lemma ResolveOneKeeps(p: Params, s: State, id: Id, now: int)
    requires Sound(p, s) && id in s.collisions && 0 < now
    ensures Sound(p, ResolveOne(p, s, id, now))
    ensures s.triedTable.Keys <= ResolveOne(p, s, id, now).triedTable.Keys
    ensures forall j :: j in s.info && s.info[j].inTried ==>
              || (j in ResolveOne(p, s, id, now).info && ResolveOne(p, s, id, now).info[j].inTried)
              || ProperlyEvicted(s, ResolveOne(p, s, id, now), j, now)
  {
    hide Books, MakeTried, Consistent;
    match Judge(p, s, id, now)
    case Keep =>
    case Drop => ForgetCollision(p, s, id);
    case Promote => PromoteCollision(p, s, id, now);
  }

  lemma ForgetCollision(p: Params, s: State, id: Id)
    requires Sound(p, s)
    ensures Sound(p, s.(collisions := s.collisions - {id}))
  {
    SubsetSize(s.collisions - {id}, s.collisions);
  }

  /** The pending entry is not in tried, and its slot is held: `Good_` therefore evicts the holder. */
  lemma PromoteCollision(p: Params, s: State, id: Id, now: int)
    requires Sound(p, s) && id in s.collisions && 0 < now && Judge(p, s, id, now).Promote?
    ensures Sound(p, ResolveOne(p, s, id, now))
    ensures s.triedTable.Keys <= ResolveOne(p, s, id, now).triedTable.Keys
    ensures forall j :: j in s.info && s.info[j].inTried ==>
              || (j in ResolveOne(p, s, id, now).info && ResolveOne(p, s, id, now).info[j].inTried)
              || ProperlyEvicted(s, ResolveOne(p, s, id, now), j, now)
  {
    hide Books, MakeTried;
    assert id in s.info;
    var slot := p.TriedSlot(s.key, s.info[id].service);
    TriedHolder(p, s, {}, {}, slot);
    var t := Succeeded(s, id, now);
    SucceededKeeps(p, s, id, now);
    BooksEntry(p, t, id);
    FindSelf(p, s, id);
    assert Good(p, s, s.info[id].service, false, now).0 == MakeTried(p, t, id);
    MakeTriedKeeps(p, t, id);
    var u := MakeTried(p, t, id);
    PromotionCollisions(p, t, u, id, slot, t.collisions - {id});
    assert ResolveOne(p, s, id, now) == u.(collisions := t.collisions - {id});
    assert Consistent(p, u.(collisions := t.collisions - {id})) by {
      CollisionsFree(p, u, t.collisions - {id});
    }
  }

  lemma CollisionsFree(p: Params, s: State, c: set<Id>)
    requires Consistent(p, s)
    ensures Consistent(p, s.(collisions := c))
  {
  }

  lemma FindSelf(p: Params, s: State, id: Id)
    requires Consistent(p, s) && id in s.info
    ensures Find(s, s.info[id].service) == Some(id)
  {
  }

  /** A pending collision still known to the manager always has a tried entry to test. */
  lemma SelectFinds(p: Params, s: State, id: Id)
    requires Sound(p, s) && id in s.collisions
    ensures Sound(p, SelectTriedCollision(p, s, id).0)
    ensures NewSideStep(s, SelectTriedCollision(p, s, id).0.(collisions := s.collisions))
    ensures id in s.info ==>
              && SelectTriedCollision(p, s, id).1.Some?
              && SelectTriedCollision(p, s, id).1.value.inTried
  {
    ForgetCollision(p, s, id);
    if id in s.info {
      TriedHolder(p, s, {}, {}, p.TriedSlot(s.key, s.info[id].service));
    }
  }
}
