/** What the two operations that move addresses around achieve, read off the state before and after. */
module AddrManOutcomes {
  import opened Wrappers
  import opened AddrManState
  import opened AddrManBooks
  import opened AddrManSteps

  /** `id` holds the slot of the new table. */
  predicate Holds(s: State, slot: Slot, id: Id) {
    slot in s.newTable && s.newTable[slot] == id
  }

  /** The entry that holds the slot of the new table. */
  function HolderOf(s: State, slot: Slot): Option<Info> {
    if slot in s.newTable && s.newTable[slot] in s.info then Some(s.info[s.newTable[slot]]) else None
  }

  /** Everything but the place of an entry in the indexes. */
  predicate SameStats(i: Info, j: Info) {
    i == j.(refCount := i.refCount, inTried := i.inTried, randomPos := i.randomPos)
  }

  /** No entry but `id` is new, and none has other statistics than before. */
  ghost predicate StatsKept(s: State, t: State, id: Id) {
    forall j :: j in t.info && j != id ==> j in s.info && SameStats(s.info[j], t.info[j])
  }

  /** Bad enough to be deleted: with the limits of 1 and 10 minutes, 30 and 7 days, 3 and 10 attempts in seconds. */
  lemma TerribleIff(i: Info, now: int)
    ensures !i.IsTerrible(now) <==>
            || now - i.lastTry <= 60
            || (&& now - 2592000 <= i.time <= now + 600
                && (i.lastSuccess != 0 || i.attempts < 3)
                && (now - i.lastSuccess <= 604800 || i.attempts < 10))
  {
  }

  // ---------------------------------------------------------------- adding

  lemma ClearNewStats(s: State, slot: Slot)
    requires RandomOk(s.info, s.random) && (slot in s.newTable ==> s.newTable[slot] in s.info)
    ensures forall j :: j in ClearNew(s, slot).info ==> j in s.info && SameStats(s.info[j], ClearNew(s, slot).info[j])
  {
    if slot in s.newTable {
      var id := s.newTable[slot];
      var t := Unlink(s, slot);
      RandomStays(s.info, s.random, id, t.info[id]);
      DeleteFacts(t, id);
    }
  }

  /** A slot is given up if its holder is terrible, or has references to spare and the newcomer none. */
  predicate GivesWay(s: State, slot: Slot, now: int, first: bool) {
    match HolderOf(s, slot)
    case None => true
    case Some(h) => h.IsTerrible(now) || (first && h.refCount > 1)
  }

  /** Placing succeeds exactly when the slot is free or given up; no other slot changes. */
  lemma PlaceOutcome(p: Params, s: State, zero: set<Id>, id: Id, source: NetAddr, now: int)
    requires p.Ok() && Books(p, s, {}, zero) && id in s.info
    ensures var (t, inserted) := Place(p, s, id, source, now);
            var slot := p.SourceSlot(s.key, s.info[id].service, source);
            && (inserted <==> !Holds(s, slot, id) && GivesWay(s, slot, now, s.info[id].refCount == 0))
            && t.newTable == (if inserted then s.newTable[slot := id] else s.newTable)
            && (id in t.info <==> inserted || Holds(s, slot, id) || s.info[id].refCount != 0)
            && (id in t.info ==> SameStats(s.info[id], t.info[id]) && t.info[id].inTried == s.info[id].inTried)
            && StatsKept(s, t, id)
            && (!inserted ==> s.info.Keys - {id} <= t.info.Keys)
  {
    hide Books, ClearNew, Delete, Info.IsTerrible;
    var slot := p.SourceSlot(s.key, s.info[id].service, source);
    BooksRandom(p, s, {}, zero);
    if slot in s.newTable {
      HolderRefs(p, s, zero, slot);
      ClearNewFacts(s, slot);
      ClearNewStats(s, slot);
      DeleteFacts(s, id);
    }
  }

  /** What a first mention of an address does: `t` is the state after, `penalty` what is taken off its time. */
  ghost predicate Introduces(p: Params, s: State, a: Address, source: NetAddr, penalty: int, later: int,
                             t: State, inserted: bool) {
    var slot, id := p.SourceSlot(s.key, a.service, source), s.nextId;
    && (inserted <==> GivesWay(s, slot, later, true))
    && t.newTable == (if inserted then s.newTable[slot := id] else s.newTable)
    && (id in t.info <==> inserted)
    && (inserted ==> SameStats(Info(a.service, a.services, Max(0, a.time - penalty), source, 0, 0, 0, 0, 1, false, 0),
                               t.info[id]))
    && StatsKept(s, t, id)
  }

  /** The entry is older than what is now said of it by more than an hour, or a day if it was not seen lately. */
  predicate Outdated(i: Info, a: Address, penalty: int, now: int) {
    i.time < a.time - penalty - (if now - a.time < 24 * HOUR then HOUR else 24 * HOUR)
  }

  /** What another mention of the address of `id` does. */
  ghost predicate Repeats(p: Params, s: State, id: Id, a: Address, source: NetAddr, penalty: int, now: int, later: int,
                          lucky: bool, t: State, inserted: bool)
    requires id in s.info
  {
    var slot, i := p.SourceSlot(s.key, a.service, source), s.info[id];
    var time := if Outdated(i, a, penalty, now) then Max(0, a.time - penalty) else i.time;
    && (inserted <==> && time < a.time && !i.inTried && i.refCount < 8 && lucky
                      && !Holds(s, slot, id) && GivesWay(s, slot, later, false))
    && t.newTable == (if inserted then s.newTable[slot := id] else s.newTable)
    && id in t.info && SameStats(i.(time := time, services := i.services + a.services), t.info[id])
    && t.info[id].inTried == i.inTried
    && StatsKept(s, t, id)
  }

  /**
   Exactly when `AddSingle` adds, and what becomes of the entry.  Tables and consistency determine
   which entries are left, and their reference counts.
   */
  lemma AddSingleOutcome(p: Params, s: State, a: Address, source: NetAddr, penalty: int, now: int, later: int, lucky: bool)
    requires Sound(p, s)
    ensures var (t, inserted) := AddSingle(p, s, a, source, penalty, now, later, lucky);
            var less := if a.service.host == source then 0 else penalty;
            if !p.isRoutable(a.service) then t == s && !inserted
            else match Find(s, a.service)
                 case None => Introduces(p, s, a, source, less, later, t, inserted)
                 case Some(id) => id in s.info && Repeats(p, s, id, a, source, less, now, later, lucky, t, inserted)
  {
    hide Books, Place, Create, CollisionsOk, Refresh, Introduces, Repeats;
    if p.isRoutable(a.service) {
      FindRight(p, s, a.service);
      var less := if a.service.host == source then 0 else penalty;
      match Find(s, a.service)
      case Some(id) => Heard(p, s, id, a, source, less, now, later, lucky);
      case None => First(p, s, a, source, less, later);
    }
  }

  /** The address is known: its entry is refreshed, and perhaps placed. */
  lemma Heard(p: Params, s: State, id: Id, a: Address, source: NetAddr, penalty: int, now: int, later: int, lucky: bool)
    requires Sound(p, s) && id in s.info && s.info[id].service == a.service
    ensures var i := Refresh(s.info[id], a, penalty, now);
            var t := WithInfo(s, id, i);
            var (u, inserted) :=
              if a.time <= i.time || i.inTried || i.refCount == NEW_BUCKETS_PER_ADDRESS || (i.refCount > 0 && !lucky)
              then (t, false) else Place(p, t, id, source, later);
            Repeats(p, s, id, a, source, penalty, now, later, lucky, u, inserted)
  {
    hide Books, Place, CollisionsOk, Info.IsTerrible;
    BooksEntry(p, s, id);
    var i := Refresh(s.info[id], a, penalty, now);
    var t := WithInfo(s, id, i);
    StatsKeep(p, s, {}, {}, id, i);
    PlaceOutcome(p, t, {}, id, source, later);
    SameWay(p, s, t, id, p.SourceSlot(s.key, a.service, source), later);
  }

  /** Refreshing an entry that does not hold the slot does not change who gives way. */
  lemma SameWay(p: Params, s: State, t: State, id: Id, slot: Slot, now: int)
    requires Consistent(p, s) && id in s.info && id in t.info && t == WithInfo(s, id, t.info[id])
    ensures !Holds(s, slot, id) ==> GivesWay(t, slot, now, false) == GivesWay(s, slot, now, false)
  {
    hide Books, Info.IsTerrible;
    if slot in s.newTable {
      HolderRefs(p, s, {}, slot);
    }
  }

  /** The address is not known: an entry is created, and removed again if it finds no place. */
  lemma First(p: Params, s: State, a: Address, source: NetAddr, penalty: int, later: int)
    requires Sound(p, s) && a.service !in s.byAddr && p.isValid(a.service)
    ensures var t := Create(s, a, source, Max(0, a.time - penalty));
            s.nextId in t.info &&
            var (u, inserted) := Place(p, t, s.nextId, source, later);
            Introduces(p, s, a, source, penalty, later, u, inserted)
  {
    hide Books, Place, CollisionsOk, Info.IsTerrible;
    var time := Max(0, a.time - penalty);
    CreateKeeps(p, s, {}, a, source, time);
    var t, id := Create(s, a, source, time), s.nextId;
    assert {} + {id} == {id};
    PlaceOutcome(p, t, {id}, id, source, later);
    NextIdUnused(p, s);
    var slot := p.SourceSlot(s.key, a.service, source);
    if slot in s.newTable {
      HolderRefs(p, s, {}, slot);
    }
  }

  lemma NextIdUnused(p: Params, s: State)
    requires Consistent(p, s)
    ensures s.nextId !in s.info && forall slot :: slot in s.newTable ==> s.newTable[slot] != s.nextId
  {
    hide Books;
    if s.nextId in s.info {
      BooksEntry(p, s, s.nextId);
    }
    forall slot | slot in s.newTable ensures s.newTable[slot] != s.nextId {
      HolderRefs(p, s, {}, slot);
    }
  }

  // ---------------------------------------------------------------- promotion

  /** The table without the slots of `id`. */
  function Without(table: Table, id: Id): Table {
    map slot | slot in table && table[slot] != id :: table[slot]
  }

  /** An evicted entry takes the slot that its own source gives it. */
  lemma EvictOutcome(p: Params, s: State, free: set<Id>, slot: Slot)
    requires p.Ok() && Books(p, s, free, {}) && slot in s.triedTable && s.triedTable[slot] !in free
    ensures var t, id := Evict(p, s, slot), s.triedTable[slot];
            && id in s.info
            && t.newTable == s.newTable[p.SourceSlot(s.key, s.info[id].service, s.info[id].source) := id]
            && forall j :: j in t.info ==> j in s.info && SameStats(s.info[j], t.info[j])
  {
    hide Books, ClearNew;
    var id := s.triedTable[slot];
    TriedHolder(p, s, free, {}, slot);
    var at := p.SourceSlot(s.key, s.info[id].service, s.info[id].source);
    var t1 := Untry(s, slot);
    UntryKeeps(p, s, free, slot);
    EvictClears(p, t1, free + {id}, at);
    HolderExists(p, t1, free + {id}, at);
    ClearNewFacts(t1, at);
    ClearNewStats(t1, at);
  }

  lemma HolderExists(p: Params, s: State, free: set<Id>, slot: Slot)
    requires Books(p, s, free, {})
    ensures RandomOk(s.info, s.random) && (slot in s.newTable ==> s.newTable[slot] in s.info)
  {
  }

  /** Promotion takes all slots from the entry, and gives the one it displaces the slot of its own source. */
  lemma MakeTriedOutcome(p: Params, s: State, id: Id)
    requires p.Ok() && Consistent(p, s) && id in s.info && !s.info[id].inTried && 0 < s.info[id].lastSuccess
    ensures var t, slot := MakeTried(p, s, id), p.TriedSlot(s.key, s.info[id].service);
            && Consistent(p, t) && t.triedTable == s.triedTable[slot := id]
            && t.lastGood == s.lastGood && t.collisions == s.collisions
            && (slot !in s.triedTable ==> t.newTable == Without(s.newTable, id))
            && (slot in s.triedTable ==>
                  var held := s.triedTable[slot];
                  && held in s.info && held in t.info && t.info[held].refCount == 1
                  && t.newTable == Without(s.newTable, id)[
                       p.SourceSlot(s.key, s.info[held].service, s.info[held].source) := held])
            && forall j :: j in t.info ==> j in s.info && SameStats(s.info[j], t.info[j])
  {
    hide Books, Evict, UnlinkAll;
    var slot := p.TriedSlot(s.key, s.info[id].service);
    MakeTriedKeeps(p, s, id);
    var t1 := UnlinkAll(s, id);
    UnlinkAllKeeps(p, s, id);
    UnlinkAllFacts(s, id);
    Unlinked(s, id);
    var t2 := CountNew(t1, id, -1);
    assert {} + {id} == {id};
    FreeKeeps(p, t1, {}, {}, id);
    EvictIfHeld(p, t2, id, slot);
    if slot in s.triedTable {
      TriedHolder(p, t2, {id}, {}, slot);
      EvictOutcome(p, t2, {id}, slot);
      LastGoodStays(p, t2, slot);
    } else {
      NothingEvicted(p, t2, slot);
    }
    assert MakeTried(p, s, id) == Try(Evict(p, t2, slot), id, slot);
  }

  lemma Unlinked(s: State, id: Id)
    requires id in s.info
    ensures UnlinkAll(s, id).newTable == Without(s.newTable, id)
  {
  }

  lemma NothingEvicted(p: Params, s: State, slot: Slot)
    requires slot !in s.triedTable
    ensures Evict(p, s, slot) == s
  {
  }

  lemma LastGoodStays(p: Params, s: State, slot: Slot)
    ensures Evict(p, s, slot).lastGood == s.lastGood
  {
  }

  // ---------------------------------------------------------------- good connections

  /**
   A public `Good` moves an address exactly when it is known, not yet in tried and its tried slot is
   free.  When the slot is taken the address waits among the collisions, if there is room.  The entry
   has a success and a try now, and no failed attempts; its time is left alone.
   */
  lemma GoodOutcome(p: Params, s: State, a: Service, time: int)
    requires Sound(p, s) && 0 < time
    ensures var (t, moved) := Good(p, s, a, true, time);
            match Find(s, a)
            case None => !moved && t == s.(lastGood := time)
            case Some(id) =>
              var slot := p.TriedSlot(s.key, a);
              && id in s.info && id in t.info && t.lastGood == time
              && SameStats(s.info[id].(lastSuccess := time, lastTry := time, attempts := 0), t.info[id])
              && StatsKept(s, t, id)
              && (moved <==> !s.info[id].inTried && slot !in s.triedTable)
              && (moved ==> t.info[id].inTried && t.triedTable == s.triedTable[slot := id]
                            && t.newTable == Without(s.newTable, id) && t.collisions == s.collisions)
              && (!moved ==> t.triedTable == s.triedTable && t.newTable == s.newTable && t.info.Keys == s.info.Keys
                             && t.collisions == if !s.info[id].inTried && |s.collisions| < 10
                                                then s.collisions + {id} else s.collisions)
  {
    hide Books, MakeTried, CollisionsOk;
    FindRight(p, s, a);
    if a in s.byAddr {
      var id := s.byAddr[a];
      BooksEntry(p, s, id);
      var t := Succeeded(s, id, time);
      assert t.info.Keys == s.info.Keys;
      if !s.info[id].inTried && p.TriedSlot(s.key, a) !in s.triedTable {
        SucceededKeeps(p, s, id, time);
        MakeTriedKeeps(p, t, id);
        MakeTriedOutcome(p, t, id);
      }
    }
  }

  // ---------------------------------------------------------------- collisions

  /** The tried entry `h` has had no success for four hours, and has failed its test or could not be tested. */
  predicate Due(h: Info, i: Info, now: int) {
    && now - h.lastSuccess >= 4 * HOUR
    && (if now - h.lastTry < 4 * HOUR then now - h.lastTry > 60 else now - i.lastSuccess > 40 * MINUTE)
  }

  /**
   One turn of `ResolveCollisions_`, by the statistics of the pending entry and of the tried entry in
   its way.  The pending one replaces the other exactly when that is due, and it keeps waiting exactly
   when the other has been without success for long enough but is not due; else it is forgotten.
   */
  lemma ResolveOutcome(p: Params, s: State, id: Id, now: int)
    requires Sound(p, s) && id in s.collisions && 0 < now
    ensures var t := ResolveOne(p, s, id, now);
            if id !in s.info then t == s.(collisions := s.collisions - {id})
            else
              var i, slot := s.info[id], p.TriedSlot(s.key, s.info[id].service);
              && slot in s.triedTable && s.triedTable[slot] in s.info
              && var held := s.triedTable[slot];
                 var h := s.info[held];
                 if Due(h, i, now) then
                   && t.triedTable == s.triedTable[slot := id] && t.collisions == s.collisions - {id}
                   && id in t.info && t.info[id].inTried
                   && SameStats(i.(lastSuccess := now, lastTry := now, attempts := 0), t.info[id])
                   && held in t.info && !t.info[held].inTried && t.info[held].refCount == 1
                   && t.newTable == Without(s.newTable, id)[p.SourceSlot(s.key, h.service, h.source) := held]
                   && StatsKept(s, t, id)
                 else if now - h.lastSuccess >= 4 * HOUR then t == s
                 else t == s.(collisions := s.collisions - {id})
  {
    hide Books, MakeTried;
    if id in s.info {
      var slot := p.TriedSlot(s.key, s.info[id].service);
      TriedHolder(p, s, {}, {}, slot);
      BooksEntry(p, s, id);
      hide CollisionsOk;
      if Due(s.info[s.triedTable[slot]], s.info[id], now) {
        Replaces(p, s, id, slot, now);
      }
    }
  }

  lemma Replaces(p: Params, s: State, id: Id, slot: Slot, now: int)
    requires Sound(p, s) && id in s.collisions && 0 < now && Judge(p, s, id, now).Promote?
    requires id in s.info && slot == p.TriedSlot(s.key, s.info[id].service) && slot in s.triedTable
    ensures s.triedTable[slot] in s.info
    ensures var t, held := ResolveOne(p, s, id, now), s.triedTable[slot];
            && t.triedTable == s.triedTable[slot := id] && t.collisions == s.collisions - {id}
            && id in t.info && t.info[id].inTried
            && SameStats(s.info[id].(lastSuccess := now, lastTry := now, attempts := 0), t.info[id])
            && held in t.info && !t.info[held].inTried && t.info[held].refCount == 1
            && t.newTable == Without(s.newTable, id)[
                 p.SourceSlot(s.key, s.info[held].service, s.info[held].source) := held]
            && StatsKept(s, t, id)
  {
    hide Books, MakeTried, CollisionsOk, Judge, ResolveOne, Sound;
    PendingFacts(p, s, id, slot);
    var u := Succeeded(s, id, now);
    SucceededKeeps(p, s, id, now);
    SoundConsistent(p, u);
    ResolvedIs(p, s, id, now);
    MakeTriedKeeps(p, u, id);
    MakeTriedOutcome(p, u, id);
    StatsCompose(s, u, MakeTried(p, u, id), id);
  }

  lemma SoundConsistent(p: Params, s: State)
    requires Sound(p, s)
    ensures p.Ok() && Consistent(p, s)
  {
  }

  lemma PendingFacts(p: Params, s: State, id: Id, slot: Slot)
    requires Sound(p, s) && id in s.collisions && id in s.info
    requires slot == p.TriedSlot(s.key, s.info[id].service) && slot in s.triedTable
    ensures !s.info[id].inTried && s.triedTable[slot] in s.info && s.info[s.triedTable[slot]].inTried
  {
    hide Books;
    TriedHolder(p, s, {}, {}, slot);
  }

  lemma ResolvedIs(p: Params, s: State, id: Id, now: int)
    requires Sound(p, s) && id in s.collisions && id in s.info && Judge(p, s, id, now).Promote? && 0 < now
    ensures var u := MakeTried(p, Succeeded(s, id, now), id);
            ResolveOne(p, s, id, now) == u.(collisions := u.collisions - {id})
  {
    hide Books, MakeTried, Judge;
    FindSelf(p, s, id);
    BooksEntry(p, s, id);
  }

  lemma StatsCompose(s: State, u: State, t: State, id: Id)
    requires id in s.info && id in u.info && u.info == s.info[id := u.info[id]]
    requires forall j :: j in t.info ==> j in u.info && SameStats(u.info[j], t.info[j])
    ensures StatsKept(s, t, id)
  {
  }

  /** A pending collision that still exists is tested against the tried entry whose slot it would take. */
  lemma SelectOutcome(p: Params, s: State, id: Id)
    requires Sound(p, s) && id in s.collisions
    ensures var (t, r) := SelectTriedCollision(p, s, id);
            if id !in s.info then t == s.(collisions := s.collisions - {id}) && r == None
            else
              && t == s && r.Some? && Find(s, r.value.service).Some?
              && var held := Find(s, r.value.service).value;
                 && held in s.info && s.info[held] == r.value && r.value.inTried
                 && p.TriedSlot(s.key, r.value.service) == p.TriedSlot(s.key, s.info[id].service)
  {
    hide Books;
    if id in s.info {
      var slot := p.TriedSlot(s.key, s.info[id].service);
      TriedHolder(p, s, {}, {}, slot);
      FindSelf(p, s, s.triedTable[slot]);
    }
  }

  // ---------------------------------------------------------------- statistics

  /** Nothing but the entry of `id` differs. */
  ghost predicate OnlyEntry(s: State, t: State, id: Id) {
    id in s.info && id in t.info && t == s.(info := s.info[id := t.info[id]])
  }

  /** An attempt sets the last try; it counts as a failure at most once since the last good connection of any peer. */
  lemma AttemptOutcome(p: Params, s: State, a: Service, countFailure: bool, time: int)
    requires Sound(p, s)
    ensures var t := Attempt(s, a, countFailure, time);
            match Find(s, a)
            case None => t == s
            case Some(id) =>
              && OnlyEntry(s, t, id)
              && var i, j := s.info[id], t.info[id];
                 var counted := countFailure && i.lastCountAttempt < s.lastGood;
                 && j.lastTry == time
                 && j.attempts == i.attempts + (if counted then 1 else 0)
                 && j.lastCountAttempt == (if counted then time else i.lastCountAttempt)
                 && i == j.(lastTry := i.lastTry, attempts := i.attempts, lastCountAttempt := i.lastCountAttempt)
  {
    hide Books;
    FindRight(p, s, a);
  }

  /** Two attempts without a good connection in between count as one failure at most. */
  lemma CountedOnce(p: Params, s: State, a: Service, t1: int, t2: int)
    requires Sound(p, s) && Find(s, a).Some? && s.lastGood <= t1 && 0 < t1
    ensures var t := Attempt(Attempt(s, a, true, t1), a, true, t2);
            var id := Find(s, a).value;
            id in s.info && id in t.info && s.info[id].attempts <= t.info[id].attempts <= s.info[id].attempts + 1
  {
    hide Books;
    FindRight(p, s, a);
  }

  /** A connection moves the time of the entry if it is more than twenty minutes behind. */
  lemma ConnectedOutcome(p: Params, s: State, a: Service, time: int)
    requires Sound(p, s)
    ensures var t := Connected(s, a, time);
            match Find(s, a)
            case None => t == s
            case Some(id) =>
              && OnlyEntry(s, t, id)
              && t.info[id] == s.info[id].(time := if time - s.info[id].time > 1200 then time else s.info[id].time)
  {
    hide Books;
    FindRight(p, s, a);
    if a in s.byAddr {
      assert s == s.(info := s.info[s.byAddr[a] := s.info[s.byAddr[a]]]);
    }
  }

  lemma SetServicesOutcome(p: Params, s: State, a: Service, services: set<nat>)
    requires Sound(p, s)
    ensures var t := SetServices(s, a, services);
            match Find(s, a)
            case None => t == s
            case Some(id) => OnlyEntry(s, t, id) && t.info[id] == s.info[id].(services := services)
  {
    hide Books;
    FindRight(p, s, a);
  }
}
