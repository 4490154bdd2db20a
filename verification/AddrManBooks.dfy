/**
 The consistency of the address manager's indexes, and that every building block keeps it.

 Some operations pass through states in which an entry is in no table.  `Books` therefore
 takes two sets of exceptions: `free` holds entries that are in neither table and counted
 in neither, `zero` holds entries that count as new but may have no reference yet.
 */
module AddrManBooks {
  import opened Wrappers
  import opened AddrManState

  // ---------------------------------------------------------------- the invariant, index by index

  /** `random` is a permutation of the ids, matched by `randomPos`. */
  ghost predicate RandomOk(info: InfoMap, random: seq<Id>) {
    && (forall id :: id in info ==> 0 <= info[id].randomPos < |random| && random[info[id].randomPos] == id)
    && (forall i :: 0 <= i < |random| ==> random[i] in info && info[random[i]].randomPos == i)
  }

  /** `byAddr` inverts `info`; ids are never reused. */
  ghost predicate AddrOk(info: InfoMap, byAddr: map<Service, Id>, nextId: Id) {
    && (forall id :: id in info ==> 0 <= id < nextId && info[id].service in byAddr && byAddr[info[id].service] == id)
    && (forall a :: a in byAddr ==> byAddr[a] in info && info[byAddr[a]].service == a)
  }

  /** Every reference of the new table sits at its entry's own position of that bucket. */
  ghost predicate NewOk(p: Params, key: Key, info: InfoMap, table: Table, free: set<Id>) {
    forall slot :: slot in table ==>
      && table[slot] in info && !info[table[slot]].inTried && table[slot] !in free
      && 0 <= slot.bucket < p.newBuckets
      && slot == p.NewSlot(key, info[table[slot]].service, slot.bucket)
  }

  ghost function SlotsOf(table: Table, id: Id): set<Slot> {
    set slot | slot in table && table[slot] == id
  }

  /** Reference counts are exact. */
  ghost predicate RefsOk(info: InfoMap, table: Table) {
    forall id :: id in info ==> info[id].refCount == |SlotsOf(table, id)|
  }

  ghost predicate BoundsOk(info: InfoMap, free: set<Id>, zero: set<Id>) {
    forall id :: id in info ==>
      && (info[id].inTried || id in free ==> info[id].refCount == 0)
      && (!info[id].inTried && id !in free ==> id in zero || 1 <= info[id].refCount)
      && info[id].refCount <= NEW_BUCKETS_PER_ADDRESS
  }

  /** Tried entries and occupied tried slots correspond one to one. */
  ghost predicate TriedOk(p: Params, key: Key, info: InfoMap, table: Table) {
    && (forall id :: id in info && info[id].inTried ==>
          && p.TriedSlot(key, info[id].service) in table
          && table[p.TriedSlot(key, info[id].service)] == id
          && 0 < info[id].lastSuccess)
    && (forall slot :: slot in table ==>
          && table[slot] in info && info[table[slot]].inTried
          && slot == p.TriedSlot(key, info[table[slot]].service))
  }

  predicate InNetwork(i: Info, n: Option<Network>) {
    n.None? || i.Net() == n.value
  }

  ghost function NewIds(info: InfoMap, free: set<Id>, n: Option<Network>): set<Id> {
    set id | id in info && !info[id].inTried && id !in free && InNetwork(info[id], n)
  }

  ghost function TriedIds(info: InfoMap, n: Option<Network>): set<Id> {
    set id | id in info && info[id].inTried && InNetwork(info[id], n)
  }

  ghost predicate NetworkCountOk(info: InfoMap, free: set<Id>, counts: map<Network, Counts>, n: Network) {
    CountOf(counts, n) == Counts(|NewIds(info, free, Some(n))|, |TriedIds(info, Some(n))|)
  }

  /** The totals and the totals per network are exact. */
  ghost predicate CountsOk(info: InfoMap, free: set<Id>, nNew: int, nTried: int, counts: map<Network, Counts>) {
    && nNew == |NewIds(info, free, None)|
    && nTried == |TriedIds(info, None)|
    && forall n :: NetworkCountOk(info, free, counts, n)
  }

  ghost predicate EntriesOk(p: Params, info: InfoMap) {
    forall id :: id in info ==>
      0 <= info[id].lastTry && 0 <= info[id].lastSuccess && p.isValid(info[id].service)
  }

  ghost predicate Books(p: Params, s: State, free: set<Id>, zero: set<Id>) {
    && p.Ok() && s.key != 0
    && RandomOk(s.info, s.random)
    && AddrOk(s.info, s.byAddr, s.nextId)
    && NewOk(p, s.key, s.info, s.newTable, free)
    && RefsOk(s.info, s.newTable)
    && BoundsOk(s.info, free, zero)
    && TriedOk(p, s.key, s.info, s.triedTable)
    && CountsOk(s.info, free, s.nNew, s.nTried, s.counts)
    && EntriesOk(p, s.info)
  }

  /** Full consistency, as between public calls. */
  ghost predicate Consistent(p: Params, s: State) {
    Books(p, s, {}, {})
  }

  // ---------------------------------------------------------------- counting

  function One(b: bool): int { if b then 1 else 0 }

  ghost predicate IsNew(info: InfoMap, free: set<Id>, id: Id, n: Option<Network>) {
    id in info && !info[id].inTried && id !in free && InNetwork(info[id], n)
  }

  ghost predicate IsTried(info: InfoMap, id: Id, n: Option<Network>) {
    id in info && info[id].inTried && InNetwork(info[id], n)
  }

  /** All entries but `id` keep their place. */
  ghost predicate OthersStay(info: InfoMap, info': InfoMap, free: set<Id>, free': set<Id>, id: Id) {
    forall j :: j != id ==>
      && (j in info <==> j in info')
      && (j in info ==> info[j].inTried == info'[j].inTried && info[j].Net() == info'[j].Net())
      && (j in free <==> j in free')
  }

  lemma CountsShift(info: InfoMap, info': InfoMap, free: set<Id>, free': set<Id>, id: Id, n: Option<Network>)
    requires OthersStay(info, info', free, free', id)
    ensures |NewIds(info', free', n)| - One(IsNew(info', free', id, n))
            == |NewIds(info, free, n)| - One(IsNew(info, free, id, n))
    ensures |TriedIds(info', n)| - One(IsTried(info', id, n)) == |TriedIds(info, n)| - One(IsTried(info, id, n))
  {
    forall j | j != id
      ensures (j in NewIds(info, free, n) <==> j in NewIds(info', free', n))
           && (j in TriedIds(info, n) <==> j in TriedIds(info', n))
    {
      assert j in info <==> j in info';
    }
    SetShift(NewIds(info, free, n), NewIds(info', free', n), id);
    SetShift(TriedIds(info, n), TriedIds(info', n), id);
  }

  lemma SetShift(a: set<Id>, b: set<Id>, id: Id)
    requires forall j :: j != id ==> (j in a <==> j in b)
    ensures |a| - One(id in a) == |b| - One(id in b)
  {
    forall j ensures j in a - {id} <==> j in b - {id} {
      assert j != id ==> (j in a <==> j in b);
    }
    assert a - {id} == b - {id};
    assert |a - {id}| == |a| - One(id in a) && |b - {id}| == |b| - One(id in b);
  }

  /** Exact counts stay exact when one entry changes its place and the counters follow. */
  lemma CountsFollow(info: InfoMap, info': InfoMap, free: set<Id>, free': set<Id>, id: Id, net: Network,
                     nNew: int, nTried: int, counts: map<Network, Counts>, dNew: int, dTried: int)
    requires CountsOk(info, free, nNew, nTried, counts)
    requires OthersStay(info, info', free, free', id)
    requires id in info ==> info[id].Net() == net
    requires id in info' ==> info'[id].Net() == net
    requires dNew == One(IsNew(info', free', id, None)) - One(IsNew(info, free, id, None))
    requires dTried == One(IsTried(info', id, None)) - One(IsTried(info, id, None))
    ensures CountsOk(info', free', nNew + dNew, nTried + dTried, AddCount(counts, net, dNew, dTried))
  {
    CountsShift(info, info', free, free', id, None);
    var counts' := AddCount(counts, net, dNew, dTried);
    forall n ensures NetworkCountOk(info', free', counts', n) {
      assert NetworkCountOk(info, free, counts, n);
      CountsShift(info, info', free, free', id, Some(n));
    }
  }

  /** Counters that already follow and change nothing. */
  lemma CountsStay(info: InfoMap, info': InfoMap, free: set<Id>, free': set<Id>, id: Id,
                   nNew: int, nTried: int, counts: map<Network, Counts>)
    requires CountsOk(info, free, nNew, nTried, counts)
    requires OthersStay(info, info', free, free', id)
    requires id in info && id in info' && info[id].Net() == info'[id].Net()
    requires info[id].inTried == info'[id].inTried && (id in free <==> id in free')
    ensures CountsOk(info', free', nNew, nTried, counts)
  {
    CountsShift(info, info', free, free', id, None);
    forall n ensures NetworkCountOk(info', free', counts, n) {
      assert NetworkCountOk(info, free, counts, n);
      CountsShift(info, info', free, free', id, Some(n));
    }
  }

  // ---------------------------------------------------------------- one entry changes

  lemma RandomStays(info: InfoMap, random: seq<Id>, id: Id, i: Info)
    requires RandomOk(info, random) && id in info && i.randomPos == info[id].randomPos
    ensures RandomOk(info[id := i], random)
  {
  }

  lemma AddrStays(info: InfoMap, byAddr: map<Service, Id>, nextId: Id, id: Id, i: Info)
    requires AddrOk(info, byAddr, nextId) && id in info && i.service == info[id].service
    ensures AddrOk(info[id := i], byAddr, nextId)
  {
  }

  lemma NewStays(p: Params, key: Key, info: InfoMap, table: Table, free: set<Id>, id: Id, i: Info)
    requires NewOk(p, key, info, table, free) && id in info && i.service == info[id].service
    requires !i.inTried || SlotsOf(table, id) == {}
    ensures NewOk(p, key, info[id := i], table, free)
  {
    forall slot | slot in table && table[slot] == id ensures !i.inTried {
      assert slot in SlotsOf(table, id);
    }
  }

  lemma RefsStay(info: InfoMap, table: Table, id: Id, i: Info)
    requires RefsOk(info, table) && id in info && i.refCount == info[id].refCount
    ensures RefsOk(info[id := i], table)
  {
  }

  lemma TriedStays(p: Params, key: Key, info: InfoMap, table: Table, id: Id, i: Info)
    requires TriedOk(p, key, info, table) && id in info
    requires i.service == info[id].service && i.inTried == info[id].inTried
    requires i.inTried ==> 0 < i.lastSuccess
    ensures TriedOk(p, key, info[id := i], table)
  {
  }

  /** Changing one entry's statistics leaves its place in every index alone. */
  ghost predicate SamePlace(i: Info, i': Info) {
    && i.service == i'.service && i.refCount == i'.refCount && i.inTried == i'.inTried
    && i.randomPos == i'.randomPos
  }

  lemma StatsKeep(p: Params, s: State, free: set<Id>, zero: set<Id>, id: Id, i: Info)
    requires Books(p, s, free, zero) && id in s.info && SamePlace(s.info[id], i)
    requires 0 <= i.lastTry && 0 <= i.lastSuccess && (i.inTried ==> 0 < i.lastSuccess)
    ensures Books(p, WithInfo(s, id, i), free, zero)
  {
    RandomStays(s.info, s.random, id, i);
    AddrStays(s.info, s.byAddr, s.nextId, id, i);
    if i.inTried {
      NoSlots(p, s, free, id);
    }
    NewStays(p, s.key, s.info, s.newTable, free, id, i);
    RefsStay(s.info, s.newTable, id, i);
    TriedStays(p, s.key, s.info, s.triedTable, id, i);
    CountsStay(s.info, s.info[id := i], free, free, id, s.nNew, s.nTried, s.counts);
  }

  lemma NoSlots(p: Params, s: State, free: set<Id>, id: Id)
    requires NewOk(p, s.key, s.info, s.newTable, free)
    requires id !in s.info || s.info[id].inTried || id in free
    ensures SlotsOf(s.newTable, id) == {}
  {
  }

  // ---------------------------------------------------------------- building blocks keep the books

  lemma CreateRandom(info: InfoMap, random: seq<Id>, id: Id, i: Info)
    requires RandomOk(info, random) && id !in info && i.randomPos == |random|
    ensures RandomOk(info[id := i], random + [id])
  {
  }

  lemma CreateKeeps(p: Params, s: State, zero: set<Id>, a: Address, source: NetAddr, time: int)
    requires Books(p, s, {}, zero) && a.service !in s.byAddr && p.isValid(a.service)
    requires 0 <= s.nextId
    ensures Books(p, Create(s, a, source, time), {}, zero + {s.nextId})
  {
    var t := Create(s, a, source, time);
    AppendKeeps(p, s, zero, t.info[s.nextId]);
  }

  /** Appending an entry that is in no table, under the next id. */
  lemma AppendKeeps(p: Params, s: State, zero: set<Id>, i: Info)
    requires Books(p, s, {}, zero) && 0 <= s.nextId
    requires i.service !in s.byAddr && p.isValid(i.service) && i.randomPos == |s.random|
    requires i.refCount == 0 && !i.inTried && 0 <= i.lastTry && 0 <= i.lastSuccess
    ensures Books(p, Append(s, i), {}, zero + {s.nextId})
  {
    var id, t := s.nextId, Append(s, i);
    assert id !in s.info;
    CreateRandom(s.info, s.random, id, i);
    CountsFollow(s.info, t.info, {}, {}, id, i.Net(), s.nNew, s.nTried, s.counts, 1, 0);
    NoSlots(p, s, {}, id);
    CreateRest(p, s, zero, id, i);
  }

  lemma CreateRest(p: Params, s: State, zero: set<Id>, id: Id, i: Info)
    requires AddrOk(s.info, s.byAddr, s.nextId) && NewOk(p, s.key, s.info, s.newTable, {})
    requires RefsOk(s.info, s.newTable) && BoundsOk(s.info, {}, zero) && TriedOk(p, s.key, s.info, s.triedTable)
    requires EntriesOk(p, s.info)
    requires id == s.nextId >= 0 && id !in s.info && i.service !in s.byAddr && SlotsOf(s.newTable, id) == {}
    requires i.refCount == 0 && !i.inTried && 0 <= i.lastTry && 0 <= i.lastSuccess && p.isValid(i.service)
    ensures AddrOk(s.info[id := i], s.byAddr[i.service := id], s.nextId + 1)
    ensures NewOk(p, s.key, s.info[id := i], s.newTable, {})
    ensures RefsOk(s.info[id := i], s.newTable)
    ensures BoundsOk(s.info[id := i], {}, zero + {id})
    ensures TriedOk(p, s.key, s.info[id := i], s.triedTable)
    ensures EntriesOk(p, s.info[id := i])
  {
  }

  lemma SwapFacts(s: State, i: int, j: int)
    requires RandomOk(s.info, s.random) && 0 <= i < |s.random| && 0 <= j < |s.random|
    ensures var t := SwapRandom(s, i, j);
            && RandomOk(t.info, t.random)
            && t.random == s.random[i := s.random[j]][j := s.random[i]]
            && t.info.Keys == s.info.Keys && Repositions(s.info, t.info)
  {
    if i != j {
      var a, b := s.random[i], s.random[j];
      assert s.info[a].randomPos == i && s.info[b].randomPos == j;
      SwapInfo(s.info, a, i, b, j);
      SwappedOk(s.info, s.random, a, i, b, j);
    }
  }

  function Swapped(info: InfoMap, a: Id, i: int, b: Id, j: int): InfoMap
    requires a in info && b in info
  {
    info[a := info[a].(randomPos := j)][b := info[b].(randomPos := i)]
  }

  lemma SwapInfo(info: InfoMap, a: Id, i: int, b: Id, j: int)
    requires a in info && b in info && a != b
    ensures Swapped(info, a, i, b, j).Keys == info.Keys && Repositions(info, Swapped(info, a, i, b, j))
  {
  }

  lemma SwappedOk(info: InfoMap, random: seq<Id>, a: Id, i: int, b: Id, j: int)
    requires RandomOk(info, random) && 0 <= i < |random| && 0 <= j < |random| && i != j
    requires a == random[i] && b == random[j]
    ensures RandomOk(Swapped(info, a, i, b, j), random[i := b][j := a])
  {
  }

  lemma SwapKeeps(p: Params, s: State, free: set<Id>, zero: set<Id>, i: int, j: int)
    requires Books(p, s, free, zero) && 0 <= i < |s.random| && 0 <= j < |s.random|
    ensures Books(p, SwapRandom(s, i, j), free, zero)
  {
    SwapFacts(s, i, j);
    Repositioned(p, s, free, zero, SwapRandom(s, i, j).info);
  }

  predicate SameButPosition(i: Info, j: Info) {
    i == j.(randomPos := i.randomPos)
  }

  ghost predicate Repositions(info: InfoMap, info': InfoMap) {
    forall id :: id in info' ==> id in info && SameButPosition(info[id], info'[id])
  }

  /** Only `RandomOk` looks at positions. */
  lemma Repositioned(p: Params, s: State, free: set<Id>, zero: set<Id>, info: InfoMap)
    requires Books(p, s, free, zero) && info.Keys == s.info.Keys && Repositions(s.info, info)
    ensures AddrOk(info, s.byAddr, s.nextId)
    ensures NewOk(p, s.key, info, s.newTable, free)
    ensures RefsOk(info, s.newTable)
    ensures BoundsOk(info, free, zero)
    ensures TriedOk(p, s.key, info, s.triedTable)
    ensures CountsOk(info, free, s.nNew, s.nTried, s.counts)
    ensures EntriesOk(p, info)
  {
    RepositionedAddr(s.info, info, s.byAddr, s.nextId);
    RepositionedTables(p, s.key, s.info, info, s.newTable, s.triedTable, free);
    RepositionedIds(s.info, info, free, None);
    forall n ensures NetworkCountOk(info, free, s.counts, n) {
      assert NetworkCountOk(s.info, free, s.counts, n);
      RepositionedIds(s.info, info, free, Some(n));
    }
  }

  lemma RepositionedAddr(info: InfoMap, info': InfoMap, byAddr: map<Service, Id>, nextId: Id)
    requires AddrOk(info, byAddr, nextId) && info.Keys == info'.Keys && Repositions(info, info')
    ensures AddrOk(info', byAddr, nextId)
  {
  }

  lemma RepositionedTables(p: Params, key: Key, info: InfoMap, info': InfoMap, newTable: Table, triedTable: Table,
                           free: set<Id>)
    requires info.Keys == info'.Keys && Repositions(info, info')
    requires NewOk(p, key, info, newTable, free) && TriedOk(p, key, info, triedTable)
    ensures NewOk(p, key, info', newTable, free) && TriedOk(p, key, info', triedTable)
  {
    forall slot | slot in newTable ensures SameButPosition(info[newTable[slot]], info'[newTable[slot]]) {
      var id := newTable[slot];
      assert id in info';
    }
    forall slot | slot in triedTable ensures SameButPosition(info[triedTable[slot]], info'[triedTable[slot]]) {
      var id := triedTable[slot];
      assert id in info';
    }
  }

  lemma RepositionedIds(info: InfoMap, info': InfoMap, free: set<Id>, n: Option<Network>)
    requires Repositions(info, info') && info.Keys == info'.Keys
    ensures NewIds(info', free, n) == NewIds(info, free, n) && TriedIds(info', n) == TriedIds(info, n)
  {
    forall j
      ensures (j in NewIds(info, free, n) <==> j in NewIds(info', free, n))
           && (j in TriedIds(info, n) <==> j in TriedIds(info', n))
    {
      assert j in info <==> j in info';
    }
  }

  /** Deleting moves the last id of `random` into the gap. */
  lemma DeleteFacts(s: State, id: Id)
    requires RandomOk(s.info, s.random) && id in s.info
    ensures var d := Delete(s, id);
            && RandomOk(d.info, d.random)
            && d.info.Keys == s.info.Keys - {id} && Repositions(s.info, d.info)
            && d.newTable == s.newTable && d.triedTable == s.triedTable
            && d.byAddr == s.byAddr - {s.info[id].service}
            && d.nNew == s.nNew - 1 && d.counts == AddCount(s.counts, s.info[id].Net(), -1, 0)
  {
    hide RandomOk, Repositions, SwapRandom;
    var last, pos := |s.random| - 1, s.info[id].randomPos;
    PositionOf(s.info, s.random, id);
    SwapFacts(s, pos, last);
    var t := SwapRandom(s, pos, last);
    DropLast(t.info, t.random, id);
    DropRepositions(s.info, t.info, id);
    SwapFrame(s, pos, last);
  }

  lemma PositionOf(info: InfoMap, random: seq<Id>, id: Id)
    requires RandomOk(info, random) && id in info
    ensures 0 <= info[id].randomPos < |random| && random[info[id].randomPos] == id
  {
  }

  lemma SwapFrame(s: State, i: int, j: int)
    ensures var t := SwapRandom(s, i, j);
            t == s.(info := t.info, random := t.random)
  {
  }

  lemma DropRepositions(info: InfoMap, info': InfoMap, id: Id)
    requires Repositions(info, info')
    ensures Repositions(info, info' - {id})
  {
  }

  lemma DropLast(info: InfoMap, random: seq<Id>, id: Id)
    requires RandomOk(info, random) && random != [] && random[|random| - 1] == id
    ensures RandomOk(info - {id}, random[..|random| - 1])
  {
  }

  lemma DeleteKeeps(p: Params, s: State, free: set<Id>, zero: set<Id>, id: Id)
    requires Books(p, s, free, zero) && id in s.info && id !in free
    requires !s.info[id].inTried && s.info[id].refCount == 0
    ensures Books(p, Delete(s, id), free, zero - {id})
  {
    DeleteFacts(s, id);
    var d := Delete(s, id);
    CountsFollow(s.info, d.info, free, free, id, s.info[id].Net(), s.nNew, s.nTried, s.counts, -1, 0);
    DeleteAddr(s, id, d.info);
    DeleteTables(p, s, free, zero, id, d.info);
  }

  lemma DeleteAddr(s: State, id: Id, info: InfoMap)
    requires AddrOk(s.info, s.byAddr, s.nextId) && id in s.info
    requires info.Keys == s.info.Keys - {id} && Repositions(s.info, info)
    ensures AddrOk(info, s.byAddr - {s.info[id].service}, s.nextId)
  {
    forall a | a in s.byAddr - {s.info[id].service} ensures s.byAddr[a] in info {
      var j := s.byAddr[a];
      assert j in s.info && j != id;
    }
  }

  lemma DeleteTables(p: Params, s: State, free: set<Id>, zero: set<Id>, id: Id, info: InfoMap)
    requires info.Keys == s.info.Keys - {id} && Repositions(s.info, info) && id in s.info
    requires NewOk(p, s.key, s.info, s.newTable, free) && RefsOk(s.info, s.newTable)
    requires BoundsOk(s.info, free, zero) && TriedOk(p, s.key, s.info, s.triedTable) && EntriesOk(p, s.info)
    requires !s.info[id].inTried && s.info[id].refCount == 0
    ensures NewOk(p, s.key, info, s.newTable, free) && RefsOk(info, s.newTable)
    ensures BoundsOk(info, free, zero - {id}) && TriedOk(p, s.key, info, s.triedTable) && EntriesOk(p, info)
  {
    assert SlotsOf(s.newTable, id) == {};
    forall slot | slot in s.newTable
      ensures s.newTable[slot] in info && SameButPosition(s.info[s.newTable[slot]], info[s.newTable[slot]])
    {
      var j := s.newTable[slot];
      assert slot !in SlotsOf(s.newTable, id);
      assert j in info;
    }
    forall slot | slot in s.triedTable
      ensures s.triedTable[slot] in info && SameButPosition(s.info[s.triedTable[slot]], info[s.triedTable[slot]])
    {
      var j := s.triedTable[slot];
      assert j in info;
    }
  }

  // ---------------------------------------------------------------- references

  lemma SlotsWithout(table: Table, slot: Slot, id: Id)
    requires slot in table
    ensures |SlotsOf(table - {slot}, id)| == |SlotsOf(table, id)| - One(table[slot] == id)
  {
    var a, b := SlotsOf(table, id), SlotsOf(table - {slot}, id);
    if table[slot] == id {
      assert a == b + {slot};
    } else {
      assert a == b;
    }
  }

  lemma SlotsWith(table: Table, slot: Slot, id: Id, j: Id)
    requires slot !in table
    ensures |SlotsOf(table[slot := id], j)| == |SlotsOf(table, j)| + One(id == j)
  {
    SlotsWithout(table[slot := id], slot, j);
    assert table[slot := id] - {slot} == table;
  }

  /** Dropping one reference; the entry may be left without any. */
  lemma UnlinkKeeps(p: Params, s: State, free: set<Id>, zero: set<Id>, slot: Slot)
    requires Books(p, s, free, zero) && slot in s.newTable
    ensures s.newTable[slot] in s.info && s.info[s.newTable[slot]].refCount > 0
    ensures Books(p, Unlink(s, slot), free, zero + {s.newTable[slot]})
  {
    var id := s.newTable[slot];
    assert slot in SlotsOf(s.newTable, id);
    var t := Unlink(s, slot);
    var i := t.info[id];
    RandomStays(s.info, s.random, id, i);
    AddrStays(s.info, s.byAddr, s.nextId, id, i);
    TriedStays(p, s.key, s.info, s.triedTable, id, i);
    CountsStay(s.info, t.info, free, free, id, s.nNew, s.nTried, s.counts);
    UnlinkTables(p, s, free, zero, slot);
  }

  lemma UnlinkTables(p: Params, s: State, free: set<Id>, zero: set<Id>, slot: Slot)
    requires slot in s.newTable && s.newTable[slot] in s.info && s.info[s.newTable[slot]].refCount > 0
    requires NewOk(p, s.key, s.info, s.newTable, free) && RefsOk(s.info, s.newTable)
    requires BoundsOk(s.info, free, zero)
    ensures var t := Unlink(s, slot);
            NewOk(p, t.key, t.info, t.newTable, free) && RefsOk(t.info, t.newTable)
            && BoundsOk(t.info, free, zero + {s.newTable[slot]})
  {
    var t := Unlink(s, slot);
    forall j | j in t.info ensures t.info[j].refCount == |SlotsOf(t.newTable, j)| {
      SlotsWithout(s.newTable, slot, j);
    }
  }

  /** Adding a reference in an empty slot, for an entry that counts as new and has room. */
  lemma LinkKeeps(p: Params, s: State, free: set<Id>, zero: set<Id>, id: Id, slot: Slot)
    requires Books(p, s, free, zero) && slot !in s.newTable
    requires id in s.info && !s.info[id].inTried && id !in free && s.info[id].refCount < NEW_BUCKETS_PER_ADDRESS
    requires 0 <= slot.bucket < p.newBuckets && slot == p.NewSlot(s.key, s.info[id].service, slot.bucket)
    ensures Books(p, Link(s, id, slot), free, zero - {id})
  {
    var t := Link(s, id, slot);
    var i := t.info[id];
    RandomStays(s.info, s.random, id, i);
    AddrStays(s.info, s.byAddr, s.nextId, id, i);
    TriedStays(p, s.key, s.info, s.triedTable, id, i);
    CountsStay(s.info, t.info, free, free, id, s.nNew, s.nTried, s.counts);
    LinkTables(p, s, free, zero, id, slot);
  }

  lemma LinkTables(p: Params, s: State, free: set<Id>, zero: set<Id>, id: Id, slot: Slot)
    requires slot !in s.newTable
    requires id in s.info && !s.info[id].inTried && id !in free && s.info[id].refCount < NEW_BUCKETS_PER_ADDRESS
    requires 0 <= slot.bucket < p.newBuckets && slot == p.NewSlot(s.key, s.info[id].service, slot.bucket)
    requires NewOk(p, s.key, s.info, s.newTable, free) && RefsOk(s.info, s.newTable)
    requires BoundsOk(s.info, free, zero)
    ensures var t := Link(s, id, slot);
            NewOk(p, t.key, t.info, t.newTable, free) && RefsOk(t.info, t.newTable)
            && BoundsOk(t.info, free, zero - {id})
  {
    var t := Link(s, id, slot);
    forall j | j in t.info ensures t.info[j].refCount == |SlotsOf(t.newTable, j)| {
      SlotsWith(s.newTable, slot, id, j);
    }
  }

  /** What the books say about the holder of an occupied tried slot. */
  lemma TriedHolder(p: Params, s: State, free: set<Id>, zero: set<Id>, slot: Slot)
    requires Books(p, s, free, zero) && slot in s.triedTable
    ensures var id := s.triedTable[slot];
            && id in s.info && s.info[id].inTried && s.info[id].refCount == 0
            && slot == p.TriedSlot(s.key, s.info[id].service)
  {
  }

  lemma SourceSlotFits(p: Params, key: Key, a: Service, source: NetAddr)
    requires p.Ok()
    ensures var slot := p.SourceSlot(key, a, source);
            0 <= slot.bucket < p.newBuckets && slot == p.NewSlot(key, a, slot.bucket)
  {
  }

  lemma ZeroGrows(p: Params, s: State, free: set<Id>, zero: set<Id>, more: set<Id>)
    requires Books(p, s, free, zero) && zero <= more
    ensures Books(p, s, free, more)
  {
  }

  lemma ZeroShrinks(p: Params, s: State, free: set<Id>, zero: set<Id>, id: Id)
    requires Books(p, s, free, zero + {id}) && id in s.info && s.info[id].refCount > 0
    ensures Books(p, s, free, zero)
  {
  }

  lemma ClearNewKeeps(p: Params, s: State, free: set<Id>, zero: set<Id>, slot: Slot)
    requires Books(p, s, free, zero)
    ensures Books(p, ClearNew(s, slot), free, zero)
  {
    if slot in s.newTable {
      var id := s.newTable[slot];
      UnlinkKeeps(p, s, free, zero, slot);
      var t := Unlink(s, slot);
      assert id in t.info && !t.info[id].inTried && id !in free;
      if t.info[id].refCount == 0 {
        DeleteKeeps(p, t, free, zero + {id}, id);
        ZeroGrows(p, Delete(t, id), free, zero + {id} - {id}, zero);
      } else {
        ZeroShrinks(p, t, free, zero, id);
      }
    }
  }

  /** The parts of the state that adding, deleting and moving references in the new table leave alone. */
  ghost predicate NewSideOnly(s: State, t: State) {
    && t.key == s.key && t.nextId == s.nextId && t.triedTable == s.triedTable && t.nTried == s.nTried
    && t.lastGood == s.lastGood && t.collisions == s.collisions
  }

  /** No entry is invented and none changes its address. */
  ghost predicate SameAddresses(info: InfoMap, info': InfoMap) {
    forall j :: j in info' ==> j in info && info'[j].service == info[j].service
  }

  /** Clearing a slot touches no entry but the one that held it. */
  lemma ClearNewFacts(s: State, slot: Slot)
    requires RandomOk(s.info, s.random) && (slot in s.newTable ==> s.newTable[slot] in s.info)
    ensures var t := ClearNew(s, slot);
            && t.newTable == s.newTable - {slot} && NewSideOnly(s, t)
            && SameAddresses(s.info, t.info)
            && forall j :: j in s.info && (slot !in s.newTable || s.newTable[slot] != j) ==>
                 j in t.info && SameButPosition(s.info[j], t.info[j])
  {
    if slot in s.newTable {
      var id := s.newTable[slot];
      var t := Unlink(s, slot);
      RandomStays(s.info, s.random, id, t.info[id]);
      DeleteFacts(t, id);
      forall j | j in s.info && j != id ensures j in Delete(t, id).info && SameButPosition(s.info[j], Delete(t, id).info[j]) {
        assert j in Delete(t, id).info;
      }
    } else {
      assert s.newTable - {slot} == s.newTable;
    }
  }

  // ---------------------------------------------------------------- between the tables

  /** Removing every reference of an entry. */
  lemma UnlinkAllKeeps(p: Params, s: State, id: Id)
    requires Consistent(p, s) && id in s.info && !s.info[id].inTried
    ensures Books(p, UnlinkAll(s, id), {}, {id})
    ensures SlotsOf(UnlinkAll(s, id).newTable, id) == {}
  {
    var t := UnlinkAll(s, id);
    var i := t.info[id];
    RandomStays(s.info, s.random, id, i);
    AddrStays(s.info, s.byAddr, s.nextId, id, i);
    TriedStays(p, s.key, s.info, s.triedTable, id, i);
    CountsStay(s.info, t.info, {}, {}, id, s.nNew, s.nTried, s.counts);
    UnlinkAllTables(p, s, id);
  }

  lemma UnlinkAllTables(p: Params, s: State, id: Id)
    requires NewOk(p, s.key, s.info, s.newTable, {}) && RefsOk(s.info, s.newTable) && BoundsOk(s.info, {}, {})
    requires id in s.info && !s.info[id].inTried
    ensures var t := UnlinkAll(s, id);
            NewOk(p, t.key, t.info, t.newTable, {}) && RefsOk(t.info, t.newTable) && BoundsOk(t.info, {}, {id})
            && SlotsOf(t.newTable, id) == {}
  {
    var t := UnlinkAll(s, id);
    forall j | j in t.info ensures t.info[j].refCount == |SlotsOf(t.newTable, j)| {
      if j == id {
        assert SlotsOf(t.newTable, j) == {};
      } else {
        assert SlotsOf(t.newTable, j) == SlotsOf(s.newTable, j);
      }
    }
  }

  /** An entry without references stops counting as new. */
  lemma FreeKeeps(p: Params, s: State, free: set<Id>, zero: set<Id>, id: Id)
    requires Books(p, s, free, zero + {id}) && id in s.info && id !in free
    requires !s.info[id].inTried && s.info[id].refCount == 0
    ensures Books(p, CountNew(s, id, -1), free + {id}, zero)
  {
    CountsFollow(s.info, s.info, free, free + {id}, id, s.info[id].Net(), s.nNew, s.nTried, s.counts, -1, 0);
    assert SlotsOf(s.newTable, id) == {};
    forall slot | slot in s.newTable ensures s.newTable[slot] !in free + {id} {
      assert slot !in SlotsOf(s.newTable, id);
    }
  }

  /** A free entry counts as new again. */
  lemma UnfreeKeeps(p: Params, s: State, free: set<Id>, id: Id)
    requires Books(p, s, free, {}) && id in s.info && id in free && !s.info[id].inTried
    ensures Books(p, CountNew(s, id, 1), free - {id}, {id})
  {
    CountsFollow(s.info, s.info, free, free - {id}, id, s.info[id].Net(), s.nNew, s.nTried, s.counts, 1, 0);
  }

  /** Leaving tried makes an entry free. */
  lemma UntryKeeps(p: Params, s: State, free: set<Id>, slot: Slot)
    requires Books(p, s, free, {}) && slot in s.triedTable
    ensures s.triedTable[slot] in s.info && s.triedTable[slot] !in free ==>
              Books(p, Untry(s, slot), free + {s.triedTable[slot]}, {})
  {
    var id := s.triedTable[slot];
    if id !in free {
      var t := Untry(s, slot);
      var i := t.info[id];
      RandomStays(s.info, s.random, id, i);
      AddrStays(s.info, s.byAddr, s.nextId, id, i);
      RefsStay(s.info, s.newTable, id, i);
      CountsFollow(s.info, t.info, free, free + {id}, id, i.Net(), s.nNew, s.nTried, s.counts, 0, -1);
      NoSlots(p, s, free, id);
      UntryTables(p, s, free, slot);
    }
  }

  lemma UntryTables(p: Params, s: State, free: set<Id>, slot: Slot)
    requires NewOk(p, s.key, s.info, s.newTable, free) && BoundsOk(s.info, free, {})
    requires TriedOk(p, s.key, s.info, s.triedTable) && EntriesOk(p, s.info)
    requires slot in s.triedTable && SlotsOf(s.newTable, s.triedTable[slot]) == {}
    ensures var t, id := Untry(s, slot), s.triedTable[slot];
            NewOk(p, t.key, t.info, t.newTable, free + {id}) && BoundsOk(t.info, free + {id}, {})
            && TriedOk(p, t.key, t.info, t.triedTable) && EntriesOk(p, t.info)
  {
    var t, id := Untry(s, slot), s.triedTable[slot];
    forall sl | sl in t.newTable ensures t.newTable[sl] != id {
      assert sl !in SlotsOf(s.newTable, id);
    }
    forall sl | sl in t.triedTable ensures t.triedTable[sl] != id {
      var j := t.triedTable[sl];
      assert sl == p.TriedSlot(s.key, s.info[j].service);
    }
  }

  /** A free entry with a success on record enters its empty tried slot. */
  lemma TryKeeps(p: Params, s: State, free: set<Id>, zero: set<Id>, id: Id)
    requires Books(p, s, free, zero) && id in s.info && id in free
    requires !s.info[id].inTried && 0 < s.info[id].lastSuccess
    requires p.TriedSlot(s.key, s.info[id].service) !in s.triedTable
    ensures Books(p, Try(s, id, p.TriedSlot(s.key, s.info[id].service)), free - {id}, zero)
  {
    var slot := p.TriedSlot(s.key, s.info[id].service);
    var t := Try(s, id, slot);
    var i := t.info[id];
    RandomStays(s.info, s.random, id, i);
    AddrStays(s.info, s.byAddr, s.nextId, id, i);
    RefsStay(s.info, s.newTable, id, i);
    NoSlots(p, s, free, id);
    CountsFollow(s.info, t.info, free, free - {id}, id, i.Net(), s.nNew, s.nTried, s.counts, 0, 1);
    TryTables(p, s, free, zero, id);
  }

  lemma TryTables(p: Params, s: State, free: set<Id>, zero: set<Id>, id: Id)
    requires NewOk(p, s.key, s.info, s.newTable, free) && BoundsOk(s.info, free, zero)
    requires TriedOk(p, s.key, s.info, s.triedTable) && EntriesOk(p, s.info)
    requires id in s.info && id in free && !s.info[id].inTried && 0 < s.info[id].lastSuccess
    requires p.TriedSlot(s.key, s.info[id].service) !in s.triedTable && SlotsOf(s.newTable, id) == {}
    ensures var t := Try(s, id, p.TriedSlot(s.key, s.info[id].service));
            NewOk(p, t.key, t.info, t.newTable, free - {id}) && BoundsOk(t.info, free - {id}, zero)
            && TriedOk(p, t.key, t.info, t.triedTable) && EntriesOk(p, t.info)
  {
    var t := Try(s, id, p.TriedSlot(s.key, s.info[id].service));
    forall sl | sl in t.newTable ensures t.newTable[sl] != id {
      assert sl !in SlotsOf(s.newTable, id);
    }
  }
}
