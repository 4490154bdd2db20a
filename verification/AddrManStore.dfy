/**
 The address manager on disk.  A `File` is the parsed content of the stream; the byte
 encoding of single fields is not modelled.
 */
module AddrManStore {
  import opened Wrappers
  import opened AddrManState
  import opened AddrManBooks
  import opened AddrManSteps

  const V1_DETERMINISTIC: int := 1
  const V2_ASMAP: int := 2
  const V4_MULTIPORT: int := 4
  const FILE_FORMAT: int := V4_MULTIPORT
  const LOWEST_COMPATIBLE: int := V4_MULTIPORT
  const INCOMPATIBILITY_BASE: int := 32
  const BIT30: int := 0x4000_0000

  /** Exclusive or with bit 30 of a non-negative number. */
  function FlipBit30(n: int): int {
    if n / BIT30 % 2 == 0 then n + BIT30 else n - BIT30
  }

  /** The persistent part of an entry. */
  datatype Record = Record(service: Service, services: set<nat>, time: int, source: NetAddr,
                           lastSuccess: int, attempts: int)

  function ToRecord(i: Info): Record {
    Record(i.service, i.services, i.time, i.source, i.lastSuccess, i.attempts)
  }

  function FromRecord(r: Record, inTried: bool, randomPos: int): Info {
    Info(r.service, r.services, r.time, r.source, 0, 0, r.lastSuccess, r.attempts, 0, inTried, randomPos)
  }

  datatype File = File(format: int, compat: int, key: Key, nNew: int, nTried: int, nUBuckets: int,
                       records: seq<Record>, buckets: seq<seq<int>>, asmap: int)

  // ---------------------------------------------------------------- writing

  predicate Picks(info: InfoMap, id: Id, tried: bool) {
    id in info && (if tried then info[id].inTried else info[id].refCount != 0)
  }

  /** The new, or the tried, ids in the order in which the map is walked. */
  function Pick(info: InfoMap, order: seq<Id>, tried: bool): seq<Id> {
    if order == [] then []
    else
      var n := |order| - 1;
      var rest := Pick(info, order[..n], tried);
      if Picks(info, order[n], tried) then rest + [order[n]] else rest
  }

  function Records(info: InfoMap, ids: seq<Id>): (rs: seq<Record>)
    requires forall id :: id in ids ==> id in info
    ensures |rs| == |ids|
  {
    seq(|ids|, i requires 0 <= i < |ids| => var id := ids[i]; assert id in ids; ToRecord(info[id]))
  }

  function IndexOf(ids: seq<Id>, id: Id): nat {
    if ids == [] || ids[0] == id then 0 else 1 + IndexOf(ids[1..], id)
  }

  /** The occupied slots of bucket `b` below position `q`. */
  function SlotsBelow(table: Table, b: int, q: nat): seq<Slot> {
    if q == 0 then []
    else
      var rest := SlotsBelow(table, b, q - 1);
      if Slot(b, q - 1) in table then rest + [Slot(b, q - 1)] else rest
  }

  function Indexes(table: Table, ids: seq<Id>, slots: seq<Slot>): seq<int> {
    seq(|slots|, i requires 0 <= i < |slots| => if slots[i] in table then IndexOf(ids, table[slots[i]]) else 0)
  }

  function Serialize(p: Params, s: State, order: seq<Id>, asmap: int): File
    requires 0 <= p.newBuckets && 0 <= p.bucketSize
  {
    var ids, tried := Pick(s.info, order, false), Pick(s.info, order, true);
    PickFacts(s.info, order, false);
    PickFacts(s.info, order, true);
    File(FILE_FORMAT, INCOMPATIBILITY_BASE + LOWEST_COMPATIBLE, s.key, s.nNew, s.nTried, FlipBit30(p.newBuckets),
         Records(s.info, ids) + Records(s.info, tried),
         seq(p.newBuckets, b requires 0 <= b < p.newBuckets =>
           Indexes(s.newTable, ids, SlotsBelow(s.newTable, b, p.bucketSize))),
         asmap)
  }

  lemma {:induction false} PickFacts(info: InfoMap, order: seq<Id>, tried: bool)
    ensures forall id :: id in Pick(info, order, tried) <==> id in order && Picks(info, id, tried)
  {
    if order != [] {
      var n := |order| - 1;
      PickFacts(info, order[..n], tried);
      assert order == order[..n] + [order[n]];
    }
  }

  // ---------------------------------------------------------------- reading

  function LoadNew(s: State, rs: seq<Record>): State {
    if rs == [] then s
    else
      var n := |rs| - 1;
      var t := LoadNew(s, rs[..n]);
      t.(info := t.info[n := FromRecord(rs[n], false, |t.random|)],
         byAddr := t.byAddr[rs[n].service := n],
         random := t.random + [n],
         counts := AddCount(t.counts, rs[n].service.host.network, 1, 0))
  }

  /** A tried record whose slot is taken, or whose address is not valid, is lost. */
  function LoadTried(p: Params, s: State, rs: seq<Record>): State {
    if rs == [] then s
    else
      var n := |rs| - 1;
      LoadTriedOne(p, LoadTried(p, s, rs[..n]), rs[n])
  }

  function LoadTriedOne(p: Params, t: State, r: Record): State {
    var slot := p.TriedSlot(t.key, r.service);
    if p.isValid(r.service) && slot !in t.triedTable then
      t.(info := t.info[t.nextId := FromRecord(r, true, |t.random|)],
         byAddr := t.byAddr[r.service := t.nextId],
         random := t.random + [t.nextId],
         triedTable := t.triedTable[slot := t.nextId],
         nextId := t.nextId + 1,
         counts := AddCount(t.counts, r.service.host.network, 0, 1))
    else t.(nTried := t.nTried - 1)
  }

  datatype Reference = Reference(bucket: int, index: int)

  function Plausible(b: int, entries: seq<int>, nNew: int): seq<Reference> {
    if entries == [] then []
    else
      var n := |entries| - 1;
      var rest := Plausible(b, entries[..n], nNew);
      if 0 <= entries[n] < nNew then rest + [Reference(b, entries[n])] else rest
  }

  /** All references of the first `count` buckets whose index is in range. */
  function References(buckets: seq<seq<int>>, count: nat, nNew: int): seq<Reference>
    requires count <= |buckets|
  {
    if count == 0 then []
    else References(buckets, count - 1, nNew) + Plausible(count - 1, buckets[count - 1], nNew)
  }

  function PlaceOne(p: Params, s: State, restore: bool, e: Reference): State {
    if e.index !in s.info || !p.isValid(s.info[e.index].service)
       || s.info[e.index].refCount >= NEW_BUCKETS_PER_ADDRESS then s
    else
      var i := s.info[e.index];
      var slot := p.NewSlot(s.key, i.service, e.bucket);
      if restore && slot !in s.newTable then Link(s, e.index, slot)
      else
        var own := p.SourceSlot(s.key, i.service, i.source);
        if own !in s.newTable then Link(s, e.index, own) else s
  }

  function PlaceAll(p: Params, s: State, restore: bool, es: seq<Reference>): State {
    if es == [] then s else PlaceOne(p, PlaceAll(p, s, restore, es[..|es| - 1]), restore, es[|es| - 1])
  }

  function Lost(s: State): set<Id> {
    set id | id in s.info && !s.info[id].inTried && s.info[id].refCount == 0
  }

  function DeleteAll(s: State, order: seq<Id>): State {
    if order == [] then s else Delete(DeleteAll(s, order[..|order| - 1]), order[|order| - 1])
  }

  datatype Loaded =
    | Success(state: State)
    | CorruptCompat
    | UnsupportedFormat
    | CorruptCount
    | EndOfFile

  /** The bucket count a file claims. */
  function BucketCount(f: File): int {
    if f.format >= V1_DETERMINISTIC then FlipBit30(f.nUBuckets) else f.nUBuckets
  }

  /** Bucketing can be restored if bucket count and asmap version have not changed. */
  predicate Restores(p: Params, f: File, asmap: int) {
    BucketCount(f) == p.newBuckets && (if f.format >= V2_ASMAP then f.asmap else 0) == asmap
  }

  /** Everything up to the pruning of lost entries. */
  function ReadAll(p: Params, f: File, asmap: int): Loaded {
    if f.compat < INCOMPATIBILITY_BASE then CorruptCompat
    else if f.compat - INCOMPATIBILITY_BASE > FILE_FORMAT then UnsupportedFormat
    else if !(0 <= f.nNew <= p.newBuckets * p.bucketSize) || !(0 <= f.nTried <= p.triedBuckets * p.bucketSize)
    then CorruptCount
    else if |f.records| < f.nNew + f.nTried || |f.buckets| < BucketCount(f) then EndOfFile
    else
      var s0 := Empty(f.key).(nNew := f.nNew, nTried := f.nTried);
      var s1 := LoadNew(s0, f.records[..f.nNew]).(nextId := f.nNew);
      var s2 := LoadTried(p, s1, f.records[f.nNew..f.nNew + f.nTried]);
      var count := if BucketCount(f) < 0 then 0 else BucketCount(f);
      Success(PlaceAll(p, s2, Restores(p, f, asmap), References(f.buckets, count, f.nNew)))
  }

  /** The state before the consistency check; `pruned` is the order in which lost entries are deleted. */
  function Load(p: Params, f: File, asmap: int, pruned: seq<Id>): Loaded {
    var r := ReadAll(p, f, asmap);
    if r.Success? then Success(DeleteAll(r.state, pruned)) else r
  }
}
