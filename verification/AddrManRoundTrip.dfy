/**
 Writing a consistent address manager and reading it back, with the same key, bucket count
 and asmap version, loses nothing: the result is the same manager up to renumbering.
 */
module AddrManRoundTrip {
  import opened Wrappers
  import opened AddrManState
  import opened AddrManBooks
  import opened AddrManSteps
  import opened AddrManStore
  import Runs = AddrManRuns
  import opened SetSizes

  /** Some order in which the entries of the map are walked. */
  ghost predicate IsOrder(info: InfoMap, order: seq<Id>) {
    Distinct(order) && forall id :: id in order <==> id in info
  }

  ghost function Below(n: int): (ids: set<Id>)
    ensures forall i :: i in ids <==> 0 <= i < n
  {
    if n <= 0 then {} else Below(n - 1) + {n - 1}
  }

  // ---------------------------------------------------------------- lists of ids

  lemma {:induction false} PickDistinct(info: InfoMap, order: seq<Id>, tried: bool)
    requires Distinct(order)
    ensures Distinct(Pick(info, order, tried))
  {
    if order != [] {
      var n := |order| - 1;
      PickDistinct(info, order[..n], tried);
      PickFacts(info, order[..n], tried);
      assert order[n] !in order[..n];
    }
  }

  lemma {:induction false} IndexFound(ids: seq<Id>, id: Id)
    requires id in ids
    ensures IndexOf(ids, id) < |ids| && ids[IndexOf(ids, id)] == id
  {
    if ids[0] != id {
      assert id in ids[1..];
      IndexFound(ids[1..], id);
    }
  }

  /** `m` lists the new ids, `nNew` of them, and then the tried ids. */
  ghost predicate Listing(s: State, m: seq<Id>) {
    && 0 <= s.nNew && |m| == s.nNew + s.nTried && 0 <= s.nTried && Distinct(m)
    && (forall id :: id in m <==> id in s.info)
    && (forall i :: 0 <= i < |m| ==> m[i] in s.info && (s.info[m[i]].inTried <==> s.nNew <= i))
  }

  lemma ListingOf(p: Params, s: State, order: seq<Id>)
    requires Consistent(p, s) && IsOrder(s.info, order)
    ensures var ids, tried := Pick(s.info, order, false), Pick(s.info, order, true);
            Listing(s, ids + tried) && |ids| == s.nNew && |tried| == s.nTried
  {
    var ids, tried := Pick(s.info, order, false), Pick(s.info, order, true);
    PickFacts(s.info, order, false);
    PickFacts(s.info, order, true);
    PickDistinct(s.info, order, false);
    PickDistinct(s.info, order, true);
    forall id | id in s.info ensures Picks(s.info, id, false) <==> !s.info[id].inTried {
      BooksEntry(p, s, id);
    }
    DistinctCount(ids);
    DistinctCount(tried);
    forall id ensures (id in ids <==> id in NewIds(s.info, {}, None)) && (id in tried <==> id in TriedIds(s.info, None)) {
      assert Picks(s.info, id, false) || Picks(s.info, id, true) || id !in s.info;
    }
    assert (set id | id in ids) == NewIds(s.info, {}, None);
    assert (set id | id in tried) == TriedIds(s.info, None);
    Joined(s.info, ids, tried);
  }

  lemma Joined(info: InfoMap, ids: seq<Id>, tried: seq<Id>)
    requires Distinct(ids) && Distinct(tried)
    requires forall id :: id in ids <==> id in info && !info[id].inTried
    requires forall id :: id in tried <==> id in info && info[id].inTried
    ensures var m := ids + tried;
            && Distinct(m)
            && (forall id :: id in m <==> id in info)
            && (forall i :: 0 <= i < |m| ==> m[i] in info && (info[m[i]].inTried <==> |ids| <= i))
  {
    var m := ids + tried;
    forall i | 0 <= i < |m| ensures m[i] in info && (info[m[i]].inTried <==> |ids| <= i) {
      var id := m[i];
      if i < |ids| {
        assert id == ids[i] && id in ids;
      } else {
        assert id == tried[i - |ids|] && id in tried;
      }
    }
    forall i, j | 0 <= i < j < |m| ensures m[i] != m[j] {
      if j < |ids| {
        assert m[i] == ids[i] && m[j] == ids[j];
      } else if |ids| <= i {
        assert m[i] == tried[i - |ids|] && m[j] == tried[j - |ids|];
      }
    }
  }

  // ---------------------------------------------------------------- what a reader needs

  ghost predicate EntryReadable(p: Params, i: Info) {
    p.isValid(i.service) && 0 <= i.lastSuccess && (i.inTried ==> 0 < i.lastSuccess)
  }

  /**
   The entries `m`, the new ones first, can all be read by a manager with parameters `p`, which need
   not be those of the writer: no two have the same address, and no two tried ones the same slot.
   */
  ghost predicate Readable(p: Params, s: State, m: seq<Id>) {
    && p.Ok() && s.key != 0 && 0 <= s.nNew <= |m|
    && (forall i :: 0 <= i < |m| ==>
          m[i] in s.info && (s.info[m[i]].inTried <==> s.nNew <= i) && EntryReadable(p, s.info[m[i]]))
    && (forall i, j :: 0 <= i < j < |m| ==> s.info[m[i]].service != s.info[m[j]].service)
    && (forall i, j :: s.nNew <= i < j < |m| ==>
          p.TriedSlot(s.key, s.info[m[i]].service) != p.TriedSlot(s.key, s.info[m[j]].service))
  }

  lemma ReadableSize(p: Params, s: State, m: seq<Id>)
    requires Readable(p, s, m)
    ensures p.Ok() && s.key != 0 && 0 <= s.nNew <= |m| && forall id :: id in m ==> id in s.info
  {
  }

  lemma ReadableAt(p: Params, s: State, m: seq<Id>, n: int)
    requires Readable(p, s, m) && 0 <= n < |m|
    ensures m[n] in s.info && (s.info[m[n]].inTried <==> s.nNew <= n) && EntryReadable(p, s.info[m[n]])
  {
  }

  /** A consistent manager can be read by itself. */
  lemma ListingReadable(p: Params, s: State, m: seq<Id>)
    requires p.Ok() && Consistent(p, s) && Listing(s, m)
    ensures Readable(p, s, m)
  {
    KeySet(p, s);
    hide Books;
    forall i | 0 <= i < |m| ensures EntryReadable(p, s.info[m[i]]) {
      BooksEntry(p, s, m[i]);
    }
    forall i, j | 0 <= i < j < |m| ensures s.info[m[i]].service != s.info[m[j]].service {
      if s.info[m[i]].service == s.info[m[j]].service {
        SameAddressSameId(p, s, m[i], m[j]);
      }
    }
    forall i, j | s.nNew <= i < j < |m|
      ensures p.TriedSlot(s.key, s.info[m[i]].service) != p.TriedSlot(s.key, s.info[m[j]].service)
    {
      if p.TriedSlot(s.key, s.info[m[i]].service) == p.TriedSlot(s.key, s.info[m[j]].service) {
        OneHolder(p, s, m[i], m[j]);
      }
    }
  }

  lemma KeySet(p: Params, s: State)
    requires Consistent(p, s)
    ensures s.key != 0
  {
  }

  lemma SameAddressSameId(p: Params, s: State, x: Id, y: Id)
    requires Consistent(p, s) && x in s.info && y in s.info && s.info[x].service == s.info[y].service
    ensures x == y
  {
  }

  lemma OneHolder(p: Params, s: State, x: Id, y: Id)
    requires Consistent(p, s) && x in s.info && y in s.info && s.info[x].inTried && s.info[y].inTried
    requires p.TriedSlot(s.key, s.info[x].service) == p.TriedSlot(s.key, s.info[y].service)
    ensures x == y
  {
  }

  // ---------------------------------------------------------------- entries

  /** The first `n` listed entries have been read back, up to their reference counts. */
  ghost predicate Copied(s: State, t: State, m: seq<Id>, n: int) {
    && t.info.Keys == Below(n) && |t.random| == n
    && forall i :: 0 <= i < n ==> CopyOf(s, t, m, i)
  }

  ghost predicate CopyOf(s: State, t: State, m: seq<Id>, i: int) {
    0 <= i < |m| && m[i] in s.info && i in t.info &&
    t.info[i] == FromRecord(ToRecord(s.info[m[i]]), s.info[m[i]].inTried, i).(refCount := t.info[i].refCount)
  }

  /** An entry not read yet has an address not known yet. */
  lemma NewAddress(p: Params, s: State, t: State, m: seq<Id>, n: int)
    requires Readable(p, s, m) && 0 <= n < |m| && Copied(s, t, m, n)
    requires AddrOk(t.info, t.byAddr, n)
    ensures s.info[m[n]].service !in t.byAddr
  {
    forall a | a in t.byAddr ensures a != s.info[m[n]].service {
      var i := t.byAddr[a];
      assert i in t.info && CopyOf(s, t, m, i);
    }
  }

  /** A stage of reading, with the counters as they stand after `n` entries. */
  function Stage(t: State, n: int, nNew: int): State {
    t.(nextId := n, nNew := if n < nNew then n else nNew, nTried := if n < nNew then 0 else n - nNew)
  }

  lemma RecordsPrefix(info: InfoMap, m: seq<Id>, n: int)
    requires 0 <= n < |m| && forall id :: id in m ==> id in info
    ensures Records(info, m)[..n + 1][..n] == Records(info, m)[..n]
    ensures m[n] in info && Records(info, m)[..n + 1][n] == ToRecord(info[m[n]])
  {
    assert m[n] in m;
  }

  lemma {:induction false} LoadNewFacts(p: Params, s: State, m: seq<Id>, base: State, n: int)
    requires Readable(p, s, m) && 0 <= n <= s.nNew
    requires base == Empty(s.key).(nNew := base.nNew, nTried := base.nTried)
    ensures var t := LoadNew(base, Records(s.info, m)[..n]);
            && Books(p, Stage(t, n, s.nNew), {}, Below(n)) && Copied(s, t, m, n)
            && t == base.(info := t.info, byAddr := t.byAddr, random := t.random, counts := t.counts)
  {
    hide Books, LoadNew, Copied, Readable, Params.Ok;
    ReadableSize(p, s, m);
    if n == 0 {
      LoadNothing(p, s, m, base);
    } else {
      LoadNewFacts(p, s, m, base, n - 1);
      LoadNewStep(p, s, m, base, n - 1);
    }
  }

  lemma LoadNothing(p: Params, s: State, m: seq<Id>, base: State)
    requires Readable(p, s, m)
    requires base == Empty(s.key).(nNew := base.nNew, nTried := base.nTried)
    ensures LoadNew(base, Records(s.info, m)[..0]) == base
    ensures Books(p, Stage(base, 0, s.nNew), {}, Below(0)) && Copied(s, base, m, 0)
  {
    Runs.EmptySound(p, s.key);
    assert Stage(base, 0, s.nNew) == Empty(s.key);
    assert Below(0) == {};
  }

  lemma LoadNewStep(p: Params, s: State, m: seq<Id>, base: State, n: int)
    requires Readable(p, s, m) && 0 <= n < s.nNew
    requires var t := LoadNew(base, Records(s.info, m)[..n]);
             && Books(p, Stage(t, n, s.nNew), {}, Below(n)) && Copied(s, t, m, n)
             && t == base.(info := t.info, byAddr := t.byAddr, random := t.random, counts := t.counts)
    ensures var t := LoadNew(base, Records(s.info, m)[..n + 1]);
            && Books(p, Stage(t, n + 1, s.nNew), {}, Below(n + 1)) && Copied(s, t, m, n + 1)
            && t == base.(info := t.info, byAddr := t.byAddr, random := t.random, counts := t.counts)
  {
    hide Books, LoadNew, Records, Readable, Copied, Stage, Append, Params.Ok;
    ReadableSize(p, s, m);
    ReadableAt(p, s, m, n);
    var rs := Records(s.info, m)[..n + 1];
    RecordsPrefix(s.info, m, n);
    var t, t' := LoadNew(base, rs[..n]), LoadNew(base, rs);
    var i := FromRecord(ToRecord(s.info[m[n]]), false, n);
    LoadNewUnfold(base, rs);
    CopiedSize(s, t, m, n);
    StageFields(t, n, s.nNew);
    BooksAddr(p, Stage(t, n, s.nNew), Below(n));
    NewAddress(p, s, t, m, n);
    AppendKeeps(p, Stage(t, n, s.nNew), Below(n), i);
    AppendIsStage(t, t', i, n, s.nNew);
    BelowNext(n);
    CopiedOneMore(s, t, t', m, n, i);
  }

  lemma ListingSize(s: State, m: seq<Id>)
    requires Listing(s, m)
    ensures 0 <= s.nNew && 0 <= s.nTried && |m| == s.nNew + s.nTried
    ensures forall id :: id in m ==> id in s.info
  {
  }

  lemma ListingAt(s: State, m: seq<Id>, n: int)
    requires Listing(s, m) && 0 <= n < |m|
    ensures m[n] in s.info && (s.info[m[n]].inTried <==> s.nNew <= n)
  {
  }

  lemma CopiedSize(s: State, t: State, m: seq<Id>, n: int)
    requires Copied(s, t, m, n)
    ensures |t.random| == n && t.info.Keys == Below(n)
  {
  }

  lemma StageFields(t: State, n: int, nNew: int)
    ensures var u := Stage(t, n, nNew);
            u == t.(nextId := n, nNew := u.nNew, nTried := u.nTried)
  {
  }

  lemma BelowNext(n: int)
    requires 0 <= n
    ensures Below(n) + {n} == Below(n + 1)
  {
  }

  lemma AppendIsStage(t: State, t': State, i: Info, n: int, nNew: int)
    requires 0 <= n < nNew
    requires t' == t.(info := t.info[n := i], byAddr := t.byAddr[i.service := n], random := t.random + [n],
                      counts := AddCount(t.counts, i.Net(), 1, 0))
    ensures Append(Stage(t, n, nNew), i) == Stage(t', n + 1, nNew)
  {
  }

  lemma LoadNewUnfold(s: State, rs: seq<Record>)
    requires rs != []
    ensures var n := |rs| - 1;
            var t := LoadNew(s, rs[..n]);
            LoadNew(s, rs) == t.(info := t.info[n := FromRecord(rs[n], false, |t.random|)],
                                 byAddr := t.byAddr[rs[n].service := n],
                                 random := t.random + [n],
                                 counts := AddCount(t.counts, rs[n].service.host.network, 1, 0))
  {
  }

  lemma BooksAddr(p: Params, s: State, zero: set<Id>)
    requires Books(p, s, {}, zero)
    ensures AddrOk(s.info, s.byAddr, s.nextId) && TriedOk(p, s.key, s.info, s.triedTable)
  {
  }

  lemma CopiedOneMore(s: State, t: State, t': State, m: seq<Id>, n: int, i: Info)
    requires 0 <= n < |m| && m[n] in s.info
    requires Copied(s, t, m, n) && t'.info == t.info[n := i] && t'.random == t.random + [n]
    requires i == FromRecord(ToRecord(s.info[m[n]]), s.info[m[n]].inTried, n)
    ensures Copied(s, t', m, n + 1)
  {
    forall j | 0 <= j < n + 1 ensures CopyOf(s, t', m, j) {
      if j < n {
        assert CopyOf(s, t, m, j);
      }
    }
  }

  // ---------------------------------------------------------------- tried entries

  /** Appending an entry straight into its empty tried slot. */
  lemma AppendTriedKeeps(p: Params, s: State, zero: set<Id>, i: Info)
    requires p.Ok() && Books(p, s, {}, zero) && 0 <= s.nextId && s.nextId !in zero
    requires i.service !in s.byAddr && p.isValid(i.service) && i.randomPos == |s.random|
    requires i.refCount == 0 && i.inTried && 0 <= i.lastTry && 0 < i.lastSuccess
    requires p.TriedSlot(s.key, i.service) !in s.triedTable
    ensures Books(p, AppendTried(p, s, i), {}, zero)
  {
    hide Books, AppendTried;
    var id, j := s.nextId, i.(inTried := false);
    AppendKeeps(p, s, zero, j);
    var t1 := Append(s, j);
    FreeKeeps(p, t1, {}, zero, id);
    var t2 := CountNew(t1, id, -1);
    assert {} + {id} == {id};
    TryKeeps(p, t2, {id}, zero, id);
    assert {id} - {id} == {};
    AppendedTried(p, s, i);
  }

  lemma AppendedTried(p: Params, s: State, i: Info)
    requires i.inTried
    ensures var id, j := s.nextId, i.(inTried := false);
            Try(CountNew(Append(s, j), id, -1), id, p.TriedSlot(s.key, i.service)) == AppendTried(p, s, i)
  {
    var id, j := s.nextId, i.(inTried := false);
    var t := Try(CountNew(Append(s, j), id, -1), id, p.TriedSlot(s.key, i.service));
    assert t.info == s.info[id := i];
    assert t.counts == AddCount(s.counts, i.Net(), 0, 1);
  }

  function AppendTried(p: Params, s: State, i: Info): State {
    s.(nextId := s.nextId + 1,
       info := s.info[s.nextId := i],
       byAddr := s.byAddr[i.service := s.nextId],
       random := s.random + [s.nextId],
       nTried := s.nTried + 1,
       triedTable := s.triedTable[p.TriedSlot(s.key, i.service) := s.nextId],
       counts := AddCount(s.counts, i.Net(), 0, 1))
  }

  /** A tried entry not read yet has its slot still empty. */
  lemma TriedSlotEmpty(p: Params, s: State, t: State, m: seq<Id>, n: int)
    requires Readable(p, s, m) && s.nNew <= n < |m| && Copied(s, t, m, n) && t.key == s.key
    requires TriedOk(p, t.key, t.info, t.triedTable)
    ensures p.TriedSlot(t.key, s.info[m[n]].service) !in t.triedTable
  {
    forall slot | slot in t.triedTable ensures slot != p.TriedSlot(t.key, s.info[m[n]].service) {
      var i := t.triedTable[slot];
      assert i in t.info && CopyOf(s, t, m, i);
    }
  }

  /** What has been read after all new and the first tried entries, `n` in all. */
  ghost predicate TriedStage(p: Params, s: State, m: seq<Id>, t: State, n: int) {
    && Books(p, Stage(t, n, s.nNew), {}, Below(s.nNew)) && Copied(s, t, m, n)
    && t.key == s.key && t.nextId == n && t.nNew == s.nNew && t.nTried == |m| - s.nNew
    && t.newTable == map[] && t.collisions == {}
  }

  lemma TriedStageStep(p: Params, s: State, m: seq<Id>, t: State, n: int)
    requires Readable(p, s, m) && s.nNew <= n < |m| && m[n] in s.info
    requires TriedStage(p, s, m, t, n)
    ensures TriedStage(p, s, m, LoadTriedOne(p, t, ToRecord(s.info[m[n]])), n + 1)
  {
    hide Books, Readable, Copied, Stage, Params.Ok;
    ReadableSize(p, s, m);
    ReadableAt(p, s, m, n);
    var t' := LoadTriedOne(p, t, ToRecord(s.info[m[n]]));
    var i := FromRecord(ToRecord(s.info[m[n]]), true, n);
    CopiedSize(s, t, m, n);
    StageFields(t, n, s.nNew);
    var u := Stage(t, n, s.nNew);
    BooksAddr(p, u, Below(s.nNew));
    NewAddress(p, s, t, m, n);
    TriedSlotEmpty(p, s, t, m, n);
    AppendTriedKeeps(p, u, Below(s.nNew), i);
    AppendTriedIsStage(p, t, t', i, n, s.nNew);
    CopiedOneMore(s, t, t', m, n, i);
  }

  lemma AppendTriedIsStage(p: Params, t: State, t': State, i: Info, n: int, nNew: int)
    requires 0 <= nNew <= n
    requires t' == t.(info := t.info[n := i], byAddr := t.byAddr[i.service := n], random := t.random + [n],
                      triedTable := t.triedTable[p.TriedSlot(t.key, i.service) := n], nextId := n + 1,
                      counts := AddCount(t.counts, i.Net(), 0, 1))
    ensures AppendTried(p, Stage(t, n, nNew), i) == Stage(t', n + 1, nNew)
  {
  }

  lemma {:induction false} LoadTriedFacts(p: Params, s: State, m: seq<Id>, s1: State, n: int)
    requires Readable(p, s, m) && s.nNew <= n <= |m| && TriedStage(p, s, m, s1, s.nNew)
    ensures TriedStage(p, s, m, LoadTried(p, s1, Records(s.info, m)[s.nNew..n]), n)
    decreases n
  {
    hide Books, Readable, Records, TriedStage, Params.Ok, LoadTriedOne;
    ReadableSize(p, s, m);
    var rs := Records(s.info, m)[s.nNew..n];
    if n > s.nNew {
      LoadTriedFacts(p, s, m, s1, n - 1);
      ReadableAt(p, s, m, n - 1);
      RecordsSlice(s.info, m, s.nNew, n);
      TriedStageStep(p, s, m, LoadTried(p, s1, rs[..|rs| - 1]), n - 1);
    }
  }

  lemma RecordsSlice(info: InfoMap, m: seq<Id>, from: int, n: int)
    requires 0 <= from < n <= |m| && forall id :: id in m ==> id in info
    ensures var rs := Records(info, m)[from..n];
            rs[..|rs| - 1] == Records(info, m)[from..n - 1] && m[n - 1] in info
            && rs[|rs| - 1] == ToRecord(info[m[n - 1]])
  {
    assert m[n - 1] in m;
  }

  // ---------------------------------------------------------------- references

  /** All occupied slots of the first `count` buckets, bucket by bucket. */
  function SlotList(table: Table, count: nat, size: nat): seq<Slot> {
    if count == 0 then [] else SlotList(table, count - 1, size) + SlotsBelow(table, count - 1, size)
  }

  lemma {:induction false} SlotsBelowFacts(table: Table, b: int, q: nat)
    ensures Distinct(SlotsBelow(table, b, q))
    ensures forall slot :: slot in SlotsBelow(table, b, q) <==> slot in table && slot.bucket == b && 0 <= slot.pos < q
  {
    if q > 0 {
      SlotsBelowFacts(table, b, q - 1);
    }
  }

  lemma {:induction false} SlotListFacts(table: Table, count: nat, size: nat)
    ensures Distinct(SlotList(table, count, size))
    ensures forall slot :: slot in SlotList(table, count, size) <==>
              slot in table && 0 <= slot.bucket < count && 0 <= slot.pos < size
  {
    if count > 0 {
      SlotListFacts(table, count - 1, size);
      SlotsBelowFacts(table, count - 1, size);
      var a, b := SlotList(table, count - 1, size), SlotsBelow(table, count - 1, size);
      forall i, j | 0 <= i < j < |a + b| ensures (a + b)[i] != (a + b)[j] {
        if i < |a| <= j {
          assert a[i] in a && b[j - |a|] in b;
        }
      }
    }
  }

  /** The reference that stands for the occupant of a slot. */
  function RefOf(table: Table, ids: seq<Id>, slot: Slot): Reference {
    Reference(slot.bucket, if slot in table then IndexOf(ids, table[slot]) else 0)
  }

  function RefsOf(table: Table, ids: seq<Id>, slots: seq<Slot>): seq<Reference> {
    seq(|slots|, i requires 0 <= i < |slots| => RefOf(table, ids, slots[i]))
  }

  lemma {:induction false} PlausibleAll(table: Table, ids: seq<Id>, b: int, slots: seq<Slot>)
    requires forall slot :: slot in slots ==> slot in table && slot.bucket == b && table[slot] in ids
    ensures Plausible(b, Indexes(table, ids, slots), |ids|) == RefsOf(table, ids, slots)
  {
    if slots != [] {
      var n := |slots| - 1;
      PlausibleAll(table, ids, b, slots[..n]);
      assert slots[n] in slots;
      IndexFound(ids, table[slots[n]]);
      assert Indexes(table, ids, slots)[..n] == Indexes(table, ids, slots[..n]);
      assert RefsOf(table, ids, slots) == RefsOf(table, ids, slots[..n]) + [RefOf(table, ids, slots[n])];
    }
  }

  /** Reading the bucket section yields one reference per occupied slot, in order. */
  lemma {:induction false} ReferencesAre(table: Table, ids: seq<Id>, buckets: seq<seq<int>>, count: nat, size: nat)
    requires count <= |buckets| && forall slot :: slot in table ==> table[slot] in ids
    requires forall b :: 0 <= b < count ==> buckets[b] == Indexes(table, ids, SlotsBelow(table, b, size))
    ensures References(buckets, count, |ids|) == RefsOf(table, ids, SlotList(table, count, size))
  {
    if count > 0 {
      ReferencesAre(table, ids, buckets, count - 1, size);
      var a, b := SlotList(table, count - 1, size), SlotsBelow(table, count - 1, size);
      SlotsBelowFacts(table, count - 1, size);
      PlausibleAll(table, ids, count - 1, b);
      assert RefsOf(table, ids, a + b) == RefsOf(table, ids, a) + RefsOf(table, ids, b);
    }
  }

  /** The new table when the first `n` listed slots have been filled again. */
  ghost predicate Refilled(s: State, t: State, m: seq<Id>, slots: seq<Slot>, n: int) {
    && 0 <= n <= |slots|
    && (forall slot :: slot in t.newTable <==> slot in slots[..n])
    && (forall slot :: slot in t.newTable ==> SameHolder(s, t, m, slot))
  }

  ghost predicate SameHolder(s: State, t: State, m: seq<Id>, slot: Slot) {
    slot in s.newTable && slot in t.newTable && 0 <= t.newTable[slot] < |m| && m[t.newTable[slot]] == s.newTable[slot]
  }

  /** What placing references leaves alone. */
  ghost predicate SameElsewhere(t: State, u: State) {
    u == t.(info := u.info, newTable := u.newTable)
  }

  ghost predicate PlaceStage(p: Params, s: State, m: seq<Id>, slots: seq<Slot>, t: State, n: int) {
    && Books(p, t, {}, Below(s.nNew)) && Copied(s, t, m, |m|) && Refilled(s, t, m, slots, n)
    && t.key == s.key && t.nNew == s.nNew && t.nTried == s.nTried && t.nextId == |m| && t.collisions == {}
  }

  /** An entry whose references are not all back has room for one more. */
  lemma RoomLeft(p: Params, s: State, t: State, m: seq<Id>, slots: seq<Slot>, n: int, i: int)
    requires Consistent(p, s) && Distinct(m) && Distinct(slots) && 0 <= n < |slots| && Refilled(s, t, m, slots, n)
    requires slots[n] in s.newTable && 0 <= i < |m| && m[i] == s.newTable[slots[n]]
    ensures |SlotsOf(t.newTable, i)| < NEW_BUCKETS_PER_ADDRESS
    ensures slots[n] !in t.newTable
  {
    var id := m[i];
    assert id in s.info;
    BooksRefs(p, s, {}, {}, id);
    BooksEntry(p, s, id);
    var a, b := SlotsOf(t.newTable, i), SlotsOf(s.newTable, id);
    assert slots[n] !in slots[..n];
    forall slot | slot in a ensures slot in b {
      assert SameHolder(s, t, m, slot);
    }
    assert slots[n] in b && slots[n] !in a;
    assert |a + {slots[n]}| <= |b| by {
      SubsetSize(a + {slots[n]}, b);
    }
  }

  lemma PlaceStageStep(p: Params, s: State, m: seq<Id>, slots: seq<Slot>, t: State, n: int, e: Reference)
    requires p.Ok() && Consistent(p, s) && Listing(s, m) && Distinct(slots) && 0 <= n < |slots|
    requires slots[n] in s.newTable && PlaceStage(p, s, m, slots, t, n)
    requires e.bucket == slots[n].bucket && 0 <= e.index < s.nNew && m[e.index] == s.newTable[slots[n]]
    ensures PlaceStage(p, s, m, slots, PlaceOne(p, t, true, e), n + 1)
  {
    hide Books, Consistent, Params.Ok, Link;
    ListingSize(s, m);
    ListingAt(s, m, e.index);
    assert CopyOf(s, t, m, e.index);
    RoomLeft(p, s, t, m, slots, n, e.index);
    BooksRefs(p, t, {}, Below(s.nNew), e.index);
    BooksEntry(p, s, m[e.index]);
    NewSlotOf(p, s, slots[n]);
    LinkKeeps(p, t, {}, Below(s.nNew), e.index, slots[n]);
    ZeroGrows(p, Link(t, e.index, slots[n]), {}, Below(s.nNew) - {e.index}, Below(s.nNew));
    LinkedStage(s, m, slots, t, n, e.index);
  }

  lemma NewSlotOf(p: Params, s: State, slot: Slot)
    requires Consistent(p, s) && slot in s.newTable
    ensures s.newTable[slot] in s.info && !s.info[s.newTable[slot]].inTried
    ensures 0 <= slot.bucket < p.newBuckets && slot == p.NewSlot(s.key, s.info[s.newTable[slot]].service, slot.bucket)
    ensures 0 <= slot.pos < p.bucketSize
  {
  }

  lemma LinkedStage(s: State, m: seq<Id>, slots: seq<Slot>, t: State, n: int, i: int)
    requires 0 <= n < |slots| && slots[n] in s.newTable && slots[n] !in t.newTable
    requires i in t.info && 0 <= i < |m| && m[i] == s.newTable[slots[n]]
    requires Copied(s, t, m, |m|) && Refilled(s, t, m, slots, n)
    ensures var u := Link(t, i, slots[n]);
            Copied(s, u, m, |m|) && Refilled(s, u, m, slots, n + 1) && SameElsewhere(t, u)
  {
    var u := Link(t, i, slots[n]);
    assert slots[..n + 1] == slots[..n] + [slots[n]];
    forall j | 0 <= j < |m| ensures CopyOf(s, u, m, j) {
      assert CopyOf(s, t, m, j);
    }
    forall slot | slot in u.newTable ensures SameHolder(s, u, m, slot) {
      if slot != slots[n] {
        assert SameHolder(s, t, m, slot);
      }
    }
  }

  lemma {:induction false} PlaceFacts(p: Params, s: State, m: seq<Id>, ids: seq<Id>, slots: seq<Slot>, s2: State, n: int)
    requires p.Ok() && Consistent(p, s) && Listing(s, m) && ids == m[..s.nNew]
    requires Distinct(slots) && (forall slot :: slot in slots ==> slot in s.newTable) && 0 <= n <= |slots|
    requires PlaceStage(p, s, m, slots, s2, 0)
    ensures PlaceStage(p, s, m, slots, PlaceAll(p, s2, true, RefsOf(s.newTable, ids, slots)[..n]), n)
    decreases n
  {
    hide Books, Consistent, Params.Ok, PlaceOne, PlaceStage, Distinct;
    var es := RefsOf(s.newTable, ids, slots)[..n];
    if n > 0 {
      PlaceFacts(p, s, m, ids, slots, s2, n - 1);
      assert es[..n - 1] == RefsOf(s.newTable, ids, slots)[..n - 1];
      var slot := slots[n - 1];
      assert slot in slots;
      NewIdListed(p, s, m, ids, slot);
      PlaceStageStep(p, s, m, slots, PlaceAll(p, s2, true, es[..n - 1]), n - 1, es[n - 1]);
    }
  }

  lemma NewIdListed(p: Params, s: State, m: seq<Id>, ids: seq<Id>, slot: Slot)
    requires Consistent(p, s) && Listing(s, m) && ids == m[..s.nNew] && slot in s.newTable
    ensures s.newTable[slot] in ids
    ensures var e := RefOf(s.newTable, ids, slot);
            e.bucket == slot.bucket && 0 <= e.index < s.nNew && m[e.index] == s.newTable[slot]
  {
    NewSlotOf(p, s, slot);
    var id := s.newTable[slot];
    assert id in m;
    var i :| 0 <= i < |m| && m[i] == id;
    assert i < s.nNew && ids[i] == id;
    IndexFound(ids, id);
  }

  // ---------------------------------------------------------------- the result

  /**
   `t` is `s` with entry `m[i]` renamed to `i`: same records, tables, reference counts and totals.
   The times of attempts and the pending collisions are not stored.
   */
  ghost predicate SameManager(s: State, t: State, m: seq<Id>) {
    && t.key == s.key && t.nNew == s.nNew && t.nTried == s.nTried && Listing(s, m)
    && t.info.Keys == Below(|m|) && t.nextId == |m| && t.collisions == {}
    && (forall i :: 0 <= i < |m| ==> SameEntry(s, t, m, i))
    && (forall slot :: slot in t.newTable <==> slot in s.newTable)
    && (forall slot :: slot in t.newTable ==> SameHolder(s, t, m, slot))
    && (forall slot :: slot in t.triedTable <==> slot in s.triedTable)
    && (forall slot :: slot in t.triedTable ==> SameTriedHolder(s, t, m, slot))
    && (forall n :: CountOf(t.counts, n) == CountOf(s.counts, n))
  }

  ghost predicate SameEntry(s: State, t: State, m: seq<Id>, i: int) {
    0 <= i < |m| && m[i] in s.info && i in t.info
    && ToRecord(t.info[i]) == ToRecord(s.info[m[i]])
    && t.info[i].inTried == s.info[m[i]].inTried && t.info[i].refCount == s.info[m[i]].refCount
    && t.info[i].lastTry == 0 && t.info[i].lastCountAttempt == 0
  }

  ghost predicate SameTriedHolder(s: State, t: State, m: seq<Id>, slot: Slot) {
    slot in s.triedTable && slot in t.triedTable
    && 0 <= t.triedTable[slot] < |m| && m[t.triedTable[slot]] == s.triedTable[slot]
  }

  lemma RefCountsBack(p: Params, s: State, m: seq<Id>, slots: seq<Slot>, t: State, i: int)
    requires Consistent(p, s) && Listing(s, m) && PlaceStage(p, s, m, slots, t, |slots|) && 0 <= i < |m|
    requires forall slot :: slot in s.newTable ==> slot in slots
    ensures SameEntry(s, t, m, i)
  {
    hide Books;
    ListingAt(s, m, i);
    assert CopyOf(s, t, m, i);
    BooksRefs(p, s, {}, {}, m[i]);
    BooksRefs(p, t, {}, Below(s.nNew), i);
    assert slots[..|slots|] == slots;
    forall slot ensures slot in SlotsOf(t.newTable, i) <==> slot in SlotsOf(s.newTable, m[i]) {
      if slot in t.newTable {
        assert SameHolder(s, t, m, slot);
        var j := t.newTable[slot];
        assert m[j] == m[i] ==> j == i;
      }
    }
    assert SlotsOf(t.newTable, i) == SlotsOf(s.newTable, m[i]);
  }

  lemma AllPlaced(p: Params, s: State, m: seq<Id>, slots: seq<Slot>, t: State)
    requires Consistent(p, s) && Listing(s, m) && PlaceStage(p, s, m, slots, t, |slots|)
    requires forall slot :: slot in s.newTable ==> slot in slots
    ensures Consistent(p, t) && Lost(t) == {}
  {
    hide Books;
    forall i | i in t.info ensures t.info[i].inTried || t.info[i].refCount > 0 {
      assert 0 <= i < |m|;
      RefCountsBack(p, s, m, slots, t, i);
      BooksEntry(p, s, m[i]);
    }
    NoZero(p, t, Below(s.nNew));
  }

  lemma NoZero(p: Params, t: State, zero: set<Id>)
    requires Books(p, t, {}, zero)
    requires forall i :: i in t.info ==> t.info[i].inTried || t.info[i].refCount > 0
    ensures Consistent(p, t)
  {
  }

  lemma TriedBack(p: Params, s: State, t: State, m: seq<Id>)
    requires Consistent(p, s) && Consistent(p, t) && Listing(s, m) && Copied(s, t, m, |m|) && t.key == s.key
    ensures forall slot :: slot in t.triedTable <==> slot in s.triedTable
    ensures forall slot :: slot in t.triedTable ==> SameTriedHolder(s, t, m, slot)
  {
    hide Books;
    forall slot | slot in t.triedTable ensures SameTriedHolder(s, t, m, slot) {
      TriedHolder(p, t, {}, {}, slot);
      var i := t.triedTable[slot];
      assert CopyOf(s, t, m, i);
      TriedAt(p, s, m[i]);
    }
    forall slot | slot in s.triedTable ensures slot in t.triedTable {
      TriedHolder(p, s, {}, {}, slot);
      var id := s.triedTable[slot];
      assert id in m;
      var i :| 0 <= i < |m| && m[i] == id;
      assert CopyOf(s, t, m, i);
      TriedAt(p, t, i);
    }
  }

  lemma TriedAt(p: Params, s: State, id: Id)
    requires Consistent(p, s) && id in s.info && s.info[id].inTried
    ensures p.TriedSlot(s.key, s.info[id].service) in s.triedTable
    ensures s.triedTable[p.TriedSlot(s.key, s.info[id].service)] == id
  {
  }

  // ---------------------------------------------------------------- totals

  lemma {:induction false} ImageCount(a: set<Id>, b: set<Id>, m: seq<Id>)
    requires Distinct(m) && forall i :: i in a ==> 0 <= i < |m| && m[i] in b
    requires forall id :: id in b ==> exists i :: i in a && 0 <= i < |m| && m[i] == id
    ensures |a| == |b|
    decreases |a|
  {
    if a == {} {
      forall id ensures id !in b {
      }
      assert b == {};
    } else {
      assert (forall i :: i !in a) ==> a == {};
      var i :| i in a;
      var a', b' := a - {i}, b - {m[i]};
      forall id | id in b' ensures exists j :: j in a' && 0 <= j < |m| && m[j] == id {
        var j :| j in a && 0 <= j < |m| && m[j] == id;
        assert j in a';
      }
      ImageCount(a', b', m);
      assert a == a' + {i} && b == b' + {m[i]};
    }
  }

  lemma CountsBack(p: Params, s: State, t: State, m: seq<Id>, n: Network)
    requires Consistent(p, s) && Consistent(p, t) && Listing(s, m) && Copied(s, t, m, |m|)
    ensures CountOf(t.counts, n) == CountOf(s.counts, n)
  {
    hide Books;
    NetworkExact(p, s, n);
    NetworkExact(p, t, n);
    IdsBack(s, t, m, n);
  }

  lemma IdsBack(s: State, t: State, m: seq<Id>, n: Network)
    requires Listing(s, m) && Copied(s, t, m, |m|)
    ensures |NewIds(t.info, {}, Some(n))| == |NewIds(s.info, {}, Some(n))|
    ensures |TriedIds(t.info, Some(n))| == |TriedIds(s.info, Some(n))|
  {
    var a, b := NewIds(t.info, {}, Some(n)), NewIds(s.info, {}, Some(n));
    var a', b' := TriedIds(t.info, Some(n)), TriedIds(s.info, Some(n));
    forall i | i in t.info ensures 0 <= i < |m| && (i in a <==> m[i] in b) && (i in a' <==> m[i] in b') {
      assert CopyOf(s, t, m, i);
      var id := m[i];
      assert (i in a <==> id in b) && (i in a' <==> id in b');
    }
    forall id | id in s.info ensures exists i :: 0 <= i < |m| && m[i] == id && i in t.info {
      assert id in m;
      var i :| 0 <= i < |m| && m[i] == id;
      assert CopyOf(s, t, m, i);
    }
    forall id | id in b ensures exists i :: i in a && 0 <= i < |m| && m[i] == id {
      var i :| 0 <= i < |m| && m[i] == id && i in t.info;
      assert i in a;
    }
    forall id | id in b' ensures exists i :: i in a' && 0 <= i < |m| && m[i] == id {
      var i :| 0 <= i < |m| && m[i] == id && i in t.info;
      assert i in a';
    }
    ImageCount(a, b, m);
    ImageCount(a', b', m);
  }

  lemma NetworkExact(p: Params, s: State, n: Network)
    requires Consistent(p, s)
    ensures CountOf(s.counts, n) == Counts(|NewIds(s.info, {}, Some(n))|, |TriedIds(s.info, Some(n))|)
  {
    assert NetworkCountOk(s.info, {}, s.counts, n);
  }

  /** A set of slots inside a grid is no larger than the grid. */
  lemma {:induction false} GridBound(slots: set<Slot>, rows: nat, size: nat)
    requires forall slot :: slot in slots ==> 0 <= slot.bucket < rows && 0 <= slot.pos < size
    ensures |slots| <= rows * size
  {
    if rows == 0 {
      forall slot ensures slot !in slots {
      }
      assert slots == {};
    } else {
      var row := set slot | slot in slots && slot.bucket == rows - 1;
      GridBound(slots - row, rows - 1, size);
      RowBound(row, rows - 1, size);
      assert slots == (slots - row) + row;
      assert rows * size == (rows - 1) * size + size;
    }
  }

  lemma {:induction false} RowBound(row: set<Slot>, b: int, size: nat)
    requires forall slot :: slot in row ==> slot.bucket == b && 0 <= slot.pos < size
    ensures |row| <= size
  {
    if size == 0 {
      forall slot ensures slot !in row {
      }
      assert row == {};
    } else {
      RowBound(row - {Slot(b, size - 1)}, b, size - 1);
    }
  }

  lemma {:induction false} ValuesAtMost(t: Table)
    ensures |t.Values| <= |t|
  {
    if t == map[] {
      assert t.Values == {};
    } else {
      var a :| a in t;
      var rest := t - {a};
      ValuesAtMost(rest);
      assert t.Values == rest.Values + {t[a]};
      assert t.Keys == rest.Keys + {a};
    }
  }

  /** The counts never exceed what the reader accepts. */
  lemma CountsFit(p: Params, s: State)
    requires p.Ok() && Consistent(p, s)
    ensures 0 <= s.nNew <= p.newBuckets * p.bucketSize && 0 <= s.nTried <= p.triedBuckets * p.bucketSize
  {
    Runs.TriedCount(p, s);
    assert |s.triedTable| == |s.triedTable.Keys|;
    GridBound(s.triedTable.Keys, p.triedBuckets, p.bucketSize);
    assert |s.newTable| == |s.newTable.Keys|;
    GridBound(s.newTable.Keys, p.newBuckets, p.bucketSize);
    ValuesAtMost(s.newTable);
    var ids := NewIds(s.info, {}, None);
    forall id | id in ids ensures id in s.newTable.Values {
      BooksEntry(p, s, id);
      BooksRefs(p, s, {}, {}, id);
      var slot :| slot in SlotsOf(s.newTable, id);
    }
    SubsetSize(ids, s.newTable.Values);
  }

  // ---------------------------------------------------------------- the round trip

  lemma RecordsJoin(info: InfoMap, a: seq<Id>, b: seq<Id>)
    requires forall id :: id in a + b ==> id in info
    ensures (forall id :: id in a ==> id in info) && (forall id :: id in b ==> id in info)
    ensures Records(info, a) + Records(info, b) == Records(info, a + b)
  {
    forall id | id in a || id in b ensures id in info {
      assert id in a + b;
    }
    forall i | 0 <= i < |a + b| ensures (Records(info, a) + Records(info, b))[i] == Records(info, a + b)[i] {
    }
  }

  lemma FlipTwice(n: int)
    requires 0 <= n
    ensures FlipBit30(FlipBit30(n)) == n && 0 <= FlipBit30(n)
  {
    var q := n / BIT30;
    assert (n + BIT30) / BIT30 == q + 1 && (n - BIT30) / BIT30 == q - 1;
  }

  /** What the reader makes of the writer's file, piece by piece. */
  lemma FileContent(p: Params, s: State, order: seq<Id>, asmap: int)
    requires p.Ok() && Consistent(p, s) && IsOrder(s.info, order)
    ensures var f := Serialize(p, s, order, asmap);
            var ids, m := Pick(s.info, order, false), Pick(s.info, order, false) + Pick(s.info, order, true);
            && Listing(s, m) && ids == m[..s.nNew] && (forall id :: id in m ==> id in s.info)
            && f.records == Records(s.info, m)
            && |f.buckets| == p.newBuckets
            && References(f.buckets, p.newBuckets, f.nNew)
               == RefsOf(s.newTable, ids, SlotList(s.newTable, p.newBuckets, p.bucketSize))
  {
    var ids, tried := Pick(s.info, order, false), Pick(s.info, order, true);
    var m := ids + tried;
    ListingOf(p, s, order);
    RecordsJoin(s.info, ids, tried);
    var f := Serialize(p, s, order, asmap);
    assert ids == m[..s.nNew];
    forall slot | slot in s.newTable ensures s.newTable[slot] in ids {
      NewIdListed(p, s, m, ids, slot);
    }
    assert f.nNew == |ids|;
    ReferencesAre(s.newTable, ids, f.buckets, p.newBuckets, p.bucketSize);
  }

  /** The state after the entries have been read, before any reference is placed. */
  lemma EntriesRead(p: Params, s: State, m: seq<Id>) returns (s2: State)
    requires Readable(p, s, m) && (forall id :: id in m ==> id in s.info)
    ensures var s0 := Empty(s.key).(nNew := s.nNew, nTried := |m| - s.nNew);
            var s1 := LoadNew(s0, Records(s.info, m)[..s.nNew]).(nextId := s.nNew);
            s2 == LoadTried(p, s1, Records(s.info, m)[s.nNew..|m|])
    ensures TriedStage(p, s, m, s2, |m|)
  {
    hide Books, LoadNew, LoadTried, Readable;
    ReadableSize(p, s, m);
    var s0 := Empty(s.key).(nNew := s.nNew, nTried := |m| - s.nNew);
    LoadNewFacts(p, s, m, s0, s.nNew);
    var t := LoadNew(s0, Records(s.info, m)[..s.nNew]);
    var s1 := t.(nextId := s.nNew);
    assert Stage(s1, s.nNew, s.nNew) == Stage(t, s.nNew, s.nNew);
    CopiedElsewhere(s, t, s1, m, s.nNew);
    assert TriedStage(p, s, m, s1, s.nNew);
    LoadTriedFacts(p, s, m, s1, |m|);
    s2 := LoadTried(p, s1, Records(s.info, m)[s.nNew..|m|]);
  }

  lemma CopiedElsewhere(s: State, t: State, u: State, m: seq<Id>, n: int)
    requires Copied(s, t, m, n) && u.info == t.info && u.random == t.random
    ensures Copied(s, u, m, n)
  {
    forall i | 0 <= i < n ensures CopyOf(s, u, m, i) {
      assert CopyOf(s, t, m, i);
    }
  }

  lemma ReadyToPlace(p: Params, s: State, m: seq<Id>, s2: State, slots: seq<Slot>)
    requires Listing(s, m) && TriedStage(p, s, m, s2, |m|)
    ensures PlaceStage(p, s, m, slots, s2, 0)
  {
    hide Books;
    ListingSize(s, m);
    assert Stage(s2, |m|, s.nNew) == s2;
  }

  /** A file with a good header is read in three stages. */
  lemma LoadStages(p: Params, f: File, asmap: int)
    requires f.format == FILE_FORMAT && f.compat == INCOMPATIBILITY_BASE + LOWEST_COMPATIBLE
    requires FlipBit30(f.nUBuckets) == p.newBuckets == |f.buckets| && f.asmap == asmap
    requires 0 <= f.nNew <= p.newBuckets * p.bucketSize && 0 <= f.nTried <= p.triedBuckets * p.bucketSize
    requires |f.records| == f.nNew + f.nTried
    ensures var s0 := Empty(f.key).(nNew := f.nNew, nTried := f.nTried);
            var s1 := LoadNew(s0, f.records[..f.nNew]).(nextId := f.nNew);
            var s2 := LoadTried(p, s1, f.records[f.nNew..|f.records|]);
            Load(p, f, asmap, []) == Success(PlaceAll(p, s2, true, References(f.buckets, p.newBuckets, f.nNew)))
  {
    hide LoadNew, LoadTried, PlaceAll, References, FlipBit30;
  }

  /** Reading back the file yields the same manager, renumbered in the order of the walk. */
  lemma RoundTrip(p: Params, s: State, order: seq<Id>, asmap: int)
    requires p.Ok() && Consistent(p, s) && IsOrder(s.info, order)
    ensures var loaded := Load(p, Serialize(p, s, order, asmap), asmap, []);
            && loaded.Success? && Consistent(p, loaded.state) && Lost(loaded.state) == {}
            && SameManager(s, loaded.state, Pick(s.info, order, false) + Pick(s.info, order, true))
  {
    hide Books, LoadNew, LoadTried, PlaceAll, TriedStage, PlaceStage, SlotList, References, Listing, Load, Records;
    var f := Serialize(p, s, order, asmap);
    CountsFit(p, s);
    FileContent(p, s, order, asmap);
    FlipTwice(p.newBuckets);
    hide FlipBit30, Serialize;
    var ids, m := Pick(s.info, order, false), Pick(s.info, order, false) + Pick(s.info, order, true);
    ListingSize(s, m);
    LoadStages(p, f, asmap);
    ListingReadable(p, s, m);
    hide Readable;
    var s2 := EntriesRead(p, s, m);
    Placed(p, s, m, ids, s2);
  }

  /** All references go back to where they were. */
  lemma Placed(p: Params, s: State, m: seq<Id>, ids: seq<Id>, s2: State)
    requires p.Ok() && Consistent(p, s) && Listing(s, m) && ids == m[..s.nNew] && TriedStage(p, s, m, s2, |m|)
    ensures var slots := SlotList(s.newTable, p.newBuckets, p.bucketSize);
            var t := PlaceAll(p, s2, true, RefsOf(s.newTable, ids, slots));
            Consistent(p, t) && Lost(t) == {} && SameManager(s, t, m)
  {
    hide Books, PlaceAll, TriedStage, PlaceStage, SlotList, Listing;
    var slots := SlotList(s.newTable, p.newBuckets, p.bucketSize);
    SlotListFacts(s.newTable, p.newBuckets, p.bucketSize);
    ReadyToPlace(p, s, m, s2, slots);
    ListingSize(s, m);
    PlaceFacts(p, s, m, ids, slots, s2, |slots|);
    var es := RefsOf(s.newTable, ids, slots);
    assert es[..|slots|] == es;
    forall slot | slot in s.newTable ensures slot in slots {
      NewSlotOf(p, s, slot);
    }
    AllBack(p, s, m, slots, PlaceAll(p, s2, true, es));
  }

  lemma AllBack(p: Params, s: State, m: seq<Id>, slots: seq<Slot>, t: State)
    requires Consistent(p, s) && Listing(s, m) && PlaceStage(p, s, m, slots, t, |slots|)
    requires forall slot :: slot in s.newTable <==> slot in slots
    ensures Consistent(p, t) && Lost(t) == {} && SameManager(s, t, m)
  {
    hide Books;
    AllPlaced(p, s, m, slots, t);
    TriedBack(p, s, t, m);
    assert slots[..|slots|] == slots;
    forall i | 0 <= i < |m| ensures SameEntry(s, t, m, i) {
      RefCountsBack(p, s, m, slots, t, i);
    }
    forall n ensures CountOf(t.counts, n) == CountOf(s.counts, n) {
      CountsBack(p, s, t, m, n);
    }
  }
}
