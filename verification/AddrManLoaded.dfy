/**
 What holds of every manager read from disk, whatever the file says: corrupt, written by
 another version, or for another bucket count or asmap.  Together with the manager's own
 check it gives full consistency, so nothing that the check overlooks comes from a file.
 */
module AddrManLoaded {
  import opened Wrappers
  import opened AddrManState
  import opened AddrManBooks
  import opened AddrManSteps
  import opened AddrManStore
  import opened AddrManRoundTrip
  import opened AddrManCheck
  import opened AddrMan

  /** An entry of a manager that is being read. */
  ghost predicate EntryGrounded(p: Params, i: Info, id: Id, nextId: Id, counts: map<Network, Counts>) {
    && 0 <= id < nextId && i.Net() in counts
    && (i.inTried || i.refCount != 0 ==> p.isValid(i.service))
  }

  /** The invariant of reading; entries of the new table may still be without a reference. */
  ghost predicate Grounded(p: Params, s: State) {
    && RandomOk(s.info, s.random)
    && (forall a :: a in s.byAddr ==> s.byAddr[a] in s.info && s.info[s.byAddr[a]].service == a)
    && (forall id :: id in s.info ==> EntryGrounded(p, s.info[id], id, s.nextId, s.counts))
    && (forall slot :: slot in s.newTable ==> 0 <= slot.bucket < p.newBuckets)
    && s.collisions == {} && 0 <= s.nextId
  }

  lemma {:induction false} LoadNewGrounded(p: Params, s: State, rs: seq<Record>, nextId: Id)
    requires s.info == map[] && s.random == [] && s.byAddr == map[] && s.newTable == map[] && s.collisions == {}
    requires |rs| <= nextId
    ensures var t := LoadNew(s, rs);
            Grounded(p, t.(nextId := nextId)) && t.info.Keys == Below(|rs|)
  {
    if rs == [] {
      assert Below(0) == {};
    } else {
      var n := |rs| - 1;
      LoadNewGrounded(p, s, rs[..n], nextId);
      hide Grounded;
      var t := LoadNew(s, rs[..n]);
      OneMoreGrounded(p, t.(nextId := nextId), LoadNew(s, rs).(nextId := nextId), n,
                      FromRecord(rs[n], false, |t.random|));
      BelowNext(n);
    }
  }

  /** `u` is `t` with one entry more. */
  ghost predicate OneMore(t: State, u: State, id: Id, i: Info) {
    && id !in t.info && 0 <= id < u.nextId && t.nextId <= u.nextId && i.randomPos == |t.random|
    && u.info == t.info[id := i] && u.byAddr == t.byAddr[i.service := id] && u.random == t.random + [id]
    && t.counts.Keys + {i.Net()} == u.counts.Keys
    && u.newTable == t.newTable && u.collisions == t.collisions
  }

  lemma OneMoreGrounded(p: Params, t: State, u: State, id: Id, i: Info)
    requires Grounded(p, t) && OneMore(t, u, id, i) && EntryGrounded(p, i, id, u.nextId, u.counts)
    ensures Grounded(p, u)
  {
    CreateRandom(t.info, t.random, id, i);
    hide RandomOk;
    forall j | j in t.info ensures EntryGrounded(p, t.info[j], j, u.nextId, u.counts) {
      assert EntryGrounded(p, t.info[j], j, t.nextId, t.counts);
    }
  }

  lemma LoadTriedOneGrounded(p: Params, t: State, r: Record)
    requires Grounded(p, t)
    ensures Grounded(p, LoadTriedOne(p, t, r)) && t.info.Keys <= LoadTriedOne(p, t, r).info.Keys
  {
    hide RandomOk;
    if p.isValid(r.service) && p.TriedSlot(t.key, r.service) !in t.triedTable {
      Unused(p, t);
      hide Grounded;
      OneMoreGrounded(p, t, LoadTriedOne(p, t, r), t.nextId, FromRecord(r, true, |t.random|));
    }
  }

  lemma Unused(p: Params, t: State)
    requires Grounded(p, t)
    ensures t.nextId !in t.info && 0 <= t.nextId
  {
    forall j | j in t.info ensures j != t.nextId {
      assert EntryGrounded(p, t.info[j], j, t.nextId, t.counts);
    }
  }

  lemma LinkRandom(s: State, id: Id, slot: Slot)
    requires RandomOk(s.info, s.random)
    ensures var u := Link(s, id, slot); RandomOk(u.info, u.random) && u.info.Keys == s.info.Keys
  {
  }

  lemma LinkGrounded(p: Params, s: State, id: Id, slot: Slot)
    requires Grounded(p, s) && 0 <= slot.bucket < p.newBuckets
    requires id in s.info ==> p.isValid(s.info[id].service)
    ensures Grounded(p, Link(s, id, slot)) && Link(s, id, slot).info.Keys == s.info.Keys
  {
    hide RandomOk;
    LinkRandom(s, id, slot);
    var u := Link(s, id, slot);
    forall j | j in u.info ensures EntryGrounded(p, u.info[j], j, u.nextId, u.counts) {
      assert EntryGrounded(p, s.info[j], j, s.nextId, s.counts);
    }
  }

  lemma PlaceOneGrounded(p: Params, s: State, restore: bool, e: Reference)
    requires p.Ok() && Grounded(p, s) && (restore ==> 0 <= e.bucket < p.newBuckets)
    ensures Grounded(p, PlaceOne(p, s, restore, e)) && PlaceOne(p, s, restore, e).info.Keys == s.info.Keys
    ensures e.index in s.info ==> e.index != -1
  {
    SlotRanges(p);
    hide Link, Params.Ok;
    if e.index in s.info {
      assert EntryGrounded(p, s.info[e.index], e.index, s.nextId, s.counts);
      hide Grounded;
      if p.isValid(s.info[e.index].service) {
        if restore {
          LinkGrounded(p, s, e.index, p.NewSlot(s.key, s.info[e.index].service, e.bucket));
        }
        LinkGrounded(p, s, e.index, p.SourceSlot(s.key, s.info[e.index].service, s.info[e.index].source));
      }
    }
  }

  lemma DeleteGrounded(p: Params, s: State, id: Id)
    requires Grounded(p, s) && id in s.info
    ensures Grounded(p, Delete(s, id)) && Delete(s, id).info.Keys == s.info.Keys - {id}
  {
    DeleteFacts(s, id);
    SwapFrame(s, s.info[id].randomPos, |s.random| - 1);
    hide RandomOk, SwapRandom;
    var d := Delete(s, id);
    assert d.nextId == s.nextId && d.collisions == s.collisions;
    hide Delete;
    forall j | j in d.info ensures EntryGrounded(p, d.info[j], j, d.nextId, d.counts) {
      assert j in s.info.Keys && EntryGrounded(p, s.info[j], j, s.nextId, s.counts);
    }
    forall a | a in d.byAddr ensures d.byAddr[a] in d.info && d.info[d.byAddr[a]].service == a {
      var j := s.byAddr[a];
      assert j in s.info && s.info[j].service == a;
    }
  }

  /** Once nothing is left unreferenced, the check decides full consistency. */
  lemma GroundedSound(p: Params, s: State)
    requires p.Ok() && Grounded(p, s)
    requires forall id :: id in s.info ==> s.info[id].inTried || s.info[id].refCount != 0
    ensures BeyondCheck(p, s)
    ensures Checked(p, s) <==> Sound(p, s)
  {
    hide Books, Checked, RandomOk;
    forall id | id in s.info ensures EntryGrounded(p, s.info[id], id, s.nextId, s.counts) {
    }
    ConsistentIff(p, s);
  }

  // ---------------------------------------------------------------- record by record

  /** Nothing but the table slot and the count of one new entry differs. */
  ghost predicate OneReferenceMore(s: State, t: State, id: Id, slot: Slot) {
    && slot !in s.newTable && id in s.info && id in t.info
    && t == s.(info := s.info[id := s.info[id].(refCount := s.info[id].refCount + 1)],
               newTable := s.newTable[slot := id])
  }

  /**
   What a bucket reference of any file comes to.  An entry with an invalid address or with eight
   references gets none; else it gets the recorded place if the buckets are restored and the place is
   free, else the place of its own source if that is free, else none.
   */
  lemma PlaceOneOutcome(p: Params, s: State, restore: bool, e: Reference)
    requires e.index in s.info
    ensures var t, i := PlaceOne(p, s, restore, e), s.info[e.index];
            var recorded := Slot(e.bucket, p.positionHash(s.key, true, e.bucket, i.service));
            var b := p.newBucketHash(s.key, i.service, i.source);
            var own := Slot(b, p.positionHash(s.key, true, b, i.service));
            var usable := p.isValid(i.service) && i.refCount < 8;
            && (usable && restore && recorded !in s.newTable ==> OneReferenceMore(s, t, e.index, recorded))
            && (usable && !(restore && recorded !in s.newTable) && own !in s.newTable ==>
                  OneReferenceMore(s, t, e.index, own))
            && (!usable || (!(restore && recorded !in s.newTable) && own in s.newTable) ==> t == s)
  {
  }

  /** A tried record is kept exactly if its address is valid and its slot is free; else only the total falls. */
  lemma LoadTriedOneOutcome(p: Params, s: State, r: Record)
    requires s.nextId !in s.info
    ensures var t := LoadTriedOne(p, s, r);
            var b := p.triedBucketHash(s.key, r.service);
            var slot := Slot(b, p.positionHash(s.key, false, b, r.service));
            && (s.nextId in t.info <==> p.isValid(r.service) && slot !in s.triedTable)
            && (s.nextId in t.info ==>
                  && t.triedTable == s.triedTable[slot := s.nextId] && t.nTried == s.nTried
                  && ToRecord(t.info[s.nextId]) == r && t.info[s.nextId].inTried && t.info[s.nextId].refCount == 0)
            && (s.nextId !in t.info ==> t == s.(nTried := s.nTried - 1))
  {
  }

  /**
   Which files are refused before any entry is read: incompatible or too new, with counts the tables
   cannot hold, or cut short.
   */
  lemma HeaderOutcome(p: Params, f: File, asmap: int)
    ensures var r := ReadAll(p, f, asmap);
            var tooMany := !(0 <= f.nNew <= p.newBuckets * p.bucketSize) || !(0 <= f.nTried <= p.triedBuckets * p.bucketSize);
            && (r.CorruptCompat? <==> f.compat < 32)
            && (r.UnsupportedFormat? <==> f.compat > 36)
            && (r.CorruptCount? <==> 32 <= f.compat <= 36 && tooMany)
            && (r.EndOfFile? <==> 32 <= f.compat <= 36 && !tooMany
                                  && (|f.records| < f.nNew + f.nTried || |f.buckets| < BucketCount(f)))
  {
    hide LoadNew, LoadTried, PlaceAll, References, FlipBit30;
  }

  /** What is written ahead of the entries, and what bucket count a reader takes from it. */
  lemma HeaderWritten(p: Params, s: State, order: seq<Id>, asmap: int)
    requires 0 <= p.newBuckets < 0x4000_0000 && 0 <= p.bucketSize
    ensures var f := Serialize(p, s, order, asmap);
            && f.format == 4 && f.compat == 36 && f.key == s.key && f.nNew == s.nNew && f.nTried == s.nTried
            && f.nUBuckets == p.newBuckets + 0x4000_0000 && BucketCount(f) == p.newBuckets && f.asmap == asmap
  {
    hide Records, Pick, Indexes, SlotsBelow;
  }
}
