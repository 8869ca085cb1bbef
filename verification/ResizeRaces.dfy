/** Destroying a volume while its own resize is in flight: what goes wrong at each stage of the resize, as steps of
    the machine and as runs from start-up. */
module ResizeRaces {
  import opened Spans
  import opened ChunkSelector
  import opened ChunkOwnership

  /** Nothing in the code makes a destroy wait for the volume's own resize.  The state after the superblock is
      removed and the chunks are released, with the task still to come. */
  ghost function Destroyed(s: Sys, o: Ordinal): Sys
    requires CanStep(s, DestroySb(o))
  {
    Take(Take(s, DestroySb(o)), ReleaseVol(o))
  }

  lemma DestroyRuns(s: Sys, o: Ordinal)
    requires CanStep(s, DestroySb(o)) && Resizing(s, o) && o !in s.dying
    ensures ValidRun(s, [DestroySb(o), ReleaseVol(o)])
    ensures Run(s, [DestroySb(o), ReleaseVol(o)]) == Destroyed(s, o)
    ensures Destroyed(s, o)
            == s.(sel := Release(s.sel, o), sbs := s.sbs - {o}, gone := s.gone + {o},
                  resize := Some(s.resize.value.(orphan := Some(s.sel.vols[o]))))
  {
    assert s.dying + {o} - {o} == s.dying;
    var ts := RunThen(s, [], DestroySb(o));
    ts := RunThen(s, ts, ReleaseVol(o));
    assert ts == [DestroySb(o), ReleaseVol(o)];
  }

  /** The chunk is known, in no free pool, and no volume has it. */
  ghost predicate Stranded(s: Sel, c: ChunkId) {
    c in s.dev && (forall p :: c !in Pool(s, p)) && !Owned(s, c)
  }

  /** Chunks that leave the pools for a vector the selector no longer has. */
  lemma OrphanTakes(s: Sel, p: Pdev, ids: seq<ChunkId>, c: ChunkId)
    requires SelInv(s) && Within(ids, Pool(s, p)) && c in ids
    ensures Stranded(s.(free := s.free[p := Pool(s, p) - Elems(ids)]), c)
  {
    var s' := s.(free := s.free[p := Pool(s, p) - Elems(ids)]);
    assert c in Pool(s, p);
    forall q ensures c !in Pool(s', q) {
      assert c in Pool(s, q) ==> q == s.dev[c];
    }
    OwnedSame(s, s', c);
  }

  /** If the task has yet to take its chunks, it takes them for a volume that is no more, and they are lost to
      everyone until the next restart. */
  lemma DestroyDuringResizeStrandsChunks(s: Sys, o: Ordinal, ids: seq<ChunkId>)
    requires SelInv(s.sel) && o !in s.dying
    requires CanStep(s, DestroySb(o)) && Resizing(s, o) && s.resize.value.stage.Spawned?
    requires CanGive(Destroyed(s, o), ids)
    ensures ValidRun(s, [DestroySb(o), ReleaseVol(o)] + [TakeChunks(ids)])
    ensures forall c :: c in ids ==> Stranded(Run(s, [DestroySb(o), ReleaseVol(o)] + [TakeChunks(ids)]).sel, c)
  {
    DestroyRuns(s, o);
    ReleaseKeeps(s.sel, o);
    var ts := RunThen(s, [DestroySb(o), ReleaseVol(o)], TakeChunks(ids));
    forall c | c in ids
      ensures Stranded(Run(s, ts).sel, c)
    {
      OrphanTakes(Destroyed(s, o).sel, Target(Destroyed(s, o)).pdev, ids, c);
    }
  }

  lemma StrandedIsUnsafe(s: Sys, c: ChunkId)
    requires Stranded(s.sel, c)
    ensures !Safe(s)
  {
    assert c !in Pool(s.sel, s.sel.dev[c]);
  }

  /** The creation of the next volume, which gets the ordinal that the destroyed one leaves. */
  function Reuse(o: Ordinal, max: nat, p: Pdev, ids: seq<ChunkId>): seq<Step> {
    [EraseVol(o), CreateVol(o, max, p, ids)] + [PersistNew(o), ListVol(o)]
  }

  lemma ReuseRuns(d: Sys, o: Ordinal, max: nat, p: Pdev, ids: seq<ChunkId>)
    requires d.up && o in d.gone && o !in d.sbs && o !in d.dying && CanCreate(d.sel, o, max, p, ids)
    ensures ValidRun(d, Reuse(o, max, p, ids))
    ensures Run(d, Reuse(o, max, p, ids))
            == d.(sel := Create(d.sel, o, max, p, ids), sbs := d.sbs[o := Superblock(p, max, ids)],
                  listed := d.listed + {o}, gone := d.gone - {o})
  {
    var e := d.(sel := Create(d.sel, o, max, p, ids), listed := d.listed - {o}, gone := d.gone - {o});
    CreateNext(d, o, max, p, ids);
    PublishNext(e, o);
    RunAppend(d, [EraseVol(o), CreateVol(o, max, p, ids)], [PersistNew(o), ListVol(o)]);
    assert d.listed - {o} + {o} == d.listed + {o};
  }

  lemma CreateNext(d: Sys, o: Ordinal, max: nat, p: Pdev, ids: seq<ChunkId>)
    requires d.up && o in d.gone && o !in d.sbs && CanCreate(d.sel, o, max, p, ids)
    ensures var ts := [EraseVol(o), CreateVol(o, max, p, ids)];
            && ValidRun(d, ts)
            && Run(d, ts) == d.(sel := Create(d.sel, o, max, p, ids), listed := d.listed - {o}, gone := d.gone - {o})
  {
    var ts := RunThen(d, [], EraseVol(o));
    ts := RunThen(d, ts, CreateVol(o, max, p, ids));
    assert ts == [EraseVol(o), CreateVol(o, max, p, ids)];
  }

  lemma PublishNext(e: Sys, o: Ordinal)
    requires e.up && o in e.sel.vols && o !in e.sbs && o !in e.dying
    ensures var ts, v := [PersistNew(o), ListVol(o)], e.sel.vols[o];
            && ValidRun(e, ts)
            && Run(e, ts) == e.(sbs := e.sbs[o := Superblock(v.pdev, v.max, v.ids)], listed := e.listed + {o})
  {
    var ts := RunThen(e, [], PersistNew(o));
    ts := RunThen(e, ts, ListVol(o));
    assert ts == [PersistNew(o), ListVol(o)];
  }

  /** A destroy, the creation of the next volume, and the late persist, which finds that volume in the map. */
  function LatePersist(o: Ordinal, max: nat, p: Pdev, ids: seq<ChunkId>): seq<Step> {
    [DestroySb(o), ReleaseVol(o)] + (Reuse(o, max, p, ids) + [PersistGrown])
  }

  /** The next volume has its own chunks and the list of the destroyed one. */
  ghost predicate Overwritten(s: Sys, o: Ordinal, max: nat, p: Pdev, ids: seq<ChunkId>, r: Sys) {
    && o in s.sel.vols && r.sel == Create(Release(s.sel, o), o, max, p, ids)
    && r.sbs == s.sbs[o := Superblock(p, max, s.sel.vols[o].ids)]
  }

  /** The part of it that follows the destroy. */
  lemma PersistsLate(d: Sys, o: Ordinal, v: VolChunks, max: nat, p: Pdev, ids: seq<ChunkId>)
    requires d.up && o in d.gone && o !in d.sbs && o !in d.dying && CanCreate(d.sel, o, max, p, ids)
    requires d.resize == Some(Resize(o, Taken, Some(v)))
    ensures ValidRun(d, Reuse(o, max, p, ids) + [PersistGrown])
    ensures var r := Run(d, Reuse(o, max, p, ids) + [PersistGrown]);
            r.sel == Create(d.sel, o, max, p, ids) && r.sbs == d.sbs[o := Superblock(p, max, v.ids)]
  {
    ReuseRuns(d, o, max, p, ids);
    var e := Run(d, Reuse(o, max, p, ids));
    assert CanStep(e, PersistGrown);
    var ts := RunThen(d, Reuse(o, max, p, ids), PersistGrown);
  }

  /** If the task has taken its chunks but not persisted, the late persist writes the list of the destroyed
      volume into the superblock of the next volume with its ordinal. */
  lemma LatePersistOverwritesList(s: Sys, o: Ordinal, max: nat, p: Pdev, ids: seq<ChunkId>)
    requires CanStep(s, DestroySb(o)) && Resizing(s, o) && s.resize.value.stage.Taken? && o !in s.dying
    requires CanCreate(Release(s.sel, o), o, max, p, ids)
    ensures ValidRun(s, LatePersist(o, max, p, ids))
    ensures Overwritten(s, o, max, p, ids, Run(s, LatePersist(o, max, p, ids)))
  {
    DestroyRuns(s, o);
    PersistsLate(Destroyed(s, o), o, s.sel.vols[o], max, p, ids);
    RunAppend(s, [DestroySb(o), ReleaseVol(o)], Reuse(o, max, p, ids) + [PersistGrown]);
  }

  /** Unless the new volume got its chunks from the old one's list, it then allocates from chunks that are not
      on its persisted list. */
  lemma LatePersistIsUnsafe(s: Sys, o: Ordinal, max: nat, p: Pdev, ids: seq<ChunkId>, r: Sys)
    requires SysInv(s) && Overwritten(s, o, max, p, ids, r)
    ensures ActivePersisted(r) <==> forall c :: c in ids ==> c in s.sel.vols[o].ids
  {
    OtherVolsPersisted(s, o, max, p, ids, r);
    if c :| c in ids && c !in s.sel.vols[o].ids {
      NotPersisted(s, o, max, p, ids, r, c);
    }
  }

  lemma NotPersisted(s: Sys, o: Ordinal, max: nat, p: Pdev, ids: seq<ChunkId>, r: Sys, c: ChunkId)
    requires Overwritten(s, o, max, p, ids, r) && c in ids && c !in s.sel.vols[o].ids
    ensures !ActivePersisted(r)
  {
    var i :| 0 <= i < |ids| && ids[i] == c;
    assert r.sel.vols[o].ids[i] !in r.sbs[o].ids;
  }

  lemma OtherVolsPersisted(s: Sys, o: Ordinal, max: nat, p: Pdev, ids: seq<ChunkId>, r: Sys)
    requires SysInv(s) && Overwritten(s, o, max, p, ids, r)
    ensures forall o', i :: o' != o && o' in r.sel.vols && o' in r.sbs && 0 <= i < r.sel.vols[o'].active ==>
                              i < |r.sel.vols[o'].ids| && r.sel.vols[o'].ids[i] in r.sbs[o'].ids
  {
    InvIsSafe(s);
    forall o', i | o' != o && o' in r.sel.vols && o' in r.sbs && 0 <= i < r.sel.vols[o'].active
      ensures i < |r.sel.vols[o'].ids| && r.sel.vols[o'].ids[i] in r.sbs[o'].ids
    {
      assert r.sel.vols[o'] == s.sel.vols[o'];
    }
  }

  /** In between, the destroyed volume is still in the map and its superblock handle has been destroyed.  What a
      persist through that handle does is up to HomeStore; if it writes a superblock, that one lists chunks
      which are all free. */
  lemma RevivedSuperblockListsFreeChunks(s: Sys, o: Ordinal)
    requires CanStep(s, DestroySb(o)) && Resizing(s, o) && s.resize.value.stage.Taken? && o !in s.dying
    requires VolFine(s.sel, s.sel.vols[o])
    ensures var ts := [DestroySb(o), PersistRevived, ReleaseVol(o)];
            && ValidRun(s, ts)
            && var r := Run(s, ts);
               o in r.sbs && o !in r.sel.vols && r.sbs[o].ids != []
               && forall c :: c in r.sbs[o].ids ==> c in Pool(r.sel, r.sbs[o].pdev)
  {
    var ts := RunThen(s, [], DestroySb(o));
    ts := RunThen(s, ts, PersistRevived);
    ts := RunThen(s, ts, ReleaseVol(o));
    assert ts == [DestroySb(o), PersistRevived, ReleaseVol(o)];
  }

  // ---------- runs from start-up ----------

  /** Three chunks on one device; volume 0 has the first of them and is about to grow. */
  const GROWING: Sys :=
    Sys(Sel(map[0 := 0, 1 := 0, 2 := 0], map[0 := {1, 2}], map[0 := 0], map[0 := VolChunks([0], 1, 2, 0)]),
        map[0 := Superblock(0, 2, [0])], true, {0}, true, Some(Resize(0, Spawned, None)), {}, {})

  const ANNOUNCED: Sys :=
    BOOT.(sel := Sel(map[0 := 0, 1 := 0, 2 := 0], map[0 := {0, 1, 2}], map[], map[]), up := true)

  lemma ThreeChunks() returns (ts: seq<Step>)
    ensures ValidRun(BOOT, ts) && Run(BOOT, ts) == ANNOUNCED && SysInv(ANNOUNCED)
  {
    var s1 := Take(BOOT, AddChunk(0, 0));
    var s2 := Take(s1, AddChunk(1, 0));
    var s3 := Take(s2, AddChunk(2, 0));
    assert Pool(s1.sel, 0) == {0} && Pool(s2.sel, 0) == {0, 1} && Pool(s3.sel, 0) == {0, 1, 2};
    ts := RunThen(BOOT, [], AddChunk(0, 0));
    ts := RunThen(BOOT, ts, AddChunk(1, 0));
    ts := RunThen(BOOT, ts, AddChunk(2, 0));
    ts := RunThen(BOOT, ts, Serve);
    assert Run(BOOT, ts).sel.dev == ANNOUNCED.sel.dev;
    assert Run(BOOT, ts).sel.free == ANNOUNCED.sel.free;
    NoDestroyIsCareful(BOOT, ts);
    RunKeepsInv(BOOT, ts);
  }

  lemma GrowingIsReached() returns (ts: seq<Step>)
    ensures ValidRun(BOOT, ts) && Run(BOOT, ts) == GROWING && SysInv(GROWING)
  {
    ts := ThreeChunks();
    FirstVolume();
    ts := RunThen(BOOT, ts, CreateVol(0, 2, 0, [0]));
    StepKeepsInv(ANNOUNCED, CreateVol(0, 2, 0, [0]));
    var more := FirstResize();
    RunAppend(BOOT, ts, more);
    ts := ts + more;
  }

  lemma FirstVolume()
    ensures CanStep(ANNOUNCED, CreateVol(0, 2, 0, [0]))
    ensures Take(ANNOUNCED, CreateVol(0, 2, 0, [0])) == ANNOUNCED.(sel := GROWING.sel)
  {
    assert Pool(ANNOUNCED.sel, 0) == {0, 1, 2};
    var first: seq<ChunkId> := [0];
    assert Elems(first) == {0} && {0, 1, 2} - {0} == {1, 2};
    var sel := Create(ANNOUNCED.sel, 0, 2, 0, [0]);
    assert sel.free == GROWING.sel.free && sel.tagged == GROWING.sel.tagged && sel.vols == GROWING.sel.vols;
  }

  lemma FirstResize() returns (ts: seq<Step>)
    requires SysInv(ANNOUNCED.(sel := GROWING.sel))
    ensures ValidRun(ANNOUNCED.(sel := GROWING.sel), ts) && Run(ANNOUNCED.(sel := GROWING.sel), ts) == GROWING
    ensures SysInv(GROWING)
  {
    var e := ANNOUNCED.(sel := GROWING.sel);
    PublishNext(e, 0);
    ts := RunThen(e, [PersistNew(0), ListVol(0)], SpawnResize(0));
    assert {} + {0} == {0};
    NoDestroyIsCareful(e, ts);
    RunKeepsInv(e, ts);
  }

  /** From start-up: a volume is destroyed while its resize is about to take a chunk, and the chunk is stranded. */
  lemma StrandingRun() returns (ts: seq<Step>)
    ensures ValidRun(BOOT, ts) && Stranded(Run(BOOT, ts).sel, 1) && !Safe(Run(BOOT, ts))
  {
    ts := GrowingIsReached();
    DestroyRuns(GROWING, 0);
    assert 1 in Pool(Destroyed(GROWING, 0).sel, 0);
    assert 1 in [1];
    DestroyDuringResizeStrandsChunks(GROWING, 0, [1]);
    var us := [DestroySb(0), ReleaseVol(0)] + [TakeChunks([1])];
    RunAppend(BOOT, ts, us);
    StrandedIsUnsafe(Run(GROWING, us), 1);
    ts := ts + us;
  }

  /** Volume 0 has taken its second chunk but not persisted it. */
  const GROWN: Sys :=
    Sys(Sel(map[0 := 0, 1 := 0, 2 := 0], map[0 := {2}], map[0 := 0], map[0 := VolChunks([0, 1], 1, 2, 0)]),
        map[0 := Superblock(0, 2, [0])], true, {0}, true, Some(Resize(0, Taken, None)), {}, {})

  lemma GrownIsReached() returns (ts: seq<Step>)
    ensures ValidRun(BOOT, ts) && Run(BOOT, ts) == GROWN && SysInv(GROWN)
  {
    ts := GrowingIsReached();
    FirstGrowth();
    ts := RunThen(BOOT, ts, TakeChunks([1]));
    StepKeepsInv(GROWING, TakeChunks([1]));
  }

  lemma FirstGrowth()
    ensures CanStep(GROWING, TakeChunks([1])) && Take(GROWING, TakeChunks([1])) == GROWN
  {
    var second: seq<ChunkId> := [1];
    assert Pool(GROWING.sel, 0) == {1, 2} && Elems(second) == {1};
    assert {1, 2} - {1} == {2} && [0] + [1] == [0, 1];
    var sel := Grow(GROWING.sel, 0, [1]);
    assert sel.free == GROWN.sel.free && sel.vols == GROWN.sel.vols;
  }

  lemma ThirdChunkIsFree()
    ensures CanCreate(Release(GROWN.sel, 0), 0, 1, 0, [2])
  {
    assert 2 in Pool(GROWN.sel, 0);
    assert 2 in Pool(Release(GROWN.sel, 0), 0);
  }

  /** From start-up: a volume is destroyed while its resize has taken a chunk.  The next volume gets its ordinal,
      the late persist overwrites that volume's list, and after a crash the volume cannot be recovered, while
      the chunk it allocated from counts as free. */
  lemma OverwritingRun() returns (ts: seq<Step>)
    ensures ValidRun(BOOT, ts) && !Safe(Run(BOOT, ts))
    ensures var r := Run(BOOT, ts);
            && 0 in r.sel.vols && r.sel.vols[0].ids == [2] && r.sel.vols[0].active == 1
            && 0 in r.sbs && 2 !in r.sbs[0].ids
            && !CanStep(Take(r, Crash), RecoverVol(0)) && 2 in Pool(Take(r, Crash).sel, 0)
  {
    ts := OverwrittenIsReached();
    OverwrittenState(Run(BOOT, ts));
    CannotComeBack(Run(BOOT, ts));
  }

  lemma OverwrittenIsReached() returns (ts: seq<Step>)
    ensures ValidRun(BOOT, ts) && Overwritten(GROWN, 0, 1, 0, [2], Run(BOOT, ts))
  {
    ts := GrownIsReached();
    ThirdChunkIsFree();
    LatePersistOverwritesList(GROWN, 0, 1, 0, [2]);
    RunAppend(BOOT, ts, LatePersist(0, 1, 0, [2]));
    ts := ts + LatePersist(0, 1, 0, [2]);
  }

  lemma OverwrittenState(r: Sys)
    requires Overwritten(GROWN, 0, 1, 0, [2], r)
    ensures 0 in r.sel.vols && r.sel.vols[0].ids == [2] && r.sel.vols[0].active == 1
    ensures 0 in r.sbs && 2 !in r.sbs[0].ids && !Safe(r)
  {
    assert 2 in [2] && 2 !in [0, 1];
    NotPersisted(GROWN, 0, 1, 0, [2], r, 2);
  }

  lemma CannotComeBack(r: Sys)
    requires Overwritten(GROWN, 0, 1, 0, [2], r)
    ensures !CanStep(Take(r, Crash), RecoverVol(0)) && 2 in Pool(Take(r, Crash).sel, 0)
  {
    assert r.sel.dev[2] == 0 && 0 in r.sel.dev.Values;
  }
}
