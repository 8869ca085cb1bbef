/** Chunk ownership across crashes.  Volumes are created, grow, and are destroyed; their chunk lists are
    persisted in superblocks at particular moments; a crash loses everything but the superblocks. */
module ChunkOwnership {
  import opened Spans
  import opened ChunkSelector

  datatype Superblock = Superblock(pdev: Pdev, max: nat, ids: seq<ChunkId>)

  /** How far the background task of a resize has come. */
  datatype Stage = Spawned | Taken | Persisted

  /** The task holds on to the chunk vector it was started for: `orphan` is that vector once the selector has
      dropped it. */
  datatype Resize = Resize(o: Ordinal, stage: Stage, orphan: Option<VolChunks>)

  /** `up` says that recovery is over, `listed` are the volumes in the volume map, by ordinal.  A destroyed
      volume is `dying` from the removal of its superblock to the release of its chunks, and `gone` from then
      until it leaves the volume map, which also frees its ordinal. */
  datatype Sys = Sys(sel: Sel, sbs: map<Ordinal, Superblock>, up: bool, listed: set<Ordinal>,
                     latch: bool, resize: Option<Resize>, dying: set<Ordinal>, gone: set<Ordinal>)

  const BOOT: Sys := Sys(NO_CHUNKS, map[], false, {}, false, None, {}, {})

  datatype Step =
    | AddChunk(c: ChunkId, p: Pdev)
    | Serve
    | CreateVol(o: Ordinal, max: nat, p: Pdev, ids: seq<ChunkId>)
    | PersistNew(o: Ordinal)
    | ListVol(o: Ordinal)
    | SpawnResize(o: Ordinal)
    | GiveUpResize
    | TakeChunks(ids: seq<ChunkId>)
    | PersistGrown
    | PersistRevived
    | FinishResize
    | DestroySb(o: Ordinal)
    | ReleaseVol(o: Ordinal)
    | EraseVol(o: Ordinal)
    | Crash
    | RecoverVol(o: Ordinal)

  /** Every persisted volume has its chunks back. */
  ghost predicate Ready(s: Sys) {
    forall o :: o in s.sbs ==> o in s.sel.vols
  }

  /** A resize is in flight for the volume that the selector has under this ordinal. */
  predicate Resizing(s: Sys, o: Ordinal) {
    s.resize.Some? && s.resize.value.o == o && s.resize.value.orphan.None?
  }

  /** The vector the resize works on. */
  predicate HasTarget(s: Sys) {
    s.resize.Some? && (s.resize.value.orphan.Some? || s.resize.value.o in s.sel.vols)
  }

  function Target(s: Sys): VolChunks
    requires HasTarget(s)
  {
    if s.resize.value.orphan.Some? then s.resize.value.orphan.value else s.sel.vols[s.resize.value.o]
  }

  predicate InStage(s: Sys, stage: Stage) {
    HasTarget(s) && s.resize.value.stage == stage
  }

  ghost predicate CanStep(s: Sys, t: Step) {
    match t
    case AddChunk(c, p) => c !in s.sel.dev
    case Serve => !s.up && Ready(s)
    case CreateVol(o, max, p, ids) => s.up && o !in s.sbs && o !in s.listed && CanCreate(s.sel, o, max, p, ids)
    case PersistNew(o) => s.up && o in s.sel.vols && o !in s.sbs && o !in s.dying
    case ListVol(o) => s.up && o in s.sel.vols && o in s.sbs
    case SpawnResize(o) =>
      s.up && !s.latch && o in s.sbs && o in s.listed && o in s.sel.vols && s.sel.vols[o].active < s.sel.vols[o].max
    case GiveUpResize => s.up && !s.latch
    case TakeChunks(ids) => InStage(s, Spawned) && CanGive(s, ids)
    case PersistGrown => InStage(s, Taken) && s.resize.value.o in s.listed && s.resize.value.o in s.sbs
    case PersistRevived => InStage(s, Taken) && s.resize.value.o in s.listed && s.resize.value.o !in s.sbs
    case FinishResize => InStage(s, Persisted)
    case DestroySb(o) => s.up && o in s.sbs && o in s.listed && o in s.sel.vols
    case ReleaseVol(o) => o in s.dying && o in s.sel.vols
    case EraseVol(o) => o in s.gone
    case Crash => true
    case RecoverVol(o) => !s.up && o in s.sbs && RecoveryAsserts(s, o)
  }

  /** The device of the resized volume can give these chunks. */
  ghost predicate CanGive(s: Sys, ids: seq<ChunkId>)
    requires HasTarget(s)
  {
    var v := Target(s);
    v.active <= v.max && 0 < |ids| == ResizeCount(v) && Distinct(ids) && Within(ids, Pool(s.sel, v.pdev))
  }

  /** What the recovery of a volume asserts or looks up on the way: the slot of the volume is vacant, and
      each persisted chunk is known, unassigned, on the volume's device and in its free pool. */
  ghost predicate RecoveryAsserts(s: Sys, o: Ordinal)
    requires o in s.sbs
  {
    && CanCreate(s.sel, o, s.sbs[o].max, s.sbs[o].pdev, s.sbs[o].ids)
    && forall c :: c in s.sbs[o].ids ==> c in s.sel.dev && s.sel.dev[c] == s.sbs[o].pdev && c !in s.sel.tagged
  }

  /** All chunks announced again, none assigned. */
  ghost function Rebuilt(dev: map<ChunkId, Pdev>): Sel {
    Sel(dev, map p | p in dev.Values :: set c | c in dev && dev[c] == p, map[], map[])
  }

  /** The chunks leave the pool and go behind the active ones of the vector the resize works on. */
  function Grown(s: Sys, ids: seq<ChunkId>): Sys
    requires HasTarget(s)
  {
    var o, v := s.resize.value.o, Target(s);
    if s.resize.value.orphan.None? then s.(sel := Grow(s.sel, o, ids), resize := Some(Resize(o, Taken, None)))
    else s.(sel := s.sel.(free := s.sel.free[v.pdev := Pool(s.sel, v.pdev) - Elems(ids)]),
            resize := Some(Resize(o, Taken, Some(v.(ids := v.ids + ids)))))
  }

  ghost function Take(s: Sys, t: Step): Sys
    requires CanStep(s, t)
  {
    match t
    case AddChunk(c, p) => s.(sel := Add(s.sel, c, p))
    case Serve => s.(up := true)
    case CreateVol(o, max, p, ids) => s.(sel := Create(s.sel, o, max, p, ids))
    case PersistNew(o) =>
      var v := s.sel.vols[o];
      s.(sbs := s.sbs[o := Superblock(v.pdev, v.max, v.ids)])
    case ListVol(o) => s.(listed := s.listed + {o})
    case SpawnResize(o) => s.(latch := true, resize := Some(Resize(o, Spawned, None)))
    case GiveUpResize => s.(latch := true)
    case TakeChunks(ids) => Grown(s, ids)
    case PersistGrown =>
      var o := s.resize.value.o;
      s.(sbs := s.sbs[o := s.sbs[o].(ids := Target(s).ids)], resize := Some(s.resize.value.(stage := Persisted)))
    case PersistRevived =>
      var o, v := s.resize.value.o, Target(s);
      s.(sbs := s.sbs[o := Superblock(v.pdev, v.max, v.ids)], resize := Some(s.resize.value.(stage := Persisted)))
    case FinishResize =>
      s.(sel := if s.resize.value.orphan.None? then Activate(s.sel, s.resize.value.o) else s.sel,
         latch := false, resize := None)
    case DestroySb(o) => s.(sbs := s.sbs - {o}, dying := s.dying + {o})
    case ReleaseVol(o) =>
      s.(sel := Release(s.sel, o), dying := s.dying - {o}, gone := s.gone + {o},
         resize := if Resizing(s, o) then Some(s.resize.value.(orphan := Some(s.sel.vols[o]))) else s.resize)
    case EraseVol(o) => s.(listed := s.listed - {o}, gone := s.gone - {o})
    case Crash => Sys(Rebuilt(s.sel.dev), s.sbs, false, {}, false, None, {}, {})
    case RecoverVol(o) =>
      s.(sel := Create(s.sel, o, s.sbs[o].max, s.sbs[o].pdev, s.sbs[o].ids), listed := s.listed + {o})
  }

  // ---------- the invariant ----------

  ghost predicate Apart(xs: seq<ChunkId>, ys: seq<ChunkId>) {
    forall c :: c in xs ==> c !in ys
  }

  ghost predicate SbFine(s: Sys, o: Ordinal)
    requires o in s.sbs
  {
    var b := s.sbs[o];
    && Distinct(b.ids) && 1 <= |b.ids| <= b.max
    && (forall c :: c in b.ids ==> c in s.sel.dev && s.sel.dev[c] == b.pdev)
    && (forall o' :: o' in s.sbs && o' != o ==> Apart(s.sbs[o'].ids, b.ids))
    && (forall o' :: o' in s.sel.vols && o' != o ==> Apart(s.sel.vols[o'].ids, b.ids))
  }

  /** No volume is destroyed before its own resize has persisted. */
  predicate Careful(s: Sys, t: Step) {
    t.DestroySb? && Resizing(s, t.o) ==> s.resize.value.stage.Persisted?
  }

  /** A live volume against its superblock: what is active is persisted, what is persisted is owned. */
  ghost predicate VolSynced(s: Sys, o: Ordinal)
    requires o in s.sel.vols
  {
    var v := s.sel.vols[o];
    && (o in s.sbs ==>
          && s.sbs[o].pdev == v.pdev && s.sbs[o].max == v.max
          && v.active <= |s.sbs[o].ids| <= |v.ids| && s.sbs[o].ids == v.ids[..|s.sbs[o].ids|])
    && (!(Resizing(s, o) && !s.resize.value.stage.Spawned?) ==> v.active == |v.ids|)
    && (Resizing(s, o) && s.resize.value.stage.Persisted? && o in s.sbs ==> s.sbs[o].ids == v.ids)
  }

  /** The resize task: it holds the latch, and until it has persisted its volume is not being destroyed. */
  ghost predicate ResizeFine(s: Sys) {
    s.resize.Some? ==>
      && s.latch && s.up && HasTarget(s)
      && (!s.resize.value.stage.Persisted? ==>
            s.resize.value.orphan.None? && s.resize.value.o in s.sbs && s.resize.value.o in s.listed)
  }

  ghost predicate SysInv(s: Sys) {
    && SelInv(s.sel)
    && (forall o :: o in s.sbs ==> SbFine(s, o))
    && (forall o :: o in s.sel.vols ==> VolSynced(s, o))
    && (s.up ==> Ready(s))
    && ResizeFine(s)
    && (forall o :: o in s.dying ==> o in s.sel.vols && o !in s.sbs && o in s.listed)
    && (forall o :: o in s.gone ==> o !in s.sel.vols && o !in s.sbs && o in s.listed)
    && (!s.up ==> s.dying == {} && s.gone == {})
  }

  lemma RebuiltFine(dev: map<ChunkId, Pdev>)
    ensures SelInv(Rebuilt(dev))
  {
    var s := Rebuilt(dev);
    forall c | c in dev
      ensures c in Pool(s, dev[c]) && !Owned(s, c)
    {
      assert dev[c] in dev.Values;
    }
  }

  /** The conditions that recovery asserts are met by every persisted volume that is not yet back. */
  lemma RecoveryNeverAsserts(s: Sys, o: Ordinal)
    requires SysInv(s) && !s.up && o in s.sbs && o !in s.sel.vols
    ensures CanStep(s, RecoverVol(o))
  {
    var b := s.sbs[o];
    assert SbFine(s, o);
    forall c | c in b.ids
      ensures !Owned(s.sel, c) && c in Pool(s.sel, b.pdev) && c !in s.sel.tagged
    {
      NotOwned(s, o, c);
    }
  }

  /** A chunk in the list of a volume that is not back yet belongs to no other volume. */
  lemma NotOwned(s: Sys, o: Ordinal, c: ChunkId)
    requires SysInv(s) && o in s.sbs && o !in s.sel.vols && c in s.sbs[o].ids
    ensures !Owned(s.sel, c)
  {
    assert SbFine(s, o);
    forall o'
      ensures !Owns(s.sel, o', c)
    {
      assert o' in s.sel.vols ==> Apart(s.sel.vols[o'].ids, s.sbs[o].ids);
    }
  }

  // ---------- every step keeps it ----------

  lemma AddChunkKeeps(s: Sys, c: ChunkId, p: Pdev)
    requires SysInv(s) && CanStep(s, AddChunk(c, p))
    ensures SysInv(Take(s, AddChunk(c, p)))
  {
    var s' := Take(s, AddChunk(c, p));
    AddKeeps(s.sel, c, p);
    forall o | o in s'.sbs ensures SbFine(s', o) {
      assert SbFine(s, o);
    }
    forall o | o in s'.sel.vols ensures VolSynced(s', o) {
      assert VolSynced(s, o);
    }
  }

  /** Chunks taken from a free pool are in no persisted list once all persisted volumes are back. */
  lemma FreeIsUnpersisted(s: Sys, c: ChunkId, p: Pdev, o: Ordinal)
    requires SysInv(s) && s.up && c in Pool(s.sel, p) && o in s.sbs
    ensures c !in s.sbs[o].ids
  {
    assert VolSynced(s, o);
    if c in s.sbs[o].ids {
      assert Owns(s.sel, o, c);
      assert Owned(s.sel, c);
    }
  }

  lemma CreateVolKeeps(s: Sys, o: Ordinal, max: nat, p: Pdev, ids: seq<ChunkId>)
    requires SysInv(s) && CanStep(s, CreateVol(o, max, p, ids))
    ensures SysInv(Take(s, CreateVol(o, max, p, ids)))
  {
    var s' := Take(s, CreateVol(o, max, p, ids));
    CreateKeeps(s.sel, o, max, p, ids);
    forall o' | o' in s'.sbs ensures SbFine(s', o') {
      assert SbFine(s, o');
      forall c | c in ids ensures c !in s.sbs[o'].ids {
        FreeIsUnpersisted(s, c, p, o');
      }
    }
    forall o' | o' in s'.sel.vols ensures VolSynced(s', o') {
      assert o' != o ==> VolSynced(s, o');
    }
  }

  lemma PersistNewKeeps(s: Sys, o: Ordinal)
    requires SysInv(s) && CanStep(s, PersistNew(o))
    ensures SysInv(Take(s, PersistNew(o)))
  {
    var s' := Take(s, PersistNew(o));
    assert VolSynced(s, o) && VolFine(s.sel, s.sel.vols[o]);
    OwnedApart(s, o);
    NewSbFine(s, s', o);
    forall o' | o' in s'.sbs ensures SbFine(s', o') {
      if o' != o {
        OtherSbFine(s, s', o, o');
      }
    }
    forall o' | o' in s'.sel.vols ensures VolSynced(s', o') {
      NewSbSynced(s, s', o, o');
    }
  }

  /** `s'` has the superblock of volume `o` added. */
  ghost predicate SbAdded(s: Sys, s': Sys, o: Ordinal) {
    && o in s.sel.vols && o !in s.sbs && s'.sel == s.sel && s'.resize == s.resize
    && s'.sbs == s.sbs[o := Superblock(s.sel.vols[o].pdev, s.sel.vols[o].max, s.sel.vols[o].ids)]
  }

  lemma NewSbFine(s: Sys, s': Sys, o: Ordinal)
    requires SbAdded(s, s', o) && VolFine(s.sel, s.sel.vols[o])
    requires forall o' :: o' in s.sbs && o' != o ==> Apart(s.sbs[o'].ids, s.sel.vols[o].ids)
    requires forall o' :: o' in s.sel.vols && o' != o ==> Apart(s.sel.vols[o'].ids, s.sel.vols[o].ids)
    ensures SbFine(s', o)
  {
  }

  lemma OtherSbFine(s: Sys, s': Sys, o: Ordinal, o': Ordinal)
    requires SbAdded(s, s', o) && o' in s.sbs && SbFine(s, o') && Apart(s.sel.vols[o].ids, s.sbs[o'].ids)
    ensures SbFine(s', o')
  {
  }

  lemma NewSbSynced(s: Sys, s': Sys, o: Ordinal, o': Ordinal)
    requires SbAdded(s, s', o) && VolFine(s.sel, s.sel.vols[o]) && o' in s.sel.vols && VolSynced(s, o')
    ensures VolSynced(s', o')
  {
    assert s.sel.vols[o].ids[..|s.sel.vols[o].ids|] == s.sel.vols[o].ids;
  }

  lemma VolsApart(s: Sys, o: Ordinal, o': Ordinal)
    requires SelInv(s.sel) && o in s.sel.vols && o' in s.sel.vols && o != o'
    ensures Apart(s.sel.vols[o].ids, s.sel.vols[o'].ids)
  {
    forall c | c in s.sel.vols[o].ids
      ensures c !in s.sel.vols[o'].ids
    {
      assert Owns(s.sel, o, c);
      assert c in s.sel.vols[o'].ids ==> Owns(s.sel, o', c);
    }
  }

  /** Steps that touch neither chunks nor superblocks. */
  lemma QuietKeeps(s: Sys, t: Step)
    requires SysInv(s) && CanStep(s, t)
    requires t.Serve? || t.ListVol? || t.SpawnResize? || t.GiveUpResize?
    ensures SysInv(Take(s, t))
  {
    SameBooks(s, Take(s, t));
  }

  /** What is persisted and owned stays fine if only the bookkeeping around it changes. */
  lemma SameBooks(s: Sys, s': Sys)
    requires forall o :: o in s.sbs ==> SbFine(s, o)
    requires forall o :: o in s.sel.vols ==> VolSynced(s, o)
    requires s'.sel == s.sel && s'.sbs == s.sbs
    requires s.resize != s'.resize ==> s.resize.None? && s'.resize.Some? && s'.resize.value.stage.Spawned?
    ensures forall o :: o in s'.sbs ==> SbFine(s', o)
    ensures forall o :: o in s'.sel.vols ==> VolSynced(s', o)
  {
    forall o | o in s'.sbs ensures SbFine(s', o) {
      assert SbFine(s, o);
    }
    forall o | o in s'.sel.vols ensures VolSynced(s', o) {
      assert VolSynced(s, o);
    }
  }

  lemma EraseVolKeeps(s: Sys, o: Ordinal)
    requires SysInv(s) && CanStep(s, EraseVol(o))
    ensures SysInv(Take(s, EraseVol(o)))
  {
    SameBooks(s, Take(s, EraseVol(o)));
  }

  lemma TakeChunksKeeps(s: Sys, ids: seq<ChunkId>)
    requires SysInv(s) && CanStep(s, TakeChunks(ids))
    ensures SysInv(Take(s, TakeChunks(ids)))
  {
    var o := s.resize.value.o;
    var s' := Take(s, TakeChunks(ids));
    assert VolSynced(s, o);
    GrowKeeps(s.sel, o, ids);
    forall o' | o' in s'.sbs ensures SbFine(s', o') {
      GrownApart(s, o, ids, o');
    }
    forall o' | o' in s'.sel.vols ensures VolSynced(s', o') {
      GrownSynced(s, ids, o');
    }
  }

  lemma GrownApart(s: Sys, o: Ordinal, ids: seq<ChunkId>, o': Ordinal)
    requires SysInv(s) && CanStep(s, TakeChunks(ids)) && o == s.resize.value.o && o' in s.sbs
    ensures SbFine(Take(s, TakeChunks(ids)), o')
  {
    assert SbFine(s, o');
    forall c | c in ids
      ensures c !in s.sbs[o'].ids
    {
      FreeIsUnpersisted(s, c, s.sel.vols[o].pdev, o');
    }
  }

  lemma GrownSynced(s: Sys, ids: seq<ChunkId>, o: Ordinal)
    requires SysInv(s) && CanStep(s, TakeChunks(ids)) && o in s.sel.vols
    ensures VolSynced(Take(s, TakeChunks(ids)), o)
  {
    assert VolSynced(s, o);
    if o in s.sbs {
      var n := |s.sbs[o].ids|;
      assert (s.sel.vols[o].ids + ids)[..n] == s.sel.vols[o].ids[..n];
    }
  }

  lemma PersistGrownKeeps(s: Sys)
    requires SysInv(s) && CanStep(s, PersistGrown)
    ensures SysInv(Take(s, PersistGrown))
  {
    var s' := Take(s, PersistGrown);
    forall o' | o' in s'.sbs ensures SbFine(s', o') {
      PersistGrownSb(s, o');
    }
    forall o' | o' in s'.sel.vols ensures VolSynced(s', o') {
      PersistGrownSynced(s, o');
    }
  }

  /** What a volume owns is on no other volume's persisted list and in no other volume's vector. */
  lemma OwnedApart(s: Sys, o: Ordinal)
    requires SysInv(s) && o in s.sel.vols
    ensures forall o' :: o' in s.sbs && o' != o ==> Apart(s.sbs[o'].ids, s.sel.vols[o].ids)
    ensures forall o' :: o' in s.sbs && o' != o ==> Apart(s.sel.vols[o].ids, s.sbs[o'].ids)
    ensures forall o' :: o' in s.sel.vols && o' != o ==> Apart(s.sel.vols[o'].ids, s.sel.vols[o].ids)
  {
    forall o' | o' in s.sbs && o' != o
      ensures Apart(s.sbs[o'].ids, s.sel.vols[o].ids) && Apart(s.sel.vols[o].ids, s.sbs[o'].ids)
    {
      assert SbFine(s, o');
    }
    forall o' | o' in s.sel.vols && o' != o
      ensures Apart(s.sel.vols[o'].ids, s.sel.vols[o].ids)
    {
      VolsApart(s, o', o);
    }
  }

  lemma PersistGrownSb(s: Sys, o': Ordinal)
    requires SysInv(s) && CanStep(s, PersistGrown) && o' in s.sbs
    ensures SbFine(Take(s, PersistGrown), o')
  {
    var o := s.resize.value.o;
    assert VolSynced(s, o) && VolFine(s.sel, s.sel.vols[o]) && SbFine(s, o');
    OwnedApart(s, o);
  }

  lemma PersistGrownSynced(s: Sys, o': Ordinal)
    requires SysInv(s) && CanStep(s, PersistGrown) && o' in s.sel.vols
    ensures VolSynced(Take(s, PersistGrown), o')
  {
    assert VolSynced(s, o') && VolFine(s.sel, s.sel.vols[o']);
    assert s.sel.vols[o'].ids[..|s.sel.vols[o'].ids|] == s.sel.vols[o'].ids;
  }

  lemma FinishResizeKeeps(s: Sys)
    requires SysInv(s) && CanStep(s, FinishResize)
    ensures SysInv(Take(s, FinishResize))
  {
    var s' := Take(s, FinishResize);
    if s.resize.value.orphan.None? {
      ActivateKeeps(s.sel, s.resize.value.o);
    }
    forall o' | o' in s'.sbs ensures SbFine(s', o') {
      assert SbFine(s, o');
    }
    forall o' | o' in s'.sel.vols ensures VolSynced(s', o') {
      assert VolSynced(s, o');
    }
  }

  lemma DestroySbKeeps(s: Sys, o: Ordinal)
    requires SysInv(s) && CanStep(s, DestroySb(o)) && Careful(s, DestroySb(o))
    ensures SysInv(Take(s, DestroySb(o)))
  {
    var s' := Take(s, DestroySb(o));
    forall o' | o' in s'.sbs ensures SbFine(s', o') {
      FewerSbsFine(s, o, o');
    }
    forall o' | o' in s'.sel.vols ensures VolSynced(s', o') {
      FewerSbsSynced(s, o, o');
    }
  }

  lemma FewerSbsFine(s: Sys, o: Ordinal, o': Ordinal)
    requires o' in s.sbs && o' != o && SbFine(s, o')
    ensures SbFine(s.(sbs := s.sbs - {o}, dying := s.dying + {o}), o')
  {
  }

  lemma FewerSbsSynced(s: Sys, o: Ordinal, o': Ordinal)
    requires o' in s.sel.vols && VolSynced(s, o')
    ensures VolSynced(s.(sbs := s.sbs - {o}, dying := s.dying + {o}), o')
  {
  }

  /** The invariant survives the removal of a superblock if and only if the volume has no resize in flight
      that has yet to persist. */
  lemma DestroyExact(s: Sys, o: Ordinal)
    requires SysInv(s) && CanStep(s, DestroySb(o))
    ensures SysInv(Take(s, DestroySb(o))) <==> !(Resizing(s, o) && !s.resize.value.stage.Persisted?)
  {
    if Careful(s, DestroySb(o)) {
      DestroySbKeeps(s, o);
    } else {
      assert !ResizeFine(Take(s, DestroySb(o)));
    }
  }

  lemma ReleaseVolKeeps(s: Sys, o: Ordinal)
    requires SysInv(s) && CanStep(s, ReleaseVol(o))
    ensures SysInv(Take(s, ReleaseVol(o)))
  {
    var s' := Take(s, ReleaseVol(o));
    ReleaseKeeps(s.sel, o);
    FewerVolsKeep(s, s', o);
  }

  lemma FewerVolsKeep(s: Sys, s': Sys, o: Ordinal)
    requires o in s.sel.vols && s'.sel == Release(s.sel, o) && s'.sbs == s.sbs
    requires s'.resize == if Resizing(s, o) then Some(s.resize.value.(orphan := Some(s.sel.vols[o]))) else s.resize
    requires forall o' :: o' in s.sbs ==> SbFine(s, o')
    requires forall o' :: o' in s.sel.vols ==> VolSynced(s, o')
    ensures forall o' :: o' in s'.sbs ==> SbFine(s', o')
    ensures forall o' :: o' in s'.sel.vols ==> VolSynced(s', o')
  {
    forall o' | o' in s'.sbs ensures SbFine(s', o') {
      FewerVolsFine(s, s', o, o');
    }
    forall o' | o' in s'.sel.vols ensures VolSynced(s', o') {
      FewerVolsSynced(s, s', o, o');
    }
  }

  lemma FewerVolsFine(s: Sys, s': Sys, o: Ordinal, o': Ordinal)
    requires o in s.sel.vols && s'.sel == Release(s.sel, o) && s'.sbs == s.sbs
    requires o' in s.sbs && SbFine(s, o')
    ensures SbFine(s', o')
  {
  }

  lemma FewerVolsSynced(s: Sys, s': Sys, o: Ordinal, o': Ordinal)
    requires o in s.sel.vols && s'.sel == Release(s.sel, o) && s'.sbs == s.sbs
    requires s'.resize == if Resizing(s, o) then Some(s.resize.value.(orphan := Some(s.sel.vols[o]))) else s.resize
    requires o' in s.sel.vols && o' != o && VolSynced(s, o')
    ensures VolSynced(s', o')
  {
  }

  lemma CrashKeeps(s: Sys)
    requires SysInv(s)
    ensures SysInv(Take(s, Crash))
  {
    var s' := Take(s, Crash);
    RebuiltFine(s.sel.dev);
    forall o | o in s'.sbs ensures SbFine(s', o) {
      assert SbFine(s, o);
    }
  }

  lemma RecoverVolKeeps(s: Sys, o: Ordinal)
    requires SysInv(s) && CanStep(s, RecoverVol(o))
    ensures SysInv(Take(s, RecoverVol(o)))
  {
    var s', b := Take(s, RecoverVol(o)), s.sbs[o];
    CreateKeeps(s.sel, o, b.max, b.pdev, b.ids);
    forall o' | o' in s'.sbs ensures SbFine(s', o') {
      assert SbFine(s, o') && SbFine(s, o);
    }
    forall o' | o' in s'.sel.vols ensures VolSynced(s', o') {
      assert o' != o ==> VolSynced(s, o');
      assert b.ids[..|b.ids|] == b.ids;
    }
  }

  /** Under the invariant the late persist never finds a destroyed superblock, and the late grow never an orphan. */
  lemma NothingComesLate(s: Sys)
    requires SysInv(s)
    ensures !CanStep(s, PersistRevived)
    ensures s.resize.Some? && s.resize.value.orphan.Some? ==> s.resize.value.stage.Persisted?
  {
  }

  lemma StepKeepsInv(s: Sys, t: Step)
    requires SysInv(s) && CanStep(s, t) && Careful(s, t)
    ensures SysInv(Take(s, t))
  {
    match t
    case AddChunk(c, p) => AddChunkKeeps(s, c, p);
    case CreateVol(o, max, p, ids) => CreateVolKeeps(s, o, max, p, ids);
    case PersistNew(o) => PersistNewKeeps(s, o);
    case TakeChunks(ids) => TakeChunksKeeps(s, ids);
    case PersistGrown => PersistGrownKeeps(s);
    case PersistRevived => NothingComesLate(s); assert false;
    case FinishResize => FinishResizeKeeps(s);
    case DestroySb(o) => DestroySbKeeps(s, o);
    case ReleaseVol(o) => ReleaseVolKeeps(s, o);
    case EraseVol(o) => EraseVolKeeps(s, o);
    case Crash => CrashKeeps(s);
    case RecoverVol(o) => RecoverVolKeeps(s, o);
    case _ => QuietKeeps(s, t);
  }

  // ---------- whole runs ----------

  ghost predicate ValidRun(s: Sys, ts: seq<Step>)
    decreases |ts|
  {
    ts == [] || (CanStep(s, ts[0]) && ValidRun(Take(s, ts[0]), ts[1..]))
  }

  ghost function Run(s: Sys, ts: seq<Step>): Sys
    requires ValidRun(s, ts)
    decreases |ts|
  {
    if ts == [] then s else Run(Take(s, ts[0]), ts[1..])
  }

  /** A run in which no volume is destroyed before its own resize has persisted. */
  ghost predicate CarefulRun(s: Sys, ts: seq<Step>)
    decreases |ts|
  {
    ts == [] || (CanStep(s, ts[0]) && Careful(s, ts[0]) && CarefulRun(Take(s, ts[0]), ts[1..]))
  }

  lemma {:induction false} RunKeepsInv(s: Sys, ts: seq<Step>)
    requires SysInv(s) && CarefulRun(s, ts)
    ensures ValidRun(s, ts) && SysInv(Run(s, ts))
    decreases |ts|
  {
    if ts != [] {
      StepKeepsInv(s, ts[0]);
      RunKeepsInv(Take(s, ts[0]), ts[1..]);
    }
  }

  lemma {:induction false} NoDestroyIsCareful(s: Sys, ts: seq<Step>)
    requires ValidRun(s, ts) && forall t :: t in ts ==> !t.DestroySb?
    ensures CarefulRun(s, ts)
    decreases |ts|
  {
    if ts != [] {
      assert ts[0] in ts && forall t :: t in ts[1..] ==> t in ts;
      NoDestroyIsCareful(Take(s, ts[0]), ts[1..]);
    }
  }

  /** Every chunk a volume may allocate from is on its persisted list. */
  ghost predicate ActivePersisted(s: Sys) {
    forall o, i :: o in s.sel.vols && o in s.sbs && 0 <= i < s.sel.vols[o].active ==>
                     i < |s.sel.vols[o].ids| && s.sel.vols[o].ids[i] in s.sbs[o].ids
  }

  /** No two persisted lists share a chunk. */
  ghost predicate ListsApart(s: Sys) {
    forall o, o' :: o in s.sbs && o' in s.sbs && o != o' ==> Apart(s.sbs[o].ids, s.sbs[o'].ids)
  }

  ghost predicate Safe(s: Sys) {
    SelInv(s.sel) && ActivePersisted(s) && ListsApart(s)
  }

  lemma InvIsSafe(s: Sys)
    requires SysInv(s)
    ensures Safe(s)
  {
    forall o, i | o in s.sel.vols && o in s.sbs && 0 <= i < s.sel.vols[o].active
      ensures i < |s.sel.vols[o].ids| && s.sel.vols[o].ids[i] in s.sbs[o].ids
    {
      assert VolSynced(s, o) && VolFine(s.sel, s.sel.vols[o]);
      assert s.sbs[o].ids[i] == s.sel.vols[o].ids[i];
    }
    forall o, o' | o in s.sbs && o' in s.sbs && o != o'
      ensures Apart(s.sbs[o].ids, s.sbs[o'].ids)
    {
      assert SbFine(s, o');
    }
  }

  /** In every careful run, crashes included: each chunk is in exactly one place, each live volume may allocate
      only from chunks on its persisted list, and no two persisted lists share a chunk. */
  lemma EveryRunIsSafe(ts: seq<Step>)
    requires CarefulRun(BOOT, ts)
    ensures ValidRun(BOOT, ts) && Safe(Run(BOOT, ts))
  {
    RunKeepsInv(BOOT, ts);
    InvIsSafe(Run(BOOT, ts));
  }

  lemma RunOne(s: Sys, t: Step, ts: seq<Step>)
    requires CanStep(s, t) && ValidRun(Take(s, t), ts)
    ensures ValidRun(s, [t] + ts) && Run(s, [t] + ts) == Run(Take(s, t), ts)
  {
    TailOfCons(t, ts);
  }

  lemma {:induction false} RunAppend(s: Sys, ts: seq<Step>, us: seq<Step>)
    requires ValidRun(s, ts) && ValidRun(Run(s, ts), us)
    ensures ValidRun(s, ts + us) && Run(s, ts + us) == Run(Run(s, ts), us)
    decreases |ts|
  {
    if ts == [] {
      assert ts + us == us;
    } else {
      RunAppend(Take(s, ts[0]), ts[1..], us);
      TailOfAppend(ts, us);
    }
  }

  /** One more step at the end of a run. */
  lemma RunThen(s: Sys, ts: seq<Step>, t: Step) returns (us: seq<Step>)
    requires ValidRun(s, ts) && CanStep(Run(s, ts), t)
    ensures us == ts + [t] && ValidRun(s, us) && Run(s, us) == Take(Run(s, ts), t)
  {
    var r := Run(s, ts);
    assert [t][1..] == [] && ValidRun(Take(r, t), []);
    RunAppend(s, ts, [t]);
    us := ts + [t];
  }

  // ---------- recovery ----------

  /** The recovery of the volumes of `order`, one after the other. */
  function Recoveries(order: seq<Ordinal>): (ts: seq<Step>)
    ensures |ts| == |order|
  {
    seq(|order|, i requires 0 <= i < |order| => RecoverVol(order[i]))
  }

  /** The volume has all of its persisted chunks, and all are active. */
  ghost predicate Back(r: Sys, o: Ordinal) {
    o in r.sbs && o in r.sel.vols && r.sel.vols[o].ids == r.sbs[o].ids && r.sel.vols[o].active == |r.sbs[o].ids|
  }

  lemma RecoverOne(s: Sys, o: Ordinal)
    requires SysInv(s) && !s.up && o in s.sbs && o !in s.sel.vols
    ensures CanStep(s, RecoverVol(o))
    ensures SysInv(Take(s, RecoverVol(o))) && Take(s, RecoverVol(o)).sbs == s.sbs && !Take(s, RecoverVol(o)).up
    ensures forall o' :: o' in Take(s, RecoverVol(o)).sel.vols <==> o' in s.sel.vols || o' == o
    ensures forall o' :: o' == o || Back(s, o') ==> Back(Take(s, RecoverVol(o)), o')
  {
    RecoveryNeverAsserts(s, o);
    StepKeepsInv(s, RecoverVol(o));
  }

  ghost predicate Waiting(s: Sys, order: seq<Ordinal>) {
    !s.up && Distinct(order) && forall o :: o in order ==> o in s.sbs && o !in s.sel.vols
  }

  lemma WaitingRest(s: Sys, order: seq<Ordinal>, s': Sys)
    requires order != [] && Waiting(s, order) && s'.sbs == s.sbs && !s'.up
    requires forall o :: o in s'.sel.vols <==> o in s.sel.vols || o == order[0]
    ensures Waiting(s', order[1..])
  {
    forall o | o in order[1..]
      ensures o in order && o != order[0]
    {
      var i :| 0 <= i < |order| - 1 && order[1..][i] == o;
      assert order[i + 1] == o;
    }
  }

  /** The recoveries end in `r`, with everything back that is listed or was back before. */
  ghost predicate Recovered(s: Sys, order: seq<Ordinal>, r: Sys) {
    r.sbs == s.sbs && forall o :: o in order || Back(s, o) ==> Back(r, o)
  }

  lemma RecoveredMore(s: Sys, order: seq<Ordinal>, s': Sys, r: Sys)
    requires order != [] && Recovered(s', order[1..], r) && s'.sbs == s.sbs
    requires forall o :: o == order[0] || Back(s, o) ==> Back(s', o)
    ensures Recovered(s, order, r)
  {
    assert forall o :: o in order ==> o == order[0] || o in order[1..];
  }

  lemma {:induction false} RecoverAll(s: Sys, order: seq<Ordinal>)
    requires SysInv(s) && Waiting(s, order)
    ensures ValidRun(s, Recoveries(order)) && Recovered(s, order, Run(s, Recoveries(order)))
    decreases |order|
  {
    if order == [] {
      assert Recoveries(order) == [];
    } else {
      RecoverOne(s, order[0]);
      var s' := Take(s, RecoverVol(order[0]));
      WaitingRest(s, order, s');
      RecoverAll(s', order[1..]);
      assert Recoveries(order)[1..] == Recoveries(order[1..]);
      RecoveredMore(s, order, s', Run(s', Recoveries(order[1..])));
    }
  }

  /** From any point of any run a crash can be followed by the recovery of all persisted volumes, in any
      order, without tripping an assertion; and each volume that was live then has, among the chunks it may
      now allocate from, every chunk that it could have allocated from before the crash. */
  lemma CrashRecovery(ts: seq<Step>, order: seq<Ordinal>)
    requires CarefulRun(BOOT, ts) && ValidRun(BOOT, ts)
    requires Distinct(order) && forall o :: o in order <==> o in Run(BOOT, ts).sbs
    ensures var s := Run(BOOT, ts);
            && ValidRun(s, [Crash] + Recoveries(order))
            && var r := Run(s, [Crash] + Recoveries(order));
               Safe(r) && Ready(r) && forall o :: o in s.sel.vols && o in s.sbs ==> Regained(s.sel.vols[o], r, o)
  {
    RunKeepsInv(BOOT, ts);
    Restarted(Run(BOOT, ts), order);
  }

  lemma RecoveredSafely(c: Sys, order: seq<Ordinal>)
    requires SysInv(c) && Waiting(c, order)
    ensures ValidRun(c, Recoveries(order))
    ensures var r := Run(c, Recoveries(order)); Safe(r) && Recovered(c, order, r)
  {
    RecoverAll(c, order);
    NoDestroyIsCareful(c, Recoveries(order));
    RunKeepsInv(c, Recoveries(order));
    InvIsSafe(Run(c, Recoveries(order)));
  }

  lemma Restarted(s: Sys, order: seq<Ordinal>)
    requires SysInv(s) && Distinct(order) && forall o :: o in order <==> o in s.sbs
    ensures ValidRun(s, [Crash] + Recoveries(order))
    ensures var r := Run(s, [Crash] + Recoveries(order));
            Safe(r) && Ready(r) && forall o :: o in s.sel.vols && o in s.sbs ==> Regained(s.sel.vols[o], r, o)
  {
    var c, ts := Take(s, Crash), [Crash] + Recoveries(order);
    CrashKeeps(s);
    assert ts[1..] == Recoveries(order);
    RecoveredSafely(c, order);
    var r := Run(s, ts);
    forall o | o in r.sbs
      ensures Back(r, o)
    {
      assert o in order;
    }
    forall o | o in s.sel.vols && o in s.sbs
      ensures Regained(s.sel.vols[o], r, o)
    {
      ListedIsRegained(s, r, o);
    }
  }

  lemma ListedIsRegained(s: Sys, r: Sys, o: Ordinal)
    requires SysInv(s) && o in s.sel.vols && o in s.sbs && r.sbs == s.sbs && Back(r, o)
    ensures Regained(s.sel.vols[o], r, o)
  {
    assert VolSynced(s, o);
  }

  /** Every chunk that was active is again among the active ones. */
  ghost predicate Regained(before: VolChunks, r: Sys, o: Ordinal) {
    && o in r.sel.vols && before.active <= |before.ids|
    && before.active <= r.sel.vols[o].active <= |r.sel.vols[o].ids|
    && forall i :: 0 <= i < before.active ==> before.ids[i] == r.sel.vols[o].ids[i]
  }

  // ---------- the latch ----------

  /** A resize that gives up after taking the latch never returns it: until the next crash no resize starts
      again, for any volume, and no volume's set of active chunks ever grows. */
  lemma {:induction false} GivingUpBlocksResizing(s: Sys, ts: seq<Step>, o: Ordinal)
    requires SysInv(s) && GivenUp(s) && CarefulRun(s, ts) && o in s.sel.vols
    requires forall t :: t in ts ==> !t.Crash? && t != ReleaseVol(o)
    ensures ValidRun(s, ts)
    ensures var r := Run(s, ts); GivenUp(r) && o in r.sel.vols && r.sel.vols[o] == s.sel.vols[o]
    decreases |ts|
  {
    if ts != [] {
      assert ts[0] in ts && forall t :: t in ts[1..] ==> t in ts;
      StepKeepsInv(s, ts[0]);
      GivenUpStays(s, ts[0], o);
      GivingUpBlocksResizing(Take(s, ts[0]), ts[1..], o);
    }
  }

  /** The latch is taken and no task will give it back. */
  predicate GivenUp(s: Sys) {
    s.latch && s.resize.None?
  }

  lemma GivenUpStays(s: Sys, t: Step, o: Ordinal)
    requires CanStep(s, t) && GivenUp(s) && !t.Crash? && t != ReleaseVol(o) && o in s.sel.vols
    ensures GivenUp(Take(s, t)) && o in Take(s, t).sel.vols && Take(s, t).sel.vols[o] == s.sel.vols[o]
  {
  }

  /** Giving up is the only step that leaves the latch taken with no resize under way. */
  lemma OnlyGivingUpLeaksLatch(s: Sys, t: Step)
    requires SysInv(s) && CanStep(s, t) && (s.latch ==> s.resize.Some?)
    ensures GivenUp(Take(s, t)) <==> t.GiveUpResize?
  {
  }
}
