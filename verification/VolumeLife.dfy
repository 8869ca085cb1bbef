/** The life of a volume as the crash machine runs it when nothing gets in the way: creation, a resize, removal. */
module VolumeLife {
  import opened Spans
  import opened ChunkSelector
  import opened ChunkOwnership

  lemma OneStep(s: Sys, t: Step)
    requires CanStep(s, t)
    ensures ValidRun(s, [t]) && Run(s, [t]) == Take(s, t)
  {
    var ts := RunThen(s, [], t);
    assert ts == [t];
  }

  /** The chunks have left the pool of the device; no other pool has changed. */
  ghost predicate Left(s: Sel, s': Sel, p: Pdev, ids: seq<ChunkId>) {
    s'.dev == s.dev && forall q :: Pool(s', q) == if q == p then Pool(s, q) - Elems(ids) else Pool(s, q)
  }

  /** A new volume has the chunks it was given, all active, and they are on its persisted list. */
  lemma CreationRuns(s: Sys, o: Ordinal, max: nat, p: Pdev, ids: seq<ChunkId>)
    requires SysInv(s) && CanStep(s, CreateVol(o, max, p, ids)) && o !in s.sel.vols
    ensures var ts := [CreateVol(o, max, p, ids), PersistNew(o)] + [ListVol(o)];
            && ValidRun(s, ts)
            && var r := Run(s, ts);
               && r.sel.vols == s.sel.vols[o := VolChunks(ids, |ids|, max, p)] && Left(s.sel, r.sel, p, ids)
               && r.sbs == s.sbs[o := Superblock(p, max, ids)] && r.listed == s.listed + {o}
               && r.latch == s.latch && r.resize == s.resize
  {
    var c := Take(s, CreateVol(o, max, p, ids));
    assert o !in s.dying;
    var ts := RunThen(s, [], CreateVol(o, max, p, ids));
    ts := RunThen(s, ts, PersistNew(o));
    assert ts == [CreateVol(o, max, p, ids), PersistNew(o)];
    ts := RunThen(s, ts, ListVol(o));
  }

  /** A resize that runs through adds its chunks behind the ones the volume has, all active then and all on the
      persisted list, and gives the latch back. */
  lemma ResizeRuns(s: Sys, o: Ordinal, ids: seq<ChunkId>)
    requires SysInv(s) && CanStep(s, SpawnResize(o))
    requires Distinct(ids) && Within(ids, Pool(s.sel, s.sel.vols[o].pdev)) && |ids| == ResizeCount(s.sel.vols[o]) > 0
    ensures var ts := [SpawnResize(o), TakeChunks(ids)] + [PersistGrown, FinishResize];
            && ValidRun(s, ts)
            && var r, v := Run(s, ts), s.sel.vols[o];
               && r.sel.vols == s.sel.vols[o := VolChunks(v.ids + ids, |v.ids| + |ids|, v.max, v.pdev)]
               && Left(s.sel, r.sel, v.pdev, ids)
               && r.sbs == s.sbs[o := Superblock(v.pdev, v.max, v.ids + ids)]
               && !r.latch && r.resize.None? && r.listed == s.listed
  {
    assert VolSynced(s, o);
    TakingRuns(s, o, ids);
    var ts := [SpawnResize(o), TakeChunks(ids)];
    GrownRuns(Run(s, ts), o);
    RunAppend(s, ts, [PersistGrown, FinishResize]);
    Resized(s, o, ids, Run(s, ts), Run(s, ts + [PersistGrown, FinishResize]));
  }

  lemma TakingRuns(s: Sys, o: Ordinal, ids: seq<ChunkId>)
    requires CanStep(s, SpawnResize(o)) && Distinct(ids) && Within(ids, Pool(s.sel, s.sel.vols[o].pdev))
    requires |ids| == ResizeCount(s.sel.vols[o]) > 0
    ensures var ts := [SpawnResize(o), TakeChunks(ids)];
            && ValidRun(s, ts)
            && Run(s, ts) == s.(sel := Grow(s.sel, o, ids), latch := true, resize := Some(Resize(o, Taken, None)))
  {
    var ts := RunThen(s, [], SpawnResize(o));
    ts := RunThen(s, ts, TakeChunks(ids));
    assert ts == [SpawnResize(o), TakeChunks(ids)];
  }

  /** From the volume before the resize to the one after. */
  lemma Resized(s: Sys, o: Ordinal, ids: seq<ChunkId>, g: Sys, r: Sys)
    requires o in s.sel.vols && o in s.sbs && g.sel == Grow(s.sel, o, ids) && g.sbs == s.sbs
    requires s.sbs[o].pdev == s.sel.vols[o].pdev && s.sbs[o].max == s.sel.vols[o].max
    requires r.sel == g.sel.(vols := g.sel.vols[o := g.sel.vols[o].(active := |g.sel.vols[o].ids|)])
    requires r.sbs == g.sbs[o := g.sbs[o].(ids := g.sel.vols[o].ids)]
    ensures var v := s.sel.vols[o];
            && r.sel.vols == s.sel.vols[o := VolChunks(v.ids + ids, |v.ids| + |ids|, v.max, v.pdev)]
            && Left(s.sel, r.sel, v.pdev, ids)
            && r.sbs == s.sbs[o := Superblock(v.pdev, v.max, v.ids + ids)]
  {
  }

  lemma GrownRuns(g: Sys, o: Ordinal)
    requires Resizing(g, o) && g.resize.value.stage.Taken? && o in g.sel.vols && o in g.listed && o in g.sbs
    ensures var ts, v := [PersistGrown, FinishResize], g.sel.vols[o];
            && ValidRun(g, ts)
            && Run(g, ts) == g.(sel := g.sel.(vols := g.sel.vols[o := v.(active := |v.ids|)]),
                                sbs := g.sbs[o := g.sbs[o].(ids := v.ids)], latch := false, resize := None)
  {
    var ts := RunThen(g, [], PersistGrown);
    ts := RunThen(g, ts, FinishResize);
    assert ts == [PersistGrown, FinishResize];
  }

  /** A removal takes away the superblock first; in the end the volume is nowhere and its chunks are free. */
  lemma RemovalRuns(s: Sys, o: Ordinal)
    requires CanStep(s, DestroySb(o)) && !Resizing(s, o) && o !in s.dying
    ensures var ts := [DestroySb(o), ReleaseVol(o)] + [EraseVol(o)];
            && ValidRun(s, ts)
            && var r, v := Run(s, ts), s.sel.vols[o];
               && r.sel.vols == s.sel.vols - {o} && r.sbs == s.sbs - {o} && r.listed == s.listed - {o}
               && r.sel.dev == s.sel.dev
               && forall p :: Pool(r.sel, p) == Pool(s.sel, p) + if p == v.pdev then Elems(v.ids) else {}
  {
    var ts := RunThen(s, [], DestroySb(o));
    ts := RunThen(s, ts, ReleaseVol(o));
    assert ts == [DestroySb(o), ReleaseVol(o)];
    ts := RunThen(s, ts, EraseVol(o));
  }

  /** A crash leaves the known chunks and the superblocks; every chunk is free until its volume is recovered. */
  lemma CrashMeans(s: Sys)
    ensures var r := Take(s, Crash);
            && r.sbs == s.sbs && r.sel.dev == s.sel.dev && r.sel.vols == map[] && !r.up && !r.latch
            && r.resize.None? && r.listed == {}
            && forall p, c :: c in Pool(r.sel, p) <==> c in s.sel.dev && s.sel.dev[c] == p
  {
  }

  /** A recovered volume has the chunks of its persisted list, all active, and they are free no more. */
  lemma RecoveryMeans(s: Sys, o: Ordinal)
    requires CanStep(s, RecoverVol(o))
    ensures var r, b := Take(s, RecoverVol(o)), s.sbs[o];
            && r.sel.vols == s.sel.vols[o := VolChunks(b.ids, |b.ids|, b.max, b.pdev)]
            && Left(s.sel, r.sel, b.pdev, b.ids) && r.sbs == s.sbs && r.listed == s.listed + {o}
  {
  }
}
