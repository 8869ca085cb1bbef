/** The chunk selector object.  A volume's chunks are a fixed-length vector of optional entries that is filled
    from the front; the rest of the state is read off directly. */
module ChunkSelectorObject {
  import opened Spans
  import opened ChunkSelector
  import opened Division
  import opened Widths

  /** The chunk vector of a volume; its length is the largest number of chunks the volume can have. */
  datatype Vector = Vector(slots: seq<Option<ChunkId>>, active: nat, pdev: Pdev)

  /** The entries of a vector that are set, in order. */
  function Filled(slots: seq<Option<ChunkId>>): seq<ChunkId> {
    if slots == [] then []
    else Filled(slots[..|slots| - 1]) + if slots[|slots| - 1].Some? then [slots[|slots| - 1].value] else []
  }

  /** Set entries come before unset ones. */
  ghost predicate FrontFilled(slots: seq<Option<ChunkId>>, n: nat) {
    n <= |slots| && forall i :: 0 <= i < |slots| ==> (slots[i].Some? <==> i < n)
  }

  lemma {:induction false} FilledAt(slots: seq<Option<ChunkId>>, n: nat)
    requires FrontFilled(slots, n)
    ensures |Filled(slots)| == n
    ensures forall i :: 0 <= i < n ==> Filled(slots)[i] == slots[i].value
    decreases |slots|
  {
    if slots != [] {
      var m := |slots| - 1;
      var init := slots[..m];
      assert forall i :: 0 <= i < m ==> init[i] == slots[i];
      FilledAt(init, if n <= m then n else m);
    }
  }

  /** A vector of length `max` that starts with `ids`. */
  function Padded(ids: seq<ChunkId>, max: nat): (slots: seq<Option<ChunkId>>)
    requires |ids| <= max
    ensures |slots| == max
  {
    seq(max, i requires 0 <= i < max => if i < |ids| then Some(ids[i]) else None)
  }

  lemma PaddedFilled(ids: seq<ChunkId>, max: nat)
    requires |ids| <= max
    ensures FrontFilled(Padded(ids, max), |ids|) && Filled(Padded(ids, max)) == ids
  {
    FilledAt(Padded(ids, max), |ids|);
  }

  function AsChunks(v: Vector): VolChunks {
    VolChunks(Filled(v.slots), v.active, |v.slots|, v.pdev)
  }

  ghost function AllChunks(vols: map<Ordinal, Vector>): map<Ordinal, VolChunks> {
    map o | o in vols :: AsChunks(vols[o])
  }

  ghost predicate Fine(v: Vector) {
    |Filled(v.slots)| <= |v.slots| && v.slots == Padded(Filled(v.slots), |v.slots|)
  }

  ghost predicate CanTake(pool: set<ChunkId>, ids: seq<ChunkId>, n: nat) {
    Distinct(ids) && Within(ids, pool) && |ids| == n
  }

  ghost predicate AllFine(vols: map<Ordinal, Vector>) {
    forall o :: o in vols ==> Fine(vols[o])
  }

  /** `s'` is `s` with chunks moved from the pool of a device into a volume, which is now `v`. */
  ghost predicate Gave(s: Sel, s': Sel, o: Ordinal, v: VolChunks, ids: seq<ChunkId>) {
    && s'.dev == s.dev && s'.vols == s.vols[o := v]
    && forall p :: Pool(s', p) == if p == v.pdev then Pool(s, p) - Elems(ids) else Pool(s, p)
  }

  /** The chunks are marked as belonging to the volume, and no other mark has changed. */
  ghost predicate Marked(s: Sel, s': Sel, o: Ordinal, ids: seq<ChunkId>) {
    && (forall c :: c in s'.tagged <==> c in s.tagged || c in ids)
    && (forall c :: c in s'.tagged ==> s'.tagged[c] == if c in ids then o else s.tagged[c])
  }

  lemma CreateMoves(s: Sel, o: Ordinal, max: nat, p: Pdev, ids: seq<ChunkId>, s': Sel)
    requires s' == Create(s, o, max, p, ids)
    ensures Gave(s, s', o, VolChunks(ids, |ids|, max, p), ids) && Marked(s, s', o, ids)
  {
  }

  lemma AllChunksUpdate(vols: map<Ordinal, Vector>, o: Ordinal, v: Vector)
    ensures AllChunks(vols[o := v]) == AllChunks(vols)[o := AsChunks(v)]
  {
  }

  lemma NewVector(ids: seq<ChunkId>, max: nat, p: Pdev)
    requires |ids| <= max
    ensures var v := Vector(Padded(ids, max), |ids|, p); Fine(v) && AsChunks(v) == VolChunks(ids, |ids|, max, p)
  {
    PaddedFilled(ids, max);
  }

  lemma ActivatedView(s: Sel, vols: map<Ordinal, Vector>, o: Ordinal)
    requires s.vols == AllChunks(vols) && o in vols && AllFine(vols)
    ensures var v := vols[o].(active := |Filled(vols[o].slots)|);
            AllChunks(vols[o := v]) == Activate(s, o).vols && AllFine(vols[o := v])
  {
    AllChunksUpdate(vols, o, vols[o].(active := |Filled(vols[o].slots)|));
  }

  lemma ReleasedView(s: Sel, vols: map<Ordinal, Vector>, o: Ordinal)
    requires s.vols == AllChunks(vols) && o in vols && AllFine(vols)
    ensures AllChunks(vols - {o}) == Release(s, o).vols && AllFine(vols - {o})
  {
  }

  class VolumeChunkSelector {
    const chunkSize: nat
    var dev: map<ChunkId, Pdev>
    var perDev: map<Pdev, set<ChunkId>>
    var tag: map<ChunkId, Ordinal>
    var vols: map<Ordinal, Vector>
    var unknown: set<ChunkId>
    var latch: bool
    var cursor: map<Ordinal, nat>

    ghost function View(): Sel
      reads this
    {
      Sel(dev, perDev, tag, AllChunks(vols))
    }

    ghost predicate Valid()
      reads this
    {
      && chunkSize > 0
      && SelInv(View())
      && AllFine(vols)
    }

    constructor (chunkSize: nat)
      requires chunkSize > 0
      ensures Valid() && View() == NO_CHUNKS && unknown == {} && !latch && this.chunkSize == chunkSize
    {
      this.chunkSize := chunkSize;
      dev, perDev, tag, vols, unknown := map[], map[], map[], map[], {};
      latch, cursor := false, map[];
    }

    method AddChunk(c: ChunkId, p: Pdev)
      requires Valid() && c !in dev && c !in unknown
      modifies this`dev, this`perDev
      ensures Valid() && View() == Add(old(View()), c, p)
      ensures dev == old(dev)[c := p]
      ensures forall q :: Pool(View(), q) == if q == p then Pool(old(View()), q) + {c} else Pool(old(View()), q)
    {
      AddKeeps(View(), c, p);
      dev := dev[c := p];
      perDev := perDev[p := (if p in perDev then perDev[p] else {}) + {c}];
    }

    /** Take `n` chunks, whichever come first, out of the pool of a device. */
    method TakeFrom(p: Pdev, n: nat) returns (ids: seq<ChunkId>)
      requires p in perDev && n <= |perDev[p]|
      modifies this`perDev
      ensures CanTake(old(perDev[p]), ids, n)
      ensures perDev == old(perDev)[p := old(perDev[p]) - Elems(ids)]
    {
      ids := [];
      var pool := perDev[p];
      while |ids| < n
        invariant |ids| <= n && Distinct(ids) && Within(ids, old(perDev[p]))
        invariant pool == old(perDev[p]) - Elems(ids)
        invariant |pool| + |ids| == |old(perDev[p])|
      {
        var c :| c in pool;
        ghost var longer := ids + [c];
        assert Elems(longer) == Elems(ids) + {c};
        ids := ids + [c];
        pool := pool - {c};
      }
      perDev := perDev[p := pool];
    }

    /** The first device that could hold `total` chunks gives `init` of them. */
    method AllocateFromAnyPdev(init: nat, total: nat) returns (p: Pdev, ids: seq<ChunkId>)
      requires 0 < init <= total
      modifies this`perDev
      ensures ids == [] <==> forall q :: q in old(perDev) ==> |old(perDev)[q]| < total
      ensures ids == [] ==> perDev == old(perDev)
      ensures ids != [] ==>
                && p in old(perDev) && |old(perDev)[p]| >= total && CanTake(old(perDev)[p], ids, init)
                && perDev == old(perDev)[p := old(perDev)[p] - Elems(ids)]
    {
      var todo := perDev.Keys;
      p, ids := 0, [];
      while todo != {}
        invariant todo <= perDev.Keys && perDev == old(perDev) && ids == []
        invariant forall q :: q in perDev && q !in todo ==> |perDev[q]| < total
        decreases |todo|
      {
        p :| p in todo;
        if |perDev[p]| >= total {
          ids := TakeFrom(p, init);
          return;
        }
        todo := todo - {p};
      }
    }

    /** Chunks for a new volume.  A device is chosen for its room for all `max` chunks, but only the first
        few are taken; a volume that has chunks already just gets to hear which. */
    method AllocateInitChunks(o: Ordinal, size: nat, lazy: bool) returns (p: Pdev, ids: seq<ChunkId>)
      requires Valid()
      modifies this`perDev, this`tag, this`vols
      ensures Valid()
      ensures o in old(vols) ==> View() == old(View()) && ids == old(View()).vols[o].ids
      ensures o !in old(vols) ==>
                var max := MaxChunks(size, chunkSize);
                && (ids == [] <==> forall q :: q in old(perDev) ==> |old(perDev)[q]| < max)
                && (ids == [] ==> View() == old(View()))
                && (ids != [] ==>
                      && CanCreate(old(View()), o, max, p, ids) && |ids| == InitialActive(max, lazy)
                      && |Pool(old(View()), p)| >= max
                      && View() == Create(old(View()), o, max, p, ids)
                      && Gave(old(View()), View(), o, VolChunks(ids, |ids|, max, p), ids)
                      && Marked(old(View()), View(), o, ids))
    {
      p := 0;
      if o in vols {
        ids := Filled(vols[o].slots);
        return;
      }
      ghost var s := View();
      var max := MaxChunks(size, chunkSize);
      p, ids := AllocateFromAnyPdev(InitialActive(max, lazy), max);
      if ids == [] {
        return;
      }
      CreateKeeps(s, o, max, p, ids);
      Install(o, max, p, ids, s);
      CreateMoves(s, o, max, p, ids, View());
    }

    /** Make a vector of the chunks taken and tag them. */
    method Install(o: Ordinal, max: nat, p: Pdev, ids: seq<ChunkId>, ghost s: Sel)
      requires AllFine(vols) && |ids| <= max
      requires View() == s.(free := perDev) && perDev == s.free[p := Pool(s, p) - Elems(ids)]
      modifies this`tag, this`vols
      ensures AllFine(vols) && View() == Create(s, o, max, p, ids)
    {
      TagAll(o, ids, s);
      var v := Vector(Padded(ids, max), |ids|, p);
      NewVector(ids, max, p);
      AllChunksUpdate(vols, o, v);
      vols := vols[o := v];
    }

    method TagAll(o: Ordinal, ids: seq<ChunkId>, ghost s: Sel)
      requires tag == s.tagged
      modifies this`tag
      ensures TaggedWith(s, o, ids, tag)
    {
      for i := 0 to |ids|
        invariant TaggedWith(s, o, ids[..i], tag)
      {
        TaggedMore(s, o, ids[..i], tag, ids[i]);
        assert ids[..i + 1] == ids[..i] + [ids[i]];
        tag := tag[ids[i] := o];
      }
      assert ids[..|ids|] == ids;
    }

    /** Whether a resize may start: the latch is taken, but it is not given back when the second look finds
        that another thread has already made room, that is, enough free blocks and more than half of all. */
    method TryStartResize(nblks: nat, available: nat, total: nat) returns (started: bool)
      requires total > 0
      modifies this`latch
      ensures started <==> !old(latch) && (nblks >= available || 2 * available <= total)
      ensures latch
    {
      if latch {
        return false;
      }
      latch := true;
      var ratio := available as real / total as real;
      if nblks < available && ratio > 0.5 {
        HalfFree(available, total);
        return false;
      }
      if nblks < available {
        HalfFree(available, total);
      }
      return true;
    }

    /** The allocating half of a resize: up to three more chunks from the volume's own device go behind the
        active ones.  If the device cannot give them, or none are wanted, the process aborts. */
    method GrowVolume(o: Ordinal) returns (ok: bool, ids: seq<ChunkId>)
      requires Valid() && o in vols && |Filled(vols[o].slots)| == vols[o].active
      modifies this`perDev, this`vols
      ensures Valid()
      ensures var v := old(View()).vols[o]; var pool := Pool(old(View()), v.pdev);
              var n := if v.max - v.active < 3 then v.max - v.active else 3;
              && (ok <==> 0 < n <= |pool|)
              && (ok ==>
                    && CanTake(pool, ids, n) && View() == Grow(old(View()), o, ids)
                    && Gave(old(View()), View(), o, VolChunks(v.ids + ids, v.active, v.max, v.pdev), ids))
      ensures !ok ==> View() == old(View())
    {
      ghost var s := View();
      var v := vols[o];
      assert VolFine(s, s.vols[o]);
      var n := ResizeCount(AsChunks(v));
      var room := if v.pdev in perDev then |perDev[v.pdev]| else 0;
      if n > room || n == 0 {
        return false, [];
      }
      ids := TakeFrom(v.pdev, n);
      GrowKeeps(s, o, ids);
      Extend(o, ids, s);
      return true, ids;
    }

    /** Put the chunks taken into the vector, behind the active ones. */
    method Extend(o: Ordinal, ids: seq<ChunkId>, ghost s: Sel)
      requires AllFine(vols) && o in vols && o in s.vols
      requires s.vols[o].active == |s.vols[o].ids| && |s.vols[o].ids| + |ids| <= s.vols[o].max
      requires View() == s.(free := s.free[s.vols[o].pdev := Pool(s, s.vols[o].pdev) - Elems(ids)])
      modifies this`vols
      ensures AllFine(vols) && View() == Grow(s, o, ids)
    {
      assert s.vols[o] == AsChunks(vols[o]);
      var slots := FillSlots(vols[o].slots, vols[o].active, ids);
      AllChunksUpdate(vols, o, vols[o].(slots := slots));
      vols := vols[o := vols[o].(slots := slots)];
    }

    /** Write chunks into the vector from position `at` on. */
    method FillSlots(slots: seq<Option<ChunkId>>, at: nat, ids: seq<ChunkId>) returns (out: seq<Option<ChunkId>>)
      requires |Filled(slots)| == at && at + |ids| <= |slots| && slots == Padded(Filled(slots), |slots|)
      ensures |out| == |slots| && Filled(out) == Filled(slots) + ids
      ensures out == Padded(Filled(slots) + ids, |slots|)
    {
      out := slots;
      var indx := at;
      for i := 0 to |ids|
        invariant indx == at + i
        invariant out == Padded(Filled(slots) + ids[..i], |slots|)
      {
        out := out[indx := Some(ids[i])];
        indx := indx + 1;
      }
      assert ids[..|ids|] == ids;
      PaddedFilled(Filled(slots) + ids, |slots|);
    }

    /** The ids to persist: every set entry of the vector, active or not. */
    method ChunkIds(o: Ordinal) returns (ids: seq<ChunkId>)
      requires o in vols
      ensures ids == View().vols[o].ids
    {
      ids := [];
      var slots := vols[o].slots;
      for i := 0 to |slots|
        invariant ids == Filled(slots[..i])
      {
        assert slots[..i + 1][..i] == slots[..i];
        if slots[i].Some? {
          ids := ids + [slots[i].value];
        }
      }
      assert slots[..|slots|] == slots;
    }

    /** The last step of a resize: what has been persisted becomes active, and the latch is given back. */
    method FinishResize(o: Ordinal)
      requires Valid() && o in vols
      modifies this`vols, this`latch
      ensures Valid() && View() == Activate(old(View()), o) && !latch
      ensures var v := old(View()).vols[o];
              View().vols == old(View()).vols[o := VolChunks(v.ids, |v.ids|, v.max, v.pdev)]
    {
      ghost var s := View();
      ActivateKeeps(s, o);
      ActivatedView(s, vols, o);
      vols := vols[o := vols[o].(active := |Filled(vols[o].slots)|)];
      latch := false;
      assert View() == Activate(s, o);
    }

    /** Untag every chunk of a vector and put it into the pool of its device. */
    method GiveBack(slots: seq<Option<ChunkId>>, ghost p: Pdev, ghost s: Sel)
      requires perDev == s.free && tag == s.tagged && Filled(slots) != []
      requires forall c :: c in Filled(slots) ==> c in dev && dev[c] == p
      modifies this`perDev, this`tag
      ensures tag == s.tagged - Elems(Filled(slots))
      ensures perDev == s.free[p := Pool(s, p) + Elems(Filled(slots))]
    {
      for i := 0 to |slots|
        invariant Returned(s, p, Filled(slots[..i]), perDev, tag)
      {
        assert slots[..i + 1][..i] == slots[..i];
        if slots[i].Some? {
          var c := slots[i].value;
          FilledMember(slots, i);
          assert Filled(slots[..i + 1]) == Filled(slots[..i]) + [c];
          ReturnedMore(s, p, Filled(slots[..i]), perDev, tag, c);
          assert dev[c] == p;
          tag := tag - {c};
          perDev := perDev[dev[c] := (if dev[c] in perDev then perDev[dev[c]] else {}) + {c}];
        } else {
          assert Filled(slots[..i + 1]) == Filled(slots[..i]);
        }
      }
      assert slots[..|slots|] == slots;
    }

    /** All chunks of the volume, active or not, go back to the pool of their device. */
    method ReleaseChunks(o: Ordinal)
      requires Valid() && o in vols
      modifies this`perDev, this`tag, this`vols
      ensures Valid() && View() == Release(old(View()), o)
      ensures View().vols == old(View()).vols - {o}
      ensures var v := old(View()).vols[o];
              && (forall p :: Pool(View(), p) == Pool(old(View()), p) + if p == v.pdev then Elems(v.ids) else {})
              && (forall c :: c in tag <==> c in old(tag) && c !in v.ids)
    {
      ghost var s := View();
      assert s.vols[o] == AsChunks(vols[o]) && VolFine(s, s.vols[o]);
      ReleaseKeeps(s, o);
      ReleasedView(s, vols, o);
      GiveBack(vols[o].slots, vols[o].pdev, s);
      vols := vols - {o};
      assert View() == Release(s, o);
    }

    /** Reclaim the persisted chunks of a volume after a restart, one by one.  That each is unassigned and free
        is asserted; one that the system does not know is reported, and then the volume stays behind with
        the chunks before it, more of them counted as active than it has, and the list of all chunks with an
        entry for the unknown id that has no chunk. */
    method RecoverChunks(o: Ordinal, p: Pdev, size: nat, ids: seq<ChunkId>) returns (ok: bool, ghost n: nat)
      requires Valid() && o !in vols && Distinct(ids) && 1 <= |ids| <= MaxChunks(size, chunkSize)
      requires forall c :: c in ids && c in dev ==> c !in tag && c in Pool(View(), p)
      modifies this`perDev, this`tag, this`vols, this`unknown
      ensures ok <==> Within(ids, dev.Keys)
      ensures ok ==> unknown == old(unknown)
      ensures ok ==> Valid() && View() == Create(old(View()), o, MaxChunks(size, chunkSize), p, ids)
      ensures ok ==>
                && Gave(old(View()), View(), o, VolChunks(ids, |ids|, MaxChunks(size, chunkSize), p), ids)
                && Marked(old(View()), View(), o, ids)
      ensures !ok ==>
                && n < |ids| && ids[n] !in dev && Within(ids[..n], dev.Keys)
                && View() == HalfRecovered(old(View()), o, MaxChunks(size, chunkSize), p, ids, n)
                && Gave(old(View()), View(), o, VolChunks(ids[..n], |ids|, MaxChunks(size, chunkSize), p), ids[..n])
                && Marked(old(View()), View(), o, ids[..n])
                && unknown == old(unknown) + {ids[n]}
    {
      ghost var s := View();
      RecoveryPlan(s, o, MaxChunks(size, chunkSize), p, ids);
      ok, n := Reclaim(o, MaxChunks(size, chunkSize), p, ids, s);
      if ok {
        CreateMoves(s, o, MaxChunks(size, chunkSize), p, ids, View());
      } else {
        HalfMoves(s, o, MaxChunks(size, chunkSize), p, ids, n, View());
      }
    }

    /** Start a new vector for the volume and fill it. */
    method Reclaim(o: Ordinal, max: nat, p: Pdev, ids: seq<ChunkId>, ghost s: Sel) returns (ok: bool, ghost n: nat)
      requires |ids| <= max && s == View() && AllFine(vols)
      requires forall c :: c in ids && c in dev ==> c in Pool(s, p) && dev[c] == p
      modifies this`perDev, this`tag, this`vols, this`unknown
      ensures n <= |ids| && ok == (n == |ids|) && AllFine(vols) && View() == HalfRecovered(s, o, max, p, ids, n)
      ensures Within(ids[..n], dev.Keys) && (ok ==> Within(ids, dev.Keys)) && (!ok ==> ids[n] !in dev)
      ensures if ok then unknown == old(unknown) else unknown == old(unknown) + {ids[n]}
    {
      ghost var was := vols;
      ReclaimStart(s, o, max, p, ids, was);
      vols := vols[o := Vector(Padded([], max), |ids|, p)];
      ok, n := ReclaimAll(o, p, ids, s, max, was);
      HalfView(was, o, ids, n, max, p);
      assert ids[..|ids|] == ids;
    }

    /** Reclaim the chunks from the first on, up to one that the system does not know. */
    method ReclaimAll(o: Ordinal, p: Pdev, ids: seq<ChunkId>, ghost s: Sel, ghost max: nat,
                      ghost was: map<Ordinal, Vector>)
      returns (ok: bool, ghost n: nat)
      requires |ids| <= max && Reclaimed(s, o, max, p, ids, 0, was, vols, perDev, tag)
      requires forall c :: c in ids && c in dev ==> c in Pool(s, p) && dev[c] == p
      modifies this`perDev, this`tag, this`vols, this`unknown
      ensures n <= |ids| && Reclaimed(s, o, max, p, ids, n, was, vols, perDev, tag)
      ensures Within(ids[..n], dev.Keys) && ok == (n == |ids|) && (!ok ==> ids[n] !in dev)
      ensures unknown == old(unknown) + if ok then {} else {ids[n]}
    {
      n := 0;
      for i := 0 to |ids|
        invariant n == i && Within(ids[..n], dev.Keys) && unknown == old(unknown)
        invariant Reclaimed(s, o, max, p, ids, n, was, vols, perDev, tag)
      {
        if ids[i] !in dev {
          unknown := unknown + {ids[i]};
          return false, i;
        }
        ReclaimOne(o, p, ids, i, s, max, was);
        assert ids[..i + 1] == ids[..i] + [ids[i]];
        n := i + 1;
      }
      ok := true;
    }

    /** Tag one persisted chunk, put it into the vector, and take it out of the free pool. */
    method ReclaimOne(o: Ordinal, p: Pdev, ids: seq<ChunkId>, i: nat, ghost s: Sel, ghost max: nat,
                      ghost was: map<Ordinal, Vector>)
      requires i < |ids| <= max && ids[i] in dev && dev[ids[i]] == p && ids[i] in Pool(s, p)
      requires Reclaimed(s, o, max, p, ids, i, was, vols, perDev, tag)
      modifies this`perDev, this`tag, this`vols
      ensures Reclaimed(s, o, max, p, ids, i + 1, was, vols, perDev, tag)
    {
      var c := ids[i];
      TaggedMore(s, o, ids[..i], tag, c);
      assert ids[..i + 1] == ids[..i] + [c];
      assert Elems(ids[..i + 1]) == Elems(ids[..i]) + {c};
      tag := tag[c := o];
      vols := vols[o := vols[o].(slots := vols[o].slots[i := Some(c)])];
      perDev := perDev[dev[c] := perDev[dev[c]] - {c}];
      assert vols[o].slots == Padded(ids[..i + 1], max);
      assert perDev[p] == Pool(s, p) - Elems(ids[..i + 1]);
    }

    /** A chunk to allocate from: walk once around the active chunks with the shared 32-bit cursor and take
        the first that has blocks left. */
    method SelectChunk(o: Ordinal, avail: map<ChunkId, nat>, at: nat) returns (c: Option<ChunkId>)
      requires Valid() && o in vols && at < TWO32
      ensures c.Some? ==> c.value in View().vols[o].ids[..vols[o].active] && HasBlocks(avail, c.value)
      ensures c.Some? ==>
                var n := vols[o].active;
                exists i :: 0 <= i < n && c.value == View().vols[o].ids[Visit(at, n, i)]
                            && forall j :: 0 <= j < i ==> !HasBlocks(avail, View().vols[o].ids[Visit(at, n, j)])
      ensures c.None? && WalkComplete(at, vols[o].active) ==>
                forall k :: 0 <= k < vols[o].active ==> !HasBlocks(avail, View().vols[o].ids[k])
    {
      var v := vols[o];
      ghost var ids := Filled(v.slots);
      assert AsChunks(v) == View().vols[o] && VolFine(View(), View().vols[o]);
      PaddedFilled(ids, |v.slots|);
      for i := 0 to v.active
        invariant forall j :: 0 <= j < i ==> !HasBlocks(avail, ids[Visit(at, v.active, j)])
      {
        var idx := Visit(at, v.active, i);
        assert v.slots[idx] == Some(ids[idx]) && ids[..v.active][idx] == ids[idx];
        var chunk := v.slots[idx].value;
        if HasBlocks(avail, chunk) {
          return Some(chunk);
        }
      }
      if WalkComplete(at, v.active) {
        NothingLeft(at, v.active, ids, avail);
      }
      return None;
    }
  }

  /** The selector after the recovery of a volume has come as far as its first `n` persisted chunks. */
  ghost function HalfRecovered(s: Sel, o: Ordinal, max: nat, p: Pdev, ids: seq<ChunkId>, n: nat): Sel
    requires n <= |ids|
  {
    s.(free := if n == 0 then s.free else s.free[p := Pool(s, p) - Elems(ids[..n])],
       tagged := s.tagged + map c | c in Elems(ids[..n]) :: o,
       vols := s.vols[o := VolChunks(ids[..n], |ids|, max, p)])
  }

  lemma HalfMoves(s: Sel, o: Ordinal, max: nat, p: Pdev, ids: seq<ChunkId>, n: nat, s': Sel)
    requires n <= |ids| && s' == HalfRecovered(s, o, max, p, ids, n)
    ensures Gave(s, s', o, VolChunks(ids[..n], |ids|, max, p), ids[..n]) && Marked(s, s', o, ids[..n])
  {
    assert n == 0 ==> Elems(ids[..n]) == {};
  }

  /** The fields of the selector when the first `n` persisted chunks of a volume have been reclaimed. */
  ghost predicate Reclaimed(s: Sel, o: Ordinal, max: nat, p: Pdev, ids: seq<ChunkId>, n: nat,
                            was: map<Ordinal, Vector>, vols: map<Ordinal, Vector>, free: map<Pdev, set<ChunkId>>,
                            tag: map<ChunkId, Ordinal>)
    requires n <= |ids| <= max
  {
    && vols == was[o := Vector(Padded(ids[..n], max), |ids|, p)]
    && free == (if n == 0 then s.free else s.free[p := Pool(s, p) - Elems(ids[..n])])
    && TaggedWith(s, o, ids[..n], tag)
  }

  lemma ReclaimStart(s: Sel, o: Ordinal, max: nat, p: Pdev, ids: seq<ChunkId>, was: map<Ordinal, Vector>)
    requires |ids| <= max
    ensures Reclaimed(s, o, max, p, ids, 0, was, was[o := Vector(Padded([], max), |ids|, p)], s.free, s.tagged)
  {
  }

  /** What a recovery starts from, and what it leads to if every chunk is known. */
  lemma RecoveryPlan(s: Sel, o: Ordinal, max: nat, p: Pdev, ids: seq<ChunkId>)
    requires SelInv(s) && o !in s.vols && Distinct(ids) && 1 <= |ids| <= max
    requires forall c :: c in ids && c in s.dev ==> c in Pool(s, p)
    ensures forall c :: c in ids && c in s.dev ==> c in Pool(s, p) && s.dev[c] == p
    ensures Within(ids, s.dev.Keys) ==> HalfRecovered(s, o, max, p, ids, |ids|) == Create(s, o, max, p, ids)
    ensures Within(ids, s.dev.Keys) ==> SelInv(HalfRecovered(s, o, max, p, ids, |ids|))
  {
    assert ids[..|ids|] == ids;
    if Within(ids, s.dev.Keys) {
      CreateKeeps(s, o, max, p, ids);
    }
  }

  lemma HalfView(vols: map<Ordinal, Vector>, o: Ordinal, ids: seq<ChunkId>, n: nat, max: nat, p: Pdev)
    requires n <= |ids| <= max && AllFine(vols)
    ensures var v := Vector(Padded(ids[..n], max), |ids|, p);
            && AllChunks(vols[o := v]) == AllChunks(vols)[o := VolChunks(ids[..n], |ids|, max, p)]
            && AllFine(vols[o := v])
  {
    var v := Vector(Padded(ids[..n], max), |ids|, p);
    PaddedFilled(ids[..n], max);
    AllChunksUpdate(vols, o, v);
  }

  /** A volume recovered only in part breaks the invariant: it would allocate from chunks it does not have. */
  lemma HalfRecoveredIsBroken(s: Sel, o: Ordinal, max: nat, p: Pdev, ids: seq<ChunkId>, n: nat)
    requires n < |ids| <= max
    ensures !SelInv(HalfRecovered(s, o, max, p, ids, n))
  {
    var s' := HalfRecovered(s, o, max, p, ids, n);
    assert o in s'.vols && !VolFine(s', s'.vols[o]);
  }

  predicate HasBlocks(avail: map<ChunkId, nat>, c: ChunkId) {
    c in avail && avail[c] > 0
  }

  /** The position looked at in step `j` of a walk that starts at cursor `at`. */
  function Visit(at: nat, n: nat, j: nat): (idx: nat)
    requires j < n
    ensures idx < n
  {
    (at + j) % TWO32 % n
  }

  /** A walk of `n` steps meets position `k`. */
  ghost predicate Met(at: nat, n: nat, k: nat) {
    exists j :: 0 <= j < n && Visit(at, n, j) == k
  }

  ghost predicate Sweeps(at: nat, n: nat) {
    forall k :: 0 <= k < n ==> Met(at, n, k)
  }

  /** The 32-bit cursor does not wrap around on the way, or wraps around at a multiple of the positions. */
  predicate WalkComplete(at: nat, n: nat) {
    at + n <= TWO32 || (n > 0 && TWO32 % n == 0)
  }

  lemma VisitsAny(at: nat, n: nat, k: nat) returns (j: nat)
    requires k < n && at < TWO32 && WalkComplete(at, n)
    ensures j < n && Visit(at, n, j) == k
  {
    if at + n <= TWO32 {
      j := VisitsAll(at, n, k);
    } else {
      j := VisitsAllOver(at, n, k);
    }
  }

  lemma NothingLeft(at: nat, n: nat, ids: seq<ChunkId>, avail: map<ChunkId, nat>)
    requires n <= |ids| && at < TWO32 && WalkComplete(at, n)
    requires forall j :: 0 <= j < n ==> !HasBlocks(avail, ids[Visit(at, n, j)])
    ensures forall k :: 0 <= k < n ==> !HasBlocks(avail, ids[k])
  {
    forall k | 0 <= k < n
      ensures !HasBlocks(avail, ids[k])
    {
      var j := VisitsAny(at, n, k);
    }
  }

  /** A walk meets every position if and only if it is complete in this sense. */
  lemma SweepsExact(at: nat, n: nat)
    requires at < TWO32
    ensures Sweeps(at, n) <==> WalkComplete(at, n)
  {
    if WalkComplete(at, n) {
      forall k | 0 <= k < n
        ensures Met(at, n, k)
      {
        var j := VisitsAny(at, n, k);
      }
    } else {
      var k := Missed(at, n);
      assert !Met(at, n, k);
    }
  }

  /** Before the cursor wraps around, and after. */
  lemma VisitParts(at: nat, n: nat, j: nat)
    requires j < n && at < TWO32 && n <= TWO32
    ensures at + j < TWO32 ==> Visit(at, n, j) == (at + j) % n
    ensures at + j >= TWO32 ==> Visit(at, n, j) == (at + j - TWO32) % n
  {
    if at + j < TWO32 {
      assert (at + j) % TWO32 == at + j;
    } else {
      assert (at + j) % TWO32 == at + j - TWO32;
    }
  }

  /** Some number of steps on, the cursor stands at position `k` modulo `n`. */
  lemma Residue(at: nat, n: nat, k: nat) returns (j: nat)
    requires k < n
    ensures j < n && (at + j) % n == k
  {
    j := (k - at) % n;
    var q := (k - at) / n;
    assert n * q == q * n;
    DivMod(at + j, n, -q, k);
  }

  lemma VisitsAll(at: nat, n: nat, k: nat) returns (j: nat)
    requires k < n && at + n <= TWO32 && at < TWO32
    ensures j < n && Visit(at, n, j) == k
  {
    j := Residue(at, n, k);
    VisitParts(at, n, j);
  }

  lemma VisitsAllOver(at: nat, n: nat, k: nat) returns (j: nat)
    requires k < n && at < TWO32 && TWO32 % n == 0
    ensures j < n && Visit(at, n, j) == k
  {
    if n > TWO32 {
      DivMod(TWO32, n, 0, TWO32);
    }
    j := Residue(at, n, k);
    VisitParts(at, n, j);
    if at + j >= TWO32 {
      var q, q' := (at + j) / n, TWO32 / n;
      assert n * (q - q') == n * q - n * q';
      DivMod(at + j - TWO32, n, q - q', k);
    }
  }

  /** The positions before the cursor wraps around, counted back from the wrap. */
  lemma VisitBack(n: nat, d: nat)
    requires 0 < d < n < TWO32
    ensures (TWO32 - d) % n == if d <= TWO32 % n then TWO32 % n - d else TWO32 % n - d + n
  {
    var q, r := TWO32 / n, TWO32 % n;
    assert n * (q - 1) == n * q - n;
    if d <= r {
      DivMod(TWO32 - d, n, q, r - d);
    } else {
      DivMod(TWO32 - d, n, q - 1, r - d + n);
    }
  }

  lemma Missed(at: nat, n: nat) returns (k: nat)
    requires at < TWO32 < at + n && n > 0 && TWO32 % n != 0
    ensures k < n && forall j :: 0 <= j < n ==> Visit(at, n, j) != k
  {
    if n > TWO32 {
      k := TWO32;
      forall j | 0 <= j < n ensures Visit(at, n, j) != k {
        DivMod((at + j) % TWO32, n, 0, (at + j) % TWO32);
      }
    } else {
      var r, m := TWO32 % n, at + n - TWO32;
      assert n != TWO32;
      k := if r >= m then r else if r + m - 1 < n then r + m - 1 else n - 1;
      forall j | 0 <= j < n ensures Visit(at, n, j) != k {
        VisitParts(at, n, j);
        if at + j < TWO32 {
          VisitBack(n, TWO32 - at - j);
        } else {
          DivMod(at + j - TWO32, n, 0, at + j - TWO32);
        }
      }
    }
  }

  lemma HalfFree(available: nat, total: nat)
    requires total > 0
    ensures available as real / total as real > 0.5 <==> 2 * available > total
  {
    var a, t := available as real, total as real;
    var ratio := a / t;
    assert ratio * t == a;
    Scale(ratio, 0.5, t);
    Scale(0.5, ratio, t);
  }

  lemma Scale(x: real, y: real, t: real)
    requires t > 0.0
    ensures x < y ==> x * t < y * t
  {
    if x < y {
      assert (y - x) * t > 0.0;
    }
  }

  /** Some chunks of a volume have been given back. */
  ghost predicate Returned(s: Sel, p: Pdev, ids: seq<ChunkId>,
                           free: map<Pdev, set<ChunkId>>, tag: map<ChunkId, Ordinal>)
  {
    && tag == s.tagged - Elems(ids)
    && free == if ids == [] then s.free else s.free[p := Pool(s, p) + Elems(ids)]
  }

  lemma ReturnedMore(s: Sel, p: Pdev, ids: seq<ChunkId>,
                     free: map<Pdev, set<ChunkId>>, tag: map<ChunkId, Ordinal>, c: ChunkId)
    requires Returned(s, p, ids, free, tag)
    ensures Returned(s, p, ids + [c], free[p := (if p in free then free[p] else {}) + {c}], tag - {c})
  {
    assert Elems(ids + [c]) == Elems(ids) + {c};
    var more := Pool(s, p) + Elems(ids + [c]);
    assert (if p in free then free[p] else {}) + {c} == more;
    assert free[p := more] == s.free[p := more];
  }

  /** The chunks of `ids` have been tagged with their new owner. */
  ghost predicate TaggedWith(s: Sel, o: Ordinal, ids: seq<ChunkId>, tag: map<ChunkId, Ordinal>) {
    tag == s.tagged + map c | c in Elems(ids) :: o
  }

  lemma TaggedMore(s: Sel, o: Ordinal, ids: seq<ChunkId>, tag: map<ChunkId, Ordinal>, c: ChunkId)
    requires TaggedWith(s, o, ids, tag)
    ensures TaggedWith(s, o, ids + [c], tag[c := o])
  {
    assert Elems(ids + [c]) == Elems(ids) + {c};
  }

  lemma {:induction false} FilledMember(slots: seq<Option<ChunkId>>, i: nat)
    requires i < |slots| && slots[i].Some?
    ensures slots[i].value in Filled(slots)
    decreases |slots|
  {
    var m := |slots| - 1;
    if i < m {
      FilledMember(slots[..m], i);
    }
  }
}
