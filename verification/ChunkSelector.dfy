/** Which chunk belongs to whom: the free pools of the devices, the chunk vectors of the volumes, and the
    operations of the chunk selector that move chunks between them. */
module ChunkSelector {
  import opened Spans

  type ChunkId = nat
  type Pdev = nat
  type Ordinal = nat

  const CHUNKS_INIT: nat := 1
  const CHUNKS_PER_RESIZE: nat := 3

  /** The chunks of a volume in vector order.  The first `active` may be allocated from; there are never more
      than `max`, and all are on one device. */
  datatype VolChunks = VolChunks(ids: seq<ChunkId>, active: nat, max: nat, pdev: Pdev)

  /** `dev` lists all chunks with their device; `tagged` those marked with the ordinal of an owner. */
  datatype Sel = Sel(dev: map<ChunkId, Pdev>, free: map<Pdev, set<ChunkId>>, tagged: map<ChunkId, Ordinal>,
                     vols: map<Ordinal, VolChunks>)

  const NO_CHUNKS: Sel := Sel(map[], map[], map[], map[])

  function Pool(s: Sel, p: Pdev): set<ChunkId> {
    if p in s.free then s.free[p] else {}
  }

  function MaxChunks(size: nat, chunkSize: nat): (m: nat)
    requires chunkSize > 0
    ensures m >= 1 && m * chunkSize >= size && (m == 1 || (m - 1) * chunkSize < size)
  {
    var n := (size + chunkSize - 1) / chunkSize;
    if n < 1 then 1 else n
  }

  function InitialActive(max: nat, lazy: bool): (n: nat)
    ensures n == if lazy && max > 1 then 1 else max
  {
    if !lazy then max else if max < CHUNKS_INIT then max else CHUNKS_INIT
  }

  function ResizeCount(v: VolChunks): (n: nat)
    requires v.active <= v.max
    ensures n <= 3 && v.active + n <= v.max && (n == 3 || v.active + n == v.max)
  {
    if v.max - v.active < CHUNKS_PER_RESIZE then v.max - v.active else CHUNKS_PER_RESIZE
  }

  predicate Within(xs: seq<ChunkId>, pool: set<ChunkId>) {
    forall c :: c in xs ==> c in pool
  }

  // ---------- the operations ----------

  function Add(s: Sel, c: ChunkId, p: Pdev): Sel {
    s.(dev := s.dev[c := p], free := s.free[p := Pool(s, p) + {c}])
  }

  function Create(s: Sel, o: Ordinal, max: nat, p: Pdev, ids: seq<ChunkId>): Sel {
    s.(free := s.free[p := Pool(s, p) - Elems(ids)],
       tagged := s.tagged + map c | c in Elems(ids) :: o,
       vols := s.vols[o := VolChunks(ids, |ids|, max, p)])
  }

  /** New chunks enter the vector behind the active ones; they are not tagged. */
  function Grow(s: Sel, o: Ordinal, ids: seq<ChunkId>): Sel
    requires o in s.vols
  {
    var v := s.vols[o];
    s.(free := s.free[v.pdev := Pool(s, v.pdev) - Elems(ids)], vols := s.vols[o := v.(ids := v.ids + ids)])
  }

  function Activate(s: Sel, o: Ordinal): Sel
    requires o in s.vols
  {
    s.(vols := s.vols[o := s.vols[o].(active := |s.vols[o].ids|)])
  }

  function Release(s: Sel, o: Ordinal): Sel
    requires o in s.vols
  {
    var v := s.vols[o];
    s.(free := s.free[v.pdev := Pool(s, v.pdev) + Elems(v.ids)],
       tagged := s.tagged - Elems(v.ids),
       vols := s.vols - {o})
  }

  // ---------- the invariant ----------

  ghost predicate Owns(s: Sel, o: Ordinal, c: ChunkId) {
    o in s.vols && c in s.vols[o].ids
  }

  ghost predicate Owned(s: Sel, c: ChunkId) {
    exists o :: Owns(s, o, c)
  }

  ghost predicate VolFine(s: Sel, v: VolChunks) {
    && Distinct(v.ids) && 1 <= |v.ids| && v.active <= |v.ids| <= v.max
    && (forall c :: c in v.ids ==> c in s.dev && s.dev[c] == v.pdev)
  }

  ghost predicate PoolsFine(s: Sel) {
    forall p, c :: c in Pool(s, p) ==> c in s.dev && s.dev[c] == p
  }

  /** Changing one pool within the chunks of its device. */
  lemma PoolsStayFine(s: Sel, s': Sel, p: Pdev, pool: set<ChunkId>)
    requires PoolsFine(s) && s'.free == s.free[p := pool]
    requires forall c :: c in s.dev ==> c in s'.dev && s'.dev[c] == s.dev[c]
    requires forall c :: c in pool ==> c in s'.dev && s'.dev[c] == p
    ensures PoolsFine(s')
  {
    forall q, c | c in Pool(s', q)
      ensures c in s'.dev && s'.dev[c] == q
    {
      if q != p {
        assert c in Pool(s, q);
      }
    }
  }

  /** Every chunk is in exactly one place: the free pool of its device or the vector of one volume. */
  ghost predicate SelInv(s: Sel) {
    && PoolsFine(s)
    && (forall o :: o in s.vols ==> VolFine(s, s.vols[o]))
    && (forall c :: c in s.dev ==> (c in Pool(s, s.dev[c]) <==> !Owned(s, c)))
    && (forall o, o', c :: Owns(s, o, c) && Owns(s, o', c) ==> o == o')
    && (forall c :: c in s.tagged ==> Owns(s, s.tagged[c], c))
  }

  lemma AddKeeps(s: Sel, c: ChunkId, p: Pdev)
    requires SelInv(s) && c !in s.dev
    ensures SelInv(Add(s, c, p))
  {
    var s' := Add(s, c, p);
    forall o, d ensures Owns(s', o, d) <==> Owns(s, o, d) {}
    forall d ensures Owned(s', d) <==> Owned(s, d) {
      OwnedSame(s, s', d);
    }
    forall d | d in Pool(s, p) ensures d in s.dev && s.dev[d] == p {}
    PoolsStayFine(s, s', p, Pool(s, p) + {c});
  }

  lemma OwnedSame(s: Sel, s': Sel, c: ChunkId)
    requires forall o :: Owns(s', o, c) <==> Owns(s, o, c)
    ensures Owned(s', c) <==> Owned(s, c)
  {
    if Owned(s, c) {
      var o :| Owns(s, o, c);
      assert Owns(s', o, c);
    }
    if Owned(s', c) {
      var o :| Owns(s', o, c);
      assert Owns(s, o, c);
    }
  }

  lemma OwnershipGrows(s: Sel, s': Sel, o: Ordinal, ids: seq<ChunkId>)
    requires forall o', c :: Owns(s', o', c) <==> Owns(s, o', c) || (o' == o && c in ids)
    ensures forall c :: Owned(s', c) <==> Owned(s, c) || c in ids
  {
    forall c
      ensures Owned(s', c) <==> Owned(s, c) || c in ids
    {
      if Owned(s, c) {
        var o' :| Owns(s, o', c);
        assert Owns(s', o', c);
      }
      if c in ids {
        assert Owns(s', o, c);
      }
    }
  }

  lemma DistinctAppend(xs: seq<ChunkId>, ys: seq<ChunkId>)
    requires Distinct(xs) && Distinct(ys) && forall c :: c in ys ==> c !in xs
    ensures Distinct(xs + ys)
  {
    forall i, j | 0 <= i < j < |xs + ys|
      ensures (xs + ys)[i] != (xs + ys)[j]
    {
      if i < |xs| <= j {
        assert ys[j - |xs|] in ys && xs[i] in xs;
      }
    }
  }

  ghost predicate CanCreate(s: Sel, o: Ordinal, max: nat, p: Pdev, ids: seq<ChunkId>) {
    o !in s.vols && Distinct(ids) && Within(ids, Pool(s, p)) && 1 <= |ids| <= max
  }

  lemma CreateKeeps(s: Sel, o: Ordinal, max: nat, p: Pdev, ids: seq<ChunkId>)
    requires SelInv(s) && CanCreate(s, o, max, p, ids)
    ensures SelInv(Create(s, o, max, p, ids))
  {
    CreatePools(s, o, max, p, ids);
    CreateOwners(s, o, max, p, ids);
    CreateVols(s, o, max, p, ids);
    CreatePlaces(s, o, max, p, ids);
  }

  lemma CreatePools(s: Sel, o: Ordinal, max: nat, p: Pdev, ids: seq<ChunkId>)
    requires SelInv(s) && CanCreate(s, o, max, p, ids)
    ensures PoolsFine(Create(s, o, max, p, ids))
    ensures forall c :: c in ids ==> c in s.dev && s.dev[c] == p && !Owned(s, c)
  {
    forall c | c in ids
      ensures c in s.dev && s.dev[c] == p && !Owned(s, c)
    {
      assert c in Pool(s, p);
    }
    PoolsStayFine(s, Create(s, o, max, p, ids), p, Pool(s, p) - Elems(ids));
  }

  lemma CreateOwners(s: Sel, o: Ordinal, max: nat, p: Pdev, ids: seq<ChunkId>)
    requires o !in s.vols
    ensures var s' := Create(s, o, max, p, ids);
            && (forall o', c :: Owns(s', o', c) <==> Owns(s, o', c) || (o' == o && c in ids))
            && (forall c :: Owned(s', c) <==> Owned(s, c) || c in ids)
  {
    var s' := Create(s, o, max, p, ids);
    forall o', c
      ensures Owns(s', o', c) <==> Owns(s, o', c) || (o' == o && c in ids)
    {
    }
    OwnershipGrows(s, s', o, ids);
  }

  lemma CreateVols(s: Sel, o: Ordinal, max: nat, p: Pdev, ids: seq<ChunkId>)
    requires SelInv(s) && CanCreate(s, o, max, p, ids)
    requires forall c :: c in ids ==> c in s.dev && s.dev[c] == p
    ensures var s' := Create(s, o, max, p, ids); forall o' :: o' in s'.vols ==> VolFine(s', s'.vols[o'])
  {
    var s' := Create(s, o, max, p, ids);
    forall o' | o' in s'.vols
      ensures VolFine(s', s'.vols[o'])
    {
      assert o' != o ==> VolFine(s, s.vols[o']);
    }
  }

  lemma CreatePlaces(s: Sel, o: Ordinal, max: nat, p: Pdev, ids: seq<ChunkId>)
    requires SelInv(s) && CanCreate(s, o, max, p, ids)
    requires forall c :: c in ids ==> c in s.dev && s.dev[c] == p && !Owned(s, c)
    ensures var s' := Create(s, o, max, p, ids);
            && (forall c :: c in s'.dev ==> (c in Pool(s', s'.dev[c]) <==> !Owned(s', c)))
            && (forall o1, o2, c :: Owns(s', o1, c) && Owns(s', o2, c) ==> o1 == o2)
            && (forall c :: c in s'.tagged ==> Owns(s', s'.tagged[c], c))
  {
    var s' := Create(s, o, max, p, ids);
    CreateOwners(s, o, max, p, ids);
    forall o1, o2, c | Owns(s', o1, c) && Owns(s', o2, c)
      ensures o1 == o2
    {
      assert Owns(s, o1, c) || Owns(s, o2, c) ==> Owned(s, c);
    }
  }

  lemma GrowKeeps(s: Sel, o: Ordinal, ids: seq<ChunkId>)
    requires SelInv(s) && o in s.vols && Distinct(ids) && Within(ids, Pool(s, s.vols[o].pdev))
    requires |s.vols[o].ids| + |ids| <= s.vols[o].max
    ensures SelInv(Grow(s, o, ids))
  {
    var s', v := Grow(s, o, ids), s.vols[o];
    forall o', c
      ensures Owns(s', o', c) <==> Owns(s, o', c) || (o' == o && c in ids)
    {
    }
    OwnershipGrows(s, s', o, ids);
    forall c | c in ids
      ensures c in s.dev && s.dev[c] == v.pdev && !Owned(s, c) && c !in v.ids
    {
      assert c in Pool(s, v.pdev);
      assert c in v.ids ==> Owns(s, o, c);
    }
    PoolsStayFine(s, s', v.pdev, Pool(s, v.pdev) - Elems(ids));
    assert VolFine(s, v);
    DistinctAppend(v.ids, ids);
  }

  lemma ActivateKeeps(s: Sel, o: Ordinal)
    requires SelInv(s) && o in s.vols
    ensures SelInv(Activate(s, o))
  {
    var s' := Activate(s, o);
    forall o', c ensures Owns(s', o', c) <==> Owns(s, o', c) {}
    forall c ensures Owned(s', c) <==> Owned(s, c) {
      OwnedSame(s, s', c);
    }
    forall p, c | c in Pool(s', p) ensures c in s'.dev && s'.dev[c] == p {
      assert c in Pool(s, p);
    }
  }

  lemma ReleaseKeeps(s: Sel, o: Ordinal)
    requires SelInv(s) && o in s.vols
    ensures SelInv(Release(s, o))
  {
    var s', v := Release(s, o), s.vols[o];
    forall o', c
      ensures Owns(s', o', c) <==> Owns(s, o', c) && o' != o
    {
    }
    forall c
      ensures Owned(s', c) <==> Owned(s, c) && c !in v.ids
    {
      if c in v.ids { assert Owns(s, o, c); }
      if Owned(s, c) && c !in v.ids { var o' :| Owns(s, o', c); assert Owns(s', o', c); }
      if Owned(s', c) { var o' :| Owns(s', o', c); assert Owns(s, o', c); }
    }
    assert VolFine(s, v);
    PoolsStayFine(s, s', v.pdev, Pool(s, v.pdev) + Elems(v.ids));
  }

  // ---------- counting the free chunks ----------

  ghost function SomePdev(free: map<Pdev, set<ChunkId>>): (p: Pdev)
    requires free != map[]
    ensures p in free
  {
    assert free.Keys != {};
    var p :| p in free; p
  }

  /** The sizes of all pools added up. */
  ghost function FreeCount(free: map<Pdev, set<ChunkId>>): nat
    decreases |free|
  {
    if free == map[] then 0 else var p := SomePdev(free); |free[p]| + FreeCount(free - {p})
  }

  ghost function AllFree(free: map<Pdev, set<ChunkId>>): set<ChunkId> {
    set p, c | p in free && c in free[p] :: c
  }

  ghost predicate PoolsApart(free: map<Pdev, set<ChunkId>>) {
    forall p, q :: p in free && q in free && p != q ==> free[p] !! free[q]
  }

  lemma {:induction false} FreeCountIsSize(free: map<Pdev, set<ChunkId>>)
    requires PoolsApart(free)
    ensures FreeCount(free) == |AllFree(free)|
    decreases |free|
  {
    if free != map[] {
      var p := SomePdev(free);
      var rest := free - {p};
      FreeCountIsSize(rest);
      forall c ensures c in AllFree(free) <==> c in free[p] + AllFree(rest) {
        if c in AllFree(free) && c !in free[p] {
          var q :| q in free && c in free[q];
          assert q in rest && c in rest[q];
        }
      }
      assert AllFree(free) == free[p] + AllFree(rest);
      assert free[p] !! AllFree(rest);
    }
  }

  /** Each chunk is counted once: the free chunks and the owned ones add up to all. */
  lemma FreeAndOwned(s: Sel)
    requires SelInv(s)
    ensures FreeCount(s.free) == |AllFree(s.free)|
    ensures forall c :: c in AllFree(s.free) <==> c in s.dev && !Owned(s, c)
  {
    forall p, q | p in s.free && q in s.free && p != q
      ensures s.free[p] !! s.free[q]
    {
      forall c ensures !(c in s.free[p] && c in s.free[q]) {
        assert c in Pool(s, p) ==> s.dev[c] == p;
        assert c in Pool(s, q) ==> s.dev[c] == q;
      }
    }
    FreeCountIsSize(s.free);
    forall c
      ensures c in AllFree(s.free) <==> c in s.dev && !Owned(s, c)
    {
      if c in AllFree(s.free) {
        var p :| p in s.free && c in s.free[p];
        assert c in Pool(s, p);
      }
      if c in s.dev && !Owned(s, c) {
        assert c in Pool(s, s.dev[c]);
      }
    }
  }

  /** The release of volumes, one after the other. */
  ghost function ReleaseAll(s: Sel, order: seq<Ordinal>): Sel
    requires Distinct(order) && forall o :: o in order ==> o in s.vols
    decreases |order|
  {
    if order == [] then s
    else
      assert forall i :: 0 <= i < |order| - 1 ==> order[1..][i] == order[i + 1];
      ReleaseAll(Release(s, order[0]), order[1..])
  }

  lemma {:induction false} ReleaseAllKeeps(s: Sel, order: seq<Ordinal>)
    requires SelInv(s) && Distinct(order) && forall o :: o in order ==> o in s.vols
    ensures SelInv(ReleaseAll(s, order)) && ReleaseAll(s, order).dev == s.dev
    ensures forall o :: o in ReleaseAll(s, order).vols <==> o in s.vols && o !in order
    decreases |order|
  {
    if order != [] {
      assert forall i :: 0 <= i < |order| - 1 ==> order[1..][i] == order[i + 1];
      ReleaseKeeps(s, order[0]);
      ReleaseAllKeeps(Release(s, order[0]), order[1..]);
    }
  }

  /** Releasing every volume, in any order, restores the free count: the pools hold every announced chunk, once. */
  lemma AllReleased(s: Sel, order: seq<Ordinal>)
    requires SelInv(s) && Distinct(order) && forall o :: o in order <==> o in s.vols
    ensures var r := ReleaseAll(s, order);
            r.vols == map[] && AllFree(r.free) == s.dev.Keys && FreeCount(r.free) == |s.dev.Keys|
  {
    ReleaseAllKeeps(s, order);
    var r := ReleaseAll(s, order);
    assert r.vols == map[];
    FreeAndOwned(r);
    assert AllFree(r.free) == s.dev.Keys;
  }
}
