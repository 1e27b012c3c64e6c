/**
 * Reference-counted hash objects with a bounded pool for reuse (src/ksi/hash.c:88-110, 193-273, 564-592). Clients may
 * free only references they hold; `held` counts those references.
 */
module RecyclePool {
  import opened Common
  import HashChain

  class DataHash {
    var ref: nat
    var imprint: seq<Byte>

    constructor ()
      ensures ref == 0
    {
      ref, imprint := 0, [];
    }
  }

  /** KSI_DataHasher: `initialised` says that it has a hash implementation. */
  class DataHasher {
    const algorithm: int
    const initialised: bool
    var isOpen: bool

    constructor (algorithm: int, initialised: bool)
      ensures isOpen && this.algorithm == algorithm && this.initialised == initialised
    {
      this.algorithm, this.initialised, isOpen := algorithm, initialised, true;
    }
  }

  class Context {
    var dataHashRecycle: seq<DataHash>
    const cacheSize: nat                       // options[KSI_OPT_DATAHASH_CACHE_SIZE]
    ghost var held: map<DataHash, nat>         // how many references the clients hold to each object

    /**
     * Pooled objects are unreferenced, listed once and not too many; reference counts are exact; hashes are well
     * formed.
     */
    ghost predicate Valid()
      reads this, dataHashRecycle, held.Keys
    {
      && |dataHashRecycle| <= cacheSize
      && (forall i, j :: 0 <= i < j < |dataHashRecycle| ==> dataHashRecycle[i] != dataHashRecycle[j])
      && (forall o :: o in dataHashRecycle ==> o.ref == 0 && o !in held)
      && (forall o :: o in held ==> o.ref == held[o] > 0 && HashChain.IsImprint(o.imprint))
    }

    constructor (cacheSize: nat)
      ensures Valid() && dataHashRecycle == [] && held == map[] && this.cacheSize == cacheSize
    {
      dataHashRecycle, this.cacheSize := [], cacheSize;
      held := map[];
    }

    /** alloc_dataHash: the last pooled object, or a new one; never one that somebody still refers to. */
    method Alloc() returns (h: DataHash)
      requires Valid()
      modifies this`dataHashRecycle
      ensures Valid() && h !in held && h !in dataHashRecycle && h.ref == 0
      ensures held == old(held)
      ensures fresh(h) || h in old(dataHashRecycle)
      ensures old(dataHashRecycle) == [] ==> fresh(h) && dataHashRecycle == []
      ensures old(dataHashRecycle) != [] ==> old(dataHashRecycle) == dataHashRecycle + [h]
    {
      var len := |dataHashRecycle|;
      if len > 0 {
        h := dataHashRecycle[len - 1];
        dataHashRecycle := dataHashRecycle[..len - 1];
      } else {
        h := new DataHash();
      }
    }

    /** KSI_DataHash_fromDigest: a new reference to a hash with the given contents, or an error and no change. */
    method FromDigest(algorithm: int, digest: seq<Byte>) returns (r: Result<DataHash>)
      requires Valid()
      modifies this`dataHashRecycle, this`held, dataHashRecycle
      ensures Valid()
      ensures r.Ok? <==> HashChain.FromDigest(algorithm, digest).Ok?
      ensures r.Err? ==> r.code == HashChain.FromDigest(algorithm, digest).code && held == old(held)
      ensures r.Ok? ==> r.value !in old(held) && held == old(held)[r.value := 1]
                        && r.value.imprint == HashChain.FromDigest(algorithm, digest).value
      ensures forall o :: o in old(held) ==> o.imprint == old(o.imprint) && o.ref == old(o.ref)
    {
      var imprint := HashChain.FromDigest(algorithm, digest);
      if imprint.Err? {
        return Err(imprint.code);
      }
      var h := Alloc();
      Fill(h, imprint.value);
      return Ok(h);
    }

    /** The allocated object gets its contents and its first reference. */
    method Fill(h: DataHash, imprint: seq<Byte>)
      requires Valid() && h !in held && h !in dataHashRecycle && HashChain.IsImprint(imprint)
      modifies this`held, h
      ensures Valid() && held == old(held)[h := 1] && h.imprint == imprint
    {
      h.ref := 1;
      h.imprint := imprint;
      held := held[h := 1];
    }

    /**
     * KSI_DataHasher_close: `outcome` is what the hash implementation delivered, and `wanted` says whether the caller
     * passed a result pointer. A hash nobody wants is freed again; a hasher that fails stays open.
     */
    method Close(hsr: DataHasher, wanted: bool, outcome: Result<seq<Byte>>, appended: bool)
      returns (r: Result<Option<DataHash>>)
      requires Valid()
      requires outcome.Ok? ==> HashChain.FromDigest(hsr.algorithm, outcome.value).Ok?
      modifies this`dataHashRecycle, this`held, dataHashRecycle, hsr`isOpen
      ensures Valid()
      ensures r.Ok? <==> old(hsr.isOpen) && hsr.initialised && outcome.Ok?
      ensures r.Err? ==> r.code == if old(hsr.isOpen) && hsr.initialised then outcome.code else KSI_INVALID_STATE
      ensures hsr.isOpen == (old(hsr.isOpen) && r.Err?)
      ensures r.Ok? ==> r.value.Some? == wanted
      ensures r.Ok? && wanted ==>
                && r.value.value !in old(held) && held == old(held)[r.value.value := 1]
                && r.value.value.imprint == [hsr.algorithm] + outcome.value
      ensures r.Err? || !wanted ==> held == old(held)
      ensures forall o :: o in old(held) ==> o.imprint == old(o.imprint) && o.ref == old(o.ref)
    {
      if !hsr.isOpen || !hsr.initialised {
        return Err(KSI_INVALID_STATE);
      }
      var h := Alloc();
      h.ref := 1;
      if outcome.Err? {
        h.ref := h.ref - 1;
        Release(h, appended);
        return Err(outcome.code);
      }
      h.imprint := [hsr.algorithm] + outcome.value;
      hsr.isOpen := false;
      if !wanted {
        h.ref := h.ref - 1;
        Release(h, appended);
        return Ok(None);
      }
      Fill(h, h.imprint);
      return Ok(Some(h));
    }

    /**
     * The last reference to an object goes away: it is pooled if there is room, and otherwise given back to the
     * system.
     */
    method Release(h: DataHash, appended: bool)
      requires |dataHashRecycle| <= cacheSize && h !in dataHashRecycle && h !in held && h.ref == 0
      requires forall i, j :: 0 <= i < j < |dataHashRecycle| ==> dataHashRecycle[i] != dataHashRecycle[j]
      requires forall o :: o in dataHashRecycle ==> o.ref == 0 && o !in held
      requires forall o :: o in held ==> o.ref == held[o] > 0 && HashChain.IsImprint(o.imprint)
      modifies this`dataHashRecycle
      ensures Valid()
      ensures dataHashRecycle ==
              old(dataHashRecycle) + if |old(dataHashRecycle)| < cacheSize && appended then [h] else []
    {
      if |dataHashRecycle| < cacheSize && appended {
        dataHashRecycle := dataHashRecycle + [h];
      }
    }

    /** KSI_DataHash_ref and KSI_DataHash_clone: one more reference. */
    method Ref(h: DataHash)
      requires Valid() && h in held
      modifies this`held, h`ref
      ensures Valid() && held == old(held)[h := old(held)[h] + 1]
    {
      h.ref := h.ref + 1;
      held := held[h := held[h] + 1];
    }

    /** KSI_DataHash_free by a client that holds a reference; `appended` is the outcome of appending to the pool. */
    method Free(h: DataHash, appended: bool)
      requires Valid() && h in held
      modifies this`dataHashRecycle, this`held, h
      ensures Valid()
      ensures h.imprint == old(h.imprint)
      ensures old(held)[h] > 1 ==> held == old(held)[h := old(held)[h] - 1] && dataHashRecycle == old(dataHashRecycle)
      ensures old(held)[h] == 1 ==> held == old(held) - {h}
      ensures old(dataHashRecycle) <= dataHashRecycle
    {
      h.ref := h.ref - 1;
      if h.ref == 0 {
        held := held - {h};
        Release(h, appended);
      } else {
        held := held[h := held[h] - 1];
      }
    }
  }
}
