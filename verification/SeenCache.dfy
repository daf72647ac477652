/** The cache of hashes already seen, in front of the hash store: whatever it holds or forgets,
    no answer changes. */
module SeenCache {
  import opened Common
  import opened Distinct
  import opened LruCache
  import HashTree

  const MAX_DATA_SIZE := 128000

  class Mover {
    const seenCache: Cache<string, int>
    const store: HashTree.HashFileStore
    const uploadOnly: bool
    /** The hashes appended to the have-file, in order. */
    var haveFile: seq<string>
    /** The hashes whose data was stored, in order. */
    ghost var stored: seq<string>

    /** Only hashes the store has seen are cached, recorded or stored, and the last two once. */
    ghost predicate Valid()
      reads this, seenCache, store
    {
      && seenCache.Valid() && store.Valid()
      && (forall h :: h in seenCache.baseMap ==> Seen(h))
      && (forall h :: h in haveFile ==> Seen(h)) && NoDuplicates(haveFile)
      && (forall h :: h in stored ==> h in haveFile) && NoDuplicates(stored)
    }

    /** The store knows the hash or has a file for it. */
    ghost predicate Seen(h: string)
      reads store
      requires store.Valid()
    {
      HashTree.IsHash(h, store.n) && (h in store.hashes || store.At(h).Some?)
    }

    constructor (maxCached: nat, levels: nat, uploadOnly: bool)
      requires maxCached >= 1 && levels >= 1
      ensures Valid() && fresh(seenCache) && fresh(store) && this.uploadOnly == uploadOnly
      ensures haveFile == [] && stored == []
    {
      seenCache := new Cache(maxCached);
      store := new HashTree.HashFileStore(levels);
      this.uploadOnly := uploadOnly;
      haveFile, stored := [], [];
    }

    /** seen_cache[h] = 1. */
    method Remember(h: string)
      requires Valid() && Seen(h)
      modifies seenCache
      ensures Valid() && Seen(h)
    {
      seenCache.Set(h, 1);
    }

    /** A hash is wanted exactly when the store has not seen it. */
    method IWant(d: string) returns (want: bool)
      requires Valid() && HashTree.IsHash(d, store.n)
      modifies seenCache, store
      ensures Valid() && want == !Seen(d)
      ensures store.files == old(store.files) && store.hashes == old(store.hashes)
    {
      var cached := seenCache.Find(d);
      if cached {
        return false;
      }
      var seen := store.Seen(d);
      if seen {
        Remember(d);
        return false;
      }
      want := true;
    }

    /** Stores data under its hash unless that has been seen. The write to the have-file may fail,
        and the disk may take only part of the data. */
    method StoreData(data: string, h: string, recorded: bool, written: nat) returns (ok: bool)
      requires Valid() && HashTree.IsHash(h, store.n) && written <= |data|
      modifies this, seenCache, store
      ensures Valid()
      ensures ok <==> |data| <= 128000 && !uploadOnly && !old(Seen(h)) && recorded && written == |data|
      ensures ok ==> store.At(h) == Some(data)
      ensures stored == if ok then old(stored) + [h] else old(stored)
      ensures forall g :: old(Seen(g)) ==> Seen(g)
      ensures forall g :: Seen(g) && g != h ==> old(Seen(g))
      ensures forall g :: old(Seen(g)) ==> store.At(g) == old(store.At(g))
    {
      ok := false;
      if |data| > MAX_DATA_SIZE {
        return;
      }
      if uploadOnly {
        return;
      }
      var want := IWant(h);
      if !want || !recorded {
        return;
      }
      ok := Keep(data, h, written);
      if ok {
        Remember(h);
      }
    }

    /** Writes data whose hash has not been seen. */
    method Keep(data: string, h: string, written: nat) returns (ok: bool)
      requires Valid() && HashTree.IsHash(h, store.n) && !Seen(h) && written <= |data|
      modifies this, store
      ensures Valid() && (ok <==> written == |data|)
      ensures ok ==> store.At(h) == Some(data)
      ensures stored == if ok then old(stored) + [h] else old(stored)
      ensures forall g :: Seen(g) <==> old(Seen(g)) || g == h
      ensures forall g :: HashTree.IsHash(g, store.n) && g != h ==> store.At(g) == old(store.At(g))
    {
      AppendDistinct(haveFile, h);
      AppendDistinct(stored, h);
      var r := store.WriteData(data, h, false, written);
      assert data[..|data|] == data;
      ok := r == HashTree.Stored;
      haveFile := haveFile + [h];
      if ok {
        stored := stored + [h];
      }
      assert forall g :: old(Seen(g)) ==> Seen(g);
    }
  }
}
