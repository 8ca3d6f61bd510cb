/** What it means for cached chunks to agree with the files. */
module Coherence {
  import opened Storage
  import opened ChunkCache

  /** The entry holds the file's bytes of chunk cid, clipped at end of file. */
  ghost predicate Agrees(data: seq<byte>, validSize: nat, file: File, c: nat, cid: nat) {
    var base := Times(cid, c);
    && base < |file|
    && validSize == Min(c, |file| - base) && validSize <= |data|
    && forall i :: 0 <= i < validSize ==> data[i] == file[base + i]
  }

  ghost predicate Backed(env: Env, c: nat, k: Key, e: Entry) {
    k.file in env.files && Agrees(e.data, e.validSize, env.files[k.file], c, k.chunk)
  }

  ghost predicate Coherent(env: Env, cache: Cache) {
    forall k :: k in cache.table ==> Backed(env, cache.chunkSize, k, cache.table[k].entry)
  }

  lemma {:induction false} LookupCoherent(env: Env, cache: Cache, k: Key)
    requires Coherent(env, cache)
    ensures Coherent(env, cache.Lookup(k))
  {
    var d := cache.Lookup(k);
    forall x | x in d.table ensures Backed(env, d.chunkSize, x, d.table[x].entry) {
      assert Backed(env, cache.chunkSize, x, cache.table[x].entry);
    }
  }

  lemma {:induction false} InsertCoherent(env: Env, cache: Cache, path: Path, cid: nat, data: seq<byte>, validSize: nat)
    requires Coherent(env, cache) && path in env.files
    requires validSize > 0 ==> Agrees(data, validSize, env.files[path], cache.chunkSize, cid)
    ensures Coherent(env, cache.Insert(Key(path, cid), data, validSize))
  {
    var k := Key(path, cid);
    var d := cache.Insert(k, data, validSize);
    MakeRoomSubset(cache);
    MakeRoomKeepsSizes(cache);
    forall x | x in d.table ensures Backed(env, d.chunkSize, x, d.table[x].entry) {
      if cache.Accepts(validSize) && x == k {
        assert Agrees(d.table[x].entry.data, d.table[x].entry.validSize, env.files[path], d.chunkSize, cid);
      } else {
        assert x in cache.table && d.table[x] == cache.table[x];
      }
    }
  }

  /** A present chunk of an existing file has all the bytes a fresh read would give. */
  lemma {:induction false} PresentIsWhole(env: Env, c: Cache, path: Path, cid: nat)
    requires Coherent(env, c) && path in env.files
    ensures var k := Key(path, cid);
            k in c.table ==> c.table[k].entry.validSize == Avail(|env.files[path]|, Times(cid, c.chunkSize), c.chunkSize)
  {
    var k := Key(path, cid);
    if k in c.table {
      assert Backed(env, c.chunkSize, k, c.table[k].entry);
    }
  }
}
