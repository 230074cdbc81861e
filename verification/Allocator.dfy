/** The allocator at work: the bitmap scan, the chunk walk, the tracked list and its statistics, updated in
    place. Each method computes the function that the invariants are proved about.
    The scan goes over the four words of a bitmap and then over the bits of one word, lowest first; the
    lemmas before the class say that this finds what the search over the whole bitmap finds, and that
    walking chunks and nodes finds the first match. The abstraction of the class is the state of module
    Memory. */
module Allocator {
  import P = Pool
  import M = Memory

  const WORDS: nat := P.BLOCKS / P.WORD

  /** The bits of one bitmap word. */
  function WordAt(free: seq<bool>, i: nat): seq<bool>
    requires |free| == P.BLOCKS && i < WORDS
  {
    free[i * P.WORD..(i + 1) * P.WORD]
  }

  lemma {:induction false} FirstFreeSkips(free: seq<bool>, n: nat)
    requires n <= |free| && forall b :: 0 <= b < n ==> !free[b]
    ensures P.FirstFree(free) == n + P.FirstFree(free[n..])
    decreases n
  {
    if n > 0 {
      FirstFreeSkips(free[1..], n - 1);
      assert free[1..][n - 1..] == free[n..];
    } else {
      assert free[0..] == free;
    }
  }

  lemma {:induction false} FirstFreeIn(a: seq<bool>, b: seq<bool>)
    ensures P.FirstFree(a) < |a| ==> P.FirstFree(a + b) == P.FirstFree(a)
    decreases |a|
  {
    if a != [] && !a[0] {
      assert (a + b)[1..] == a[1..] + b;
      FirstFreeIn(a[1..], b);
    }
  }

  /** The first set bit of the first word that is not zero is the first set bit of the bitmap. */
  lemma {:induction false} FirstInWord(free: seq<bool>, i: nat)
    requires |free| == P.BLOCKS && i < WORDS && forall b :: 0 <= b < i * P.WORD ==> !free[b]
    ensures P.FirstFree(WordAt(free, i)) < P.WORD ==> P.FirstFree(free) == i * P.WORD + P.FirstFree(WordAt(free, i))
    ensures P.FirstFree(WordAt(free, i)) == P.WORD ==> forall b :: 0 <= b < (i + 1) * P.WORD ==> !free[b]
  {
    var w := WordAt(free, i);
    FirstFreeSkips(free, i * P.WORD);
    assert free[i * P.WORD..] == w + free[(i + 1) * P.WORD..];
    FirstFreeIn(w, free[(i + 1) * P.WORD..]);
    if P.FirstFree(w) == P.WORD {
      P.NoneFree(w);
      forall b | i * P.WORD <= b < (i + 1) * P.WORD ensures !free[b] { assert w[b - i * P.WORD] == free[b]; }
    }
  }

  lemma {:induction false} LocateSkips(chunks: seq<P.Chunk>, ptr: nat, i: nat)
    requires i <= |chunks| && forall j :: 0 <= j < i ==> !P.Inside(chunks[j], ptr)
    ensures i < |chunks| && P.Inside(chunks[i], ptr) ==> P.Locate(chunks, ptr) == i
    ensures i == |chunks| ==> P.Locate(chunks, ptr) == |chunks|
    decreases i
  {
    if i > 0 { LocateSkips(chunks[1..], ptr, i - 1); }
  }

  lemma {:induction false} FindSkips(nodes: seq<M.Node>, ptr: nat, i: nat)
    requires i <= |nodes| && forall j :: 0 <= j < i ==> nodes[j].ptr != ptr
    ensures i < |nodes| && nodes[i].ptr == ptr ==> M.Find(nodes, ptr) == i
    ensures i == |nodes| ==> M.Find(nodes, ptr) == |nodes|
    decreases i
  {
    if i > 0 { FindSkips(nodes[1..], ptr, i - 1); }
  }

  class BlockManager {
    var pool: P.Pool
    var nodes: seq<M.Node>
    var bytes: nat -> int
    var stats: M.Stats

    constructor (bytes: nat -> int)
      ensures M.Sound(Abstract()) && nodes == []
    {
      this.pool, this.nodes, this.bytes := P.Pool([], 0), [], bytes;
      this.stats := M.Stats(0, 0, 0, 0, 0, 0);
      new;
      M.StartIsSound(bytes);
    }

    ghost function Abstract(): M.State
      reads this
    {
      M.State(pool, nodes, bytes, stats)
    }

    /** Takes the lowest free block of the first chunk: the scan of the bitmap never runs off its end. */
    method TakeBlock() returns (ptr: nat)
      requires P.Valid(pool) && pool.chunks != [] && pool.chunks[0].freeCount > 0
      modifies `pool
      ensures var c := old(pool).chunks[0];
              var b := P.FirstFree(c.free);
              && b < |c.free| && ptr == P.BlockAt(c, b)
              && pool == old(pool).(chunks :=
                old(pool).chunks[0 := P.Chunk(c.base, c.free[b := false], c.freeCount - 1)])
    {
      hide P.PopCount;
      var c := pool.chunks[0];
      assert c in pool.chunks;
      var i := 0;
      while i < WORDS
        invariant 0 <= i <= WORDS && pool == old(pool)
        invariant forall b :: 0 <= b < i * P.WORD ==> !c.free[b]
      {
        FirstInWord(c.free, i);
        var bit := P.FirstFree(WordAt(c.free, i));
        if bit < P.WORD {
          var block := i * P.WORD + bit;
          pool := pool.(chunks := pool.chunks[0 := P.Chunk(c.base, c.free[block := false], c.freeCount - 1)]);
          return P.BlockAt(c, block);
        }
        i := i + 1;
      }
      P.AllTaken(c.free);
      assert false;
    }

    method PoolAlloc(base: nat) returns (ptr: nat)
      requires P.Valid(pool) && (P.NeedsChunk(pool) ==> P.FreshChunk(pool, base))
      modifies `pool, `bytes
      ensures (pool, ptr) == P.Alloc(old(pool), base)
      ensures bytes == if P.NeedsChunk(old(pool)) then M.Zeroed(old(bytes), base, P.CHUNK_SIZE) else old(bytes)
    {
      P.ExtendedValid(pool, base);
      hide P.Valid, P.Live, P.FreshChunk, P.FirstFree;
      if pool.chunks == [] || pool.chunks[0].freeCount == 0 {
        bytes := M.Zeroed(bytes, base, P.CHUNK_SIZE);
        pool := P.Pool([P.NewChunk(base)] + pool.chunks, pool.totalChunks + 1);
      }
      ptr := TakeBlock();
    }

    method PoolFree(ptr: nat) returns (ok: bool)
      requires P.Valid(pool)
      modifies `pool
      ensures (pool, ok) == P.Free(old(pool), ptr)
    {
      hide P.PopCount;
      var i := 0;
      while i < |pool.chunks|
        invariant 0 <= i <= |pool.chunks| && pool == old(pool)
        invariant forall j :: 0 <= j < i ==> !P.Inside(pool.chunks[j], ptr)
      {
        var c := pool.chunks[i];
        if c.base <= ptr < c.base + P.CHUNK_SIZE {
          LocateSkips(pool.chunks, ptr, i);
          assert c in pool.chunks;
          var block := (ptr - c.base) / P.BLOCK_SIZE;
          pool := pool.(chunks := pool.chunks[i := P.Chunk(c.base, c.free[block := true], c.freeCount + 1)]);
          return true;
        }
        i := i + 1;
      }
      LocateSkips(pool.chunks, ptr, i);
      ok := false;
    }

    method FindNode(ptr: nat) returns (i: nat)
      ensures i == M.Find(nodes, ptr)
    {
      i := 0;
      while i < |nodes|
        invariant 0 <= i <= |nodes| && forall j :: 0 <= j < i ==> nodes[j].ptr != ptr
      {
        if nodes[i].ptr == ptr {
          break;
        }
        i := i + 1;
      }
      FindSkips(nodes, ptr, i);
    }

    method Track(ptr: nat, size: nat)
      modifies `nodes, `stats
      ensures Abstract() == M.Tracked(old(Abstract()), ptr, size)
    {
      nodes := [M.Node(ptr, size)] + nodes;
      stats := stats.(allocations := stats.allocations + 1, current := stats.current + 1);
      if stats.current > stats.peak {
        stats := stats.(peak := stats.current);
      }
    }

    method Untrack(ptr: nat)
      modifies `nodes, `stats
      ensures Abstract() == M.Untracked(old(Abstract()), ptr)
    {
      var i := FindNode(ptr);
      if i < |nodes| {
        stats := stats.(bytesOut := stats.bytesOut + nodes[i].size, deallocations := stats.deallocations + 1);
        if stats.current > 0 {
          stats := stats.(current := stats.current - 1);
        }
        nodes := nodes[..i] + nodes[i + 1..];
      }
    }

    method Alloc(size: nat, kind: nat, env: M.Env) returns (ptr: nat)
      requires M.Sound(Abstract()) && M.Promised(pool, M.NodeSet(nodes), M.NodeSet(nodes), size, env)
      modifies this
      ensures (Abstract(), ptr) == M.Alloc(old(Abstract()), size, kind, env)
      ensures M.Sound(Abstract())
    {
      M.AllocSound(Abstract(), size, kind, env);
      if size <= P.BLOCK_SIZE {
        ptr := PoolAlloc(env.chunk);
      } else {
        ptr := env.heap;
      }
      bytes := M.Headed(M.Zeroed(bytes, ptr, size), ptr, kind);
      stats := stats.(bytesIn := stats.bytesIn + size);
      Track(ptr, size);
    }

    method Realloc(ptr: nat, size: nat, env: M.Env) returns (to: nat)
      requires M.Sound(Abstract()) && M.Legal(Abstract(), M.Resize(ptr, size, env))
      modifies this
      ensures (Abstract(), to) == if ptr == 0 then M.Alloc(old(Abstract()), size, M.KIND_STRING, env)
                                  else M.Realloc(old(Abstract()), ptr, size, env)
      ensures M.Sound(Abstract())
    {
      M.ApplySound(Abstract(), M.Resize(ptr, size, env));
      if ptr == 0 {
        to := Alloc(size, M.KIND_STRING, env);
      } else {
        FreedIsValid(ptr, size, env);
        hide M.Sound, M.Legal, P.Valid, P.Alloc, P.Free, P.NeedsChunk, P.FreshChunk, M.Promised;
        to := Relocate(ptr, size, env);
      }
    }

    method Relocate(ptr: nat, size: nat, env: M.Env) returns (to: nat)
      requires P.Valid(pool) && P.Valid(P.Free(pool, ptr).0)
      requires size <= P.BLOCK_SIZE && P.NeedsChunk(P.Free(pool, ptr).0) ==>
               P.FreshChunk(P.Free(pool, ptr).0, env.chunk)
      modifies this
      ensures (Abstract(), to) == M.Realloc(old(Abstract()), ptr, size, env)
    {
      hide P.Valid, P.Alloc, P.Free, P.NeedsChunk, P.FreshChunk;
      var i := FindNode(ptr);
      var oldSize := if i < |nodes| then nodes[i].size else 0;
      to := Move(ptr, oldSize, size, env);
      Recount(to, oldSize, size);
      if i < |nodes| {
        nodes := nodes[i := M.Node(to, size)];
      }
    }

    /** Gives the old block back, takes the new one, and only then copies. */
    method Move(ptr: nat, oldSize: nat, size: nat, env: M.Env) returns (to: nat)
      requires P.Valid(pool) && P.Valid(P.Free(pool, ptr).0)
      requires size <= P.BLOCK_SIZE && P.NeedsChunk(P.Free(pool, ptr).0) ==>
               P.FreshChunk(P.Free(pool, ptr).0, env.chunk)
      modifies `pool, `bytes
      ensures var released := P.Free(old(pool), ptr).0;
              && (pool, to) == (if size <= P.BLOCK_SIZE then P.Alloc(released, env.chunk) else (released, env.heap))
              && bytes == M.Copied(if size <= P.BLOCK_SIZE then M.PoolBytes(old(bytes), released, env) else old(bytes),
                                   to, ptr, M.Min(oldSize, size))
    {
      hide P.Valid, P.Alloc, P.Free, P.NeedsChunk, P.FreshChunk;
      var kept := if oldSize < size then oldSize else size;
      var wasPooled := PoolFree(ptr);
      if size <= P.BLOCK_SIZE {
        to := PoolAlloc(env.chunk);
        bytes := M.Copied(bytes, to, ptr, kept);
      } else if wasPooled {
        to := env.heap;
        bytes := M.Copied(bytes, to, ptr, kept);
      } else {
        // The system's reallocation copies the same bytes.
        to := env.heap;
        bytes := M.Copied(bytes, to, ptr, kept);
      }
    }

    method Recount(to: nat, oldSize: nat, size: nat)
      modifies `bytes, `stats
      ensures bytes == if size > oldSize then M.Zeroed(old(bytes), to + oldSize, size - oldSize) else old(bytes)
      ensures stats == old(stats).(
                bytesIn := old(stats).bytesIn + (if size > oldSize then size - oldSize else 0),
                bytesOut := old(stats).bytesOut + (if oldSize > size then oldSize - size else 0))
    {
      if size > oldSize {
        bytes := M.Zeroed(bytes, to + oldSize, size - oldSize);
        stats := stats.(bytesIn := stats.bytesIn + (size - oldSize));
      } else if oldSize > size {
        stats := stats.(bytesOut := stats.bytesOut + (oldSize - size));
      }
    }

    lemma FreedIsValid(ptr: nat, size: nat, env: M.Env)
      requires M.Sound(Abstract()) && M.Legal(Abstract(), M.Resize(ptr, size, env)) && ptr != 0
      ensures P.Valid(pool) && P.Valid(P.Free(pool, ptr).0)
      ensures size <= P.BLOCK_SIZE && P.NeedsChunk(P.Free(pool, ptr).0) ==> P.FreshChunk(P.Free(pool, ptr).0, env.chunk)
    {
      hide P.Free, P.NeedsChunk, P.FreshChunk;
      var all := M.NodeSet(nodes);
      var n :| n in nodes && n.ptr == ptr && M.Promised(P.Free(pool, ptr).0, all, all - {n}, size, env);
      M.RemovedPlaced(pool, all, n);
    }

    method Free(ptr: nat)
      requires M.Sound(Abstract()) && M.Legal(Abstract(), M.Drop(ptr))
      modifies this
      ensures Abstract() == M.Apply(old(Abstract()), M.Drop(ptr)) && M.Sound(Abstract())
    {
      M.ApplySound(Abstract(), M.Drop(ptr));
      if ptr == 0 {
        return;
      }
      hide M.Sound;
      Untrack(ptr);
      var pooled := PoolFree(ptr);
    }
  }
}
