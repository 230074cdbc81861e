/** The block pool: chunks of 256 blocks of 64 bytes, a free bitmap and a free count per chunk. A chunk
    lives at the address that the system allocator gave it. */
module Pool {
  const BLOCK_SIZE: nat := 64
  const BLOCKS: nat := 256
  const WORD: nat := 64
  const CHUNK_SIZE: nat := 16384

  /** `free` lists the bits of the four bitmap words, lowest bit first; a set bit marks a free block. */
  datatype Chunk = Chunk(base: nat, free: seq<bool>, freeCount: int)

  /** The newest chunk comes first. */
  datatype Pool = Pool(chunks: seq<Chunk>, totalChunks: int)

  function NewChunk(base: nat): Chunk { Chunk(base, seq(BLOCKS, _ => true), BLOCKS) }

  function BlockAt(c: Chunk, b: nat): nat { c.base + BLOCK_SIZE * b }

  function FirstFree(free: seq<bool>): (b: nat)
    ensures b <= |free| && (b < |free| ==> free[b])
  {
    if free == [] || free[0] then 0 else 1 + FirstFree(free[1..])
  }

  predicate NeedsChunk(p: Pool) { p.chunks == [] || p.chunks[0].freeCount == 0 }

  function Extended(p: Pool, base: nat): Pool {
    if NeedsChunk(p) then Pool([NewChunk(base)] + p.chunks, p.totalChunks + 1) else p
  }

  /** Takes the lowest free block of the newest chunk, after putting a new chunk in front of a full one.
      `base` is where a new chunk would be. */
  function Alloc(p: Pool, base: nat): (Pool, nat) {
    var q := Extended(p, base);
    var c := q.chunks[0];
    var b := FirstFree(c.free);
    if b < |c.free|
    then (q.(chunks := q.chunks[0 := Chunk(c.base, c.free[b := false], c.freeCount - 1)]), BlockAt(c, b))
    else (q, 0)
  }

  predicate Inside(c: Chunk, ptr: nat) { c.base <= ptr < c.base + CHUNK_SIZE }

  function Locate(chunks: seq<Chunk>, ptr: nat): (i: nat)
    ensures i <= |chunks| && (i < |chunks| ==> Inside(chunks[i], ptr))
  {
    if chunks == [] || Inside(chunks[0], ptr) then 0 else 1 + Locate(chunks[1..], ptr)
  }

  function BlockIndex(c: Chunk, ptr: nat): (b: nat)
    requires Inside(c, ptr)
    ensures b < BLOCKS
  {
    (ptr - c.base) / BLOCK_SIZE
  }

  /** Sets the block's bit and counts it, whatever the bit was. */
  function Returned(c: Chunk, ptr: nat): Chunk
    requires Inside(c, ptr) && |c.free| == BLOCKS
  {
    Chunk(c.base, c.free[BlockIndex(c, ptr) := true], c.freeCount + 1)
  }

  function Free(p: Pool, ptr: nat): (Pool, bool) {
    var i := Locate(p.chunks, ptr);
    if i < |p.chunks| && |p.chunks[i].free| == BLOCKS
    then (p.(chunks := p.chunks[i := Returned(p.chunks[i], ptr)]), true)
    else (p, false)
  }

  // ---------------------------------------------------------------- counting

  function PopCount(free: seq<bool>): nat {
    if free == [] then 0 else PopCount(free[..|free| - 1]) + if free[|free| - 1] then 1 else 0
  }

  lemma {:induction false} PopCountUpdate(free: seq<bool>, b: nat, bit: bool)
    requires b < |free|
    ensures PopCount(free[b := bit]) == PopCount(free) - (if free[b] then 1 else 0) + (if bit then 1 else 0)
    decreases |free|
  {
    var n := |free| - 1;
    if b == n {
      assert free[b := bit][..n] == free[..n];
    } else {
      assert free[b := bit][..n] == free[..n][b := bit];
      PopCountUpdate(free[..n], b, bit);
    }
  }

  lemma {:induction false} PopCountZero(free: seq<bool>)
    requires FirstFree(free) == |free|
    ensures PopCount(free) == 0
  {
    NoneFree(free);
    AllTaken(free);
  }

  lemma {:induction false} NoneFree(free: seq<bool>)
    requires FirstFree(free) == |free|
    ensures forall b :: 0 <= b < |free| ==> !free[b]
    decreases |free|
  {
    if free != [] { NoneFree(free[1..]); }
  }

  lemma {:induction false} AllTaken(free: seq<bool>)
    requires forall b :: 0 <= b < |free| ==> !free[b]
    ensures PopCount(free) == 0
    decreases |free|
  {
    if free != [] { AllTaken(free[..|free| - 1]); }
  }

  lemma {:induction false} AllFree(n: nat)
    ensures PopCount(seq(n, _ => true)) == n
  {
    if n > 0 {
      assert seq(n, _ => true)[..n - 1] == seq(n - 1, _ => true);
      AllFree(n - 1);
    }
  }

  // ---------------------------------------------------------------- the invariant

  predicate ChunkOk(c: Chunk) { c.base > 0 && |c.free| == BLOCKS && c.freeCount == PopCount(c.free) }

  predicate Apart(a: Chunk, b: Chunk) { a.base + CHUNK_SIZE <= b.base || b.base + CHUNK_SIZE <= a.base }

  predicate Valid(p: Pool) {
    && (forall c :: c in p.chunks ==> ChunkOk(c))
    && (forall i, j :: 0 <= i < j < |p.chunks| ==> Apart(p.chunks[i], p.chunks[j]))
    && p.totalChunks == |p.chunks|
  }

  /** The system allocator's promise for a new chunk. */
  predicate FreshChunk(p: Pool, base: nat) {
    base > 0 && forall c :: c in p.chunks ==> Apart(c, NewChunk(base))
  }

  predicate Taken(c: Chunk, ptr: nat) {
    Inside(c, ptr) && (ptr - c.base) % BLOCK_SIZE == 0 && |c.free| == BLOCKS && !c.free[BlockIndex(c, ptr)]
  }

  /** `ptr` is a block that has been handed out and not returned. */
  predicate Live(p: Pool, ptr: nat) { exists c :: c in p.chunks && Taken(c, ptr) }

  lemma {:induction false} LocateFirst(chunks: seq<Chunk>, ptr: nat, i: nat)
    requires i < |chunks| && Inside(chunks[i], ptr)
    requires forall j :: 0 <= j < i ==> Apart(chunks[j], chunks[i])
    ensures Locate(chunks, ptr) == i
    decreases |chunks|
  {
    if i > 0 { LocateFirst(chunks[1..], ptr, i - 1); }
  }

  lemma {:induction false} ExtendedValid(p: Pool, base: nat)
    requires Valid(p) && (NeedsChunk(p) ==> FreshChunk(p, base))
    ensures Valid(Extended(p, base)) && Extended(p, base).chunks[0].freeCount > 0
    ensures forall ptr :: Live(Extended(p, base), ptr) <==> Live(p, ptr)
  {
    hide PopCount;
    if NeedsChunk(p) {
      AllFree(BLOCKS);
      var q := Extended(p, base);
      assert ChunkOk(NewChunk(base));
      assert forall c :: c in q.chunks <==> c == NewChunk(base) || c in p.chunks;
      forall i, j | 0 <= i < j < |q.chunks| ensures Apart(q.chunks[i], q.chunks[j]) {
        if i > 0 { assert Apart(p.chunks[i - 1], p.chunks[j - 1]); } else { assert q.chunks[j] in p.chunks; }
      }
      forall ptr ensures Live(q, ptr) <==> Live(p, ptr) {
        assert !Taken(NewChunk(base), ptr);
      }
    } else {
      assert p.chunks[0] in p.chunks;
      CountNotNegative(p.chunks[0]);
    }
  }

  lemma CountNotNegative(c: Chunk)
    requires ChunkOk(c)
    ensures c.freeCount >= 0
  {
  }

  /** The first live pointer differs: taking a block of chunk `i` adds just that block. */
  lemma {:induction false} ChunkReplaced(p: Pool, i: nat, c: Chunk, ptr: nat)
    requires i < |p.chunks| && c.base == p.chunks[i].base
    requires forall x :: x != ptr ==> (Taken(c, x) <==> Taken(p.chunks[i], x))
    ensures forall x :: x != ptr ==> (Live(p.(chunks := p.chunks[i := c]), x) <==> Live(p, x))
  {
    var q := p.(chunks := p.chunks[i := c]);
    forall x | x != ptr ensures Live(q, x) <==> Live(p, x) {
      if Live(q, x) {
        var d :| d in q.chunks && Taken(d, x);
        var j :| 0 <= j < |q.chunks| && q.chunks[j] == d;
        assert Taken(p.chunks[j], x) && p.chunks[j] in p.chunks;
      }
      if Live(p, x) {
        var d :| d in p.chunks && Taken(d, x);
        var j :| 0 <= j < |p.chunks| && p.chunks[j] == d;
        assert Taken(q.chunks[j], x) && q.chunks[j] in q.chunks;
      }
    }
  }

  lemma {:induction false} ReplacedValid(p: Pool, i: nat, c: Chunk)
    requires Valid(p) && i < |p.chunks| && ChunkOk(c) && c.base == p.chunks[i].base
    ensures Valid(p.(chunks := p.chunks[i := c]))
  {
    hide ChunkOk;
    var q := p.(chunks := p.chunks[i := c]);
    forall j, k | 0 <= j < k < |q.chunks| ensures Apart(q.chunks[j], q.chunks[k]) {
      assert Apart(p.chunks[j], p.chunks[k]);
    }
    forall d | d in q.chunks ensures ChunkOk(d) {
      var j :| 0 <= j < |q.chunks| && q.chunks[j] == d;
      assert j != i ==> d == p.chunks[j];
    }
  }

  lemma SameChunk(p: Pool, i: nat, j: nat, ptr: nat)
    requires Valid(p) && i < |p.chunks| && j < |p.chunks| && Inside(p.chunks[i], ptr) && Inside(p.chunks[j], ptr)
    ensures i == j
  {
    hide ChunkOk;
    assert i < j ==> Apart(p.chunks[i], p.chunks[j]);
    assert j < i ==> Apart(p.chunks[j], p.chunks[i]);
  }

  lemma {:induction false} OnlyOneHolds(p: Pool, i: nat, ptr: nat)
    requires Valid(p) && i < |p.chunks| && Inside(p.chunks[i], ptr)
    ensures Live(p, ptr) <==> Taken(p.chunks[i], ptr)
    ensures Locate(p.chunks, ptr) == i
  {
    hide ChunkOk;
    assert forall j :: 0 <= j < i ==> Apart(p.chunks[j], p.chunks[i]);
    LocateFirst(p.chunks, ptr, i);
    if Live(p, ptr) {
      var d :| d in p.chunks && Taken(d, ptr);
      var j :| 0 <= j < |p.chunks| && p.chunks[j] == d;
      SameChunk(p, i, j, ptr);
    }
    assert p.chunks[i] in p.chunks;
  }

  /** An allocation always succeeds with a block of its own that was not live, never the null address, and
      adds just that block to the live ones. */
  lemma {:induction false} AllocTakesNewBlock(p: Pool, base: nat)
    requires Valid(p) && (NeedsChunk(p) ==> FreshChunk(p, base))
    ensures var (q, ptr) := Alloc(p, base);
            && Valid(q) && ptr > 0 && !Live(p, ptr) && Live(q, ptr)
            && (exists c :: c in q.chunks && Inside(c, ptr) && (ptr - c.base) % BLOCK_SIZE == 0)
            && forall x :: x != ptr ==> (Live(q, x) <==> Live(p, x))
  {
    ExtendedValid(p, base);
    hide NeedsChunk, Live, PopCount;
    var e := Extended(p, base);
    var c := e.chunks[0];
    assert c in e.chunks;
    var b := FirstFree(c.free);
    if b == |c.free| { PopCountZero(c.free); }
    PopCountUpdate(c.free, b, false);
    var c' := Chunk(c.base, c.free[b := false], c.freeCount - 1);
    var ptr := BlockAt(c, b);
    ReplacedValid(e, 0, c');
    OneBlock(c, b, c');
    ChunkReplaced(e, 0, c', ptr);
    OnlyOneHolds(e, 0, ptr);
    var q := e.(chunks := e.chunks[0 := c']);
    OnlyOneHolds(q, 0, ptr);
    assert q.chunks[0] in q.chunks && Inside(q.chunks[0], ptr);
  }

  lemma {:induction false} CountsABlock(free: seq<bool>, b: nat)
    requires b < |free| && free[b]
    ensures PopCount(free) > 0
    decreases |free|
  {
    var n := |free| - 1;
    if b < n { CountsABlock(free[..n], b); } else { CountIsNat(free[..n]); }
  }

  lemma {:induction false} CountIsNat(free: seq<bool>)
    ensures PopCount(free) >= 0
  {
  }

  /** The pool grows, by one chunk, exactly when its newest chunk has no free block left. */
  lemma {:induction false} GrowsOnlyWhenFull(p: Pool, base: nat)
    requires Valid(p)
    ensures |Alloc(p, base).0.chunks| == |p.chunks| + 1 <==>
              p.chunks == [] || forall b :: 0 <= b < |p.chunks[0].free| ==> !p.chunks[0].free[b]
    ensures |Alloc(p, base).0.chunks| == |p.chunks| || |Alloc(p, base).0.chunks| == |p.chunks| + 1
  {
    hide PopCount;
    if p.chunks != [] {
      var c := p.chunks[0];
      assert ChunkOk(c);
      if forall b :: 0 <= b < |c.free| ==> !c.free[b] {
        AllTaken(c.free);
      } else {
        var b :| 0 <= b < |c.free| && c.free[b];
        CountsABlock(c.free, b);
      }
    }
  }

  lemma OneBlock(c: Chunk, b: nat, c': Chunk)
    requires |c.free| == BLOCKS && b < BLOCKS && c'.base == c.base
    requires |c'.free| == BLOCKS && forall k :: 0 <= k < BLOCKS && k != b ==> c'.free[k] == c.free[k]
    ensures Inside(c, BlockAt(c, b)) && BlockIndex(c, BlockAt(c, b)) == b && (BlockAt(c, b) - c.base) % BLOCK_SIZE == 0
    ensures Taken(c', BlockAt(c, b)) <==> !c'.free[b]
    ensures forall x :: x != BlockAt(c, b) ==> (Taken(c', x) <==> Taken(c, x))
  {
  }

  /** Returning a live block succeeds, keeps the invariant, and takes just that block away. */
  lemma {:induction false} FreeReturnsBlock(p: Pool, ptr: nat)
    requires Valid(p) && Live(p, ptr)
    ensures var (q, ok) := Free(p, ptr);
            && ok && Valid(q) && !Live(q, ptr) && |q.chunks| == |p.chunks|
            && (forall i :: 0 <= i < |p.chunks| ==> q.chunks[i].base == p.chunks[i].base)
            && forall x :: x != ptr ==> (Live(q, x) <==> Live(p, x))
  {
    hide PopCount;
    var c :| c in p.chunks && Taken(c, ptr);
    var i :| 0 <= i < |p.chunks| && p.chunks[i] == c;
    hide Live;
    OnlyOneHolds(p, i, ptr);
    var b := BlockIndex(c, ptr);
    var c' := Returned(c, ptr);
    assert BlockAt(c, b) == ptr;
    PopCountUpdate(c.free, b, true);
    ReplacedValid(p, i, c');
    OneBlock(c, b, c');
    ChunkReplaced(p, i, c', ptr);
    var q := p.(chunks := p.chunks[i := c']);
    OnlyOneHolds(q, i, ptr);
  }

  /** For a pointer into a chunk, freeing keeps the invariant exactly when the block it lies in was taken;
      freeing a free block a second time makes the count exceed the bitmap. */
  lemma {:induction false} FreeKeepsInvariantIff(p: Pool, i: nat, ptr: nat)
    requires Valid(p) && i < |p.chunks| && Inside(p.chunks[i], ptr)
    ensures |p.chunks[i].free| == BLOCKS
    ensures Valid(Free(p, ptr).0) <==> !p.chunks[i].free[BlockIndex(p.chunks[i], ptr)]
  {
    hide PopCount;
    OnlyOneHolds(p, i, ptr);
    var c := p.chunks[i];
    assert c in p.chunks;
    var b, c' := BlockIndex(c, ptr), Returned(c, ptr);
    PopCountUpdate(c.free, b, true);
    var q := p.(chunks := p.chunks[i := c']);
    assert q.chunks[i] in q.chunks && c in p.chunks;
    if !c.free[b] { ReplacedValid(p, i, c'); }
  }

  // ---------------------------------------------------------------- conservation

  function SumFree(chunks: seq<Chunk>): int {
    if chunks == [] then 0 else SumFree(chunks[..|chunks| - 1]) + chunks[|chunks| - 1].freeCount
  }

  function TakenUpTo(c: Chunk, n: nat): set<nat>
    requires n <= |c.free|
  {
    if n == 0 then {} else TakenUpTo(c, n - 1) + if c.free[n - 1] then {} else {BlockAt(c, n - 1)}
  }

  function LiveSet(chunks: seq<Chunk>): set<nat> {
    if chunks == [] then {}
    else LiveSet(chunks[..|chunks| - 1]) + TakenUpTo(chunks[|chunks| - 1], |chunks[|chunks| - 1].free|)
  }

  lemma {:induction false} TakenSize(c: Chunk, n: nat)
    requires n <= |c.free|
    ensures |TakenUpTo(c, n)| == n - PopCount(c.free[..n])
    ensures forall x :: x in TakenUpTo(c, n) ==> c.base <= x < c.base + BLOCK_SIZE * n
  {
    if n > 0 {
      TakenSize(c, n - 1);
      assert c.free[..n][..n - 1] == c.free[..n - 1];
    }
  }

  lemma {:induction false} TakenSetIs(c: Chunk, n: nat, x: nat)
    requires n <= |c.free| == BLOCKS
    ensures x in TakenUpTo(c, n) <==> Taken(c, x) && BlockIndex(c, x) < n
  {
    if n > 0 {
      TakenSetIs(c, n - 1, x);
    }
  }

  lemma {:induction false} LiveSetIs(p: Pool, x: nat)
    requires forall c :: c in p.chunks ==> |c.free| == BLOCKS
    ensures x in LiveSet(p.chunks) <==> Live(p, x)
    decreases |p.chunks|
  {
    hide TakenUpTo;
    if p.chunks != [] {
      var n := |p.chunks| - 1;
      var rest := Pool(p.chunks[..n], 0);
      LiveSetIs(rest, x);
      TakenSetIs(p.chunks[n], BLOCKS, x);
      assert forall c :: c in p.chunks <==> c in rest.chunks || c == p.chunks[n];
    }
  }

  lemma {:induction false} Conserved(chunks: seq<Chunk>)
    requires forall c :: c in chunks ==> ChunkOk(c)
    requires forall i, j :: 0 <= i < j < |chunks| ==> Apart(chunks[i], chunks[j])
    ensures BLOCKS * |chunks| == |LiveSet(chunks)| + SumFree(chunks)
    decreases |chunks|
  {
    hide PopCount, TakenUpTo;
    if chunks != [] {
      var n := |chunks| - 1;
      var c, rest := chunks[n], chunks[..n];
      assert c in chunks && ChunkOk(c);
      Conserved(rest);
      TakenSize(c, BLOCKS);
      assert c.free[..BLOCKS] == c.free;
      forall x | x in LiveSet(rest) ensures x !in TakenUpTo(c, BLOCKS) {
        LiveSetIs(Pool(rest, 0), x);
        var d :| d in rest && Taken(d, x);
        var j :| 0 <= j < n && rest[j] == d;
        assert Apart(chunks[j], chunks[n]);
      }
      assert LiveSet(rest) !! TakenUpTo(c, BLOCKS);
    }
  }

  /** 256 blocks per chunk are either live or counted free. */
  lemma {:induction false} BlocksAreConserved(p: Pool)
    requires Valid(p)
    ensures forall x :: x in LiveSet(p.chunks) <==> Live(p, x)
    ensures BLOCKS * p.totalChunks == |LiveSet(p.chunks)| + SumFree(p.chunks)
  {
    Conserved(p.chunks);
    forall x ensures x in LiveSet(p.chunks) <==> Live(p, x) { LiveSetIs(p, x); }
  }
}
