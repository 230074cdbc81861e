/** Allocation, reallocation, freeing and sweeping of tracked objects: small ones in the pool, large ones
    on the system heap. Where the system allocator places something is a parameter of each operation. */
module Memory {
  import P = Pool

  // ---------------------------------------------------------------- state

  datatype Node = Node(ptr: nat, size: nat)

  datatype Stats = Stats(allocations: int, deallocations: int, current: int, peak: int, bytesIn: int, bytesOut: int)

  datatype State = State(pool: P.Pool, nodes: seq<Node>, bytes: nat -> int, stats: Stats)

  /** Where the system allocator would put a new chunk and where it would put a heap block. */
  datatype Env = Env(chunk: nat, heap: nat)

  predicate Small(size: nat) { size <= P.BLOCK_SIZE }

  function Find(nodes: seq<Node>, ptr: nat): (i: nat)
    ensures i <= |nodes| && (i < |nodes| ==> nodes[i].ptr == ptr)
  {
    if nodes == [] || nodes[0].ptr == ptr then 0 else 1 + Find(nodes[1..], ptr)
  }

  // ---------------------------------------------------------------- bytes

  function Zeroed(bytes: nat -> int, at: nat, n: nat): nat -> int {
    (x: nat) => if at <= x < at + n then 0 else bytes(x)
  }

  function Copied(bytes: nat -> int, to: nat, from: nat, n: nat): nat -> int {
    (x: nat) => if to <= x < to + n then bytes(from + (x - to)) else bytes(x)
  }

  /** The header starts with the object's kind and a count of one, four bytes each, lowest first. */
  function HeaderByte(kind: nat, i: nat): int {
    if i == 0 then kind % 256
    else if i == 1 then kind / 0x100 % 256
    else if i == 2 then kind / 0x1_0000 % 256
    else if i == 3 then kind / 0x100_0000 % 256
    else if i == 4 then 1
    else 0
  }

  function Headed(bytes: nat -> int, at: nat, kind: nat): nat -> int {
    (x: nat) => if at <= x < at + 8 then HeaderByte(kind, x - at) else bytes(x)
  }

  /** A new chunk comes from `calloc`. */
  function PoolBytes(bytes: nat -> int, p: P.Pool, env: Env): nat -> int {
    if P.NeedsChunk(p) then Zeroed(bytes, env.chunk, P.CHUNK_SIZE) else bytes
  }

  // ---------------------------------------------------------------- operations

  function Max(a: int, b: int): int { if a < b then b else a }

  function Min(a: nat, b: nat): nat { if a < b then a else b }

  function Tracked(st: State, ptr: nat, size: nat): State {
    var s := st.stats;
    st.(nodes := [Node(ptr, size)] + st.nodes,
        stats := s.(allocations := s.allocations + 1, current := s.current + 1, peak := Max(s.peak, s.current + 1)))
  }

  function Untracked(st: State, ptr: nat): State {
    var i := Find(st.nodes, ptr);
    if i == |st.nodes| then st
    else
      var s := st.stats;
      st.(nodes := st.nodes[..i] + st.nodes[i + 1..],
          stats := s.(bytesOut := s.bytesOut + st.nodes[i].size, deallocations := s.deallocations + 1,
                      current := if s.current > 0 then s.current - 1 else s.current))
  }

  function Alloc(st: State, size: nat, kind: nat, env: Env): (State, nat) {
    var (pool, ptr) := if Small(size) then P.Alloc(st.pool, env.chunk) else (st.pool, env.heap);
    var raw := if Small(size) then PoolBytes(st.bytes, st.pool, env) else st.bytes;
    var bytes := Headed(Zeroed(raw, ptr, size), ptr, kind);
    var s := st.stats;
    (Tracked(State(pool, st.nodes, bytes, s.(bytesIn := s.bytesIn + size)), ptr, size), ptr)
  }

  function OldSize(st: State, ptr: nat): nat {
    var i := Find(st.nodes, ptr);
    if i < |st.nodes| then st.nodes[i].size else 0
  }

  /** The old block goes back to the pool before the new one is taken and the bytes are copied. */
  function Realloc(st: State, ptr: nat, size: nat, env: Env): (State, nat) {
    var oldSize := OldSize(st, ptr);
    var released := P.Free(st.pool, ptr).0;
    var (pool, to) := if Small(size) then P.Alloc(released, env.chunk) else (released, env.heap);
    var raw := if Small(size) then PoolBytes(st.bytes, released, env) else st.bytes;
    var copied := Copied(raw, to, ptr, Min(oldSize, size));
    var bytes := if size > oldSize then Zeroed(copied, to + oldSize, size - oldSize) else copied;
    var i := Find(st.nodes, ptr);
    var s := st.stats;
    (State(pool, if i < |st.nodes| then st.nodes[i := Node(to, size)] else st.nodes, bytes,
           s.(bytesIn := if size > oldSize then s.bytesIn + (size - oldSize) else s.bytesIn,
              bytesOut := if oldSize > size then s.bytesOut + (oldSize - size) else s.bytesOut)),
     to)
  }

  function Free(st: State, ptr: nat): State {
    var st1 := Untracked(st, ptr);
    st1.(pool := P.Free(st1.pool, ptr).0)
  }

  /** The sweep frees the listed objects one by one. */
  function Sweep(st: State, dead: seq<nat>): State
    decreases |dead|
  {
    if dead == [] then st else Sweep(Free(st, dead[0]), dead[1..])
  }

  // ---------------------------------------------------------------- where objects lie

  predicate Disjoint(a: nat, m: nat, b: nat, n: nat) { a + m <= b || b + n <= a }

  /** The addresses an object keeps for itself: its whole block in the pool, its size on the heap. */
  function Extent(n: Node): nat { if Small(n.size) then P.BLOCK_SIZE else n.size }

  predicate OffChunks(pool: P.Pool, n: Node) {
    forall c :: c in pool.chunks ==> Disjoint(n.ptr, n.size, c.base, P.CHUNK_SIZE)
  }

  predicate PlacedNode(pool: P.Pool, n: Node) {
    n.ptr > 0 && if Small(n.size) then P.Live(pool, n.ptr) else OffChunks(pool, n)
  }

  /** Small objects sit one to a live block and every live block has one; large ones lie outside the chunks
      and apart from each other. */
  ghost predicate Placed(pool: P.Pool, nodes: set<Node>) {
    && P.Valid(pool)
    && (forall n :: n in nodes ==> PlacedNode(pool, n))
    && (forall x :: P.Live(pool, x) ==> exists n :: n in nodes && n.ptr == x && Small(n.size))
    && (forall a, b :: a in nodes && b in nodes && a != b ==> a.ptr != b.ptr)
    && (forall a, b :: a in nodes && b in nodes && a != b && !Small(a.size) && !Small(b.size) ==>
          Disjoint(a.ptr, a.size, b.ptr, b.size))
  }

  /** The system allocator's promise: a new chunk or block overlaps nothing that is in use. */
  ghost predicate Promised(pool: P.Pool, nodes: set<Node>, others: set<Node>, size: nat, env: Env) {
    if Small(size) then
      P.NeedsChunk(pool) ==>
        && P.FreshChunk(pool, env.chunk)
        && forall n :: n in nodes && !Small(n.size) ==> Disjoint(n.ptr, n.size, env.chunk, P.CHUNK_SIZE)
    else
      && env.heap > 0 && OffChunks(pool, Node(env.heap, size))
      && forall n :: n in others && !Small(n.size) ==> Disjoint(n.ptr, n.size, env.heap, size)
  }

  lemma LiveInside(pool: P.Pool, x: nat) returns (c: P.Chunk)
    requires P.Live(pool, x)
    ensures c in pool.chunks && c.base <= x && x + P.BLOCK_SIZE <= c.base + P.CHUNK_SIZE
            && (x - c.base) % P.BLOCK_SIZE == 0
  {
    c :| c in pool.chunks && P.Taken(c, x);
    var d := x - c.base;
    assert d % P.BLOCK_SIZE == 0 && d < P.CHUNK_SIZE;
  }

  lemma AlignedApart(base: nat, x: nat, y: nat)
    requires base <= x && base <= y && x != y
    requires (x - base) % P.BLOCK_SIZE == 0 && (y - base) % P.BLOCK_SIZE == 0
    ensures Disjoint(x, P.BLOCK_SIZE, y, P.BLOCK_SIZE)
  {
  }

  lemma ChunksApart(pool: P.Pool, c: P.Chunk, d: P.Chunk)
    requires P.Valid(pool) && c in pool.chunks && d in pool.chunks && c != d
    ensures P.Apart(c, d)
  {
    var i :| 0 <= i < |pool.chunks| && pool.chunks[i] == c;
    var j :| 0 <= j < |pool.chunks| && pool.chunks[j] == d;
    assert i < j ==> P.Apart(pool.chunks[i], pool.chunks[j]);
    assert j < i ==> P.Apart(pool.chunks[j], pool.chunks[i]);
  }

  /** No two objects share an address. */
  lemma {:induction false} ExtentsDisjoint(pool: P.Pool, nodes: set<Node>, a: Node, b: Node)
    requires Placed(pool, nodes) && a in nodes && b in nodes && a != b
    ensures Disjoint(a.ptr, Extent(a), b.ptr, Extent(b))
  {
    hide P.Live, P.Valid;
    assert PlacedNode(pool, a) && PlacedNode(pool, b);
    if Small(a.size) && Small(b.size) {
      var c := LiveInside(pool, a.ptr);
      var d := LiveInside(pool, b.ptr);
      if c == d { AlignedApart(c.base, a.ptr, b.ptr); } else { ChunksApart(pool, c, d); }
    } else if Small(a.size) {
      var c := LiveInside(pool, a.ptr);
    } else if Small(b.size) {
      var c := LiveInside(pool, b.ptr);
    }
  }

  // ---------------------------------------------------------------- placing and removing one object

  lemma SmallPlaced(pool: P.Pool, nodes: set<Node>, size: nat, env: Env)
    requires Placed(pool, nodes) && Small(size) && Promised(pool, nodes, nodes, size, env)
    ensures var (pool', ptr) := P.Alloc(pool, env.chunk);
            Placed(pool', nodes + {Node(ptr, size)}) && (forall n :: n in nodes ==> n.ptr != ptr)
  {
    hide P.Valid, P.Live, P.Alloc, P.NeedsChunk;
    P.AllocTakesNewBlock(pool, env.chunk);
    var (pool', ptr) := P.Alloc(pool, env.chunk);
    var c :| c in pool'.chunks && P.Inside(c, ptr) && (ptr - c.base) % P.BLOCK_SIZE == 0;
    AllocBases(pool, env.chunk);
    forall n | n in nodes ensures PlacedNode(pool', n) && n.ptr != ptr {
      assert PlacedNode(pool, n);
      if !Small(n.size) {
        forall d | d in pool'.chunks ensures Disjoint(n.ptr, n.size, d.base, P.CHUNK_SIZE) { }
      }
    }
    var all := nodes + {Node(ptr, size)};
    forall x | P.Live(pool', x) ensures exists n :: n in all && n.ptr == x && Small(n.size) {
      if x == ptr {
        assert Node(ptr, size) in all;
      } else {
        var n :| n in nodes && n.ptr == x && Small(n.size);
        assert n in all;
      }
    }
  }

  lemma AllocBases(pool: P.Pool, base: nat)
    requires P.Valid(pool) && (P.NeedsChunk(pool) ==> P.FreshChunk(pool, base))
    ensures forall d :: d in P.Alloc(pool, base).0.chunks ==>
              (exists c :: c in pool.chunks && c.base == d.base) || (P.NeedsChunk(pool) && d.base == base)
  {
    hide P.Valid;
    var q := P.Extended(pool, base);
    var res := P.Alloc(pool, base).0;
    forall d | d in res.chunks
      ensures (exists c :: c in pool.chunks && c.base == d.base) || (P.NeedsChunk(pool) && d.base == base)
    {
      var j :| 0 <= j < |res.chunks| && res.chunks[j] == d;
      assert d.base == q.chunks[j].base;
      if P.NeedsChunk(pool) {
        if j > 0 { assert q.chunks[j] == pool.chunks[j - 1] && pool.chunks[j - 1] in pool.chunks; }
      } else {
        assert q.chunks[j] in pool.chunks;
      }
    }
  }

  lemma LargePlaced(pool: P.Pool, nodes: set<Node>, size: nat, env: Env)
    requires Placed(pool, nodes) && !Small(size) && Promised(pool, nodes, nodes, size, env)
    ensures Placed(pool, nodes + {Node(env.heap, size)}) && (forall n :: n in nodes ==> n.ptr != env.heap)
  {
    hide P.Valid, P.Live;
    var added := Node(env.heap, size);
    forall n | n in nodes ensures n.ptr != env.heap {
      assert PlacedNode(pool, n);
      if Small(n.size) { var c := LiveInside(pool, n.ptr); }
    }
    var all := nodes + {added};
    forall x | P.Live(pool, x) ensures exists n :: n in all && n.ptr == x && Small(n.size) {
      var n :| n in nodes && n.ptr == x && Small(n.size);
      assert n in all;
    }
  }

  lemma RemovedPlaced(pool: P.Pool, nodes: set<Node>, n: Node)
    requires Placed(pool, nodes) && n in nodes
    ensures Placed(P.Free(pool, n.ptr).0, nodes - {n})
    ensures P.Free(pool, n.ptr).1 <==> Small(n.size)
    ensures SameBases(pool, P.Free(pool, n.ptr).0)
  {
    hide P.Valid, P.Live, P.Free;
    assert PlacedNode(pool, n);
    var pool' := P.Free(pool, n.ptr).0;
    if Small(n.size) {
      P.FreeReturnsBlock(pool, n.ptr);
      BasesKept(pool, pool');
    } else {
      NotInPool(pool, n);
    }
    forall x | P.Live(pool', x) ensures exists m :: m in nodes - {n} && m.ptr == x && Small(m.size) {
      var m :| m in nodes && m.ptr == x && Small(m.size);
      assert m in nodes - {n};
    }
    forall m | m in nodes - {n} ensures PlacedNode(pool', m) {
      assert PlacedNode(pool, m);
    }
  }

  predicate SameBases(a: P.Pool, b: P.Pool) {
    |a.chunks| == |b.chunks| && forall i :: 0 <= i < |a.chunks| ==> a.chunks[i].base == b.chunks[i].base
  }

  lemma BasesKept(a: P.Pool, b: P.Pool)
    requires SameBases(a, b)
    ensures forall n :: OffChunks(a, n) ==> OffChunks(b, n)
  {
    forall n | OffChunks(a, n) ensures OffChunks(b, n) {
      forall c | c in b.chunks ensures Disjoint(n.ptr, n.size, c.base, P.CHUNK_SIZE) {
        var i :| 0 <= i < |b.chunks| && b.chunks[i] == c;
        assert a.chunks[i] in a.chunks;
      }
    }
  }

  lemma NotInPool(pool: P.Pool, n: Node)
    requires OffChunks(pool, n) && !Small(n.size)
    ensures P.Free(pool, n.ptr) == (pool, false)
  {
    forall j | 0 <= j < |pool.chunks| ensures !P.Inside(pool.chunks[j], n.ptr) {
      assert pool.chunks[j] in pool.chunks;
    }
  }

  // ---------------------------------------------------------------- the invariant of the manager

  function NodeSet(nodes: seq<Node>): set<Node> { set n | n in nodes }

  predicate OneEach(nodes: seq<Node>) { forall i, j :: 0 <= i < j < |nodes| ==> nodes[i].ptr != nodes[j].ptr }

  function Total(nodes: seq<Node>): nat { if nodes == [] then 0 else nodes[0].size + Total(nodes[1..]) }

  /** The statistics agree with the list. */
  predicate Accounted(st: State) {
    var s := st.stats;
    && s.current == |st.nodes| == s.allocations - s.deallocations
    && s.bytesIn - s.bytesOut == Total(st.nodes)
    && s.current <= s.peak
  }

  ghost predicate Sound(st: State) { Placed(st.pool, NodeSet(st.nodes)) && OneEach(st.nodes) && Accounted(st) }

  predicate SameBytes(a: nat -> int, b: nat -> int, n: Node) {
    forall x :: n.ptr <= x < n.ptr + Extent(n) ==> a(x) == b(x)
  }

  function ByteOf(st: State, ptr: nat, i: nat): int { st.bytes(ptr + i) }

  lemma {:induction false} FindNode(nodes: seq<Node>, n: Node)
    requires n in nodes && OneEach(nodes)
    ensures Find(nodes, n.ptr) < |nodes| && nodes[Find(nodes, n.ptr)] == n
    decreases |nodes|
  {
    if nodes[0].ptr != n.ptr {
      FindNode(nodes[1..], n);
    } else {
      var i :| 0 <= i < |nodes| && nodes[i] == n;
    }
  }

  lemma {:induction false} TotalReplaced(nodes: seq<Node>, i: nat, n: Node)
    requires i < |nodes|
    ensures Total(nodes[i := n]) == Total(nodes) - nodes[i].size + n.size
    decreases |nodes|
  {
    if i > 0 { TotalReplaced(nodes[1..], i - 1, n); }
  }

  lemma {:induction false} TotalRemoved(nodes: seq<Node>, i: nat)
    requires i < |nodes|
    ensures Total(nodes[..i] + nodes[i + 1..]) == Total(nodes) - nodes[i].size
    decreases |nodes|
  {
    if i == 0 {
      assert nodes[..0] + nodes[1..] == nodes[1..];
    } else {
      TotalRemoved(nodes[1..], i - 1);
      assert (nodes[..i] + nodes[i + 1..])[1..] == nodes[1..][..i - 1] + nodes[1..][i..];
    }
  }

  lemma {:induction false} RemovedSet(nodes: seq<Node>, i: nat)
    requires i < |nodes| && OneEach(nodes)
    ensures OneEach(nodes[..i] + nodes[i + 1..])
    ensures NodeSet(nodes[..i] + nodes[i + 1..]) == NodeSet(nodes) - {nodes[i]}
  {
    var rest := nodes[..i] + nodes[i + 1..];
    forall n ensures n in NodeSet(rest) <==> n in NodeSet(nodes) - {nodes[i]} {
      if n in rest {
        var j :| 0 <= j < |rest| && rest[j] == n;
        assert nodes[if j < i then j else j + 1] == n;
      }
      if n in nodes && n != nodes[i] {
        var j :| 0 <= j < |nodes| && nodes[j] == n;
        assert rest[if j < i then j else j - 1] == n;
      }
    }
  }

  lemma {:induction false} ReplacedSet(nodes: seq<Node>, i: nat, n: Node)
    requires i < |nodes| && OneEach(nodes)
    requires forall m :: m in NodeSet(nodes) - {nodes[i]} ==> m.ptr != n.ptr
    ensures OneEach(nodes[i := n])
    ensures NodeSet(nodes[i := n]) == NodeSet(nodes) - {nodes[i]} + {n}
  {
    var res := nodes[i := n];
    forall j | 0 <= j < |nodes| && j != i ensures nodes[j] in NodeSet(nodes) - {nodes[i]} { }
    forall m ensures m in NodeSet(res) <==> m in NodeSet(nodes) - {nodes[i]} + {n} {
      if m in res {
        var j :| 0 <= j < |res| && res[j] == m;
        assert j != i ==> nodes[j] == m;
      }
      if m in nodes && m != nodes[i] {
        var j :| 0 <= j < |nodes| && nodes[j] == m;
        assert res[j] == m;
      }
      assert res[i] == n;
    }
  }

  // ---------------------------------------------------------------- allocation

  lemma ChunkApart(pool: P.Pool, nodes: set<Node>, size: nat, env: Env, all: set<Node>, n: Node)
    requires Small(size) && Promised(pool, all, nodes, size, env) && P.NeedsChunk(pool) && n in all
    requires Small(n.size) ==> P.Live(pool, n.ptr)
    ensures Disjoint(n.ptr, Extent(n), env.chunk, P.CHUNK_SIZE)
  {
    hide P.Live;
    if Small(n.size) {
      var c := LiveInside(pool, n.ptr);
      assert P.Apart(c, P.NewChunk(env.chunk));
    }
  }

  /** Allocation returns a tracked object of its own, zero behind its header, and touches no byte of any
      other object. */
  lemma {:induction false} AllocSound(st: State, size: nat, kind: nat, env: Env)
    requires Sound(st) && Promised(st.pool, NodeSet(st.nodes), NodeSet(st.nodes), size, env)
    ensures var (st', ptr) := Alloc(st, size, kind, env);
            && Sound(st') && ptr > 0 && st'.nodes == [Node(ptr, size)] + st.nodes
            && (forall x :: ptr + 8 <= x < ptr + size ==> st'.bytes(x) == 0)
            && (forall n :: n in st.nodes ==> SameBytes(st.bytes, st'.bytes, n))
            && st'.stats.peak == Max(st.stats.peak, st'.stats.current)
  {
    hide Placed, Promised, P.Alloc;
    var all := NodeSet(st.nodes);
    var (st', ptr) := Alloc(st, size, kind, env);
    var added := Node(ptr, size);
    if Small(size) { SmallPlaced(st.pool, all, size, env); } else { LargePlaced(st.pool, all, size, env); }
    assert NodeSet(st'.nodes) == all + {added};
    assert st'.nodes[1..] == st.nodes;
    AddedAbove(st'.pool, all + {added}, added);
    forall n | n in st.nodes ensures SameBytes(st.bytes, st'.bytes, n) {
      ExtentsDisjoint(st'.pool, all + {added}, n, added);
      PlacedIs(st.pool, all, n);
      if Small(size) && P.NeedsChunk(st.pool) { ChunkApart(st.pool, all, size, env, all, n); }
    }
  }

  /** The 32-bit word that is stored at an address. */
  function WordAt(bytes: nat -> int, at: nat): int {
    bytes(at) + 0x100 * bytes(at + 1) + 0x1_0000 * bytes(at + 2) + 0x100_0000 * bytes(at + 3)
  }

  /** The header of a new object holds its kind and a count of one. */
  lemma {:induction false} AllocHeads(st: State, size: nat, kind: nat, env: Env)
    requires kind < 0x1_0000_0000
    ensures var (st', ptr) := Alloc(st, size, kind, env);
            WordAt(st'.bytes, ptr) == kind && WordAt(st'.bytes, ptr + 4) == 1
  {
    hide P.Alloc, P.NeedsChunk, Zeroed, HeaderByte;
    var (st', ptr) := Alloc(st, size, kind, env);
    assert forall i :: 0 <= i < 8 ==> st'.bytes(ptr + i) == HeaderByte(kind, i);
    WordSplit(kind);
  }

  lemma WordSplit(kind: nat)
    requires kind < 0x1_0000_0000
    ensures HeaderByte(kind, 0) + 0x100 * HeaderByte(kind, 1) + 0x1_0000 * HeaderByte(kind, 2)
            + 0x100_0000 * HeaderByte(kind, 3) == kind
    ensures HeaderByte(kind, 4) == 1
    ensures HeaderByte(kind, 5) == 0 && HeaderByte(kind, 6) == 0 && HeaderByte(kind, 7) == 0
  {
  }

  /** Objects of up to 64 bytes, and no others, live in blocks of the pool. */
  lemma {:induction false} SmallObjectsArePooled(st: State, n: Node)
    requires Sound(st) && n in st.nodes
    ensures P.Live(st.pool, n.ptr) <==> n.size <= 64
  {
    hide Accounted, OneEach, P.Valid, P.Live;
    var all := NodeSet(st.nodes);
    assert n in all && PlacedNode(st.pool, n);
    if P.Live(st.pool, n.ptr) && !Small(n.size) { var c := LiveInside(st.pool, n.ptr); }
  }

  lemma AddedAbove(pool: P.Pool, nodes: set<Node>, n: Node)
    requires Placed(pool, nodes) && n in nodes
    ensures n.ptr > 0
  {
    assert PlacedNode(pool, n);
  }

  lemma PlacedIs(pool: P.Pool, nodes: set<Node>, n: Node)
    requires Placed(pool, nodes) && n in nodes
    ensures Small(n.size) ==> P.Live(pool, n.ptr)
  {
    assert PlacedNode(pool, n);
  }

  // ---------------------------------------------------------------- reallocation

  /** Reallocating a tracked object keeps its first bytes, zeroes the rest, tracks it at its new place with
      its new size, and touches no byte of any other object, whichever of pool and heap it moves between. */
  lemma {:induction false} ReallocSound(st: State, was: Node, size: nat, env: Env)
    requires Sound(st) && was in st.nodes
    requires Promised(P.Free(st.pool, was.ptr).0, NodeSet(st.nodes), NodeSet(st.nodes) - {was}, size, env)
    ensures var (st', to) := Realloc(st, was.ptr, size, env);
            && Sound(st') && to > 0 && NodeSet(st'.nodes) == NodeSet(st.nodes) - {was} + {Node(to, size)}
            && (forall i :: 0 <= i < Min(was.size, size) ==> ByteOf(st', to, i) == ByteOf(st, was.ptr, i))
            && (forall i :: was.size <= i < size ==> ByteOf(st', to, i) == 0)
            && (forall n :: n in st.nodes && n != was ==> SameBytes(st.bytes, st'.bytes, n))
            && st'.stats.peak == st.stats.peak && st'.stats.current == st.stats.current
  {
    hide Placed, Promised, P.Alloc, P.Free, OneEach;
    var all, released := NodeSet(st.nodes), P.Free(st.pool, was.ptr).0;
    var rest := all - {was};
    var (st', to) := Realloc(st, was.ptr, size, env);
    var moved := Node(to, size);
    FindNode(st.nodes, was);
    RemovedPlaced(st.pool, all, was);
    FewerPromised(released, all, rest, size, env);
    if Small(size) { SmallPlaced(released, rest, size, env); } else { LargePlaced(released, rest, size, env); }
    ReplacedSet(st.nodes, Find(st.nodes, was.ptr), moved);
    TotalReplaced(st.nodes, Find(st.nodes, was.ptr), moved);
    AddedAbove(st'.pool, rest + {moved}, moved);
    forall n | n in st.nodes && n != was ensures SameBytes(st.bytes, st'.bytes, n) {
      ExtentsDisjoint(st'.pool, rest + {moved}, n, moved);
      PlacedIs(released, rest, n);
      if Small(size) && P.NeedsChunk(released) { ChunkApart(released, rest, size, env, all, n); }
    }
    OldBytesKept(st, was, released, size, env);
  }

  lemma FewerPromised(pool: P.Pool, all: set<Node>, rest: set<Node>, size: nat, env: Env)
    requires Promised(pool, all, rest, size, env) && rest <= all
    ensures Promised(pool, rest, rest, size, env)
  {
    hide P.NeedsChunk, OffChunks;
  }

  /** A chunk that has to be added does not cover the old bytes, although their block is free by then. */
  lemma OldBytesKept(st: State, was: Node, released: P.Pool, size: nat, env: Env)
    requires Sound(st) && was in st.nodes && released == P.Free(st.pool, was.ptr).0
    requires Promised(released, NodeSet(st.nodes), NodeSet(st.nodes) - {was}, size, env)
    ensures Small(size) ==> SameBytes(st.bytes, PoolBytes(st.bytes, released, env), was)
  {
    hide P.Free, P.Live, OneEach;
    if Small(size) && P.NeedsChunk(released) && Small(was.size) {
      assert PlacedNode(st.pool, was);
      var c := LiveInside(st.pool, was.ptr);
      RemovedPlaced(st.pool, NodeSet(st.nodes), was);
      var i :| 0 <= i < |st.pool.chunks| && st.pool.chunks[i] == c;
      assert released.chunks[i] in released.chunks && released.chunks[i].base == c.base;
      assert P.Apart(released.chunks[i], P.NewChunk(env.chunk));
    }
  }

  // ---------------------------------------------------------------- freeing

  /** Freeing a tracked object forgets just that object and moves no byte. */
  lemma {:induction false} FreeSound(st: State, n: Node)
    requires Sound(st) && n in st.nodes
    ensures var st' := Free(st, n.ptr);
            && Sound(st') && NodeSet(st'.nodes) == NodeSet(st.nodes) - {n} && st'.bytes == st.bytes
            && st'.stats.peak == st.stats.peak && st'.stats.current == st.stats.current - 1
  {
    hide Placed, P.Free, OneEach;
    FindNode(st.nodes, n);
    RemovedPlaced(st.pool, NodeSet(st.nodes), n);
    RemovedSet(st.nodes, Find(st.nodes, n.ptr));
    TotalRemoved(st.nodes, Find(st.nodes, n.ptr));
  }

  ghost predicate IsTracked(st: State, ptr: nat) { exists n :: n in st.nodes && n.ptr == ptr }

  lemma {:induction false} SweepSound(st: State, dead: seq<nat>)
    requires Sound(st) && forall i :: 0 <= i < |dead| ==> IsTracked(st, dead[i])
    requires forall i, j :: 0 <= i < j < |dead| ==> dead[i] != dead[j]
    ensures var st' := Sweep(st, dead);
            && Sound(st') && st'.stats.peak == st.stats.peak && st'.stats.current == st.stats.current - |dead|
            && (forall n :: n in st'.nodes <==> n in st.nodes && n.ptr !in dead)
    decreases |dead|
  {
    hide Sound, Free;
    if dead != [] {
      assert IsTracked(st, dead[0]);
      var n :| n in st.nodes && n.ptr == dead[0];
      FreeSound(st, n);
      SameNodes(st, n);
      var next := Free(st, dead[0]);
      forall i | 0 <= i < |dead[1..]| ensures IsTracked(next, dead[1..][i]) {
        assert IsTracked(st, dead[i + 1]);
        var m :| m in st.nodes && m.ptr == dead[i + 1];
        assert m in next.nodes;
      }
      SweepSound(next, dead[1..]);
    }
  }

  lemma SameNodes(st: State, n: Node)
    requires Sound(st) && n in st.nodes && NodeSet(Free(st, n.ptr).nodes) == NodeSet(st.nodes) - {n}
    ensures forall m :: m in Free(st, n.ptr).nodes <==> m in st.nodes && m.ptr != n.ptr
  {
    hide P.Free, Free;
    forall m ensures m in Free(st, n.ptr).nodes <==> m in NodeSet(Free(st, n.ptr).nodes) { }
    forall m ensures m in st.nodes <==> m in NodeSet(st.nodes) { }
  }

  // ---------------------------------------------------------------- where the accounting holds

  /** For an address that is not tracked, reallocation keeps the byte accounting only when nothing is asked
      for: the new bytes are counted but belong to no tracked object. */
  lemma {:induction false} UntrackedReallocAccountedIff(st: State, ptr: nat, size: nat, env: Env)
    requires Accounted(st) && Find(st.nodes, ptr) == |st.nodes|
    ensures Accounted(Realloc(st, ptr, size, env).0) <==> size == 0
  {
    hide P.Alloc, P.Free, Total;
  }

  // ---------------------------------------------------------------- runs

  const KIND_STRING: nat := 1

  datatype Op =
    | New(size: nat, kind: nat, env: Env)
    | Resize(ptr: nat, size: nat, env: Env)
    | Drop(ptr: nat)
    | SweepAll(dead: seq<nat>)

  /** Callers pass null or a tracked object; the sweep lists tracked objects once; the system allocator
      keeps its promise. */
  ghost predicate Legal(st: State, op: Op) {
    var all := NodeSet(st.nodes);
    match op
    case New(size, kind, env) => Promised(st.pool, all, all, size, env)
    case Resize(ptr, size, env) =>
      if ptr == 0 then Promised(st.pool, all, all, size, env)
      else exists n :: n in st.nodes && n.ptr == ptr && Promised(P.Free(st.pool, ptr).0, all, all - {n}, size, env)
    case Drop(ptr) => ptr == 0 || IsTracked(st, ptr)
    case SweepAll(dead) =>
      && (forall i :: 0 <= i < |dead| ==> IsTracked(st, dead[i]))
      && forall i, j :: 0 <= i < j < |dead| ==> dead[i] != dead[j]
  }

  function Apply(st: State, op: Op): State {
    match op
    case New(size, kind, env) => Alloc(st, size, kind, env).0
    case Resize(ptr, size, env) => if ptr == 0 then Alloc(st, size, KIND_STRING, env).0
        else Realloc(st, ptr, size, env).0
    case Drop(ptr) => if ptr == 0 then st else Free(st, ptr)
    case SweepAll(dead) => Sweep(st, dead)
  }

  ghost predicate LegalRun(st: State, ops: seq<Op>)
    decreases |ops|
  {
    ops != [] ==> Legal(st, ops[0]) && LegalRun(Apply(st, ops[0]), ops[1..])
  }

  function Run(st: State, ops: seq<Op>): State
    decreases |ops|
  {
    if ops == [] then st else Run(Apply(st, ops[0]), ops[1..])
  }

  /** The largest number of objects tracked at any point of the run. */
  function MostTracked(st: State, ops: seq<Op>): int
    decreases |ops|
  {
    if ops == [] then |st.nodes| else Max(|st.nodes|, MostTracked(Apply(st, ops[0]), ops[1..]))
  }

  lemma {:induction false} ApplySound(st: State, op: Op)
    requires Sound(st) && Legal(st, op)
    ensures Sound(Apply(st, op))
    ensures Apply(st, op).stats.peak == Max(st.stats.peak, Apply(st, op).stats.current)
  {
    SoundPeak(st);
    hide Sound, Alloc, Realloc, Free, Sweep, Promised;
    match op
    case New(size, kind, env) => AllocSound(st, size, kind, env);
    case Resize(ptr, size, env) =>
      if ptr == 0 {
        AllocSound(st, size, KIND_STRING, env);
      } else {
        var n :| n in st.nodes && n.ptr == ptr && Promised(P.Free(st.pool, ptr).0, NodeSet(st.nodes),
                                                           NodeSet(st.nodes) - {n}, size, env);
        ReallocSound(st, n, size, env);
      }
    case Drop(ptr) =>
      if ptr != 0 {
        var n :| n in st.nodes && n.ptr == ptr;
        FreeSound(st, n);
      }
    case SweepAll(dead) =>
      SweepSound(st, dead);
  }

  lemma SoundPeak(st: State)
    requires Sound(st)
    ensures st.stats.current <= st.stats.peak && st.stats.current == |st.nodes|
  {
  }

  /** Over every run: the objects stay apart, the statistics agree with the tracked list, and the peak is the
      running maximum of the number of tracked objects. */
  lemma {:induction false} EveryRunIsSound(st: State, ops: seq<Op>)
    requires Sound(st) && LegalRun(st, ops)
    ensures Sound(Run(st, ops))
    ensures Run(st, ops).stats.peak == Max(st.stats.peak, MostTracked(st, ops))
    decreases |ops|
  {
    hide Sound, Legal, Apply;
    SoundPeak(st);
    if ops != [] {
      ApplySound(st, ops[0]);
      SoundPeak(Apply(st, ops[0]));
      EveryRunIsSound(Apply(st, ops[0]), ops[1..]);
    }
  }

  lemma StartIsSound(bytes: nat -> int)
    ensures Sound(State(P.Pool([], 0), [], bytes, Stats(0, 0, 0, 0, 0, 0)))
  {
  }
}
