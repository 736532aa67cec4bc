/** The blocks and chunks of the allocator: size classes, free and in-use lists, and reference counts. */
module ChunkPool {
  import opened Basics

  const CHUNK_BASE := 6

  /** The classes whose block size fits an int. */
  const CHUNK_HEADS := 25

  /** sizeof(chunk_t) */
  const HEADER := 48

  /** A chunk: the address of its block, and its place in it. */
  datatype Cnk = Cnk(blk: nat, idx: nat)

  /** chunk_head_t: the chunk size and the shape of a block, and the three lists with two of their lengths. */
  datatype Head = Head(size: nat, nchk: nat, blksz: nat, nblks: nat, blks: seq<nat>, cnks: seq<Cnk>,
                       nfree: nat, free: seq<Cnk>)

  /** chunk_block_t: the class the block belongs to, and how many of its chunks are in use. */
  datatype Block = Block(cls: nat, ref: nat)

  // ---------------------------------------------------------------- size classes

  function Pow2(n: nat): (r: nat)
    ensures r >= 1
  {
    if n == 0 then 1 else 2 * Pow2(n - 1)
  }

  lemma {:induction false} Pow2Sum(a: nat, b: nat)
    ensures Pow2(a + b) == Pow2(a) * Pow2(b)
  {
    if a > 0 {
      Pow2Sum(a - 1, b);
      assert Pow2(a) * Pow2(b) == 2 * (Pow2(a - 1) * Pow2(b));
    }
  }

  lemma {:induction false} Pow2Rises(a: nat, b: nat)
    requires a < b
    ensures Pow2(a) < Pow2(b)
  {
    if a + 1 < b {
      Pow2Rises(a, b - 1);
    }
  }

  lemma Strides(a: nat, b: nat, stride: nat)
    requires a < b
    ensures Span(a, stride) + stride <= Span(b, stride)
  {
    assert (b - a - 1) * stride >= 0;
  }

  /** The quotient is the only number of whole strides. */
  lemma Quotient(x: nat, y: nat, q: nat)
    requires q * y <= x < q * y + y
    ensures x / y == q
  {
    var p := x / y;
    assert p * y + x % y == x;
    if p < q {
      Strides(p, q, y);
    } else if q < p {
      Strides(q, p, y);
    }
  }

  /** The length of `n` chunks. */
  function Span(n: nat, stride: nat): nat {
    n * stride
  }

  /** The shape of class `i`: chunks of the next power of two, header included, and as many of them as fill a page. */
  ghost predicate Shaped(k: nat, i: nat, h: Head) {
    && h.size + HEADER == Pow2(CHUNK_BASE + i)
    && h.blksz == (if k <= CHUNK_BASE + i then Pow2(CHUNK_BASE + i) else Pow2(k))
    && h.nchk >= 1 && Span(h.nchk, h.size + HEADER) == h.blksz
  }

  /** A page and a chunk of class `i` divide one another. */
  lemma PageOrChunk(k: nat, i: nat)
    ensures var bytes, page := Pow2(CHUNK_BASE + i), Pow2(k);
            if k <= CHUNK_BASE + i then bytes / page >= 1 && (bytes / page) * page == bytes
            else bytes / page == 0 && page / bytes >= 1 && (page / bytes) * bytes == page
  {
    var bytes, page, n := Pow2(CHUNK_BASE + i), Pow2(k), CHUNK_BASE + i;
    if k <= n {
      Pow2Sum(n - k, k);
      Quotient(bytes, page, Pow2(n - k));
    } else {
      Pow2Rises(n, k);
      Quotient(bytes, page, 0);
      Pow2Sum(k - n, n);
      Quotient(page, bytes, Pow2(k - n));
    }
  }

  /** One round of chunk_initialize, for a page of 2^k bytes. */
  method InitHead(ghost k: nat, page: nat, i: nat) returns (h: Head)
    requires page == Pow2(k)
    ensures Shaped(k, i, h)
    ensures h.nblks == 0 && h.blks == [] && h.cnks == [] && h.nfree == 0 && h.free == []
  {
    hide Pow2;
    var bytes := Pow2(CHUNK_BASE + i);
    SmallestClass(i);
    PageOrChunk(k, i);
    var pgs := bytes / page;
    if pgs == 0 {
      pgs := 1;
    }
    var blksz := pgs * page;
    Quotient(blksz, bytes, if k <= CHUNK_BASE + i then 1 else page / bytes);
    var nchk := blksz / bytes;
    assert bytes * nchk == nchk * bytes == blksz;
    Quotient(blksz, nchk, bytes);
    h := Head(blksz / nchk - HEADER, nchk, blksz, 0, [], [], 0, []);
  }

  lemma SmallestClass(i: nat)
    ensures Pow2(CHUNK_BASE + i) >= 64
  {
    assert Pow2(1) == 2 && Pow2(2) == 4 && Pow2(3) == 8 && Pow2(4) == 16 && Pow2(5) == 32 && Pow2(6) == 64;
    if i > 0 {
      Pow2Rises(6, 6 + i);
    }
  }

  ghost predicate Sized(k: nat, heads: seq<Head>) {
    |heads| == CHUNK_HEADS && forall i :: 0 <= i < |heads| ==> Shaped(k, i, heads[i])
  }

  /** The largest request that is served. */
  const MAX_SIZE := 0x4000_0000 - HEADER

  lemma LargestClass(k: nat, heads: seq<Head>)
    requires Sized(k, heads)
    ensures heads[CHUNK_HEADS - 1].size == MAX_SIZE
  {
    assert Shaped(k, CHUNK_HEADS - 1, heads[CHUNK_HEADS - 1]);
    assert Pow2(1) == 2 && Pow2(2) == 4 && Pow2(3) == 8 && Pow2(4) == 16 && Pow2(5) == 32;
    Pow2Sum(5, 5);
    Pow2Sum(10, 10);
    Pow2Sum(20, 10);
  }

  lemma SizesRise(k: nat, heads: seq<Head>, i: nat)
    requires Sized(k, heads) && i < |heads|
    ensures heads[i].size <= heads[CHUNK_HEADS - 1].size
  {
    assert Shaped(k, i, heads[i]) && Shaped(k, CHUNK_HEADS - 1, heads[CHUNK_HEADS - 1]);
    if i < CHUNK_HEADS - 1 {
      Pow2Rises(CHUNK_BASE + i, CHUNK_BASE + CHUNK_HEADS - 1);
    }
  }

  /** Two classes have different sizes. */
  lemma SizesDiffer(k: nat, heads: seq<Head>, i: nat, j: nat)
    requires Sized(k, heads) && i < j < |heads|
    ensures heads[i].size < heads[j].size
  {
    assert Shaped(k, i, heads[i]) && Shaped(k, j, heads[j]);
    Pow2Rises(CHUNK_BASE + i, CHUNK_BASE + j);
  }

  // ---------------------------------------------------------------- lists and counts

  /** How many of the chunks belong to block `b`. */
  function CountIn(s: seq<Cnk>, b: nat): nat {
    if s == [] then 0 else (if s[0].blk == b then 1 else 0) + CountIn(s[1..], b)
  }

  lemma {:induction false} CountDel(s: seq<Cnk>, x: Cnk, b: nat)
    requires x in s
    ensures CountIn(s, b) == CountIn(Del(s, x), b) + if x.blk == b then 1 else 0
  {
    if s[0] != x {
      CountDel(s[1..], x, b);
      assert ([s[0]] + Del(s[1..], x))[1..] == Del(s[1..], x);
    }
  }

  lemma CountCons(x: Cnk, s: seq<Cnk>, b: nat)
    ensures CountIn([x] + s, b) == CountIn(s, b) + if x.blk == b then 1 else 0
  {
    assert ([x] + s)[1..] == s;
  }

  lemma {:induction false} CountZero(s: seq<Cnk>, b: nat)
    ensures CountIn(s, b) == 0 <==> forall c :: c in s ==> c.blk != b
  {
    if s != [] {
      CountZero(s[1..], b);
      assert s == [s[0]] + s[1..];
    }
  }

  // ---------------------------------------------------------------- the invariant

  /** The lists of one class: each chunk of its blocks is in exactly one of the free and the in-use list, and the
      counters count. */
  ghost predicate ListsOk(h: Head, i: nat, blocks: map<nat, Block>) {
    && NoDup(h.free) && NoDup(h.cnks) && NoDup(h.blks) && (forall c :: c in h.free ==> c !in h.cnks)
    && h.nfree == |h.free| && h.nblks == |h.blks| && h.nfree + |h.cnks| == h.nblks * h.nchk
    && (forall b :: b in h.blks <==> b in blocks && blocks[b].cls == i)
    && (forall c :: c in h.free || c in h.cnks <==> c.blk in blocks && blocks[c.blk].cls == i && c.idx < h.nchk)
  }

  /** Every block counts its chunks in use, and those that are free but whose count is still to be dropped. */
  ghost predicate RefsOk(heads: seq<Head>, blocks: map<nat, Block>, pending: seq<Cnk>) {
    forall b :: b in blocks ==>
      blocks[b].cls < |heads| && blocks[b].ref == CountIn(heads[blocks[b].cls].cnks, b) + CountIn(pending, b)
  }

  ghost predicate Referenced(blocks: map<nat, Block>) {
    forall b :: b in blocks ==> blocks[b].ref >= 1
  }

  /** The mapped blocks do not overlap. */
  ghost predicate Apart(heads: seq<Head>, blocks: map<nat, Block>) {
    forall a, b :: a in blocks && b in blocks && a < b && blocks[a].cls < |heads| ==>
      a + heads[blocks[a].cls].blksz <= b
  }

  /** The pool between two steps: some blocks may be without chunks in use. */
  ghost predicate PoolBase(heads: seq<Head>, blocks: map<nat, Block>, pending: seq<Cnk>) {
    && (forall i :: 0 <= i < |heads| ==> ListsOk(heads[i], i, blocks))
    && RefsOk(heads, blocks, pending) && Apart(heads, blocks)
    && (forall c :: c in pending ==> c.blk in blocks && c in heads[blocks[c.blk].cls].free)
  }

  ghost predicate PoolOk(heads: seq<Head>, blocks: map<nat, Block>, pending: seq<Cnk>) {
    PoolBase(heads, blocks, pending) && Referenced(blocks)
  }

  /** The chunks in use. */
  ghost function Live(heads: seq<Head>): set<Cnk> {
    set i, c | 0 <= i < |heads| && c in heads[i].cnks :: c
  }

  lemma LiveClass(heads: seq<Head>, blocks: map<nat, Block>, pending: seq<Cnk>, c: Cnk)
    requires PoolBase(heads, blocks, pending)
    ensures forall b :: b in blocks ==> blocks[b].cls < |heads|
    ensures c in Live(heads) <==> c.blk in blocks && c in heads[blocks[c.blk].cls].cnks
  {
    if c in Live(heads) {
      var i :| 0 <= i < |heads| && c in heads[i].cnks;
      assert ListsOk(heads[i], i, blocks);
    }
  }

  ghost function ChunksIn(s: seq<Cnk>, b: nat): set<Cnk> {
    set c | c in s && c.blk == b
  }

  lemma {:induction false} CountIsSize(s: seq<Cnk>, b: nat)
    requires NoDup(s)
    ensures CountIn(s, b) == |ChunksIn(s, b)|
  {
    if s != [] {
      CountIsSize(s[1..], b);
      OneMoreIn(s, b);
    }
  }

  lemma OneMoreIn(s: seq<Cnk>, b: nat)
    requires NoDup(s) && s != []
    ensures |ChunksIn(s, b)| == |ChunksIn(s[1..], b)| + if s[0].blk == b then 1 else 0
  {
    assert s == [s[0]] + s[1..] && s[0] !in s[1..];
    hide NoDup;
    if s[0].blk == b {
      assert ChunksIn(s, b) == ChunksIn(s[1..], b) + {s[0]};
    } else {
      assert ChunksIn(s, b) == ChunksIn(s[1..], b);
    }
  }

  /** Between calls a block counts exactly its chunks in use, and there is at least one. */
  lemma RefIsUse(heads: seq<Head>, blocks: map<nat, Block>, b: nat)
    requires PoolOk(heads, blocks, []) && b in blocks
    ensures blocks[b].ref == |set c | c in Live(heads) && c.blk == b| >= 1
  {
    var i := blocks[b].cls;
    assert ListsOk(heads[i], i, blocks);
    CountIsSize(heads[i].cnks, b);
    hide CountIn, NoDup, Live;
    forall c: Cnk | c.blk == b ensures c in Live(heads) <==> c in heads[i].cnks {
      LiveClass(heads, blocks, [], c);
    }
    assert (set c | c in Live(heads) && c.blk == b) == ChunksIn(heads[i].cnks, b);
  }

  /** No block has moved or gone, and no size has changed. */
  ghost predicate Stays(heads: seq<Head>, blocks: map<nat, Block>, now: seq<Head>, after: map<nat, Block>) {
    && |now| == |heads| && (forall i :: 0 <= i < |heads| ==> now[i].size == heads[i].size)
    && forall b :: b in blocks ==> b in after && after[b].cls == blocks[b].cls
  }

  /** Blocks may have gone, but none has changed its class, and no size has changed. */
  ghost predicate Shrinks(heads: seq<Head>, blocks: map<nat, Block>, now: seq<Head>, after: map<nat, Block>) {
    && |now| == |heads| && (forall i :: 0 <= i < |heads| ==> now[i].size == heads[i].size)
    && forall b :: b in after ==> b in blocks && after[b].cls == blocks[b].cls
  }

  // ---------------------------------------------------------------- the places in memory

  function Address(heads: seq<Head>, blocks: map<nat, Block>, c: Cnk): nat
    requires c.blk in blocks && blocks[c.blk].cls < |heads|
  {
    c.blk + Span(c.idx, heads[blocks[c.blk].cls].size + HEADER)
  }

  /** Chunks in use never overlap, and each lies within its block. */
  lemma LiveApart(heads: seq<Head>, blocks: map<nat, Block>, k: nat, c: Cnk, d: Cnk)
    requires Sized(k, heads) && PoolOk(heads, blocks, []) && c in Live(heads) && d in Live(heads) && c != d
    ensures c.blk in blocks && d.blk in blocks
    ensures var h, g := heads[blocks[c.blk].cls], heads[blocks[d.blk].cls];
            var x, y := Address(heads, blocks, c), Address(heads, blocks, d);
            && c.blk <= x && x + HEADER + h.size <= c.blk + h.blksz
            && (x + HEADER + h.size <= y || y + HEADER + g.size <= x)
  {
    LiveClass(heads, blocks, [], c);
    LiveClass(heads, blocks, [], d);
    InBlock(heads, blocks, k, c);
    InBlock(heads, blocks, k, d);
    if c.blk == d.blk {
      var stride := heads[blocks[c.blk].cls].size + HEADER;
      if c.idx < d.idx {
        Strides(c.idx, d.idx, stride);
      } else {
        Strides(d.idx, c.idx, stride);
      }
    }
  }

  lemma InShape(heads: seq<Head>, blocks: map<nat, Block>, k: nat, c: Cnk)
    requires Sized(k, heads) && PoolOk(heads, blocks, []) && c.blk in blocks
    requires blocks[c.blk].cls < |heads| && c in heads[blocks[c.blk].cls].cnks
    ensures var h := heads[blocks[c.blk].cls]; c.idx < h.nchk && Span(h.nchk, h.size + HEADER) == h.blksz
  {
    hide Pow2, NoDup, CountIn;
    var i := blocks[c.blk].cls;
    assert ListsOk(heads[i], i, blocks) && Shaped(k, i, heads[i]);
  }

  lemma InBlock(heads: seq<Head>, blocks: map<nat, Block>, k: nat, c: Cnk)
    requires Sized(k, heads) && PoolOk(heads, blocks, []) && c in Live(heads)
    ensures c.blk in blocks && blocks[c.blk].cls < |heads|
    ensures var h := heads[blocks[c.blk].cls];
            c.blk <= Address(heads, blocks, c) && Address(heads, blocks, c) + HEADER + h.size <= c.blk + h.blksz
  {
    hide Sized, PoolBase, Live, Pow2, Span;
    LiveClass(heads, blocks, [], c);
    InShape(heads, blocks, k, c);
    var h := heads[blocks[c.blk].cls];
    Strides(c.idx, h.nchk, h.size + HEADER);
  }

  /** Every byte of a block belongs to exactly one of its chunks. */
  lemma Tiled(heads: seq<Head>, blocks: map<nat, Block>, k: nat, b: nat, a: nat) returns (c: Cnk)
    requires Sized(k, heads) && PoolOk(heads, blocks, []) && b in blocks
    requires b <= a < b + heads[blocks[b].cls].blksz
    ensures var h := heads[blocks[b].cls];
            && c.blk == b && (c in h.free <==> c !in h.cnks)
            && Address(heads, blocks, c) <= a < Address(heads, blocks, c) + HEADER + h.size
  {
    var i := blocks[b].cls;
    var h := heads[i];
    assert ListsOk(h, i, blocks) && Shaped(k, i, h);
    var n := WholeStrides(a - b, h.size + HEADER, h.nchk);
    c := Cnk(b, n);
  }

  lemma WholeStrides(x: nat, stride: nat, count: nat) returns (n: nat)
    requires stride > 0 && x < count * stride
    ensures n < count && n * stride <= x < n * stride + stride
  {
    n := x / stride;
    assert n * stride + x % stride == x;
    if n > count {
      Strides(count, n, stride);
    }
  }

  // ---------------------------------------------------------------- the steps

  /** The chunks of a new block as they are queued: the last one in front. */
  function Fresh(b: nat, n: nat): (s: seq<Cnk>)
    ensures |s| == n && NoDup(s) && forall c :: c in s <==> c.blk == b && c.idx < n
  {
    if n == 0 then [] else
      var s := Fresh(b, n - 1);
      assert forall c :: c in [Cnk(b, n - 1)] + s <==> c == Cnk(b, n - 1) || c in s;
      [Cnk(b, n - 1)] + s
  }

  /** A list without the first `n` chunks of a block. */
  function Without(s: seq<Cnk>, b: nat, n: nat): seq<Cnk> {
    if n == 0 then s else Del(Without(s, b, n - 1), Cnk(b, n - 1))
  }

  lemma {:induction false} WithoutMembers(s: seq<Cnk>, b: nat, n: nat)
    requires NoDup(s) && forall c: Cnk :: c.blk == b && c.idx < n ==> c in s
    ensures var r := Without(s, b, n);
            NoDup(r) && |r| + n == |s| && forall c :: c in r <==> c in s && !(c.blk == b && c.idx < n)
  {
    if n > 0 {
      WithoutMembers(s, b, n - 1);
      DelMembers(Without(s, b, n - 1), Cnk(b, n - 1));
      assert Cnk(b, n - 1) in s;
    }
  }

  /** Nothing overlaps a block of this size at this address. */
  predicate Unmapped(heads: seq<Head>, blocks: map<nat, Block>, b: nat, size: nat) {
    forall a :: a in blocks && blocks[a].cls < |heads| ==> a + heads[blocks[a].cls].blksz <= b || b + size <= a
  }

  function WithBlock(h: Head, b: nat): Head {
    h.(blks := [b] + h.blks, nblks := h.nblks + 1, free := Fresh(b, h.nchk) + h.free, nfree := h.nfree + h.nchk)
  }

  /** The first free chunk of a class that had none is one of the new block. */
  lemma FirstOfBlock(h: Head, k: nat, i: nat)
    requires Shaped(k, i, h) && h.free == []
    ensures forall b :: WithBlock(h, b).free != [] && WithBlock(h, b).free[0].blk == b
  {
    forall b: nat ensures WithBlock(h, b).free != [] && WithBlock(h, b).free[0].blk == b {
      assert Fresh(b, h.nchk)[0] in Fresh(b, h.nchk);
    }
  }

  function WithoutBlock(h: Head, b: nat): Head
    requires h.nblks >= 1 && h.nfree >= h.nchk
  {
    h.(blks := Del(h.blks, b), nblks := h.nblks - 1, free := Without(h.free, b, h.nchk), nfree := h.nfree - h.nchk)
  }

  /** Changing counts changes no list. */
  lemma SameClasses(h: Head, i: nat, a: map<nat, Block>, b: map<nat, Block>)
    requires ListsOk(h, i, a) && a.Keys == b.Keys && forall x :: x in a ==> b[x].cls == a[x].cls
    ensures ListsOk(h, i, b)
  {
    hide NoDup;
  }

  lemma {:induction false} BlockListed(h: Head, i: nat, blocks: map<nat, Block>, b: nat)
    requires ListsOk(h, i, blocks) && b !in blocks && h.nchk >= 1
    ensures ListsOk(WithBlock(h, b), i, blocks[b := Block(i, 0)])
  {
    var s, g := Fresh(b, h.nchk), WithBlock(h, b);
    NoDupConcat(s, h.free);
    NoDupConcat([b], h.blks);
    assert (h.nblks + 1) * h.nchk == h.nblks * h.nchk + h.nchk;
    assert forall c :: c in g.free <==> c in s || c in h.free;
    assert forall x :: x in g.blks <==> x == b || x in h.blks;
  }

  /** A step within one class: what has to be shown of that class alone. */
  lemma OneClass(heads: seq<Head>, blocks: map<nat, Block>, pending: seq<Cnk>, i: nat, h: Head, after: map<nat, Block>,
                 left: seq<Cnk>)
    requires PoolBase(heads, blocks, pending) && i < |heads| && ListsOk(h, i, after)
    requires forall b :: b in blocks && blocks[b].cls != i ==> b in after && after[b] == blocks[b]
    requires forall b :: b in after && after[b].cls != i ==>
               b in blocks && after[b] == blocks[b] && CountIn(left, b) == CountIn(pending, b)
    requires forall b :: b in after && after[b].cls == i ==> after[b].ref == CountIn(h.cnks, b) + CountIn(left, b)
    requires forall c :: c in left ==> c in h.free || (c in pending && blocks[c.blk].cls != i)
    requires Apart(heads[i := h], after)
    ensures PoolBase(heads[i := h], after, left)
  {
    hide NoDup, CountIn, Apart;
    var now := heads[i := h];
    forall j | 0 <= j < |heads| && j != i ensures ListsOk(now[j], j, after) {
      assert ListsOk(heads[j], j, blocks);
    }
  }

  /** The chunks in use after a step within one class. */
  lemma LiveAfter(heads: seq<Head>, blocks: map<nat, Block>, pending: seq<Cnk>, i: nat, h: Head, c: Cnk)
    requires PoolBase(heads, blocks, pending) && i < |heads|
    ensures c in Live(heads[i := h]) <==> c in h.cnks || (c in Live(heads) && c !in heads[i].cnks)
  {
    hide NoDup, CountIn, Apart;
    LiveClass(heads, blocks, pending, c);
    var now := heads[i := h];
    assert ListsOk(heads[i], i, blocks);
    if c in Live(heads) {
      var j := blocks[c.blk].cls;
      assert j != i ==> c in now[j].cnks;
    }
    if c in Live(now) {
      var j :| 0 <= j < |now| && c in now[j].cnks;
      assert j != i ==> c in heads[j].cnks;
      assert ListsOk(heads[j], j, blocks);
    }
    assert c in h.cnks ==> c in now[i].cnks;
  }

  /** chunk_new_block */
  lemma NewBlockOk(heads: seq<Head>, blocks: map<nat, Block>, i: nat, b: nat)
    requires PoolBase(heads, blocks, []) && i < |heads| && b !in blocks && heads[i].nchk >= 1
    requires Unmapped(heads, blocks, b, heads[i].blksz)
    ensures PoolBase(heads[i := WithBlock(heads[i], b)], blocks[b := Block(i, 0)], [])
    ensures Live(heads[i := WithBlock(heads[i], b)]) == Live(heads)
  {
    hide NoDup, Live, Fresh;
    var h := WithBlock(heads[i], b);
    assert ListsOk(heads[i], i, blocks);
    BlockListed(heads[i], i, blocks, b);
    CountZero(heads[i].cnks, b);
    OneClass(heads, blocks, [], i, h, blocks[b := Block(i, 0)], []);
    forall c ensures c in Live(heads[i := h]) <==> c in Live(heads) {
      LiveAfter(heads, blocks, [], i, h, c);
      LiveClass(heads, blocks, [], c);
    }
  }

  function Taken(h: Head): Head
    requires h.free != [] && h.nfree >= 1
  {
    h.(free := Del(h.free, h.free[0]), nfree := h.nfree - 1, cnks := [h.free[0]] + h.cnks)
  }

  /** The move of a free chunk to the in-use list. */
  lemma TakeOk(heads: seq<Head>, blocks: map<nat, Block>, i: nat)
    requires PoolBase(heads, blocks, []) && i < |heads| && heads[i].free != []
    ensures heads[i].nfree >= 1
    ensures var c, now := heads[i].free[0], heads[i := Taken(heads[i])];
            && c.blk in blocks && blocks[c.blk].cls == i
            && PoolBase(now, blocks[c.blk := blocks[c.blk].(ref := blocks[c.blk].ref + 1)], [])
            && c !in Live(heads) && Live(now) == Live(heads) + {c}
  {
    hide Live, Apart, NoDup, CountIn;
    var c, h := heads[i].free[0], Taken(heads[i]);
    assert ListsOk(heads[i], i, blocks) && c in heads[i].free;
    var after := blocks[c.blk := blocks[c.blk].(ref := blocks[c.blk].ref + 1)];
    TakenListed(heads[i], i, blocks, after);
    forall b | b in after ensures CountIn(h.cnks, b) == CountIn(heads[i].cnks, b) + if c.blk == b then 1 else 0 {
      CountCons(c, heads[i].cnks, b);
    }
    SameApart(heads, heads[i := h], blocks, after);
    OneClass(heads, blocks, [], i, h, after, []);
    forall d ensures d in Live(heads[i := h]) <==> d in Live(heads) || d == c {
      LiveAfter(heads, blocks, [], i, h, d);
      LiveClass(heads, blocks, [], d);
    }
    LiveClass(heads, blocks, [], c);
  }

  lemma TakenListed(h: Head, i: nat, blocks: map<nat, Block>, after: map<nat, Block>)
    requires ListsOk(h, i, blocks) && h.free != []
    requires after.Keys == blocks.Keys && forall b :: b in blocks ==> after[b].cls == blocks[b].cls
    ensures h.nfree >= 1 && ListsOk(Taken(h), i, after)
    ensures h.free[0] !in h.cnks && forall d :: d in Taken(h).cnks <==> d in h.cnks || d == h.free[0]
  {
    var c := h.free[0];
    DelMembers(h.free, c);
    NoDupConcat([c], h.cnks);
  }

  lemma SameApart(heads: seq<Head>, now: seq<Head>, blocks: map<nat, Block>, after: map<nat, Block>)
    requires |now| == |heads| && forall j :: 0 <= j < |heads| ==> now[j].blksz == heads[j].blksz
    requires Apart(heads, blocks) && forall b :: b in after ==> b in blocks && after[b].cls == blocks[b].cls
    ensures Apart(now, after)
  {}

  function Returned(h: Head, c: Cnk): Head {
    h.(cnks := Del(h.cnks, c), free := [c] + h.free, nfree := h.nfree + 1)
  }

  /** The move of a chunk back to the free list; its block still counts it. */
  lemma PutBackOk(heads: seq<Head>, blocks: map<nat, Block>, pending: seq<Cnk>, c: Cnk)
    requires PoolBase(heads, blocks, pending) && c in Live(heads)
    ensures c.blk in blocks && blocks[c.blk].cls < |heads|
    ensures var i := blocks[c.blk].cls; var now := heads[i := Returned(heads[i], c)];
            PoolBase(now, blocks, [c] + pending) && Live(now) == Live(heads) - {c}
  {
    hide Live, Apart, NoDup, CountIn;
    LiveClass(heads, blocks, pending, c);
    var i := blocks[c.blk].cls;
    var h := Returned(heads[i], c);
    assert ListsOk(heads[i], i, blocks) && c in heads[i].cnks;
    ReturnedListed(heads[i], i, blocks, c);
    forall b | b in blocks
      ensures CountIn([c] + pending, b) == CountIn(pending, b) + if c.blk == b then 1 else 0
      ensures CountIn(heads[i].cnks, b) == CountIn(h.cnks, b) + if c.blk == b then 1 else 0
    {
      CountCons(c, pending, b);
      CountDel(heads[i].cnks, c, b);
    }
    SameApart(heads, heads[i := h], blocks, blocks);
    OneClass(heads, blocks, pending, i, h, blocks, [c] + pending);
    assert forall d :: d in h.cnks <==> d in heads[i].cnks && d != c;
    forall d ensures d in Live(heads[i := h]) <==> d in Live(heads) && d != c {
      LiveAfter(heads, blocks, pending, i, h, d);
      LiveClass(heads, blocks, pending, d);
    }
  }

  lemma ReturnedListed(h: Head, i: nat, blocks: map<nat, Block>, c: Cnk)
    requires ListsOk(h, i, blocks) && c in h.cnks
    ensures ListsOk(Returned(h, c), i, blocks)
    ensures forall d :: d in Returned(h, c).cnks <==> d in h.cnks && d != c
  {
    DelMembers(h.cnks, c);
    NoDupConcat([c], h.free);
  }

  /** The drop of the count of a chunk that was moved back. */
  lemma UnrefOk(heads: seq<Head>, blocks: map<nat, Block>, pending: seq<Cnk>)
    requires PoolBase(heads, blocks, pending) && pending != []
    ensures var c := pending[0];
            && c.blk in blocks && blocks[c.blk].ref >= 1
            && PoolBase(heads, blocks[c.blk := blocks[c.blk].(ref := blocks[c.blk].ref - 1)], pending[1..])
  {
    hide Live, Apart, ListsOk, CountIn;
    var c := pending[0];
    assert c in pending;
    var i := blocks[c.blk].cls;
    assert heads[i := heads[i]] == heads && pending == [c] + pending[1..];
    forall b | b in blocks ensures CountIn(pending, b) == CountIn(pending[1..], b) + if c.blk == b then 1 else 0 {
      CountCons(c, pending[1..], b);
    }
    var after := blocks[c.blk := blocks[c.blk].(ref := blocks[c.blk].ref - 1)];
    assert ListsOk(heads[i], i, blocks);
    SameApart(heads, heads, blocks, after);
    SameClasses(heads[i], i, blocks, after);
    OneClass(heads, blocks, pending, i, heads[i], after, pending[1..]);
  }

  /** chunk_release_block, for a block that counts nothing. */
  lemma ReleaseOk(heads: seq<Head>, blocks: map<nat, Block>, pending: seq<Cnk>, b: nat)
    requires PoolBase(heads, blocks, pending) && b in blocks && blocks[b].ref == 0
    ensures blocks[b].cls < |heads|
    ensures var i := blocks[b].cls;
            && (forall c: Cnk :: c.blk == b && c.idx < heads[i].nchk ==> c in heads[i].free)
            && heads[i].nblks >= 1 && heads[i].nfree >= heads[i].nchk
            && PoolBase(heads[i := WithoutBlock(heads[i], b)], blocks - {b}, pending)
            && Live(heads[i := WithoutBlock(heads[i], b)]) == Live(heads)
  {
    hide Live, Apart;
    var i := blocks[b].cls;
    assert ListsOk(heads[i], i, blocks);
    CountZero(heads[i].cnks, b);
    CountZero(pending, b);
    UnlistedBlock(heads[i], i, blocks, b);
    var h := WithoutBlock(heads[i], b);
    SameApart(heads, heads[i := h], blocks, blocks - {b});
    OneClass(heads, blocks, pending, i, h, blocks - {b}, pending);
    forall c ensures c in Live(heads[i := h]) <==> c in Live(heads) {
      LiveAfter(heads, blocks, pending, i, h, c);
      LiveClass(heads, blocks, pending, c);
    }
  }

  lemma UnlistedBlock(h: Head, i: nat, blocks: map<nat, Block>, b: nat)
    requires ListsOk(h, i, blocks) && b in blocks && blocks[b].cls == i && forall c :: c in h.cnks ==> c.blk != b
    ensures forall c: Cnk :: c.blk == b && c.idx < h.nchk ==> c in h.free
    ensures h.nblks >= 1 && h.nfree >= h.nchk && ListsOk(WithoutBlock(h, b), i, blocks - {b})
    ensures forall c :: c in WithoutBlock(h, b).free <==> c in h.free && c.blk != b
  {
    WithoutMembers(h.free, b, h.nchk);
    DelMembers(h.blks, b);
    assert (h.nblks - 1) * h.nchk == h.nblks * h.nchk - h.nchk;
  }
}
