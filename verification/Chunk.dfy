/** The chunk allocator: chunks of fixed size classes, in named groups whose books are kept in chunks as well. */
module Chunk {
  import opened Basics
  import opened ChunkPool
  import opened ChunkGroups

  /** Addresses take 8 bytes. */
  const ADDRESS_SIZE := 8

  /** A group has its links, its name and its entries; an entry has its links, its chunk and its group. */
  const GROUP_SIZE := 2 * ADDRESS_SIZE + ADDRESS_SIZE + ADDRESS_SIZE
  const ENTRY_SIZE := 2 * ADDRESS_SIZE + ADDRESS_SIZE + ADDRESS_SIZE

  /** The chunk is of the smallest class that holds `len` bytes. */
  ghost predicate FitsIn(heads: seq<Head>, blocks: map<nat, Block>, c: Cnk, len: nat) {
    && c.blk in blocks && blocks[c.blk].cls < |heads|
    && len <= heads[blocks[c.blk].cls].size && forall j :: 0 <= j < blocks[c.blk].cls ==> heads[j].size < len
  }

  lemma FitsStill(heads: seq<Head>, blocks: map<nat, Block>, now: seq<Head>, after: map<nat, Block>, c: Cnk, len: nat)
    requires Stays(heads, blocks, now, after) && FitsIn(heads, blocks, c, len)
    ensures FitsIn(now, after, c, len)
  {}

  ghost predicate NameUsed(k: Books, name: string) {
    exists g :: g in k.groups && k.groups[g].name == name
  }

  /** The group a name stands for. */
  ghost predicate IsGroup(k: Books, name: string, g: Cnk) {
    g in k.groups && k.groups[g].name == name
  }

  /** What a chunk in a group adds: its entry, and for a new name the two chunks of the group. */
  ghost predicate Grouped(was: Books, live: set<Cnk>, c: Cnk, name: string, header: Cnk, holder: Cnk,
                          now: Books, after: set<Cnk>) {
    && c in now.entOf && now.entOf[c] !in live && now.entOf[c] != c
    && if NameUsed(was, name) then
         exists g :: IsGroup(was, name, g) && now == Attached(was, c, now.entOf[c], g)
                     && after == live + {c, now.entOf[c]}
       else
         && header !in live && holder !in live && |{c, now.entOf[c], header, holder}| == 4
         && now == Attached(NewGroup(was, header, name, holder), c, now.entOf[c], header)
         && after == live + {c, now.entOf[c], header, holder}
  }

  /** What a successful request does to the books and the chunks in use. */
  ghost predicate Served(was: Books, live: set<Cnk>, c: Cnk, name: Option<string>, header: Cnk, holder: Cnk,
                         now: Books, after: set<Cnk>) {
    && c !in live && c in after
    && match name
       case None => now == was && after == live + {c}
       case Some(text) => Grouped(was, live, c, text, header, holder, now, after)
  }

  lemma ServedPlain(k: Books, live: set<Cnk>, c: Cnk, header: Cnk, holder: Cnk)
    requires c !in live
    ensures Served(k, live, c, None, header, holder, k, live + {c})
  {}

  lemma ServedInGroup(k: Books, live: set<Cnk>, c: Cnk, e: Cnk, g: Cnk, name: string, header: Cnk, holder: Cnk)
    requires c !in live && e !in live + {c} && IsGroup(k, name, g)
    ensures Served(k, live, c, Some(name), header, holder, Attached(k, c, e, g), live + {c} + {e})
  {
    assert live + {c} + {e} == live + {c, e};
  }

  lemma ServedInNewGroup(k: Books, live: set<Cnk>, c: Cnk, e: Cnk, name: string, header: Cnk, holder: Cnk)
    requires c !in live && !NameUsed(k, name) && header !in live + {c} && holder !in live + {c} && header != holder
    requires e !in live + {c} + {header, holder}
    ensures Served(k, live, c, Some(name), header, holder, Attached(NewGroup(k, header, name, holder), c, e, header),
                   live + {c} + {header, holder} + {e})
  {
    assert live + {c} + {header, holder} + {e} == live + {c, e, header, holder};
  }

  lemma Leaked(len: nat, name: string, k: Books, live: set<Cnk>, c: Cnk, header: Cnk)
    requires 0 < len <= MAX_SIZE && !NameUsed(k, name) && c !in live && header !in live + {c}
    ensures LeaksHeader(len, Some(name), k, live, live + {c} + {header} - {c})
  {
    assert live + {c} + {header} - {c} == live + {header};
  }

  /** A name that is too long costs the chunk that was meant for the new group. */
  ghost predicate LeaksHeader(len: nat, name: Option<string>, k: Books, live: set<Cnk>, after: set<Cnk>) {
    && 0 < len <= MAX_SIZE && name.Some? && !NameUsed(k, name.value)
    && exists g :: g !in live && after == live + {g}
  }

  lemma {:induction false} TopOf(keys: set<nat>, bound: nat) returns (t: nat)
    ensures forall a :: a in keys ==> a + bound <= t
  {
    if keys == {} {
      t := 0;
    } else {
      var a :| a in keys;
      var u := TopOf(keys - {a}, bound);
      t := if a + bound <= u then u else a + bound;
      assert forall x :: x in keys ==> x == a || x in keys - {a};
    }
  }

  lemma {:induction false} LargestBlock(heads: seq<Head>) returns (m: nat)
    ensures forall i :: 0 <= i < |heads| ==> heads[i].blksz <= m
  {
    if heads == [] {
      m := 0;
    } else {
      var n := |heads| - 1;
      m := LargestBlock(heads[..n]);
      m := if heads[n].blksz <= m then m else heads[n].blksz;
      assert forall i :: 0 <= i < n ==> heads[i] == heads[..n][i];
    }
  }

  /** There is always room for one more block. */
  lemma SomeRoom(heads: seq<Head>, blocks: map<nat, Block>, size: nat)
    ensures exists b: nat :: b !in blocks && Unmapped(heads, blocks, b, size)
  {
    var m := LargestBlock(heads);
    var t := TopOf(blocks.Keys, m + 1);
    assert t !in blocks && Unmapped(heads, blocks, t, size);
  }

  lemma NoneQueued(blk: nat, free: seq<Cnk>)
    ensures Fresh(blk, 0) + free == free
  {}

  lemma OneQueued(blk: nat, i: nat, free: seq<Cnk>)
    ensures [Cnk(blk, i)] + (Fresh(blk, i) + free) == Fresh(blk, i + 1) + free
  {
    ConcatAssoc([Cnk(blk, i)], Fresh(blk, i), free);
  }

  /** The loop of chunk_new_block over the chunks of the new block. */
  method QueueChunks(h: Head, blk: nat) returns (g: Head)
    ensures g == WithBlock(h, blk)
  {
    hide Fresh;
    g := h.(blks := [blk] + h.blks, nblks := h.nblks + 1);
    var i := 0;
    NoneQueued(blk, h.free);
    while i < h.nchk
      invariant 0 <= i <= h.nchk && g.free == Fresh(blk, i) + h.free
      invariant g == h.(blks := [blk] + h.blks, nblks := h.nblks + 1, free := g.free, nfree := h.nfree + i)
    {
      OneQueued(blk, i, h.free);
      g := g.(free := [Cnk(blk, i)] + g.free, nfree := g.nfree + 1);
      i := i + 1;
    }
  }

  /** The loop of chunk_release_block over the chunks of the block. */
  method UnqueueChunks(h: Head, blk: nat) returns (g: Head)
    requires h.nblks >= 1 && h.nfree >= h.nchk
    ensures g == WithoutBlock(h, blk)
  {
    g := h.(blks := Del(h.blks, blk), nblks := h.nblks - 1);
    var i := 0;
    while i < h.nchk
      invariant 0 <= i <= h.nchk
      invariant g == h.(blks := Del(h.blks, blk), nblks := h.nblks - 1, free := Without(h.free, blk, i), nfree := h.nfree - i)
    {
      g := g.(free := Del(g.free, Cnk(blk, i)), nfree := g.nfree - 1);
      i := i + 1;
    }
  }

  class Allocator {
    const page: nat
    ghost const exponent: nat
    var initialized: bool
    var heads: seq<Head>
    var blocks: map<nat, Block>
    var books: Books
    var keepGroup: bool
    ghost var pending: seq<Cnk>

    ghost predicate ValidPool()
      reads this
    {
      && initialized && page == Pow2(exponent)
      && Sized(exponent, heads) && PoolOk(heads, blocks, pending)
    }

    /** Between calls: the pool is in order and counts only chunks in use, and the books are in order. */
    ghost predicate Valid()
      reads this
    {
      && page == Pow2(exponent) && pending == [] && !keepGroup
      && (if initialized then ValidPool() else heads == [] && blocks == map[] && books == NoBooks)
      && GroupsOk(Live(heads), books, None)
    }

    constructor (ghost k: nat, page: nat)
      requires page == Pow2(k)
      ensures Valid() && Live(heads) == {}
    {
      this.page, exponent := page, k;
      initialized, heads, blocks, books, keepGroup, pending := false, [], map[], NoBooks, false, [];
    }

    /** chunk_initialize */
    method ChunkInitialize()
      requires Valid() && !initialized
      modifies this
      ensures Valid() && initialized && books == old(books) && Live(heads) == old(Live(heads)) == {}
    {
      heads := [];
      var idx := 0;
      while idx < CHUNK_HEADS
        invariant 0 <= idx == |heads| <= CHUNK_HEADS && blocks == map[] && pending == []
        invariant forall i :: 0 <= i < |heads| ==> Shaped(exponent, i, heads[i]) && ListsOk(heads[i], i, map[])
                                                   && heads[i].cnks == []
      {
        hide Shaped, Pow2;
        var h := InitHead(exponent, page, idx);
        heads := heads + [h];
        idx := idx + 1;
      }
      books, keepGroup, initialized := NoBooks, false, true;
    }

    /** chunk_new_block. Where the block goes is up to mmap, as long as it overlaps nothing. */
    method ChunkNewBlock(idx: nat) returns (ghost b: nat)
      requires ValidPool() && pending == [] && idx < CHUNK_HEADS
      modifies `heads, `blocks
      ensures b !in old(blocks) && blocks == old(blocks)[b := Block(idx, 0)]
      ensures heads == old(heads)[idx := WithBlock(old(heads)[idx], b)]
      ensures Sized(exponent, heads) && PoolBase(heads, blocks, []) && Live(heads) == old(Live(heads))
    {
      hide Pow2, PoolBase, Live, NoDup, Fresh;
      var h := heads[idx];
      SomeRoom(heads, blocks, h.blksz);
      var blk: nat :| blk !in blocks && Unmapped(heads, blocks, blk, h.blksz);
      NewBlockOk(heads, blocks, idx, blk);
      var g := QueueChunks(h, blk);
      heads, blocks, b := heads[idx := g], blocks[blk := Block(idx, 0)], blk;
    }

    /** The class of a request: the first one that is large enough, if there is one. */
    method SizeClass(len: nat) returns (idx: nat)
      requires ValidPool()
      ensures |heads| == CHUNK_HEADS
      ensures if len <= MAX_SIZE then
                idx < CHUNK_HEADS && len <= heads[idx].size && forall j :: 0 <= j < idx ==> heads[j].size < len
              else idx == CHUNK_HEADS
    {
      hide PoolOk, Pow2;
      LargestClass(exponent, heads);
      idx := 0;
      while idx < CHUNK_HEADS
        invariant 0 <= idx <= CHUNK_HEADS && forall j :: 0 <= j < idx ==> heads[j].size < len
      {
        if heads[idx].size >= len {
          SizesRise(exponent, heads, idx);
          return;
        }
        idx := idx + 1;
      }
    }

    /** The chunk is of the smallest class that holds `len` bytes. */
    ghost predicate Holds(c: Cnk, len: nat)
      reads this
    {
      FitsIn(heads, blocks, c, len)
    }

    /** The first free chunk of a class moves to the in-use list. */
    method TakeFirst(idx: nat) returns (c: Cnk)
      requires initialized && page == Pow2(exponent) && Sized(exponent, heads) && PoolBase(heads, blocks, [])
      requires pending == [] && idx < CHUNK_HEADS && heads[idx].free != []
      requires forall b :: b in blocks && b != heads[idx].free[0].blk ==> blocks[b].ref >= 1
      modifies `heads, `blocks
      ensures ValidPool() && Stays(old(heads), old(blocks), heads, blocks)
      ensures c !in old(Live(heads)) && Live(heads) == old(Live(heads)) + {c}
      ensures c.blk in blocks && blocks[c.blk].cls == idx
    {
      hide Pow2, Live, PoolBase, Del;
      var h := heads[idx];
      c := h.free[0];
      TakeOk(heads, blocks, idx);
      heads := heads[idx := h.(free := Del(h.free, c), nfree := h.nfree - 1, cnks := [c] + h.cnks)];
      blocks := blocks[c.blk := blocks[c.blk].(ref := blocks[c.blk].ref + 1)];
    }

    /** chunk_alloc */
    method ChunkAlloc(len: nat) returns (r: Option<Cnk>)
      requires ValidPool() && pending == []
      modifies `heads, `blocks
      ensures ValidPool()
      ensures r.Some? <==> 0 < len <= MAX_SIZE
      ensures r.Some? ==> r.value !in old(Live(heads)) && Live(heads) == old(Live(heads)) + {r.value}
      ensures r.Some? ==> Holds(r.value, len)
      ensures r.None? ==> heads == old(heads) && blocks == old(blocks)
      ensures Stays(old(heads), old(blocks), heads, blocks)
    {
      hide Pow2, Live, NoDup, Fresh, Apart, RefsOk;
      if len == 0 {
        return None;
      }
      var idx := SizeClass(len);
      if idx == CHUNK_HEADS {
        return None;
      }
      assert ListsOk(heads[idx], idx, blocks);
      if heads[idx].nfree == 0 {
        FirstOfBlock(heads[idx], exponent, idx);
        ghost var b := ChunkNewBlock(idx);
      }
      var c := TakeFirst(idx);
      r := Some(c);
    }

    /** chunk_release_block */
    method ChunkReleaseBlock(b: nat)
      requires Sized(exponent, heads) && PoolBase(heads, blocks, pending) && b in blocks && blocks[b].ref == 0
      modifies `heads, `blocks
      ensures Sized(exponent, heads) && PoolBase(heads, blocks, pending)
      ensures blocks == old(blocks) - {b} && Live(heads) == old(Live(heads))
      ensures Shrinks(old(heads), old(blocks), heads, blocks)
    {
      hide Pow2, PoolBase, Live, NoDup, Without, Del;
      ReleaseOk(heads, blocks, pending, b);
      var i := blocks[b].cls;
      var g := UnqueueChunks(heads[i], b);
      heads, blocks := heads[i := g], blocks - {b};
    }

    /** The first step of unchunk: back to the free list. */
    method Requeue(c: Cnk)
      requires ValidPool() && c in Live(heads)
      modifies `heads, `pending
      ensures ValidPool() && pending == [c] + old(pending) && Live(heads) == old(Live(heads)) - {c}
      ensures Shrinks(old(heads), blocks, heads, blocks)
    {
      hide Pow2, Live, NoDup, Del, RefsOk, Apart;
      PutBackOk(heads, blocks, pending, c);
      var i := blocks[c.blk].cls;
      var h := heads[i];
      heads := heads[i := h.(cnks := Del(h.cnks, c), free := [c] + h.free, nfree := h.nfree + 1)];
      pending := [c] + pending;
    }

    /** The last step of unchunk: the block counts one chunk less, and goes when it counts none. */
    method Unref(c: Cnk)
      requires ValidPool() && pending != [] && pending[0] == c
      modifies `heads, `blocks, `pending
      ensures ValidPool() && pending == old(pending)[1..] && Live(heads) == old(Live(heads))
      ensures Shrinks(old(heads), old(blocks), heads, blocks)
    {
      hide Pow2, Live, NoDup, Apart, RefsOk, ListsOk;
      UnrefOk(heads, blocks, pending);
      blocks := blocks[c.blk := blocks[c.blk].(ref := blocks[c.blk].ref - 1)];
      pending := pending[1..];
      if blocks[c.blk].ref == 0 {
        ChunkReleaseBlock(c.blk);
      }
    }

    /** unchunk */
    method Unchunk(c: Cnk)
      requires ValidPool() && c in Live(heads)
      requires c in books.entOf ==> pending == [] && Leaving(Live(heads), books, c, keepGroup)
      modifies `heads, `blocks, `books, `pending
      ensures ValidPool() && pending == old(pending) && Shrinks(old(heads), old(blocks), heads, blocks)
      ensures books == BooksWithout(old(books), c, keepGroup)
      ensures Live(heads) == old(Live(heads)) - FreedWith(old(books), c, keepGroup)
      ensures old(Valid()) && !Keeps(old(books), c) ==> Valid()
      decreases if c in books.entOf then 1 else 0
    {
      hide PoolOk, Sized, Live, Pow2, Del, GroupsOk, Keeps;
      if c in books.entOf {
        LeavingParts(Live(heads), books, c, keepGroup);
      }
      Requeue(c);
      if c in books.entOf {
        var ent := books.entOf[c];
        var grp := books.ents[ent].grp;
        books := books.(groups := books.groups[grp := books.groups[grp].(ents := Del(books.groups[grp].ents, ent))]);
        Unchunk(ent);
        books := books.(entOf := books.entOf - {c}, ents := books.ents - {ent});
        if !keepGroup && books.groups[grp].ents == [] {
          books := books.(list := Del(books.list, grp));
          var name := books.groups[grp].nameCnk;
          Unchunk(name);
          Unchunk(grp);
          books := books.(groups := books.groups - {grp});
        }
      }
      Unref(c);
      if old(Valid()) && !Keeps(old(books), c) {
        BooksWithoutOk(old(Live(heads)), old(books), c);
      }
    }

    /** The walk along the list of groups. */
    method FindGroup(name: string) returns (r: Option<Cnk>)
      requires GroupsOk(Live(heads), books, None)
      ensures r.Some? <==> NameUsed(books, name)
      ensures r.Some? ==> IsGroup(books, name, r.value)
    {
      hide PartsOk, NoDup;
      var i := 0;
      while i < |books.list|
        invariant 0 <= i <= |books.list|
        invariant forall j :: 0 <= j < i ==> books.groups[books.list[j]].name != name
      {
        if books.groups[books.list[i]].name == name {
          return Some(books.list[i]);
        }
        i := i + 1;
      }
      r := None;
    }

    /** A new group: its header, and the chunk that holds its name. */
    method NewGroupFor(name: string) returns (r: Option<Cnk>, ghost header: Cnk, ghost holder: Cnk)
      requires Valid() && initialized && !NameUsed(books, name)
      modifies `heads, `blocks, `books
      ensures ValidPool() && Stays(old(heads), old(blocks), heads, blocks)
      ensures header !in old(Live(heads)) && (r.Some? <==> |name| + 1 <= MAX_SIZE)
      ensures r.None? ==> Valid() && books == old(books) && Live(heads) == old(Live(heads)) + {header}
      ensures r.Some? ==> r.value == header && holder !in old(Live(heads)) && header != holder
      ensures r.Some? ==> books == NewGroup(old(books), header, name, holder) && GroupsOk(Live(heads), books, r)
      ensures r.Some? ==> header in books.groups
      ensures Holds(header, GROUP_SIZE) && (r.Some? ==> Holds(holder, |name| + 1))
      ensures r.Some? ==> Live(heads) == old(Live(heads)) + {header, holder}
    {
      hide Sized, PoolOk, Live, Pow2, GroupsOk, Keeps;
      ghost var live := Live(heads);
      var space := ChunkAlloc(GROUP_SIZE);
      var g := space.value;
      header, holder := g, g;
      MoreLive(live, Live(heads), books, None);
      var text := ChunkAlloc(|name| + 1);
      if text.None? {
        return None, header, holder;
      }
      var n := text.value;
      holder := n;
      MoreLive(live, Live(heads), books, None);
      FreeIsPlain(live, books, None, g);
      FreeIsPlain(live, books, None, n);
      NewGroupOk(Live(heads), books, g, name, n);
      books := books.(groups := books.groups[g := Group(name, n, [])], list := [g] + books.list);
      r := Some(g);
    }

    /** The chunk joins the group by a new entry. */
    method Join(c: Cnk, g: Cnk)
      requires ValidPool() && pending == [] && !keepGroup && g in books.groups
      requires GroupsOk(Live(heads), books, Some(g)) && c in Live(heads) && Plain(books, c)
      modifies `heads, `blocks, `books
      ensures Valid() && Stays(old(heads), old(blocks), heads, blocks)
      ensures c in books.entOf && books.entOf[c] !in old(Live(heads))
      ensures books == Attached(old(books), c, books.entOf[c], g) && Live(heads) == old(Live(heads)) + {books.entOf[c]}
      ensures Holds(books.entOf[c], ENTRY_SIZE)
    {
      hide Sized, PoolOk, Live, Pow2, GroupsOk, Keeps, Plain;
      ghost var live := Live(heads);
      var ent := ChunkAlloc(ENTRY_SIZE);
      var e := ent.value;
      MoreLive(live, Live(heads), books, Some(g));
      FreeIsPlain(live, books, Some(g), e);
      AttachedOk(Live(heads), books, c, e, g);
      books := books.(entOf := books.entOf[c := e], ents := books.ents[e := Ent(g, c)],
                      groups := books.groups[g := books.groups[g].(ents := [e] + books.groups[g].ents)]);
    }

    /** The chunk joins a group that was found. */
    method JoinFound(c: Cnk, ghost name: string, g: Cnk)
      requires Valid() && initialized && IsGroup(books, name, g) && c in Live(heads) && Plain(books, c)
      modifies `heads, `blocks, `books
      ensures Valid() && Stays(old(heads), old(blocks), heads, blocks) && c in books.entOf
      ensures books.entOf[c] !in old(Live(heads)) && g in old(books).groups
      ensures books == Attached(old(books), c, books.entOf[c], g) && Live(heads) == old(Live(heads)) + {books.entOf[c]}
      ensures Holds(books.entOf[c], ENTRY_SIZE)
    {
      hide Sized, PoolOk, Live, Pow2, GroupsOk, Plain;
      Excused(Live(heads), books, g);
      Join(c, g);
    }

    /** chunk. `header` and `holder` are the chunks of a new group and of its name. */
    method Chunk(len: nat, name: Option<string>) returns (r: Option<Cnk>, ghost header: Cnk, ghost holder: Cnk)
      requires Valid()
      modifies this
      ensures Valid() && initialized
      ensures r.Some? <==> 0 < len <= MAX_SIZE
                           && (name.Some? && !NameUsed(old(books), name.value) ==> |name.value| + 1 <= MAX_SIZE)
      ensures r.None? ==> books == old(books)
                          && if 0 < len <= MAX_SIZE then LeaksHeader(len, name, books, old(Live(heads)), Live(heads))
                             else Live(heads) == old(Live(heads))
      ensures r.Some? ==> Holds(r.value, len)
      ensures r.Some? ==> Served(old(books), old(Live(heads)), r.value, name, header, holder, books, Live(heads))
      ensures r.Some? && name.Some? ==> r.value in books.entOf && Holds(books.entOf[r.value], ENTRY_SIZE)
      ensures r.Some? && name.Some? && !NameUsed(old(books), name.value) ==>
                Holds(header, GROUP_SIZE) && Holds(holder, |name.value| + 1)
    {
      hide Sized, PoolOk, Live, Pow2, GroupsOk, Plain, Keeps, Served, NameUsed, IsGroup, LeaksHeader, Attached,
           NewGroup, FitsIn, Stays;
      header, holder := Cnk(0, 0), Cnk(0, 0);
      if !initialized {
        ChunkInitialize();
      }
      ghost var live, k := Live(heads), books;
      if len == 0 {
        return None, header, holder;
      }
      var cnk := ChunkAlloc(len);
      if cnk.None? {
        return None, header, holder;
      }
      var c := cnk.value;
      MoreLive(live, Live(heads), books, None);
      FreeIsPlain(live, books, None, c);
      if name.None? {
        ServedPlain(books, live, c, header, holder);
        return Some(c), header, holder;
      }
      var found := FindGroup(name.value);
      ghost var taken, blks := heads, blocks;
      if found.Some? {
        JoinFound(c, name.value, found.value);
        FitsStill(taken, blks, heads, blocks, c, len);
        ServedInGroup(k, live, c, books.entOf[c], found.value, name.value, header, holder);
      } else {
        var grp;
        grp, header, holder := NewGroupFor(name.value);
        if grp.None? {
          PlainKeepsNothing(books, c);
          Unchunk(c);
          Leaked(len, name.value, k, live, c, header);
          return None, header, holder;
        }
        PlainStays(k, header, name.value, holder, c);
        FitsStill(taken, blks, heads, blocks, c, len);
        taken, blks := heads, blocks;
        Join(c, grp.value);
        FitsStill(taken, blks, heads, blocks, c, len);
        FitsStill(taken, blks, heads, blocks, header, GROUP_SIZE);
        FitsStill(taken, blks, heads, blocks, holder, |name.value| + 1);
        ServedInNewGroup(k, live, c, books.entOf[c], name.value, header, holder);
      }
      r := Some(c);
    }

    lemma OneClassOfSize(i: nat, j: nat)
      requires ValidPool() && initialized && i < |heads| && j < |heads| && heads[i].size == heads[j].size
      ensures i == j
    {
      hide Pow2;
      if i < j {
        SizesDiffer(exponent, heads, i, j);
      } else if j < i {
        SizesDiffer(exponent, heads, j, i);
      }
    }

    /** rechunk. `mid` and `between` are the books and the chunks in use once the new chunk is there. */
    method Rechunk(ptr: Option<Cnk>, len: nat, name: Option<string>)
      returns (r: Option<Cnk>, ghost header: Cnk, ghost holder: Cnk, ghost mid: Books, ghost between: set<Cnk>)
      requires Valid()
      requires ptr.Some? ==> ptr.value in Live(heads) && !Keeps(books, ptr.value)
      modifies this
      ensures Valid()
      ensures ptr.Some? && len == 0 ==>
                r.None? && books == BooksWithout(old(books), ptr.value, false)
                && Live(heads) == old(Live(heads)) - FreedWith(old(books), ptr.value, false)
      ensures ptr.Some? && len > MAX_SIZE ==> r.None? && books == old(books) && Live(heads) == old(Live(heads))
      ensures ptr.Some? && 0 < len && old(Holds(ptr.value, len)) ==>
                r == ptr && books == old(books) && Live(heads) == old(Live(heads))
      ensures r.None? && (ptr.None? || len != 0) ==>
                books == old(books)
                && if 0 < len <= MAX_SIZE then LeaksHeader(len, name, books, old(Live(heads)), Live(heads))
                   else Live(heads) == old(Live(heads))
      ensures r.Some? ==> Holds(r.value, len)
      ensures r.Some? <==>
                && 0 < len <= MAX_SIZE
                && ((ptr.Some? && old(Holds(ptr.value, len)))
                    || (name.Some? && !NameUsed(old(books), name.value) ==> |name.value| + 1 <= MAX_SIZE))
      ensures ptr.Some? && r.Some? ==> (r == ptr <==> old(Holds(ptr.value, len)))
      ensures ptr.Some? && r.Some? && r != ptr ==> ptr.value !in Live(heads) && r.value in Live(heads)
      ensures r.Some? && r != ptr ==>
                && Served(old(books), old(Live(heads)), r.value, name, header, holder, mid, between)
                && books == (if ptr.Some? then BooksWithout(mid, ptr.value, false) else mid)
                && Live(heads) == (if ptr.Some? then between - FreedWith(mid, ptr.value, false) else between)
    {
      hide Sized, PoolOk, Live, Pow2, GroupsOk, Plain, Keeps, Served;
      mid, between, header, holder := books, Live(heads), Cnk(0, 0), Cnk(0, 0);
      if ptr.None? {
        r, header, holder := Chunk(len, name);
        mid, between := books, Live(heads);
        return;
      }
      var c := ptr.value;
      InitializedBy(c);
      if len == 0 {
        BooksWithoutOk(Live(heads), books, c);
        Unchunk(c);
        r := None;
        return;
      }
      ClassThere(c);
      var idx := SizeClass(len);
      if idx == CHUNK_HEADS {
        r := None;
        return;
      }
      if heads[idx].size == heads[blocks[c.blk].cls].size {
        OneClassOfSize(idx, blocks[c.blk].cls);
        r := ptr;
        return;
      }
      r, header, holder := Chunk(len, name);
      mid, between := books, Live(heads);
      if r.None? {
        return;
      }
      StillUsers(old(books), old(Live(heads)), c, r.value, name, header, holder, mid, between);
      BooksWithoutOk(Live(heads), books, c);
      ServedStays(old(books), old(Live(heads)), c, r.value, name, header, holder, mid, between);
      Unchunk(c);
      ClassThere(r.value);
    }

    /** unchunk_group */
    method UnchunkGroup(name: string) returns (ghost gone: Option<Cnk>)
      requires Valid()
      modifies this
      ensures Valid()
      ensures gone.Some? <==> NameUsed(old(books), name)
      ensures gone.None? ==> books == old(books) && Live(heads) == old(Live(heads))
      ensures gone.Some? ==> IsGroup(old(books), name, gone.value)
                             && books == WithoutGroup(old(books), gone.value)
                             && Live(heads) == old(Live(heads)) - GroupChunks(old(books), gone.value)
    {
      hide Sized, PoolOk, Pow2, PartsOk, Live, Del, NoDup, Keeps;
      if !initialized {
        return None;
      }
      var found := FindGroup(name);
      if found.None? {
        return None;
      }
      var g := found.value;
      EmptiedIsWithout(old(Live(heads)), old(books), g);
      EmptyGroup(g);
      DroppedOk(Live(heads), books, g);
      books := books.(list := Del(books.list, g));
      var holder := books.groups[g].nameCnk;
      Unchunk(holder);
      Unchunk(g);
      books := books.(groups := books.groups - {g});
      ghost var rest := old(Live(heads)) - Gone(old(books), g, []);
      assert rest - {holder} - {g} == rest - {holder, g};
      gone := found;
    }

    /** The loop of unchunk_group, during which the group is kept although it becomes empty. */
    method EmptyGroup(g: Cnk)
      requires Valid() && initialized && g in books.groups
      requires forall e :: e in books.groups[g].ents ==> e in books.ents
      modifies `heads, `blocks, `books, `pending, `keepGroup
      ensures ValidPool() && pending == [] && !keepGroup && g in books.groups && books.groups[g].ents == []
      ensures books == Emptied(old(books), g, []) && Live(heads) == old(Live(heads)) - Gone(old(books), g, [])
      ensures GroupsOk(Live(heads), books, Some(g))
    {
      hide Sized, PoolOk, Pow2, GroupsOk, Live, Del, Emptied, Gone;
      ghost var k, live := books, Live(heads);
      EmptyNone(live, k, g);
      Excused(live, k, g);
      keepGroup := true;
      while books.groups[g].ents != []
        invariant ValidPool() && pending == [] && keepGroup && g in books.groups
        invariant var rest := books.groups[g].ents;
                  && NoDup(rest) && (forall e :: e in rest ==> e in k.groups[g].ents)
                  && books == Emptied(k, g, rest) && Live(heads) == live - Gone(k, g, rest)
        invariant GroupsOk(Live(heads), books, Some(g))
        decreases |books.groups[g].ents|
      {
        ghost var rest := books.groups[g].ents;
        EmptyOne(live, k, g, rest);
        EmptiedLists(k, g, rest[1..]);
        var c := books.ents[books.groups[g].ents[0]].cnk;
        DetachedOk(Live(heads), books, Some(g), c);
        assert FreedWith(books, c, true) == {c, rest[0]};
        Unchunk(c);
      }
      keepGroup := false;
    }

    lemma InitializedBy(c: Cnk)
      requires Valid() && c in Live(heads)
      ensures initialized
    {}

    lemma ClassThere(c: Cnk)
      requires Valid() && c in Live(heads)
      ensures c.blk in blocks && blocks[c.blk].cls < |heads| && heads[blocks[c.blk].cls].size <= MAX_SIZE
    {
      LiveClass(heads, blocks, pending, c);
      SizesRise(exponent, heads, blocks[c.blk].cls);
      LargestClass(exponent, heads);
    }
  }

  /** A chunk just served is not freed with an older one. */
  lemma ServedStays(was: Books, live: set<Cnk>, c: Cnk, d: Cnk, name: Option<string>, header: Cnk, holder: Cnk,
                    now: Books, after: set<Cnk>)
    requires c in live && !Keeps(was, c) && Served(was, live, d, name, header, holder, now, after)
    requires GroupsOk(live, was, None) && GroupsOk(after, now, None)
    ensures d in after && d !in FreedWith(now, c, false)
  {
    hide GroupsOk, Keeps;
    StillUsers(was, live, c, d, name, header, holder, now, after);
    if c in now.entOf {
      BooksWithoutOk(after, now, c);
      LeavingParts(after, now, c, false);
    }
    if c in was.entOf {
      BooksWithoutOk(live, was, c);
      LeavingParts(live, was, c, false);
    }
  }

  /** A user's chunk stays one when another chunk is served. */
  lemma StillUsers(was: Books, live: set<Cnk>, c: Cnk, d: Cnk, name: Option<string>, header: Cnk, holder: Cnk,
                   now: Books, after: set<Cnk>)
    requires c in live && !Keeps(was, c) && Served(was, live, d, name, header, holder, now, after)
    ensures c in after && !Keeps(now, c)
  {}
}
