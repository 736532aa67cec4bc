/** The groups of the allocator: which chunks keep the books about which. */
module ChunkGroups {
  import opened Basics
  import opened ChunkPool

  /** chunk_grpent_t: the group and the chunk that an entry joins. */
  datatype Ent = Ent(grp: Cnk, cnk: Cnk)

  /** chunk_group_t: the name, the chunk that holds it, and the entries. */
  datatype Group = Group(name: string, nameCnk: Cnk, ents: seq<Cnk>)

  /** The grouped chunks with their entries, the entries and groups by the chunk they live in, and the list of groups. */
  datatype Books = Books(entOf: map<Cnk, Cnk>, ents: map<Cnk, Ent>, groups: map<Cnk, Group>, list: seq<Cnk>)

  const NoBooks := Books(map[], map[], map[], [])

  ghost predicate IsName(k: Books, c: Cnk) {
    exists g :: g in k.groups && k.groups[g].nameCnk == c
  }

  /** The chunk is neither grouped nor used for the books. */
  ghost predicate Plain(k: Books, c: Cnk) {
    c !in k.entOf && c !in k.ents && c !in k.groups && !IsName(k, c)
  }

  /** The chunk is used for the books. */
  ghost predicate Keeps(k: Books, c: Cnk) {
    c in k.ents || c in k.groups || IsName(k, c)
  }

  lemma PlainKeepsNothing(k: Books, c: Cnk)
    requires Plain(k, c)
    ensures !Keeps(k, c) && c !in k.entOf
  {}

  /** A grouped chunk: its entry points back at it. */
  ghost predicate ChunkOk(live: set<Cnk>, k: Books, c: Cnk)
    requires c in k.entOf
  {
    c in live && k.entOf[c] in k.ents && k.ents[k.entOf[c]].cnk == c
  }

  /** An entry: the chunk it joins to a group points back at it, and the group lists it. */
  ghost predicate EntryOk(live: set<Cnk>, k: Books, e: Cnk)
    requires e in k.ents
  {
    && e in live && e !in k.entOf
    && k.ents[e].cnk in k.entOf && k.entOf[k.ents[e].cnk] == e
    && k.ents[e].grp in k.groups && e in k.groups[k.ents[e].grp].ents
  }

  ghost predicate GroupOk(live: set<Cnk>, k: Books, g: Cnk)
    requires g in k.groups
  {
    var n := k.groups[g].nameCnk;
    && g in live && g !in k.entOf && g !in k.ents
    && n in live && n !in k.entOf && n !in k.ents && n !in k.groups
    && NoDup(k.groups[g].ents) && (forall e :: e in k.groups[g].ents ==> e in k.ents && k.ents[e].grp == g)
  }

  ghost predicate NamesDiffer(k: Books, g: Cnk, h: Cnk)
    requires g in k.groups && h in k.groups
  {
    k.groups[g].name != k.groups[h].name && k.groups[g].nameCnk != k.groups[h].nameCnk
  }

  /** The parts of `GroupsOk` that do not concern the list of groups. */
  ghost predicate PartsOk(live: set<Cnk>, k: Books, open: Option<Cnk>) {
    && (forall c {:trigger ChunkOk(live, k, c)} :: c in k.entOf ==> ChunkOk(live, k, c))
    && (forall e {:trigger EntryOk(live, k, e)} :: e in k.ents ==> EntryOk(live, k, e))
    && (forall g {:trigger GroupOk(live, k, g)} :: g in k.groups ==>
          GroupOk(live, k, g) && (k.groups[g].ents != [] || open == Some(g)))
    && (forall g, h {:trigger NamesDiffer(k, g, h)} :: g in k.groups && h in k.groups && g != h ==> NamesDiffer(k, g, h))
  }

  /** The books are in order: entries and grouped chunks correspond one to one, every entry is listed by its group, the
      chunks of the books are in use and ungrouped, names are distinct, and no group but `open` is empty. */
  ghost predicate GroupsOk(live: set<Cnk>, k: Books, open: Option<Cnk>) {
    PartsOk(live, k, open) && NoDup(k.list) && (forall g :: g in k.list <==> g in k.groups)
  }

  lemma MoreLive(live: set<Cnk>, more: set<Cnk>, k: Books, open: Option<Cnk>)
    requires GroupsOk(live, k, open) && live <= more
    ensures GroupsOk(more, k, open)
  {
    hide NoDup;
    forall c | c in k.entOf ensures ChunkOk(more, k, c) {
      assert ChunkOk(live, k, c);
    }
    forall e | e in k.ents ensures EntryOk(more, k, e) {
      assert EntryOk(live, k, e);
    }
    forall g | g in k.groups ensures GroupOk(more, k, g) && (k.groups[g].ents != [] || open == Some(g)) {
      assert GroupOk(live, k, g);
    }
  }

  /** A chunk that is not in use has no part in the books. */
  lemma FreeIsPlain(live: set<Cnk>, k: Books, open: Option<Cnk>, c: Cnk)
    requires GroupsOk(live, k, open) && c !in live
    ensures Plain(k, c)
  {
    hide NoDup;
    assert c in k.entOf ==> ChunkOk(live, k, c);
    assert c in k.ents ==> EntryOk(live, k, c);
    assert c in k.groups ==> GroupOk(live, k, c);
    forall g | g in k.groups ensures k.groups[g].nameCnk in live {
      assert GroupOk(live, k, g);
    }
  }

  /** A chunk without a part in the books can be freed. */
  lemma LessLive(live: set<Cnk>, c: Cnk, k: Books, open: Option<Cnk>)
    requires GroupsOk(live, k, open) && Plain(k, c)
    ensures GroupsOk(live - {c}, k, open)
  {
    hide NoDup;
    var less := live - {c};
    forall d | d in k.entOf ensures ChunkOk(less, k, d) {
      assert ChunkOk(live, k, d);
    }
    forall e | e in k.ents ensures EntryOk(less, k, e) {
      assert EntryOk(live, k, e);
    }
    forall g | g in k.groups ensures GroupOk(less, k, g) && (k.groups[g].ents != [] || open == Some(g)) {
      assert GroupOk(live, k, g);
    }
  }

  // ---------------------------------------------------------------- the steps

  function NewGroup(k: Books, g: Cnk, name: string, n: Cnk): Books {
    k.(groups := k.groups[g := Group(name, n, [])], list := [g] + k.list)
  }

  /** Chunk `c` joins group `g` by the entry `e`. */
  function Attached(k: Books, c: Cnk, e: Cnk, g: Cnk): Books
    requires g in k.groups
  {
    k.(entOf := k.entOf[c := e], ents := k.ents[e := Ent(g, c)],
       groups := k.groups[g := k.groups[g].(ents := [e] + k.groups[g].ents)])
  }

  /** Chunk `c` leaves its group. */
  function Detached(k: Books, c: Cnk): Books
    requires c in k.entOf && k.entOf[c] in k.ents && k.ents[k.entOf[c]].grp in k.groups
  {
    var e := k.entOf[c];
    var g := k.ents[e].grp;
    k.(entOf := k.entOf - {c}, ents := k.ents - {e},
       groups := k.groups[g := k.groups[g].(ents := Del(k.groups[g].ents, e))])
  }

  function Dropped(k: Books, g: Cnk): Books {
    k.(groups := k.groups - {g}, list := Del(k.list, g))
  }

  lemma NewGroupOk(live: set<Cnk>, k: Books, g: Cnk, name: string, n: Cnk)
    requires GroupsOk(live, k, None) && g in live && n in live && g != n && Plain(k, g) && Plain(k, n)
    requires forall h :: h in k.groups ==> k.groups[h].name != name
    ensures GroupsOk(live, NewGroup(k, g, name, n), Some(g))
  {
    var k' := NewGroup(k, g, name, n);
    forall c | c in k'.entOf ensures ChunkOk(live, k', c) {
      assert ChunkOk(live, k, c);
    }
    forall e | e in k'.ents ensures EntryOk(live, k', e) {
      assert EntryOk(live, k, e);
    }
    forall h | h in k'.groups ensures GroupOk(live, k', h) && (k'.groups[h].ents != [] || h == g) {
      assert h != g ==> GroupOk(live, k, h);
    }
    forall x, y | x in k'.groups && y in k'.groups && x != y ensures NamesDiffer(k', x, y) {
      assert x != g && y != g ==> NamesDiffer(k, x, y);
    }
    NoDupConcat([g], k.list);
  }

  lemma PlainStays(k: Books, g: Cnk, name: string, n: Cnk, c: Cnk)
    requires Plain(k, c) && c != g && c != n
    ensures Plain(NewGroup(k, g, name, n), c)
  {}

  lemma AttachedOk(live: set<Cnk>, k: Books, c: Cnk, e: Cnk, g: Cnk)
    requires g in k.groups && GroupsOk(live, k, Some(g))
    requires c in live && e in live && c != e && Plain(k, c) && Plain(k, e)
    ensures GroupsOk(live, Attached(k, c, e, g), None)
  {
    assert GroupOk(live, k, g);
    NoDupConcat([e], k.groups[g].ents);
    AttachedEntries(live, k, c, e, g);
    AttachedGroups(live, k, c, e, g);
  }

  lemma AttachedEntries(live: set<Cnk>, k: Books, c: Cnk, e: Cnk, g: Cnk)
    requires g in k.groups && GroupsOk(live, k, Some(g)) && NoDup([e] + k.groups[g].ents)
    requires c in live && e in live && c != e && c !in k.entOf && c !in k.ents && c !in k.groups
    requires e !in k.entOf && e !in k.ents && e !in k.groups
    requires forall h :: h in k.groups ==> k.groups[h].nameCnk != c && k.groups[h].nameCnk != e
    ensures var k' := Attached(k, c, e, g);
            (forall d :: d in k'.entOf ==> ChunkOk(live, k', d)) && (forall x :: x in k'.ents ==> EntryOk(live, k', x))
  {
    hide NoDup;
    var k' := Attached(k, c, e, g);
    forall d | d in k'.entOf ensures ChunkOk(live, k', d) {
      assert d != c ==> ChunkOk(live, k, d);
    }
    forall x | x in k'.ents ensures EntryOk(live, k', x) {
      assert x != e ==> EntryOk(live, k, x);
    }
  }

  lemma AttachedGroups(live: set<Cnk>, k: Books, c: Cnk, e: Cnk, g: Cnk)
    requires g in k.groups && GroupsOk(live, k, Some(g)) && NoDup([e] + k.groups[g].ents)
    requires c in live && e in live && c != e && c !in k.entOf && c !in k.ents && c !in k.groups
    requires e !in k.entOf && e !in k.ents && e !in k.groups
    requires forall h :: h in k.groups ==> k.groups[h].nameCnk != c && k.groups[h].nameCnk != e
    ensures var k' := Attached(k, c, e, g);
            && (forall h :: h in k'.groups ==> GroupOk(live, k', h) && k'.groups[h].ents != [])
            && (forall x, y :: x in k'.groups && y in k'.groups && x != y ==> NamesDiffer(k', x, y))
  {
    hide NoDup;
    var k' := Attached(k, c, e, g);
    assert GroupOk(live, k, g);
    forall h | h in k'.groups ensures GroupOk(live, k', h) && k'.groups[h].ents != [] {
      assert GroupOk(live, k, h);
    }
    forall x, y | x in k'.groups && y in k'.groups && x != y ensures NamesDiffer(k', x, y) {
      assert NamesDiffer(k, x, y);
    }
  }

  lemma DetachedOk(live: set<Cnk>, k: Books, open: Option<Cnk>, c: Cnk)
    requires GroupsOk(live, k, open) && c in k.entOf
    ensures ChunkOk(live, k, c) && EntryOk(live, k, k.entOf[c])
    ensures var e := k.entOf[c]; var g := k.ents[e].grp;
            open == None || open == Some(g) ==> GroupsOk(live - {c, e}, Detached(k, c), Some(g))
  {
    assert ChunkOk(live, k, c) && EntryOk(live, k, k.entOf[c]);
    var e := k.entOf[c];
    assert GroupOk(live, k, k.ents[e].grp);
    DelMembers(k.groups[k.ents[e].grp].ents, e);
    DetachedParts(live, k, open, c, e);
  }

  lemma DetachedParts(live: set<Cnk>, k: Books, open: Option<Cnk>, c: Cnk, e: Cnk)
    requires GroupsOk(live, k, open) && c in k.entOf && k.entOf[c] == e && ChunkOk(live, k, c) && EntryOk(live, k, e)
    requires var was, now := k.groups[k.ents[e].grp].ents, Del(k.groups[k.ents[e].grp].ents, e);
             NoDup(now) && forall x :: x in now <==> x in was && x != e
    ensures var g := k.ents[e].grp;
            open == None || open == Some(g) ==> PartsOk(live - {c, e}, Detached(k, c), Some(g))
  {
    hide NoDup, Del;
    var g := k.ents[e].grp;
    var k', live' := Detached(k, c), live - {c, e};
    if open == None || open == Some(g) {
      forall d | d in k'.entOf ensures ChunkOk(live', k', d) {
        assert ChunkOk(live, k, d);
      }
      forall x | x in k'.ents ensures EntryOk(live', k', x) {
        assert EntryOk(live, k, x);
      }
      forall h | h in k'.groups ensures GroupOk(live', k', h) && (k'.groups[h].ents != [] || h == g) {
        assert GroupOk(live, k, h);
      }
      forall x, y | x in k'.groups && y in k'.groups && x != y ensures NamesDiffer(k', x, y) {
        assert NamesDiffer(k, x, y);
      }
    }
  }

  /** A grouped chunk may be freed: the books are in order, or they are but for its group being emptied. */
  ghost predicate Leaving(live: set<Cnk>, k: Books, c: Cnk, keep: bool) {
    c in k.entOf && k.entOf[c] in k.ents
    && (GroupsOk(live, k, None) || (keep && GroupsOk(live, k, Some(k.ents[k.entOf[c]].grp))))
  }

  /** Where the entry and the group of a leaving chunk are. */
  lemma LeavingParts(live: set<Cnk>, k: Books, c: Cnk, keep: bool)
    requires Leaving(live, k, c, keep)
    ensures var e := k.entOf[c]; var g := k.ents[e].grp;
            && c in live && e in live && e != c && e !in k.entOf && g in k.groups
            && var n := k.groups[g].nameCnk;
            && g in live && n in live && g != n && g !in k.entOf && n !in k.entOf && g !in {c, e} && n !in {c, e}
  {
    hide NoDup;
    var e := k.entOf[c];
    assert ChunkOk(live, k, c) && EntryOk(live, k, e) && GroupOk(live, k, k.ents[e].grp);
  }

  lemma DroppedOk(live: set<Cnk>, k: Books, g: Cnk)
    requires GroupsOk(live, k, Some(g)) && g in k.groups && k.groups[g].ents == []
    ensures GroupOk(live, k, g) && GroupsOk(live - {k.groups[g].nameCnk, g}, Dropped(k, g), None)
  {
    assert GroupOk(live, k, g);
    DelMembers(k.list, g);
    DroppedParts(live, k, g);
  }

  lemma DroppedParts(live: set<Cnk>, k: Books, g: Cnk)
    requires GroupsOk(live, k, Some(g)) && g in k.groups && k.groups[g].ents == []
    ensures PartsOk(live - {k.groups[g].nameCnk, g}, Dropped(k, g), None)
  {
    hide NoDup, Del;
    assert GroupOk(live, k, g);
    var k', live' := Dropped(k, g), live - {k.groups[g].nameCnk, g};
    forall d | d in k'.entOf ensures ChunkOk(live', k', d) {
      assert ChunkOk(live, k, d);
    }
    forall x | x in k'.ents ensures EntryOk(live', k', x) {
      assert EntryOk(live, k, x);
    }
    forall h | h in k'.groups ensures GroupOk(live', k', h) && k'.groups[h].ents != [] {
      assert GroupOk(live, k, h) && NamesDiffer(k, g, h);
    }
    forall x, y | x in k'.groups && y in k'.groups && x != y ensures NamesDiffer(k', x, y) {
      assert NamesDiffer(k, x, y);
    }
  }

  /** What unchunk does to the books: nothing for an ungrouped chunk; a grouped one leaves its group, and the group
      goes with its last chunk unless it is to be kept. */
  ghost function BooksWithout(k: Books, c: Cnk, keep: bool): Books {
    if c in k.entOf && k.entOf[c] in k.ents && k.ents[k.entOf[c]].grp in k.groups then
      var g, d := k.ents[k.entOf[c]].grp, Detached(k, c);
      if !keep && d.groups[g].ents == [] then Dropped(d, g) else d
    else k
  }

  /** The chunks that unchunk frees: the chunk, its entry, and the two of its group. */
  ghost function FreedWith(k: Books, c: Cnk, keep: bool): set<Cnk> {
    if c in k.entOf && k.entOf[c] in k.ents && k.ents[k.entOf[c]].grp in k.groups then
      var g, d := k.ents[k.entOf[c]].grp, Detached(k, c);
      {c, k.entOf[c]} + if !keep && d.groups[g].ents == [] then {g, k.groups[g].nameCnk} else {}
    else {c}
  }

  lemma Excused(live: set<Cnk>, k: Books, g: Cnk)
    requires GroupsOk(live, k, None)
    ensures GroupsOk(live, k, Some(g))
  {}

  /** A group that is not empty need not be excused. */
  lemma NotOpen(live: set<Cnk>, k: Books, g: Cnk)
    requires GroupsOk(live, k, Some(g)) && (g in k.groups ==> k.groups[g].ents != [])
    ensures GroupsOk(live, k, None)
  {
    forall h | h in k.groups ensures GroupOk(live, k, h) && k.groups[h].ents != [] {
      assert GroupOk(live, k, h);
    }
  }

  /** Freeing a chunk of a user keeps the books in order. */
  lemma BooksWithoutOk(live: set<Cnk>, k: Books, c: Cnk)
    requires GroupsOk(live, k, None) && c in live && !Keeps(k, c)
    ensures GroupsOk(live - FreedWith(k, c, false), BooksWithout(k, c, false), None)
    ensures c in k.entOf ==> Leaving(live, k, c, false)
  {
    hide GroupsOk, Del;
    if c in k.entOf {
      DetachedOk(live, k, None, c);
      var e := k.entOf[c];
      var g, d := k.ents[e].grp, Detached(k, c);
      if d.groups[g].ents == [] {
        DroppedOk(live - {c, e}, d, g);
        assert live - {c, e} - {d.groups[g].nameCnk, g} == live - FreedWith(k, c, false);
      } else {
        NotOpen(live - {c, e}, d, g);
        assert live - {c, e} == live - FreedWith(k, c, false);
      }
    } else {
      LessLive(live, c, k, None);
    }
  }

  // ---------------------------------------------------------------- counting

  ghost function PlainOnes(live: set<Cnk>, k: Books): set<Cnk> {
    set c | c in live && Plain(k, c)
  }

  ghost function Names(k: Books): set<Cnk> {
    set g | g in k.groups :: k.groups[g].nameCnk
  }

  /** As many images as there are members when the function is one to one. */
  lemma {:induction false} ImageCount<A, B>(s: set<A>, t: set<B>, f: A -> B)
    requires forall a :: a in s ==> f(a) in t
    requires forall b :: b in t ==> exists a :: a in s && f(a) == b
    requires forall a, b :: a in s && b in s && f(a) == f(b) ==> a == b
    ensures |s| == |t|
  {
    if s == {} {
      assert t == {};
    } else {
      var a :| a in s;
      ImageCount(s - {a}, t - {f(a)}, f);
    }
  }

  /** The chunks in use are the ungrouped ones, two for every grouped one, and two for every group. */
  lemma CountLaw(live: set<Cnk>, k: Books)
    requires GroupsOk(live, k, None)
    ensures |live| == |PlainOnes(live, k)| + 2 * |k.entOf| + 2 * |k.groups|
  {
    var grouped, entries, headers, names, plain := k.entOf.Keys, k.ents.Keys, k.groups.Keys, Names(k), PlainOnes(live, k);
    EntryCount(live, k);
    NameCount(live, k);
    PartsOfLive(live, k);
    assert |live| == |plain + grouped + entries + headers + names|;
    assert plain !! grouped && (plain + grouped) !! entries && (plain + grouped + entries) !! headers
        && (plain + grouped + entries + headers) !! names;
    assert |k.entOf| == |grouped| && |k.groups| == |headers|;
  }

  lemma EntryCount(live: set<Cnk>, k: Books)
    requires GroupsOk(live, k, None)
    ensures |k.ents.Keys| == |k.entOf.Keys|
  {
    hide NoDup;
    assert forall c :: c in k.entOf ==> ChunkOk(live, k, c);
    assert forall e :: e in k.ents ==> EntryOk(live, k, e);
    ImageCount(k.entOf.Keys, k.ents.Keys, c => if c in k.entOf then k.entOf[c] else c);
  }

  lemma NameCount(live: set<Cnk>, k: Books)
    requires GroupsOk(live, k, None)
    ensures |Names(k)| == |k.groups.Keys|
  {
    hide NoDup;
    assert forall g, h :: g in k.groups && h in k.groups && g != h ==> NamesDiffer(k, g, h);
    ImageCount(k.groups.Keys, Names(k), g => if g in k.groups then k.groups[g].nameCnk else g);
  }

  /** Every chunk in use has exactly one part to play. */
  lemma PartsOfLive(live: set<Cnk>, k: Books)
    requires GroupsOk(live, k, None)
    ensures live == PlainOnes(live, k) + k.entOf.Keys + k.ents.Keys + k.groups.Keys + Names(k)
    ensures PlainOnes(live, k) !! k.entOf.Keys && (PlainOnes(live, k) + k.entOf.Keys) !! k.ents.Keys
    ensures (PlainOnes(live, k) + k.entOf.Keys + k.ents.Keys) !! k.groups.Keys
    ensures (PlainOnes(live, k) + k.entOf.Keys + k.ents.Keys + k.groups.Keys) !! Names(k)
  {
    hide NoDup, IsName, Names;
    assert forall c :: c in k.entOf ==> ChunkOk(live, k, c);
    assert forall e :: e in k.ents ==> EntryOk(live, k, e);
    assert forall g :: g in k.groups ==> GroupOk(live, k, g);
    forall n ensures n in Names(k) <==> IsName(k, n)
      ensures n in Names(k) ==> n in live && n !in k.entOf && n !in k.ents && n !in k.groups
    {
      NameIsLive(live, k, n);
    }
  }

  lemma NameIsLive(live: set<Cnk>, k: Books, n: Cnk)
    requires GroupsOk(live, k, None)
    ensures n in Names(k) <==> IsName(k, n)
    ensures n in Names(k) ==> n in live && n !in k.entOf && n !in k.ents && n !in k.groups
  {
    hide NoDup;
    assert forall g :: g in k.groups ==> GroupOk(live, k, g);
  }

  // ---------------------------------------------------------------- emptying a group

  /** The books when group `g` has been emptied down to the entries in `rest`. */
  ghost function Emptied(k: Books, g: Cnk, rest: seq<Cnk>): Books
    requires g in k.groups
  {
    k.(entOf := map c | c in k.entOf && (k.entOf[c] in rest || k.entOf[c] !in k.groups[g].ents) :: k.entOf[c],
       ents := map e | e in k.ents && (e in rest || e !in k.groups[g].ents) :: k.ents[e],
       groups := k.groups[g := k.groups[g].(ents := rest)])
  }

  /** The chunks that go with it: the entries, and the chunks they join to the group. */
  ghost function Gone(k: Books, g: Cnk, rest: seq<Cnk>): set<Cnk>
    requires g in k.groups && forall e :: e in k.groups[g].ents ==> e in k.ents
  {
    (set e | e in k.groups[g].ents && e !in rest) + (set e | e in k.groups[g].ents && e !in rest :: k.ents[e].cnk)
  }

  lemma EmptyOne(live: set<Cnk>, k: Books, g: Cnk, rest: seq<Cnk>)
    requires GroupsOk(live, k, None) && g in k.groups && rest != []
    requires NoDup(rest) && forall e :: e in rest ==> e in k.groups[g].ents
    ensures GroupOk(live, k, g)
    ensures var now, c := Emptied(k, g, rest), k.ents[rest[0]].cnk;
            && rest[0] in now.ents && now.ents[rest[0]] == Ent(g, c) && c in now.entOf && now.entOf[c] == rest[0]
            && g in now.groups && now.groups[g].ents == rest
            && Detached(now, c) == Emptied(k, g, rest[1..])
            && Gone(k, g, rest[1..]) == Gone(k, g, rest) + {rest[0], c}
  {
    hide Del;
    var e := rest[0];
    assert GroupOk(live, k, g) && EntryOk(live, k, e);
    DelFirst(rest);
    hide NoDup;
    EmptyMaps(live, k, g, rest);
    assert forall x :: x in k.groups[g].ents ==> x in k.ents;
    assert forall x :: x in rest <==> x == e || x in rest[1..];
    GoneOne(k, g, rest);
  }

  lemma DelFirst(s: seq<Cnk>)
    requires s != [] && NoDup(s)
    ensures Del(s, s[0]) == s[1..] && s[0] !in s[1..] && forall x :: x in s <==> x == s[0] || x in s[1..]
  {
    assert s == [s[0]] + s[1..];
  }

  lemma GoneOne(k: Books, g: Cnk, rest: seq<Cnk>)
    requires g in k.groups && (forall e :: e in k.groups[g].ents ==> e in k.ents)
    requires rest != [] && rest[0] in k.groups[g].ents && rest[0] !in rest[1..]
    requires forall x :: x in rest <==> x == rest[0] || x in rest[1..]
    ensures Gone(k, g, rest[1..]) == Gone(k, g, rest) + {rest[0], k.ents[rest[0]].cnk}
  {}

  lemma EmptyMaps(live: set<Cnk>, k: Books, g: Cnk, rest: seq<Cnk>)
    requires GroupsOk(live, k, None) && g in k.groups && rest != [] && rest[0] in k.groups[g].ents
    requires rest[0] !in rest[1..] && forall x :: x in rest <==> x == rest[0] || x in rest[1..]
    ensures GroupOk(live, k, g) && EntryOk(live, k, rest[0])
    ensures var now, after, c := Emptied(k, g, rest), Emptied(k, g, rest[1..]), k.ents[rest[0]].cnk;
            now.entOf - {c} == after.entOf && now.ents - {rest[0]} == after.ents
            && c in now.entOf && now.entOf[c] == rest[0] && rest[0] in now.ents && now.ents[rest[0]] == Ent(g, c)
  {
    hide NoDup;
    assert GroupOk(live, k, g) && EntryOk(live, k, rest[0]);
    forall x | x in k.entOf && k.entOf[x] == rest[0] ensures x == k.ents[rest[0]].cnk {
      assert ChunkOk(live, k, x);
    }
  }

  lemma EmptiedLists(k: Books, g: Cnk, rest: seq<Cnk>)
    requires g in k.groups
    ensures g in Emptied(k, g, rest).groups && Emptied(k, g, rest).groups[g].ents == rest
  {}

  lemma EmptyNone(live: set<Cnk>, k: Books, g: Cnk)
    requires GroupsOk(live, k, None) && g in k.groups
    ensures GroupOk(live, k, g) && Emptied(k, g, k.groups[g].ents) == k && Gone(k, g, k.groups[g].ents) == {}
  {
    assert Emptied(k, g, k.groups[g].ents).groups == k.groups;
  }

  ghost predicate InGroup(k: Books, g: Cnk, c: Cnk) {
    c in k.entOf && k.entOf[c] in k.ents && k.ents[k.entOf[c]].grp == g
  }

  /** The books without a group, its chunks and its entries. */
  ghost function WithoutGroup(k: Books, g: Cnk): Books {
    Books(map c | c in k.entOf && !InGroup(k, g, c) :: k.entOf[c],
          map e | e in k.ents && k.ents[e].grp != g :: k.ents[e],
          k.groups - {g}, Del(k.list, g))
  }

  /** The chunks of a group with everything kept for them: entries, header and name. */
  ghost function GroupChunks(k: Books, g: Cnk): set<Cnk>
    requires g in k.groups
  {
    (set c | c in k.entOf && InGroup(k, g, c)) + (set e | e in k.ents && k.ents[e].grp == g) + {g, k.groups[g].nameCnk}
  }

  lemma EmptiedIsWithout(live: set<Cnk>, k: Books, g: Cnk)
    requires GroupsOk(live, k, None) && g in k.groups
    ensures GroupOk(live, k, g) && Dropped(Emptied(k, g, []), g) == WithoutGroup(k, g)
    ensures live - Gone(k, g, []) - {k.groups[g].nameCnk, g} == live - GroupChunks(k, g)
  {
    hide NoDup, Del;
    assert GroupOk(live, k, g);
    forall e | e in k.ents ensures e in k.groups[g].ents <==> k.ents[e].grp == g {
      assert EntryOk(live, k, e);
    }
    forall c | c in k.entOf ensures k.entOf[c] in k.ents {
      assert ChunkOk(live, k, c);
    }
    assert Dropped(Emptied(k, g, []), g).entOf == WithoutGroup(k, g).entOf;
    assert Dropped(Emptied(k, g, []), g).ents == WithoutGroup(k, g).ents;
    assert Dropped(Emptied(k, g, []), g).groups == WithoutGroup(k, g).groups;
    GoneIsMembers(live, k, g);
  }

  lemma GoneIsMembers(live: set<Cnk>, k: Books, g: Cnk)
    requires GroupsOk(live, k, None) && g in k.groups && GroupOk(live, k, g)
    ensures Gone(k, g, []) + {k.groups[g].nameCnk, g} == GroupChunks(k, g)
  {
    hide NoDup;
    forall e | e in k.ents ensures e in k.groups[g].ents <==> k.ents[e].grp == g {
      assert EntryOk(live, k, e);
    }
    var cnks := set e | e in k.groups[g].ents && e !in [] :: k.ents[e].cnk;
    forall c ensures c in cnks <==> c in k.entOf && InGroup(k, g, c) {
      if c in k.entOf && InGroup(k, g, c) {
        assert ChunkOk(live, k, c);
        assert k.entOf[c] in k.groups[g].ents;
      }
      if c in cnks {
        var e :| e in k.groups[g].ents && k.ents[e].cnk == c;
        assert EntryOk(live, k, e);
      }
    }
  }

  /** The other groups are as before. */
  lemma OthersStay(live: set<Cnk>, k: Books, g: Cnk, h: Cnk, c: Cnk)
    requires GroupsOk(live, k, None) && g in k.groups && h in k.groups && g != h && InGroup(k, h, c)
    ensures var k' := WithoutGroup(k, g);
            && h in k'.groups && k'.groups[h] == k.groups[h] && InGroup(k', h, c)
            && c !in GroupChunks(k, g) && k.entOf[c] !in GroupChunks(k, g)
            && h !in GroupChunks(k, g) && k.groups[h].nameCnk !in GroupChunks(k, g)
  {
    hide NoDup;
    var e := k.entOf[c];
    assert ChunkOk(live, k, c) && EntryOk(live, k, e) && GroupOk(live, k, h) && GroupOk(live, k, g);
    assert NamesDiffer(k, g, h) && (c in k.ents ==> EntryOk(live, k, c));
  }
}
