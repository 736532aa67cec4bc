/** The list index with content keys (DB_KEYCONTENT): `A.n.<digests>` leads to the index of an item in one read. */
module ContentList {
  import opened Basics
  import opened Cvec
  import opened ListIndex

  ghost predicate Injective(sha1: string -> string) {
    forall x, y :: sha1(x) == sha1(y) ==> x == y
  }

  function Digest(sha1: string -> string, t: Tuple): (d: seq<string>)
    ensures |d| == |t|
  {
    seq(|t|, i requires 0 <= i < |t| => sha1(t[i]))
  }

  lemma DigestInjective(sha1: string -> string, t: Tuple, u: Tuple)
    requires Injective(sha1) && Digest(sha1, t) == Digest(sha1, u)
    ensures t == u
  {
    forall i | 0 <= i < |t| ensures t[i] == u[i] {
      assert Digest(sha1, t)[i] == sha1(t[i]) && Digest(sha1, u)[i] == sha1(u[i]);
    }
  }

  /** Everything the database holds for one item: the content key of `t` leads to `i` and entry `i` is `vec`. */
  ghost predicate Stored(base: string, spec: Vec, sha1: string -> string, db: Db, t: Tuple, i: nat, vec: Vec) {
    var c := Content(base, Digest(sha1, t));
    && c in db && db[c] == Number(i)
    && Entry(base, i) in db && db[Entry(base, i)] == Vars(vec)
    && TupleOf(spec, vec) == Some(t)
  }

  /** Index `i` is in use, by the tuple it was issued to. */
  ghost predicate InUse(idx: map<Tuple, nat>, issued: seq<Tuple>, i: nat) {
    i < |issued| && issued[i] in idx && idx[issued[i]] == i
  }

  /** The keys of list `base` in `db` stand for the map `rows`; `idx` is where each tuple is stored and `issued`
      the tuples in the order in which they were given an index. */
  ghost predicate Represents(base: string, spec: Vec, sha1: string -> string, db: Db,
                             rows: Rows, idx: map<Tuple, nat>, issued: seq<Tuple>)
  {
    && rows.Keys == idx.Keys
    && MaxIndex(db, base) == |issued|
    && (Max(base) in db ==> db[Max(base)].Number?)
    && (forall t :: t in idx ==> InUse(idx, issued, idx[t]) && issued[idx[t]] == t)
    && (forall t :: t in idx ==> Stored(base, spec, sha1, db, t, idx[t], rows[t]))
    && (forall d :: Content(base, d) in db ==>
          && db[Content(base, d)].Number?
          && InUse(idx, issued, db[Content(base, d)].n)
          && d == Digest(sha1, issued[db[Content(base, d)].n]))
    && (forall i :: Entry(base, i) in db ==> InUse(idx, issued, i))
  }

  /** The content key of a tuple is there exactly when the tuple is, and leads to its index. */
  lemma ContentKeyFound(base: string, spec: Vec, sha1: string -> string, db: Db,
                        rows: Rows, idx: map<Tuple, nat>, issued: seq<Tuple>, t: Tuple)
    requires Injective(sha1) && Represents(base, spec, sha1, db, rows, idx, issued)
    ensures Content(base, Digest(sha1, t)) in db <==> t in idx
    ensures t in idx ==> db[Content(base, Digest(sha1, t))] == Number(idx[t])
  {
    var c := Content(base, Digest(sha1, t));
    if c in db {
      DigestInjective(sha1, t, issued[db[c].n]);
    }
    if t in idx {
      assert Stored(base, spec, sha1, db, t, idx[t], rows[t]);
    }
  }

  /** The database determines the map it stands for. */
  lemma RepresentsOne(base: string, spec: Vec, sha1: string -> string, db: Db,
                      rows: Rows, idx: map<Tuple, nat>, issued: seq<Tuple>,
                      rows': Rows, idx': map<Tuple, nat>, issued': seq<Tuple>)
    requires Injective(sha1)
    requires Represents(base, spec, sha1, db, rows, idx, issued)
    requires Represents(base, spec, sha1, db, rows', idx', issued')
    ensures rows == rows' && idx == idx'
  {
    forall t ensures t in idx <==> t in idx' {
      ContentKeyFound(base, spec, sha1, db, rows, idx, issued, t);
      ContentKeyFound(base, spec, sha1, db, rows', idx', issued', t);
    }
    assert idx.Keys == idx'.Keys;
    forall t | t in idx ensures idx[t] == idx'[t] && rows[t] == rows'[t] {
      assert Stored(base, spec, sha1, db, t, idx[t], rows[t]);
      assert Stored(base, spec, sha1, db, t, idx'[t], rows'[t]);
    }
  }

  /** The structure a maintainer reads off a valid database: content keys lead one-to-one to indices below `A.n`,
      an entry exists exactly when one content key points at it, and that key is the digest of the entry's own
      unique values. */
  lemma ContentKeysPointAtEntries(base: string, spec: Vec, sha1: string -> string, db: Db,
                                  rows: Rows, idx: map<Tuple, nat>, issued: seq<Tuple>)
    requires Represents(base, spec, sha1, db, rows, idx, issued)
    ensures forall d :: Content(base, d) in db ==>
                          && db[Content(base, d)].Number?
                          && db[Content(base, d)].n < MaxIndex(db, base)
                          && Entry(base, db[Content(base, d)].n) in db
    ensures forall d, e ::
              (Content(base, d) in db && Content(base, e) in db
               && db[Content(base, d)] == db[Content(base, e)]) ==> d == e
    ensures forall i :: Entry(base, i) in db ==>
                          && db[Entry(base, i)].Vars?
                          && var t := TupleOf(spec, db[Entry(base, i)].vec);
                             t.Some? && Content(base, Digest(sha1, t.value)) in db
                             && db[Content(base, Digest(sha1, t.value))] == Number(i)
  {
    forall d | Content(base, d) in db ensures Entry(base, db[Content(base, d)].n) in db {
      var t := issued[db[Content(base, d)].n];
      assert Stored(base, spec, sha1, db, t, idx[t], rows[t]);
    }
    forall i: nat | Entry(base, i) in db
      ensures db[Entry(base, i)].Vars?
              && var t := TupleOf(spec, db[Entry(base, i)].vec);
                 t.Some? && Content(base, Digest(sha1, t.value)) in db
                 && db[Content(base, Digest(sha1, t.value))] == Number(i)
    {
      var t := issued[i];
      assert Stored(base, spec, sha1, db, t, idx[t], rows[t]);
    }
  }

  /** The two writes of db_lv_vec_find for a new tuple and the write of db_lv_set that must follow them. */
  lemma InsertRepresents(base: string, spec: Vec, sha1: string -> string, db: Db,
                         rows: Rows, idx: map<Tuple, nat>, issued: seq<Tuple>, t: Tuple, vec: Vec, db': Db)
    requires Injective(sha1) && Represents(base, spec, sha1, db, rows, idx, issued)
    requires t !in idx && TupleOf(spec, vec) == Some(t)
    requires db' == db[Content(base, Digest(sha1, t)) := Number(|issued|)]
                      [Max(base) := Number(|issued| + 1)]
                      [Entry(base, |issued|) := Vars(vec)]
    ensures Represents(base, spec, sha1, db', rows[t := vec], idx[t := |issued|], issued + [t])
  {
    hide TupleOf;
    var idx', issued' := idx[t := |issued|], issued + [t];
    forall u | u in idx
      ensures u in idx' && Stored(base, spec, sha1, db', u, idx'[u], rows[u])
      ensures InUse(idx', issued', idx'[u]) && issued'[idx'[u]] == u
    {
      assert Stored(base, spec, sha1, db, u, idx[u], rows[u]);
      if Digest(sha1, u) == Digest(sha1, t) {
        DigestInjective(sha1, u, t);
      }
    }
    forall i: nat | InUse(idx, issued, i) ensures InUse(idx', issued', i) {
      assert issued'[i] == issued[i];
    }
  }

  /** Rewriting the entry of a tuple that is there already. */
  lemma UpdateRepresents(base: string, spec: Vec, sha1: string -> string, db: Db,
                         rows: Rows, idx: map<Tuple, nat>, issued: seq<Tuple>, t: Tuple, vec: Vec, db': Db)
    requires Represents(base, spec, sha1, db, rows, idx, issued)
    requires t in idx && TupleOf(spec, vec) == Some(t)
    requires db' == db[Entry(base, idx[t]) := Vars(vec)]
    ensures Represents(base, spec, sha1, db', rows[t := vec], idx, issued)
  {
    forall u | u in idx ensures Stored(base, spec, sha1, db', u, idx[u], rows[t := vec][u]) {
      assert Stored(base, spec, sha1, db, u, idx[u], rows[u]);
      assert InUse(idx, issued, idx[u]) && issued[idx[u]] == u && issued[idx[t]] == t;
    }
  }

  /** What db_lv_vec_find leaves behind: the database with the content key of `t` reserved. */
  ghost function Reserved(base: string, sha1: string -> string, db: Db,
                          idx: map<Tuple, nat>, issued: seq<Tuple>, t: Tuple): Db
  {
    if t in idx then db
    else db[Content(base, Digest(sha1, t)) := Number(|issued|)][Max(base) := Number(|issued| + 1)]
  }

  ghost function IndexFor(idx: map<Tuple, nat>, issued: seq<Tuple>, t: Tuple): nat {
    if t in idx then idx[t] else |issued|
  }

  ghost function IssuedAfter(idx: map<Tuple, nat>, issued: seq<Tuple>, t: Tuple): seq<Tuple> {
    if t in idx then issued else issued + [t]
  }

  /** Reserving and then writing the entry sets the row of the tuple, new or not. */
  lemma WriteRepresents(base: string, spec: Vec, sha1: string -> string, db: Db,
                        rows: Rows, idx: map<Tuple, nat>, issued: seq<Tuple>, t: Tuple, vec: Vec, db': Db)
    requires Injective(sha1) && Represents(base, spec, sha1, db, rows, idx, issued)
    requires TupleOf(spec, vec) == Some(t)
    requires db' == Reserved(base, sha1, db, idx, issued, t)[Entry(base, IndexFor(idx, issued, t)) := Vars(vec)]
    ensures Represents(base, spec, sha1, db', rows[t := vec], idx[t := IndexFor(idx, issued, t)],
                       IssuedAfter(idx, issued, t))
  {
    if t in idx {
      UpdateRepresents(base, spec, sha1, db, rows, idx, issued, t, vec, db');
      assert idx[t := idx[t]] == idx;
    } else {
      InsertRepresents(base, spec, sha1, db, rows, idx, issued, t, vec, db');
    }
  }

  /** The entry that db_lv_vec_find points at is there exactly when the tuple was. */
  lemma EntryFound(base: string, spec: Vec, sha1: string -> string, db: Db,
                   rows: Rows, idx: map<Tuple, nat>, issued: seq<Tuple>, t: Tuple)
    requires Injective(sha1) && Represents(base, spec, sha1, db, rows, idx, issued)
    ensures var key, kv := Entry(base, IndexFor(idx, issued, t)), Reserved(base, sha1, db, idx, issued, t);
            (key in kv <==> t in idx) && (t in idx ==> kv[key] == Vars(rows[t]))
  {
    if t in idx {
      assert Stored(base, spec, sha1, db, t, idx[t], rows[t]);
    }
  }

  /** Removing the content key and the entry of a tuple. `A.n` stays, so the index is not used again. */
  lemma RemoveRepresents(base: string, spec: Vec, sha1: string -> string, db: Db,
                         rows: Rows, idx: map<Tuple, nat>, issued: seq<Tuple>, t: Tuple, db': Db)
    requires Injective(sha1) && Represents(base, spec, sha1, db, rows, idx, issued) && t in idx
    requires db' == db - {Content(base, Digest(sha1, t)), Entry(base, idx[t])}
    ensures Represents(base, spec, sha1, db', rows - {t}, idx - {t}, issued)
  {
    var idx' := idx - {t};
    forall u | u in idx'
      ensures Stored(base, spec, sha1, db', u, idx'[u], rows[u])
      ensures InUse(idx', issued, idx'[u]) && issued[idx'[u]] == u
    {
      assert Stored(base, spec, sha1, db, u, idx[u], rows[u]);
      assert issued[idx[u]] == u && issued[idx[t]] == t;
      if Digest(sha1, u) == Digest(sha1, t) {
        DigestInjective(sha1, u, t);
      }
    }
    forall i: nat | InUse(idx, issued, i) && i != idx[t] ensures InUse(idx', issued, i) {
    }
    assert forall d :: Content(base, d) in db' ==> db[Content(base, d)].n != idx[t];
  }

  /** A database seen through one of its lists. */
  class List {
    const base: string
    const spec: Vec
    const sha1: string -> string
    var db: Db
    ghost var rows: Rows
    ghost var idx: map<Tuple, nat>
    ghost var issued: seq<Tuple>

    ghost predicate Valid()
      reads this
    {
      Injective(sha1) && Represents(base, spec, sha1, db, rows, idx, issued)
    }

    /** The list of a database that has no key of it yet. */
    constructor (base: string, spec: Vec, sha1: string -> string, db: Db)
      requires Injective(sha1)
      requires forall k :: k in db ==> k.Plain? || k.base != base
      ensures Valid() && rows == map[] && issued == []
      ensures this.db == db && this.base == base && this.spec == spec && this.sha1 == sha1
    {
      this.base, this.spec, this.sha1, this.db := base, spec, sha1, db;
      rows, idx, issued := map[], map[], [];
    }

    /** dbspec_unique_str: the digests of the unique values, None when one is missing or there is none. */
    method UniqueStr(setvars: Vec) returns (str: Option<seq<string>>)
      ensures str == if TupleOf(spec, setvars).None? then None
                     else Some(Digest(sha1, TupleOf(spec, setvars).value))
    {
      var acc: seq<string> := [];
      ghost var seen: Tuple := [];
      var i := 0;
      assert spec[0..] == spec && forall rest: Tuple :: [] + rest == rest;
      while i < |spec|
        invariant 0 <= i <= |spec|
        invariant acc == Digest(sha1, seen)
        invariant UniqueValues(spec, setvars) ==
                  var rest := UniqueValues(spec[i..], setvars);
                  if rest.None? then None else Some(seen + rest.value)
      {
        assert spec[i..][0] == spec[i] && spec[i..][1..] == spec[i + 1..];
        if spec[i].unique {
          var cv := Find(setvars, spec[i].name);
          if cv.None? {
            return None;
          }
          ghost var rest := UniqueValues(spec[i + 1..], setvars);
          assert rest.Some? ==> (seen + [cv.value.val]) + rest.value == seen + ([cv.value.val] + rest.value);
          acc := acc + [sha1(cv.value.val)];
          seen := seen + [cv.value.val];
        }
        i := i + 1;
      }
      assert seen + [] == seen;
      str := if acc == [] then None else Some(acc);
    }

    /** db_lv_vec_find. The caller must write the entry of the index it gets. */
    method VecFind(setvars: Vec) returns (index: Option<nat>, matched: Option<nat>)
      requires Valid()
      modifies this`db
      ensures TupleOf(spec, setvars).None? ==> index.None? && matched.None? && db == old(db)
      ensures TupleOf(spec, setvars).Some? ==>
                var t := TupleOf(spec, setvars).value;
                && index == Some(IndexFor(idx, issued, t))
                && matched == (if t in idx then index else None)
                && db == Reserved(base, sha1, old(db), idx, issued, t)
      ensures Others(base, db) == Others(base, old(db))
    {
      index, matched := None, None;
      var str := UniqueStr(setvars);
      if str.None? {
        return;
      }
      ghost var t := TupleOf(spec, setvars).value;
      var key := Content(base, str.value);
      ContentKeyFound(base, spec, sha1, db, rows, idx, issued, t);
      if key in db {
        var i := db[key].n;
        return Some(i), Some(i);
      } else {
        var i := MaxIndex(db, base);
        OthersWrite(base, db, key, Number(i));
        db := db[key := Number(i)];
        OthersWrite(base, db, Max(base), Number(i + 1));
        db := db[Max(base) := Number(i + 1)];
        return Some(i), None;
      }
    }

    /** db_lv_vec_set for LV_SET and LV_MERGE. */
    method VecSet(setvars: Vec, merge: bool) returns (ok: bool)
      requires Valid()
      modifies this
      ensures Valid() && Others(base, db) == Others(base, old(db))
      ensures ok == TupleOf(spec, setvars).Some?
      ensures rows == Step(spec, old(rows), if merge then MergeOp(setvars) else Set(setvars))
      ensures forall t :: t in old(idx) ==> t in idx && idx[t] == old(idx)[t]
      ensures old(issued) <= issued
      ensures forall t :: t in idx && t !in old(idx) ==> idx[t] == |old(issued)|
    {
      var index, matched := VecFind(setvars);
      if index.None? {
        return false;
      }
      ghost var t := TupleOf(spec, setvars).value;
      var key := Entry(base, index.value);
      EntryFound(base, spec, sha1, old(db), rows, idx, issued, t);
      var vars := MergeStored(db, key, setvars, merge);
      if merge && t in rows {
        MergeKeepsTuple(spec, setvars, rows[t]);
      }
      FilledTuple(spec, vars);
      db := LvSet(db, spec, base, key, vars);
      Record(t, Filled(spec, vars), old(db));
      ok := true;
    }

    /** Bring the abstract state up to date after the entry of `t` has been written to a reserved index. */
    ghost method Record(t: Tuple, vec: Vec, was: Db)
      requires Injective(sha1) && Represents(base, spec, sha1, was, rows, idx, issued)
      requires TupleOf(spec, vec) == Some(t)
      requires db == Reserved(base, sha1, was, idx, issued, t)[Entry(base, IndexFor(idx, issued, t)) := Vars(vec)]
      modifies this`rows, this`idx, this`issued
      ensures Valid()
      ensures rows == old(rows)[t := vec]
      ensures idx == old(idx)[t := IndexFor(old(idx), old(issued), t)]
      ensures issued == IssuedAfter(old(idx), old(issued), t)
    {
      WriteRepresents(base, spec, sha1, was, rows, idx, issued, t, vec, db);
      rows := rows[t := vec];
      idx, issued := idx[t := IndexFor(idx, issued, t)], IssuedAfter(idx, issued, t);
    }

    /** db_lv_vec_del. Deleting an item that is not there succeeds and changes nothing. */
    method VecDel(setvars: Vec) returns (ok: bool)
      requires Valid()
      modifies this
      ensures Valid() && Others(base, db) == Others(base, old(db))
      ensures ok == TupleOf(spec, setvars).Some?
      ensures rows == Step(spec, old(rows), Delete(setvars))
      ensures forall t :: t in idx ==> t in old(idx) && idx[t] == old(idx)[t]
      ensures issued == old(issued)
    {
      var str := UniqueStr(setvars);
      if str.None? {
        return false;
      }
      ghost var t := TupleOf(spec, setvars).value;
      var key := Content(base, str.value);
      ContentKeyFound(base, spec, sha1, db, rows, idx, issued, t);
      if key in db {
        var i := db[key].n;
        OthersErase(base, db, key);
        db := db - {key};
        OthersErase(base, db, Entry(base, i));
        db := db - {Entry(base, i)};
        assert db == old(db) - {key, Entry(base, i)};
        RemoveRepresents(base, spec, sha1, old(db), rows, idx, issued, t, db);
        rows, idx := rows - {t}, idx - {t};
      } else {
        assert t !in idx;
        assert rows - {t} == rows;
      }
      ok := true;
    }

    /** db_lv_op_exec on a list key. */
    method Exec(op: Op) returns (ok: bool)
      requires Valid()
      modifies this
      ensures Valid() && Others(base, db) == Others(base, old(db))
      ensures ok == TupleOf(spec, op.vec).Some?
      ensures rows == Step(spec, old(rows), op)
      ensures old(issued) <= issued
      ensures forall t :: t in idx && t in old(idx) ==> idx[t] == old(idx)[t]
      ensures forall t :: t in idx && t !in old(idx) ==> idx[t] == |old(issued)|
    {
      match op
      case Set(vec) => ok := VecSet(vec, false);
      case MergeOp(vec) => ok := VecSet(vec, true);
      case Delete(vec) => ok := VecDel(vec);
    }

    /** Any sequence of operations acts on the database as it acts on the map. */
    method Run(ops: seq<Op>)
      requires Valid()
      modifies this
      ensures Valid() && Others(base, db) == Others(base, old(db))
      ensures rows == Steps(spec, old(rows), ops)
      ensures old(issued) <= issued
    {
      var i := 0;
      assert ops[..0] == [];
      while i < |ops|
        invariant 0 <= i <= |ops|
        invariant Valid() && Others(base, db) == Others(base, old(db))
        invariant rows == Steps(spec, old(rows), ops[..i])
        invariant old(issued) <= issued
      {
        StepsSnoc(spec, old(rows), ops[..i], ops[i]);
        assert ops[..i + 1] == ops[..i] + [ops[i]];
        var ok := Exec(ops[i]);
        i := i + 1;
      }
      assert ops[..|ops|] == ops;
    }
  }
}
