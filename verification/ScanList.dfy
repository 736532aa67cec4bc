/** The list index without content keys: items are found by walking `A.0 .. A.<n-1>`, a hole left by a deletion is
    used for the next insertion, and a deletion shrinks `A.n`. */
module ScanList {
  import opened Basics
  import opened Cvec
  import opened ListIndex

  // ---------------------------------------------------------------- what the comparison decides

  ghost predicate UniqueName(spec: Vec, name: string) {
    exists i :: 0 <= i < |spec| && spec[i].unique && spec[i].name == name
  }

  /** Every unique name is bound to a variable of the specified type. */
  ghost predicate Typed(spec: Vec, vec: Vec) {
    forall i :: 0 <= i < |spec| && spec[i].unique ==> KeyTyped(spec[i], vec)
  }

  ghost predicate KeyTyped(key: Cv, vec: Vec) {
    var cv := Find(vec, key.name);
    cv.Some? && cv.value.ty == key.ty
  }

  /** No unique name is bound to a wildcard. */
  ghost predicate Concrete(spec: Vec, vec: Vec) {
    forall i :: 0 <= i < |spec| && spec[i].unique ==> KeyConcrete(spec[i], vec)
  }

  ghost predicate KeyConcrete(key: Cv, vec: Vec) {
    var cv := Find(vec, key.name);
    cv.Some? ==> !cv.value.wildcard
  }

  /** The unique names are the ones flagged as unique, and a flagged variable says what the first of its name says. */
  ghost predicate Flagged(spec: Vec, vec: Vec) {
    && FlagsAreKeys(spec, vec) && FlagsAgree(vec)
    && (forall i :: 0 <= i < |spec| && spec[i].unique ==> KeyFlagged(spec[i], vec))
  }

  ghost predicate KeyFlagged(key: Cv, vec: Vec) {
    exists k :: 0 <= k < |vec| && vec[k].unique && vec[k].name == key.name
  }

  ghost predicate FlagsAreKeys(spec: Vec, vec: Vec) {
    forall k :: 0 <= k < |vec| && vec[k].unique ==> UniqueName(spec, vec[k].name)
  }

  ghost predicate FlagsAgree(vec: Vec) {
    forall k :: 0 <= k < |vec| && vec[k].unique ==> SameValue(Find(vec, vec[k].name).value, vec[k])
  }

  ghost predicate SameValue(x: Cv, y: Cv) {
    x.ty == y.ty && x.val == y.val
  }

  /** The vectors of which the one-way comparison of flagged variables is equality of unique tuples. */
  ghost predicate Conforms(spec: Vec, vec: Vec) {
    TupleOf(spec, vec).Some? && Typed(spec, vec) && Concrete(spec, vec) && Flagged(spec, vec)
  }

  /** Every unique name is bound in `b` to a wildcard, or to the specified type and the value it has in `a`. */
  ghost predicate Covers(spec: Vec, a: Vec, b: Vec) {
    forall i :: 0 <= i < |spec| && spec[i].unique ==> KeyCovered(spec[i], a, b)
  }

  ghost predicate KeyCovered(key: Cv, a: Vec, b: Vec) {
    var x, y := Find(a, key.name), Find(b, key.name);
    x.Some? && y.Some? && (y.value.wildcard || (y.value.ty == key.ty && y.value.val == x.value.val))
  }

  /** What the scan compares a conforming row with: any vector, on the unique names of the specification alone. */
  lemma MatchIsCover(spec: Vec, a: Vec, b: Vec)
    requires Conforms(spec, a)
    ensures Matches(a, b, false) <==> Covers(spec, a, b)
  {
    if Matches(a, b, false) {
      forall i | 0 <= i < |spec| && spec[i].unique ensures KeyCovered(spec[i], a, b) {
        assert KeyTyped(spec[i], a) && KeyFlagged(spec[i], a);
        var k :| 0 <= k < |a| && a[k].unique && a[k].name == spec[i].name;
        assert MatchOne(a[k], b) && SameValue(Find(a, a[k].name).value, a[k]);
      }
    }
    if Covers(spec, a, b) {
      forall k | 0 <= k < |a| && a[k].unique ensures MatchOne(a[k], b) {
        assert UniqueName(spec, a[k].name) && SameValue(Find(a, a[k].name).value, a[k]);
        var i :| 0 <= i < |spec| && spec[i].unique && spec[i].name == a[k].name;
        assert KeyTyped(spec[i], a) && KeyCovered(spec[i], a, b);
      }
    }
  }

  /** Equal tuples bind every unique name to the same value. */
  lemma {:induction false} TupleBinds(spec: Vec, a: Vec, b: Vec, i: nat)
    requires UniqueValues(spec, a).Some? && UniqueValues(spec, a) == UniqueValues(spec, b)
    requires i < |spec| && spec[i].unique
    ensures Find(a, spec[i].name).value.val == Find(b, spec[i].name).value.val
  {
    var ra, rb := UniqueValues(spec[1..], a), UniqueValues(spec[1..], b);
    if spec[0].unique {
      var ta, tb := UniqueValues(spec, a).value, UniqueValues(spec, b).value;
      assert ta[0] == tb[0] && ta[1..] == ra.value && tb[1..] == rb.value;
    }
    if i > 0 {
      assert spec[1..][i - 1] == spec[i];
      TupleBinds(spec[1..], a, b, i - 1);
    }
  }

  /** A vector without wildcards covers rows of its own tuple only; a typed one, or one with wildcards, covers those. */
  lemma CoverIsTupleEquality(spec: Vec, a: Vec, b: Vec)
    requires TupleOf(spec, a).Some? && TupleOf(spec, b).Some?
    ensures Concrete(spec, b) && Covers(spec, a, b) ==> TupleOf(spec, a) == TupleOf(spec, b)
    ensures TupleOf(spec, a) == TupleOf(spec, b) ==> (Covers(spec, a, b) <==> TypedOrWild(spec, b))
  {
    if Concrete(spec, b) && Covers(spec, a, b) {
      forall i | 0 <= i < |spec| && spec[i].unique
        ensures var x, y := Find(a, spec[i].name), Find(b, spec[i].name);
                x.Some? == y.Some? && (x.Some? ==> x.value.val == y.value.val)
      {
        assert KeyConcrete(spec[i], b) && KeyCovered(spec[i], a, b);
      }
      UniqueValuesAgree(spec, a, b);
    }
    if TupleOf(spec, a) == TupleOf(spec, b) {
      forall i | 0 <= i < |spec| && spec[i].unique
        ensures KeyCovered(spec[i], a, b) <==> KeyTypedOrWild(spec[i], b)
      {
        TupleBinds(spec, a, b, i);
      }
    }
  }

  /** Every unique name is bound to a wildcard or to the specified type. */
  ghost predicate TypedOrWild(spec: Vec, vec: Vec) {
    forall i :: 0 <= i < |spec| && spec[i].unique ==> KeyTypedOrWild(spec[i], vec)
  }

  ghost predicate KeyTypedOrWild(key: Cv, vec: Vec) {
    var cv := Find(vec, key.name);
    cv.Some? && (cv.value.wildcard || cv.value.ty == key.ty)
  }

  /** A vector that leaves a unique name open covers nothing. */
  lemma OpenCoversNothing(spec: Vec, a: Vec, b: Vec)
    requires TupleOf(spec, a).Some? && TupleOf(spec, b).None?
    ensures !Covers(spec, a, b)
  {
    if Covers(spec, a, b) {
      forall i | 0 <= i < |spec| && spec[i].unique ensures Find(b, spec[i].name).Some? {
        assert KeyCovered(spec[i], a, b);
      }
      BoundHasValues(spec, b);
      BoundHasValues(spec, a);
    }
  }

  /** When every unique name is bound there are as many values as unique variables. */
  lemma {:induction false} BoundHasValues(spec: Vec, vec: Vec)
    requires forall i :: 0 <= i < |spec| && spec[i].unique ==> Find(vec, spec[i].name).Some?
    ensures UniqueValues(spec, vec).Some?
    ensures UniqueValues(spec, vec) == Some([]) <==> forall i :: 0 <= i < |spec| ==> !spec[i].unique
  {
    if spec != [] {
      forall i | 0 <= i < |spec[1..]| && spec[1..][i].unique ensures Find(vec, spec[1..][i].name).Some? {
        assert spec[1..][i] == spec[i + 1];
      }
      BoundHasValues(spec[1..], vec);
      assert forall i :: 0 < i < |spec| ==> spec[i] == spec[1..][i - 1];
    }
  }

  /** For conforming vectors the comparison that the scan makes decides equality of unique tuples. */
  lemma MatchIsTupleEquality(spec: Vec, a: Vec, b: Vec)
    requires Conforms(spec, a) && Conforms(spec, b)
    ensures Matches(a, b, false) <==> TupleOf(spec, a) == TupleOf(spec, b)
  {
    MatchIsCover(spec, a, b);
    CoverIsTupleEquality(spec, a, b);
    forall i | 0 <= i < |spec| && spec[i].unique ensures KeyTypedOrWild(spec[i], b) {
      assert KeyTyped(spec[i], b);
    }
  }

  // ---------------------------------------------------------------- what is stored

  /** The variables that an operation adds to a vector with a tuple, and that flag at most unique names, leave its
      unique names as they are. */
  lemma MergeConforms(spec: Vec, vec: Vec, add: Vec)
    requires TupleOf(spec, vec).Some? && FlagsAreKeys(spec, add)
    ensures Typed(spec, Merge(vec, add)) <==> Typed(spec, vec)
    ensures Concrete(spec, Merge(vec, add)) <==> Concrete(spec, vec)
    ensures Flagged(spec, Merge(vec, add)) <==> Flagged(spec, vec)
  {
    var all := Merge(vec, add);
    MergeExtends(vec, add);
    forall i | 0 <= i < |spec| && spec[i].unique
      ensures Find(all, spec[i].name) == Find(vec, spec[i].name) && Find(vec, spec[i].name).Some?
    {
      MergeLookup(vec, add, spec[i].name);
    }
    assert Typed(spec, all) <==> Typed(spec, vec) by {
      assert forall i :: 0 <= i < |spec| && spec[i].unique ==> (KeyTyped(spec[i], all) <==> KeyTyped(spec[i], vec));
    }
    assert Concrete(spec, all) <==> Concrete(spec, vec) by {
      assert forall i :: 0 <= i < |spec| && spec[i].unique ==>
                           (KeyConcrete(spec[i], all) <==> KeyConcrete(spec[i], vec));
    }
    forall k | |vec| <= k < |all| ensures !all[k].unique {
      assert all[k] in add && Find(vec, all[k].name).None?;
      assert all[k].unique ==> UniqueName(spec, all[k].name);
    }
    SameFlags(spec, vec, all);
  }

  /** Flags depend on the flagged variables and on the first variables of the unique names. */
  lemma SameFlags(spec: Vec, a: Vec, b: Vec)
    requires |a| <= |b| && forall k :: |a| <= k < |b| ==> !b[k].unique
    requires forall k :: 0 <= k < |a| ==>
               a[k].unique == b[k].unique && a[k].name == b[k].name && SameValue(a[k], b[k])
    requires forall i :: 0 <= i < |spec| && spec[i].unique ==>
               var x, y := Find(a, spec[i].name), Find(b, spec[i].name);
               x.Some? && y.Some? && SameValue(x.value, y.value)
    ensures Flagged(spec, a) <==> Flagged(spec, b)
  {
    forall i | 0 <= i < |spec| && spec[i].unique ensures KeyFlagged(spec[i], a) <==> KeyFlagged(spec[i], b) {
      if KeyFlagged(spec[i], a) {
        var k :| 0 <= k < |a| && a[k].unique && a[k].name == spec[i].name;
        assert b[k].unique;
      }
    }
    assert FlagsAreKeys(spec, a) <==> FlagsAreKeys(spec, b) by {
      assert forall k :: 0 <= k < |a| && b[k].unique ==> a[k].unique;
    }
    if FlagsAreKeys(spec, a) {
      forall k | 0 <= k < |a| && a[k].unique
        ensures SameValue(Find(a, a[k].name).value, a[k]) <==> SameValue(Find(b, b[k].name).value, b[k])
      {
        assert UniqueName(spec, a[k].name);
      }
    }
  }

  /** Writing a vector to the database and reading it back only loses its wildcards. */
  lemma CarriedKeys(spec: Vec, vec: Vec)
    requires forall i :: 0 <= i < |spec| && spec[i].unique ==> Find(vec, spec[i].name).Some?
    ensures Concrete(spec, CarriedVec(vec))
    ensures Typed(spec, CarriedVec(vec)) <==> Typed(spec, vec)
    ensures Flagged(spec, CarriedVec(vec)) <==> Flagged(spec, vec)
  {
    hide Flagged, CarriedVec;
    var out := CarriedVec(vec);
    forall i | 0 <= i < |spec| && spec[i].unique
      ensures Find(out, spec[i].name) == Some(Carried(Find(vec, spec[i].name).value))
      ensures KeyConcrete(spec[i], out) && (KeyTyped(spec[i], out) <==> KeyTyped(spec[i], vec))
    {
      FindCarried(vec, spec[i].name);
    }
    SameFlags(spec, vec, out);
  }

  /** What an operation stores conforms exactly when its variables have the specified types and flags. */
  lemma FilledConforms(spec: Vec, vec: Vec)
    requires TupleOf(spec, vec).Some?
    ensures Typed(spec, Filled(spec, vec)) <==> Typed(spec, vec)
    ensures Flagged(spec, Filled(spec, vec)) <==> Flagged(spec, vec)
    ensures Conforms(spec, Filled(spec, vec)) <==> Typed(spec, vec) && Flagged(spec, vec)
  {
    hide Flagged, Typed, Concrete, CarriedVec, Merge;
    assert FlagsAreKeys(spec, spec);
    MergeConforms(spec, vec, spec);
    MergeKeepsTuple(spec, vec, spec);
    FilledTuple(spec, vec);
    CarriedKeys(spec, Merge(vec, spec));
  }

  // ---------------------------------------------------------------- the operations on a database

  /** db_get_alloc of `A.<i>`: nothing for a missing key and for an entry without variables alike. */
  function Read(base: string, db: Db, i: nat): Vec {
    if Entry(base, i) in db && db[Entry(base, i)].Vars? then db[Entry(base, i)].vec else []
  }

  predicate Hit(base: string, db: Db, setvars: Vec, i: nat) {
    Read(base, db, i) != [] && Matches(Read(base, db, i), setvars, false)
  }

  /** The first entry from `i` on that the search accepts. */
  ghost function FirstHit(base: string, db: Db, setvars: Vec, i: nat, n: nat): (r: Option<nat>)
    requires i <= n
    ensures r.Some? ==> i <= r.value < n && Hit(base, db, setvars, r.value)
                        && forall j: nat :: i <= j < r.value ==> !Hit(base, db, setvars, j)
    ensures r.None? ==> forall j: nat :: i <= j < n ==> !Hit(base, db, setvars, j)
    decreases n - i
  {
    if i == n then None else if Hit(base, db, setvars, i) then Some(i) else FirstHit(base, db, setvars, i + 1, n)
  }

  ghost function FirstHole(base: string, db: Db, i: nat, n: nat): (r: Option<nat>)
    requires i <= n
    ensures r.Some? ==> i <= r.value < n && Read(base, db, r.value) == []
                        && forall j: nat :: i <= j < r.value ==> Read(base, db, j) != []
    ensures r.None? ==> forall j: nat :: i <= j < n ==> Read(base, db, j) != []
    decreases n - i
  {
    if i == n then None else if Read(base, db, i) == [] then Some(i) else FirstHole(base, db, i + 1, n)
  }

  /** The entry that the search accepts, if any. */
  ghost function Found(base: string, db: Db, setvars: Vec): Option<nat> {
    FirstHit(base, db, setvars, 0, MaxIndex(db, base))
  }

  /** Where an item is written: at the entry found, else in the first hole, else behind the last entry. */
  ghost function IndexFor(base: string, db: Db, setvars: Vec): nat {
    var hit, hole := Found(base, db, setvars), FirstHole(base, db, 0, MaxIndex(db, base));
    if hit.Some? then hit.value else if hole.Some? then hole.value else MaxIndex(db, base)
  }

  /** The database with room for that index. */
  ghost function Reserved(base: string, db: Db, i: nat): Db {
    if i < MaxIndex(db, base) then db else db[Max(base) := Number(i + 1)]
  }

  /** Set or merge, for any variables. */
  ghost function ScanSet(base: string, spec: Vec, db: Db, setvars: Vec, merge: bool): Db {
    var i := IndexFor(base, db, setvars);
    Reserved(base, db, i)[Entry(base, i) := Vars(Filled(spec, StoredVars(base, db, setvars, merge, i)))]
  }

  ghost function StoredVars(base: string, db: Db, setvars: Vec, merge: bool, i: nat): Vec {
    if merge then Merge(setvars, Read(base, db, i)) else setvars
  }

  /** Without the entries below `n` that the search accepts. */
  ghost function Erased(base: string, db: Db, setvars: Vec, n: nat): Db {
    map k | k in db && !(k.Entry? && k.base == base && k.index < n && Hit(base, db, setvars, k.index)) :: db[k]
  }

  /** Where the run of free indices starts that ends the first `n`: an entry that is kept or erased breaks it, an
      erased one starts a new one. */
  ghost function HoleFrom(base: string, db: Db, setvars: Vec, n: nat): (r: Option<nat>)
    ensures r.Some? ==> r.value < n
                        && forall j: nat :: r.value <= j < n ==> Read(base, db, j) == [] || Hit(base, db, setvars, j)
  {
    if n == 0 then None
    else if Read(base, db, n - 1) == [] then
      var before := HoleFrom(base, db, setvars, n - 1);
      if before.Some? then before else Some(n - 1)
    else if Hit(base, db, setvars, n - 1) then Some(n - 1)
    else None
  }

  /** Delete, for any variables. */
  ghost function ScanDel(base: string, db: Db, setvars: Vec): Db {
    var n := MaxIndex(db, base);
    var erased, hole := Erased(base, db, setvars, n), HoleFrom(base, db, setvars, n);
    if hole.Some? then erased[Max(base) := Number(hole.value + 1)] else erased
  }

  // ---------------------------------------------------------------- which index is used, and where `A.n` ends up

  /** No variables are stored at index `i`, which is one of the list. */
  predicate Free(base: string, db: Db, i: nat) {
    i < MaxIndex(db, base) && Read(base, db, i) == []
  }

  ghost predicate FirstMatch(base: string, db: Db, setvars: Vec, i: nat) {
    i < MaxIndex(db, base) && Hit(base, db, setvars, i) && forall j: nat :: j < i ==> !Hit(base, db, setvars, j)
  }

  ghost predicate LeastFree(base: string, db: Db, i: nat) {
    Free(base, db, i) && forall j: nat :: j < i ==> !Free(base, db, j)
  }

  /** The index an item goes to: that of the first match; without one the least free index; and only when no index is
      free a new one, for which `A.n` grows by one. */
  ghost predicate Placed(base: string, db: Db, setvars: Vec, i: nat, n: nat) {
    if exists j: nat :: j < MaxIndex(db, base) && Hit(base, db, setvars, j) then
      FirstMatch(base, db, setvars, i) && n == MaxIndex(db, base)
    else if exists j :: Free(base, db, j) then LeastFree(base, db, i) && n == MaxIndex(db, base)
    else i == MaxIndex(db, base) && n == i + 1
  }

  lemma IndexIsPlaced(base: string, db: Db, setvars: Vec)
    ensures var i := IndexFor(base, db, setvars);
            Placed(base, db, setvars, i, MaxIndex(Reserved(base, db, i), base))
  {
    hide Matches, Read;
    var hit, hole := Found(base, db, setvars), FirstHole(base, db, 0, MaxIndex(db, base));
    if hit.Some? {
      assert FirstMatch(base, db, setvars, hit.value);
    } else if hole.Some? {
      assert LeastFree(base, db, hole.value);
    }
  }

  /** Only the item's index is written. */
  ghost predicate Inserted(base: string, was: Db, now: Db, setvars: Vec) {
    exists i :: Placed(base, was, setvars, i, MaxIndex(now, base)) && Entry(base, i) in now
                && forall j: nat :: j != i ==> Read(base, now, j) == Read(base, was, j)
  }

  lemma SetInserts(base: string, spec: Vec, db: Db, setvars: Vec, merge: bool)
    ensures Inserted(base, db, ScanSet(base, spec, db, setvars, merge), setvars)
  {
    hide Placed, Filled, StoredVars;
    IndexIsPlaced(base, db, setvars);
    var i, now := IndexFor(base, db, setvars), ScanSet(base, spec, db, setvars, merge);
    assert MaxIndex(now, base) == MaxIndex(Reserved(base, db, i), base);
    assert Entry(base, i) in now;
  }

  /** The last index below `n` at which variables are stored. */
  ghost predicate LastBelow(base: string, db: Db, i: nat, n: nat) {
    i < n && Read(base, db, i) != [] && forall j: nat :: i < j < n ==> Read(base, db, j) == []
  }

  ghost predicate LastUsed(base: string, db: Db, i: nat) {
    LastBelow(base, db, i, MaxIndex(db, base))
  }

  function Min(a: nat, b: nat): nat {
    if a < b then a else b
  }

  /** Every match is gone and the others stay. `A.n` ends one above the last entry when that was removed; when it stayed,
      or there was none, one free index above it is kept. */
  ghost predicate Removed(base: string, was: Db, now: Db, setvars: Vec) {
    var n := MaxIndex(was, base);
    && (forall i: nat :: Read(base, now, i) == if i < n && Hit(base, was, setvars, i) then [] else Read(base, was, i))
    && (forall i: nat :: LastUsed(base, was, i) ==>
          MaxIndex(now, base) == if Hit(base, was, setvars, i) then i + 1 else Min(n, i + 2))
    && ((forall i: nat :: !LastUsed(base, was, i)) ==> MaxIndex(now, base) == Min(n, 1))
  }

  /** Where the free indices start, by the last entry below `n`. */
  lemma {:induction false} HoleFromLast(base: string, db: Db, setvars: Vec, i: nat, n: nat)
    requires LastBelow(base, db, i, n)
    ensures HoleFrom(base, db, setvars, n) ==
            if Hit(base, db, setvars, i) then Some(i) else if i + 1 < n then Some(i + 1) else None
    decreases n
  {
    hide Matches, Read;
    if i + 1 < n {
      HoleFromLast(base, db, setvars, i, n - 1);
    }
  }

  lemma {:induction false} HoleFromNone(base: string, db: Db, setvars: Vec, n: nat)
    requires forall j: nat :: j < n ==> Read(base, db, j) == []
    ensures HoleFrom(base, db, setvars, n) == if n == 0 then None else Some(0)
  {
    hide Matches, Read;
    if n > 1 {
      HoleFromNone(base, db, setvars, n - 1);
    }
  }

  lemma {:induction false} NoneStored(base: string, db: Db, n: nat)
    requires forall i: nat :: !LastBelow(base, db, i, n)
    ensures forall j: nat :: j < n ==> Read(base, db, j) == []
  {
    hide Read;
    if n > 0 {
      var m := n - 1;
      assert !LastBelow(base, db, m, n);
      forall i: nat ensures !LastBelow(base, db, i, m) {
        assert LastBelow(base, db, i, m) ==> LastBelow(base, db, i, n);
      }
      NoneStored(base, db, m);
    }
  }

  lemma DelRemoves(base: string, db: Db, setvars: Vec)
    requires Shape(base, db)
    ensures Removed(base, db, ScanDel(base, db, setvars), setvars)
  {
    var n, now := MaxIndex(db, base), ScanDel(base, db, setvars);
    DelReads(base, db, setvars);
    DelBound(base, db, setvars);
    hide ScanDel, Hit, Read;
    forall i: nat | LastUsed(base, db, i)
      ensures MaxIndex(now, base) == if Hit(base, db, setvars, i) then i + 1 else Min(n, i + 2)
    {
      HoleFromLast(base, db, setvars, i, n);
    }
    if forall i: nat :: !LastUsed(base, db, i) {
      forall i: nat ensures !LastBelow(base, db, i, n) {
        assert !LastUsed(base, db, i);
      }
      NoneStored(base, db, n);
      HoleFromNone(base, db, setvars, n);
    }
  }

  /** What is left to do once the matches are gone. */
  lemma DelIs(base: string, db: Db, setvars: Vec, hole: int)
    requires HoleFrom(base, db, setvars, MaxIndex(db, base)) == if hole >= 0 then Some(hole) else None
    ensures var erased := Erased(base, db, setvars, MaxIndex(db, base));
            ScanDel(base, db, setvars) == if hole >= 0 then erased[Max(base) := Number(hole + 1)] else erased
  {
    hide HoleFrom, Erased;
  }

  lemma DelReads(base: string, db: Db, setvars: Vec)
    ensures forall i: nat ::
              Read(base, ScanDel(base, db, setvars), i) ==
              if i < MaxIndex(db, base) && Hit(base, db, setvars, i) then [] else Read(base, db, i)
  {
    hide Matches, HoleFrom;
  }

  lemma DelBound(base: string, db: Db, setvars: Vec)
    requires Shape(base, db)
    ensures var n := MaxIndex(db, base);
            var hole := HoleFrom(base, db, setvars, n);
            MaxIndex(ScanDel(base, db, setvars), base) == if hole.Some? then hole.value + 1 else n
  {
    hide Matches, HoleFrom;
    assert MaxIndex(Erased(base, db, setvars, MaxIndex(db, base)), base) == MaxIndex(db, base);
  }

  ghost function ScanExec(base: string, spec: Vec, db: Db, op: Op): Db {
    match op
    case Set(vec) => ScanSet(base, spec, db, vec, false)
    case MergeOp(vec) => ScanSet(base, spec, db, vec, true)
    case Delete(vec) => ScanDel(base, db, vec)
  }

  ghost function ScanRun(base: string, spec: Vec, db: Db, ops: seq<Op>): Db
    decreases |ops|
  {
    if ops == [] then db else ScanRun(base, spec, ScanExec(base, spec, db, ops[0]), ops[1..])
  }

  lemma {:induction false} ScanRunConcat(base: string, spec: Vec, db: Db, ops: seq<Op>, more: seq<Op>)
    ensures ScanRun(base, spec, db, ops + more) == ScanRun(base, spec, ScanRun(base, spec, db, ops), more)
    decreases |ops|
  {
    if ops == [] {
      assert ops + more == more;
    } else {
      assert (ops + more)[1..] == ops[1..] + more;
      ScanRunConcat(base, spec, ScanExec(base, spec, db, ops[0]), ops[1..], more);
    }
  }

  /** What every database of this variant is like, whatever was sent to it: live entries are below `A.n`. */
  ghost predicate Shape(base: string, db: Db) {
    && (Max(base) in db ==> db[Max(base)].Number?)
    && (forall i :: Entry(base, i) in db ==> db[Entry(base, i)].Vars?)
    && (forall i: nat :: Read(base, db, i) != [] ==> i < MaxIndex(db, base))
  }

  lemma SetShape(base: string, spec: Vec, db: Db, setvars: Vec, merge: bool)
    requires Shape(base, db)
    ensures Shape(base, ScanSet(base, spec, db, setvars, merge))
    ensures Others(base, ScanSet(base, spec, db, setvars, merge)) == Others(base, db)
    ensures MaxIndex(db, base) <= MaxIndex(ScanSet(base, spec, db, setvars, merge), base)
  {
    var i, after := IndexFor(base, db, setvars), ScanSet(base, spec, db, setvars, merge);
    OthersWrite(base, db, Max(base), Number(i + 1));
    OthersWrite(base, Reserved(base, db, i), Entry(base, i), after[Entry(base, i)]);
    assert forall j: nat :: j != i ==> Read(base, after, j) == Read(base, db, j);
  }

  lemma DelShape(base: string, db: Db, setvars: Vec)
    requires Shape(base, db)
    ensures Shape(base, ScanDel(base, db, setvars))
    ensures Others(base, ScanDel(base, db, setvars)) == Others(base, db)
    ensures MaxIndex(ScanDel(base, db, setvars), base) <= MaxIndex(db, base)
  {
    var n := MaxIndex(db, base);
    var erased, hole, after := Erased(base, db, setvars, n), HoleFrom(base, db, setvars, n), ScanDel(base, db, setvars);
    assert Others(base, erased) == Others(base, db);
    assert MaxIndex(erased, base) == n;
    if hole.Some? {
      OthersWrite(base, erased, Max(base), Number(hole.value + 1));
    }
    assert forall j: nat :: Read(base, after, j) == if Hit(base, db, setvars, j) then [] else Read(base, db, j);
  }

  lemma ErasedStep(base: string, db: Db, setvars: Vec, i: nat)
    ensures Erased(base, db, setvars, i + 1) ==
            if Hit(base, db, setvars, i) then Erased(base, db, setvars, i) - {Entry(base, i)}
            else Erased(base, db, setvars, i)
    ensures Read(base, Erased(base, db, setvars, i), i) == Read(base, db, i)
  {}

  // ---------------------------------------------------------------- the map that a database stands for

  /** Entry `i` is an item of tuple `t`. */
  ghost predicate Place(base: string, spec: Vec, db: Db, t: Tuple, i: nat) {
    Entry(base, i) in db && db[Entry(base, i)].Vars? && TupleOf(spec, db[Entry(base, i)].vec) == Some(t)
  }

  /** Entry `i` holds a row of the map. */
  ghost predicate RowAt(base: string, spec: Vec, db: Db, rows: Rows, i: nat) {
    && Entry(base, i) in db && i < MaxIndex(db, base) && db[Entry(base, i)].Vars?
    && Conforms(spec, db[Entry(base, i)].vec)
    && var t := TupleOf(spec, db[Entry(base, i)].vec).value;
       t in rows && rows[t] == db[Entry(base, i)].vec
  }

  ghost predicate HasPlace(base: string, spec: Vec, db: Db, t: Tuple) {
    exists i :: Place(base, spec, db, t, i)
  }

  /** The keys of list `base` stand for the map `rows`: every entry below `A.n` is a conforming row, every row has an
      entry, and no tuple has two. */
  ghost predicate Represents(base: string, spec: Vec, db: Db, rows: Rows) {
    && (Max(base) in db ==> db[Max(base)].Number?)
    && (forall i :: Entry(base, i) in db ==> RowAt(base, spec, db, rows, i))
    && (forall t :: t in rows ==> HasPlace(base, spec, db, t))
    && (forall t, i, j :: Place(base, spec, db, t, i) && Place(base, spec, db, t, j) ==> i == j)
  }

  lemma RepresentsShape(base: string, spec: Vec, db: Db, rows: Rows)
    requires Represents(base, spec, db, rows)
    ensures Shape(base, db)
  {}

  /** What a search accepts in such a database: a row is never taken for a hole, and the unique names decide. */
  lemma HitIsCover(base: string, spec: Vec, db: Db, rows: Rows, setvars: Vec, i: nat)
    requires Represents(base, spec, db, rows) && Entry(base, i) in db
    ensures i < MaxIndex(db, base) && Read(base, db, i) != [] && Conforms(spec, Read(base, db, i))
    ensures Hit(base, db, setvars, i) <==> Covers(spec, Read(base, db, i), setvars)
  {
    assert RowAt(base, spec, db, rows, i);
    TupleNeedsVariables(spec, Read(base, db, i));
    MatchIsCover(spec, Read(base, db, i), setvars);
  }

  /** When an operation does to the database what it does to the map: what it stores has the specified types and flags
      and the entry found is the one of its tuple; what it deletes is the entry of its tuple and no other. */
  ghost predicate Fits(base: string, spec: Vec, db: Db, op: Op) {
    var t := TupleOf(spec, op.vec);
    if op.Delete? then
      t.None? || forall i :: Entry(base, i) in db ==>
        if Place(base, spec, db, t.value, i) then TypedOrWild(spec, op.vec)
        else !Covers(spec, Read(base, db, i), op.vec)
    else
      var hit := Found(base, db, op.vec);
      && t.Some? && Typed(spec, op.vec) && Flagged(spec, op.vec)
      && (hit.Some? ==> Place(base, spec, db, t.value, hit.value))
  }

  /** The index that is written is that of the entry found, or free. */
  lemma WriteIndex(base: string, spec: Vec, db: Db, rows: Rows, setvars: Vec)
    requires Represents(base, spec, db, rows)
    ensures var i := IndexFor(base, db, setvars);
            if Found(base, db, setvars).Some? then i == Found(base, db, setvars).value && Entry(base, i) in db
            else Entry(base, i) !in db && Read(base, db, i) == []
  {
    var i := IndexFor(base, db, setvars);
    if Entry(base, i) in db {
      HitIsCover(base, spec, db, rows, setvars, i);
    }
  }

  /** What is stored conforms exactly when what is sent is typed and flagged: the variables merged in are no keys. */
  lemma StoredConforms(base: string, spec: Vec, db: Db, rows: Rows, setvars: Vec, merge: bool)
    requires Represents(base, spec, db, rows) && TupleOf(spec, setvars).Some?
    ensures var vars := StoredVars(base, db, setvars, merge, IndexFor(base, db, setvars));
            && TupleOf(spec, Filled(spec, vars)) == TupleOf(spec, setvars)
            && (Conforms(spec, Filled(spec, vars)) <==> Typed(spec, setvars) && Flagged(spec, setvars))
  {
    var i := IndexFor(base, db, setvars);
    var vars := StoredVars(base, db, setvars, merge, i);
    if Entry(base, i) in db {
      HitIsCover(base, spec, db, rows, setvars, i);
    }
    if merge {
      assert FlagsAreKeys(spec, Read(base, db, i));
      MergeConforms(spec, setvars, Read(base, db, i));
      MergeKeepsTuple(spec, setvars, Read(base, db, i));
    }
    FilledTuple(spec, vars);
    FilledConforms(spec, vars);
  }

  /** One entry is written, the others stay. */
  ghost predicate Wrote(base: string, db: Db, after: Db, i: nat, vec: Vec) {
    && Entry(base, i) in after && after[Entry(base, i)] == Vars(vec)
    && (forall j: nat :: j != i ==> (Entry(base, j) in after <==> Entry(base, j) in db))
    && (forall j: nat :: j != i && Entry(base, j) in db ==> after[Entry(base, j)] == db[Entry(base, j)])
    && (Max(base) in after ==> after[Max(base)].Number?)
    && MaxIndex(db, base) <= MaxIndex(after, base) && i < MaxIndex(after, base)
  }

  /** Writing a conforming row over the entry of its tuple, or to a free index when the tuple is new. */
  lemma WriteRepresents(base: string, spec: Vec, db: Db, rows: Rows, t: Tuple, i: nat, vec: Vec, after: Db)
    requires Represents(base, spec, db, rows) && Wrote(base, db, after, i, vec)
    requires Conforms(spec, vec) && TupleOf(spec, vec) == Some(t)
    requires if t in rows then Place(base, spec, db, t, i) else Entry(base, i) !in db
    ensures Represents(base, spec, after, rows[t := vec])
  {
    hide Conforms, TupleOf;
    forall u, j ensures Place(base, spec, after, u, j) <==> if j == i then u == t else Place(base, spec, db, u, j) {}
    forall j | Entry(base, j) in after ensures RowAt(base, spec, after, rows[t := vec], j) {
      if j != i {
        assert RowAt(base, spec, db, rows, j);
        var u := TupleOf(spec, db[Entry(base, j)].vec).value;
        assert Place(base, spec, db, u, j);
      }
    }
    forall u | u in rows[t := vec] ensures HasPlace(base, spec, after, u) {
      if u == t {
        assert Place(base, spec, after, t, i);
      } else {
        assert HasPlace(base, spec, db, u);
        var j :| Place(base, spec, db, u, j);
        assert Place(base, spec, after, u, j);
      }
    }
    forall u, j, k | Place(base, spec, after, u, j) && Place(base, spec, after, u, k) ensures j == k {
      if u == t && t !in rows && j != i {
        assert RowAt(base, spec, db, rows, j);
      }
      if u == t && t !in rows && k != i {
        assert RowAt(base, spec, db, rows, k);
      }
    }
  }

  /** Writing any other entry loses a row, or gives a tuple a second entry. */
  lemma WriteElsewhere(base: string, spec: Vec, db: Db, rows: Rows, i: nat, vec: Vec, after: Db, rows': Rows)
    requires Represents(base, spec, db, rows) && Wrote(base, db, after, i, vec)
    requires Represents(base, spec, after, rows')
    requires TupleOf(spec, vec).Some?
    ensures var t := TupleOf(spec, vec).value;
            && (t in rows ==> Place(base, spec, db, t, i))
            && (Entry(base, i) in db && rows.Keys <= rows'.Keys ==> Place(base, spec, db, t, i))
  {
    hide Conforms, TupleOf;
    var t := TupleOf(spec, vec).value;
    assert Place(base, spec, after, t, i);
    if t in rows {
      assert HasPlace(base, spec, db, t);
      var j :| Place(base, spec, db, t, j);
      assert j != i ==> Place(base, spec, after, t, j);
    }
    if Entry(base, i) in db && rows.Keys <= rows'.Keys {
      assert RowAt(base, spec, db, rows, i);
      var u := TupleOf(spec, db[Entry(base, i)].vec).value;
      assert Place(base, spec, db, u, i) && u in rows'.Keys;
      assert HasPlace(base, spec, after, u);
      var j :| Place(base, spec, after, u, j);
      assert j != i ==> Place(base, spec, db, u, j);
    }
  }

  /** What a write of db_lv_vec_set is. */
  lemma SetWrites(base: string, spec: Vec, db: Db, rows: Rows, b: Vec, merge: bool)
    requires Represents(base, spec, db, rows)
    ensures var i := IndexFor(base, db, b);
            Wrote(base, db, ScanSet(base, spec, db, b, merge), i, Filled(spec, StoredVars(base, db, b, merge, i)))
  {
    hide Conforms, Filled, StoredVars, TupleOf;
    RepresentsShape(base, spec, db, rows);
    WriteIndex(base, spec, db, rows, b);
  }

  lemma SetActsAsStep(base: string, spec: Vec, db: Db, rows: Rows, op: Op)
    requires Represents(base, spec, db, rows) && !op.Delete?
    ensures Represents(base, spec, ScanExec(base, spec, db, op), Step(spec, rows, op)) <==> Fits(base, spec, db, op)
  {
    var b, merge, t := op.vec, op.MergeOp?, TupleOf(spec, op.vec);
    var i, after := IndexFor(base, db, b), ScanSet(base, spec, db, b, merge);
    var vec := Filled(spec, StoredVars(base, db, b, merge, i));
    SetWrites(base, spec, db, rows, b, merge);
    WriteIndex(base, spec, db, rows, b);
    if t.None? {
      OpenIsNew(base, spec, db, rows, b);
      NewIsExtra(base, spec, db, rows, i, vec, after);
    } else {
      StoredConforms(base, spec, db, rows, b, merge);
      if Fits(base, spec, db, op) {
        SetFits(base, spec, db, rows, op);
      } else if Represents(base, spec, after, Step(spec, rows, op)) {
        assert RowAt(base, spec, after, Step(spec, rows, op), i);
        WriteElsewhere(base, spec, db, rows, i, vec, after, Step(spec, rows, op));
      }
    }
  }

  lemma SetFits(base: string, spec: Vec, db: Db, rows: Rows, op: Op)
    requires Represents(base, spec, db, rows) && !op.Delete? && Fits(base, spec, db, op)
    ensures Represents(base, spec, ScanExec(base, spec, db, op), Step(spec, rows, op))
  {
    hide Conforms, TupleOf, Filled, ScanSet, FirstHit, FirstHole;
    var b, merge, t := op.vec, op.MergeOp?, TupleOf(spec, op.vec).value;
    var i := IndexFor(base, db, b);
    var vec := Filled(spec, StoredVars(base, db, b, merge, i));
    SetWrites(base, spec, db, rows, b, merge);
    WriteIndex(base, spec, db, rows, b);
    StoredConforms(base, spec, db, rows, b, merge);
    FoundWhenThere(base, spec, db, rows, b);
    if Entry(base, i) in db {
      assert RowAt(base, spec, db, rows, i);
      assert t in rows && Read(base, db, i) == rows[t];
    } else {
      MergeNothing(b);
    }
    assert Step(spec, rows, op) == rows[t := vec];
    WriteRepresents(base, spec, db, rows, t, i, vec, ScanSet(base, spec, db, b, merge));
  }

  lemma MergeNothing(vec: Vec)
    ensures Merge(vec, []) == vec
  {}

  lemma OpenIsNew(base: string, spec: Vec, db: Db, rows: Rows, b: Vec)
    requires Represents(base, spec, db, rows) && TupleOf(spec, b).None?
    ensures Found(base, db, b).None?
  {
    var hit := Found(base, db, b);
    if hit.Some? {
      HitIsCover(base, spec, db, rows, b, hit.value);
      OpenCoversNothing(spec, Read(base, db, hit.value), b);
    }
  }

  /** An entry more than before is not a list of the same rows. */
  lemma NewIsExtra(base: string, spec: Vec, db: Db, rows: Rows, i: nat, vec: Vec, after: Db)
    requires Represents(base, spec, db, rows) && Wrote(base, db, after, i, vec) && Entry(base, i) !in db
    ensures !Represents(base, spec, after, rows)
  {
    if Represents(base, spec, after, rows) {
      assert RowAt(base, spec, after, rows, i);
      WriteElsewhere(base, spec, db, rows, i, vec, after, rows);
    }
  }

  /** A typed vector finds an entry when its tuple has one. */
  lemma FoundWhenThere(base: string, spec: Vec, db: Db, rows: Rows, b: Vec)
    requires Represents(base, spec, db, rows) && TupleOf(spec, b).Some? && Typed(spec, b)
    ensures TupleOf(spec, b).value in rows ==> Found(base, db, b).Some?
  {
    var t := TupleOf(spec, b).value;
    if t in rows {
      assert HasPlace(base, spec, db, t);
      var j :| Place(base, spec, db, t, j);
      HitIsCover(base, spec, db, rows, b, j);
      CoverIsTupleEquality(spec, Read(base, db, j), b);
      forall i | 0 <= i < |spec| && spec[i].unique ensures KeyTypedOrWild(spec[i], b) {
        assert KeyTyped(spec[i], b);
      }
      assert Hit(base, db, b, j);
    }
  }

  lemma DelLeaves(base: string, db: Db, b: Vec)
    requires Shape(base, db) && forall i: nat :: Entry(base, i) in db ==> i < MaxIndex(db, base) && Read(base, db, i) != []
    ensures Left(base, db, ScanDel(base, db, b))
    ensures forall i: nat :: Entry(base, i) in db ==> (Entry(base, i) in ScanDel(base, db, b) <==> !Hit(base, db, b, i))
  {
    hide Matches;
    DelShape(base, db, b);
    var after := ScanDel(base, db, b);
    forall i: nat | Entry(base, i) in after ensures Read(base, after, i) != [] {
      assert after[Entry(base, i)] == db[Entry(base, i)];
    }
  }

  lemma DelActsAsStep(base: string, spec: Vec, db: Db, rows: Rows, op: Op)
    requires Represents(base, spec, db, rows) && op.Delete?
    ensures Represents(base, spec, ScanExec(base, spec, db, op), Step(spec, rows, op)) <==> Fits(base, spec, db, op)
  {
    hide Conforms, TupleOf, Covers, TypedOrWild;
    var b, t, after, rows' := op.vec, TupleOf(spec, op.vec), ScanDel(base, db, op.vec), Step(spec, rows, op);
    RepresentsShape(base, spec, db, rows);
    forall i: nat | Entry(base, i) in db
      ensures i < MaxIndex(db, base) && Read(base, db, i) != []
      ensures Hit(base, db, b, i) <==> Covers(spec, Read(base, db, i), b)
      ensures t.None? ==> !Covers(spec, Read(base, db, i), b)
      ensures t.Some? && Place(base, spec, db, t.value, i) ==>
                (Covers(spec, Read(base, db, i), b) <==> TypedOrWild(spec, b))
    {
      HitIsCover(base, spec, db, rows, b, i);
      if t.None? {
        OpenCoversNothing(spec, Read(base, db, i), b);
      } else {
        CoverIsTupleEquality(spec, Read(base, db, i), b);
      }
    }
    DelLeaves(base, db, b);
    if Fits(base, spec, db, op) {
      LeftRepresents(base, spec, db, rows, after, rows');
    } else if Represents(base, spec, after, rows') {
      LeftExactly(base, spec, db, rows, after, rows');
    }
  }

  /** Some entries are gone and the others stay. */
  ghost predicate Left(base: string, db: Db, after: Db) {
    && (forall i: nat :: Entry(base, i) in after ==> Entry(base, i) in db && after[Entry(base, i)] == db[Entry(base, i)])
    && (Max(base) in after ==> after[Max(base)].Number?)
    && (forall i: nat :: Entry(base, i) in after ==> i < MaxIndex(after, base))
  }

  lemma LeftRepresents(base: string, spec: Vec, db: Db, rows: Rows, after: Db, rows': Rows)
    requires Represents(base, spec, db, rows) && Left(base, db, after)
    requires rows'.Keys <= rows.Keys && forall t :: t in rows' ==> rows'[t] == rows[t]
    requires forall i, t :: Place(base, spec, db, t, i) ==> (Entry(base, i) in after <==> t in rows')
    ensures Represents(base, spec, after, rows')
  {
    hide Conforms, TupleOf;
    forall u, j | Place(base, spec, after, u, j) ensures Place(base, spec, db, u, j) {}
    forall j | Entry(base, j) in after ensures RowAt(base, spec, after, rows', j) {
      assert RowAt(base, spec, db, rows, j);
      assert Place(base, spec, db, TupleOf(spec, db[Entry(base, j)].vec).value, j) by {
        SomeTuple(spec, db[Entry(base, j)].vec);
      }
    }
    forall u | u in rows' ensures HasPlace(base, spec, after, u) {
      assert HasPlace(base, spec, db, u);
      var j :| Place(base, spec, db, u, j);
      assert Place(base, spec, after, u, j);
    }
  }

  lemma SomeTuple(spec: Vec, vec: Vec)
    requires Conforms(spec, vec)
    ensures TupleOf(spec, vec).Some?
  {}

  lemma LeftExactly(base: string, spec: Vec, db: Db, rows: Rows, after: Db, rows': Rows)
    requires Represents(base, spec, db, rows) && Left(base, db, after) && Represents(base, spec, after, rows')
    ensures forall i, t :: Place(base, spec, db, t, i) ==> (Entry(base, i) in after <==> t in rows')
  {
    hide Conforms, TupleOf;
    forall i, t | Place(base, spec, db, t, i) ensures Entry(base, i) in after <==> t in rows' {
      if Entry(base, i) in after {
        assert RowAt(base, spec, after, rows', i);
      }
      if t in rows' {
        assert HasPlace(base, spec, after, t);
        var j :| Place(base, spec, after, t, j);
        assert Place(base, spec, db, t, j);
      }
    }
  }

  /** An operation acts on the database as it acts on the map, and leaves a list that stands for a map, exactly when it
      fits. */
  lemma ActsAsStep(base: string, spec: Vec, db: Db, rows: Rows, op: Op)
    requires Represents(base, spec, db, rows)
    ensures Represents(base, spec, ScanExec(base, spec, db, op), Step(spec, rows, op)) <==> Fits(base, spec, db, op)
  {
    if op.Delete? {
      DelActsAsStep(base, spec, db, rows, op);
    } else {
      SetActsAsStep(base, spec, db, rows, op);
    }
  }

  /** What a client can see to: an operation that stores conforms, and one that deletes binds the unique names to values
      of their types, unless it leaves one open and deletes nothing. */
  ghost predicate Agrees(spec: Vec, op: Op) {
    if op.Delete? then TupleOf(spec, op.vec).Some? ==> Typed(spec, op.vec) && Concrete(spec, op.vec)
    else Conforms(spec, op.vec)
  }

  /** Such an operation fits every list. */
  lemma AgreesFits(base: string, spec: Vec, db: Db, rows: Rows, op: Op)
    requires Represents(base, spec, db, rows) && Agrees(spec, op)
    ensures Fits(base, spec, db, op)
  {
    var b, t := op.vec, TupleOf(spec, op.vec);
    if t.Some? {
      assert TypedOrWild(spec, b) by {
        assert forall i :: 0 <= i < |spec| && spec[i].unique && KeyTyped(spec[i], b) ==> KeyTypedOrWild(spec[i], b);
      }
      forall i: nat | Entry(base, i) in db
        ensures Covers(spec, Read(base, db, i), b) ==> Place(base, spec, db, t.value, i)
        ensures Hit(base, db, b, i) ==> Place(base, spec, db, t.value, i)
      {
        HitIsCover(base, spec, db, rows, b, i);
        CoverIsTupleEquality(spec, Read(base, db, i), b);
      }
    }
  }

  lemma {:induction false} RunActsAsSteps(base: string, spec: Vec, db: Db, rows: Rows, ops: seq<Op>)
    requires Represents(base, spec, db, rows) && forall op :: op in ops ==> Agrees(spec, op)
    ensures Represents(base, spec, ScanRun(base, spec, db, ops), Steps(spec, rows, ops))
    decreases |ops|
  {
    if ops != [] {
      AgreesFits(base, spec, db, rows, ops[0]);
      ActsAsStep(base, spec, db, rows, ops[0]);
      RunActsAsSteps(base, spec, ScanExec(base, spec, db, ops[0]), Step(spec, rows, ops[0]), ops[1..]);
    }
  }

  // ---------------------------------------------------------------- the list as the backend keeps it

  /** A database seen through one of its lists. */
  class List {
    const base: string
    const spec: Vec
    var db: Db

    ghost predicate Valid()
      reads this
    {
      Shape(base, db)
    }

    constructor (base: string, spec: Vec, db: Db)
      requires forall k :: k in db ==> k.Plain? || k.base != base
      ensures Valid() && Represents(base, spec, db, map[])
      ensures this.db == db && this.base == base && this.spec == spec
    {
      this.base, this.spec, this.db := base, spec, db;
    }

    /** db_lv_vec_find: the index of the first entry that matches, else the first hole, else a new index. */
    method VecFind(setvars: Vec) returns (index: nat, matched: Option<nat>)
      requires Valid()
      modifies this`db
      ensures matched == Found(base, old(db), setvars)
      ensures index == IndexFor(base, old(db), setvars)
      ensures db == Reserved(base, old(db), index)
      ensures Placed(base, old(db), setvars, index, MaxIndex(db, base))
      ensures matched == if FirstMatch(base, old(db), setvars, index) then Some(index) else None
    {
      IndexIsPlaced(base, db, setvars);
      hide Matches, Read, Placed;
      var maxi := MaxIndex(db, base);
      var hole: int := -1;
      var i := 0;
      while i < maxi
        modifies {}
        invariant 0 <= i <= maxi
        invariant Found(base, db, setvars) == FirstHit(base, db, setvars, i, maxi)
        invariant FirstHole(base, db, 0, maxi) == if hole >= 0 then Some(hole) else FirstHole(base, db, i, maxi)
        invariant hole < i
      {
        var vec := Read(base, db, i);
        if vec == [] {
          if hole < 0 {
            hole := i;
          }
        } else {
          var same := LvMatchvar(vec, setvars, false);
          if same {
            return i, Some(i);
          }
        }
        i := i + 1;
      }
      matched := None;
      if hole < 0 {
        index := maxi;
        db := db[Max(base) := Number(index + 1)];
      } else {
        index := hole;
      }
    }

    /** db_lv_vec_set for LV_SET and LV_MERGE. */
    method VecSet(setvars: Vec, merge: bool)
      requires Valid()
      modifies this
      ensures Valid() && Others(base, db) == Others(base, old(db))
      ensures db == ScanSet(base, spec, old(db), setvars, merge)
      ensures Inserted(base, old(db), db, setvars)
      ensures MaxIndex(old(db), base) <= MaxIndex(db, base)
    {
      SetShape(base, spec, db, setvars, merge);
      SetInserts(base, spec, db, setvars, merge);
      var index, matched := VecFind(setvars);
      var key := Entry(base, index);
      var vars := MergeStored(db, key, setvars, merge);
      assert vars == StoredVars(base, old(db), setvars, merge, index);
      db := LvSet(db, spec, base, key, vars);
    }

    /** The loop of db_lv_vec_del: remove every match, and remember where the free indices at the end start. */
    method Sweep(setvars: Vec, maxi: nat) returns (hole: int)
      requires Valid() && maxi == MaxIndex(db, base)
      modifies this`db
      ensures db == Erased(base, old(db), setvars, maxi)
      ensures HoleFrom(base, old(db), setvars, maxi) == if hole >= 0 then Some(hole) else None
    {
      hole := -1;
      var i := 0;
      while i < maxi
        modifies this`db
        invariant 0 <= i <= maxi
        invariant db == Erased(base, old(db), setvars, i)
        invariant HoleFrom(base, old(db), setvars, i) == if hole >= 0 then Some(hole) else None
      {
        var key := Entry(base, i);
        ErasedStep(base, old(db), setvars, i);
        var vec := Read(base, db, i);
        if vec == [] {
          if hole < 0 {
            hole := i;
          }
        } else {
          hole := -1;
          var same := LvMatchvar(vec, setvars, false);
          if same {
            db := db - {key};
            if hole < 0 {
              hole := i;
            }
          }
        }
        i := i + 1;
      }
    }

    /** db_lv_vec_del: remove every match, and lower `A.n` to one above the start of the free indices at the end. */
    method VecDel(setvars: Vec)
      requires Valid()
      modifies this
      ensures Valid() && Others(base, db) == Others(base, old(db))
      ensures db == ScanDel(base, old(db), setvars)
      ensures Removed(base, old(db), db, setvars)
      ensures MaxIndex(db, base) <= MaxIndex(old(db), base)
    {
      DelShape(base, db, setvars);
      DelRemoves(base, db, setvars);
      ghost var was := db;
      hide *;
      var maxi := MaxIndex(db, base);
      var hole := Sweep(setvars, maxi);
      DelIs(base, was, setvars, hole);
      if hole >= 0 {
        db := db[Max(base) := Number(hole + 1)];
      }
    }

    /** db_lv_op_exec on a list key. On a list that stands for a map the operation acts as on the map, with a list that
        stands for a map again, exactly when it fits. */
    method Exec(op: Op)
      requires Valid()
      modifies this
      ensures Valid() && Others(base, db) == Others(base, old(db))
      ensures db == ScanExec(base, spec, old(db), op)
      ensures if op.Delete? then Removed(base, old(db), db, op.vec) else Inserted(base, old(db), db, op.vec)
      ensures forall rows :: Represents(base, spec, old(db), rows) ==>
                (Represents(base, spec, db, Step(spec, rows, op)) <==> Fits(base, spec, old(db), op))
    {
      match op {
        case Set(vec) => VecSet(vec, false);
        case MergeOp(vec) => VecSet(vec, true);
        case Delete(vec) => VecDel(vec);
      }
      forall rows | Represents(base, spec, old(db), rows)
        ensures Represents(base, spec, db, Step(spec, rows, op)) <==> Fits(base, spec, old(db), op)
      {
        ActsAsStep(base, spec, old(db), rows, op);
      }
    }

    /** Any sequence of operations, and what it does to the map of the list when every operation agrees with the
        specification: the same as with content keys. */
    method Run(ops: seq<Op>)
      requires Valid()
      modifies this
      ensures Valid() && Others(base, db) == Others(base, old(db))
      ensures db == ScanRun(base, spec, old(db), ops)
      ensures forall rows :: Represents(base, spec, old(db), rows) && (forall op :: op in ops ==> Agrees(spec, op)) ==>
                Represents(base, spec, db, Steps(spec, rows, ops))
    {
      var i := 0;
      while i < |ops|
        invariant 0 <= i <= |ops|
        invariant Valid() && Others(base, db) == Others(base, old(db))
        invariant ScanRun(base, spec, db, ops[i..]) == ScanRun(base, spec, old(db), ops)
      {
        assert ops[i..][0] == ops[i] && ops[i..][1..] == ops[i + 1..];
        Exec(ops[i]);
        i := i + 1;
      }
      forall rows | Represents(base, spec, old(db), rows) && forall op :: op in ops ==> Agrees(spec, op)
        ensures Represents(base, spec, db, Steps(spec, rows, ops))
      {
        RunActsAsSteps(base, spec, old(db), rows, ops);
      }
    }
  }
}
