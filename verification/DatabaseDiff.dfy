/** db_diff: every key of the specification in turn, each with the comparison that fits it. */
module DatabaseDiff {
  import opened Basics
  import opened Cvec
  import opened ListIndex
  import opened KeyPattern
  import opened DbDiff
  import opened FastDiff
  import Lvec

  /** One line of the database specification. */
  datatype SpecKey = SpecKey(key: string, vars: Vec)

  /** A database as the comparison reads it: the vectors of plain keys, and the items that match a list key in the
      order in which the database iterates over them. */
  datatype Content = Content(plain: map<string, Vec>, lists: map<string, seq<Item>>)

  function Plain(db: Content, key: string): Option<Vec> {
    if key in db.plain then Some(db.plain[key]) else None
  }

  function ItemsOf(db: Content, key: string): seq<Item> {
    if key in db.lists then db.lists[key] else []
  }

  /** What the specification lets a database contain. */
  ghost predicate Fits(tt: Lvec.Types, db: Content, ds: SpecKey) {
    if IsListLine(ds.key) then IsList(ds.vars, ItemsOf(db, ds.key)) else Storable(tt, Plain(db, ds.key))
  }

  /** An item of the list that has no namesake among the others. */
  ghost predicate Alone(spec: Vec, x: Item, items: seq<Item>, others: seq<Item>) {
    x in items && forall y :: y in others ==> TupleOf(spec, x.vars) != TupleOf(spec, y.vars)
  }

  /** Some variable of the first vector has no variable of its name, type and value in the second. */
  ghost predicate Misses(a: Vec, b: Vec) {
    exists i :: 0 <= i < |a| && var found := Find(b, a[i].name);
                  found.None? || found.value.ty != a[i].ty || found.value.val != a[i].val
  }

  /** What a difference is to report for one line of the specification. For a line that stands for many keys: the items
      without a namesake on the other side, and the namesakes of which the first has something that the second lacks.
      For any other line: that its key is on one side only, or has two values. */
  ghost predicate Reported(db1: Content, db2: Content, ds: SpecKey, e: DiffEnt) {
    if IsListLine(ds.key) then
      var items1, items2 := ItemsOf(db1, ds.key), ItemsOf(db2, ds.key);
      match e
      case First(x) => Alone(ds.vars, x, items1, items2)
      case Second(y) => Alone(ds.vars, y, items2, items1)
      case Both(x, y) =>
        x in items1 && y in items2 && TupleOf(ds.vars, x.vars) == TupleOf(ds.vars, y.vars) && Misses(x.vars, y.vars)
    else
      var v1, v2 := db1.plain, db2.plain;
      match e
      case First(x) => ds.key in v1 && ds.key !in v2 && x == Item(ds.key, v1[ds.key])
      case Second(y) => ds.key !in v1 && ds.key in v2 && y == Item(ds.key, v2[ds.key])
      case Both(x, y) =>
        ds.key in v1 && ds.key in v2 && v1[ds.key] != v2[ds.key]
        && x == Item(ds.key, v1[ds.key]) && y == Item(ds.key, v2[ds.key])
  }

  /** The entries of one line of the specification: what is to be reported, once each. */
  ghost predicate PartOf(db1: Content, db2: Content, ds: SpecKey, part: seq<DiffEnt>) {
    NoDup(part) && forall e :: e in part <==> Reported(db1, db2, ds, e)
  }

  /** Items without wildcards match on all variables unless the first has something that the second lacks. */
  lemma MissesIsMismatch(a: Vec, b: Vec)
    requires NoWildcard(b)
    ensures Misses(a, b) <==> !Matches(a, b, true)
  {
    forall i | 0 <= i < |a|
      ensures MatchOne(a[i], b) <==>
              var found := Find(b, a[i].name);
              found.Some? && found.value.ty == a[i].ty && found.value.val == a[i].val
    {}
  }

  lemma ListPart(db1: Content, db2: Content, ds: SpecKey, part: seq<DiffEnt>)
    requires IsListLine(ds.key)
    requires IsList(ds.vars, ItemsOf(db1, ds.key)) && IsList(ds.vars, ItemsOf(db2, ds.key))
    requires IsDiff(ds.vars, ItemsOf(db1, ds.key), ItemsOf(db2, ds.key), part)
    ensures PartOf(db1, db2, ds, part)
  {
    var items1, items2 := ItemsOf(db1, ds.key), ItemsOf(db2, ds.key);
    forall e ensures Expected(ds.vars, items1, items2, e) <==> Reported(db1, db2, ds, e) {
      if e.Both? && e.two in items2 {
        MissesIsMismatch(e.one.vars, e.two.vars);
      }
    }
  }

  lemma SinglePart(db1: Content, db2: Content, ds: SpecKey)
    requires !IsListLine(ds.key)
    ensures PartOf(db1, db2, ds, SingleDiff(ds.key, Plain(db1, ds.key), Plain(db2, ds.key)))
  {}

  ghost function Flatten(parts: seq<seq<DiffEnt>>): seq<DiffEnt> {
    if parts == [] then [] else Flatten(parts[..|parts| - 1]) + parts[|parts| - 1]
  }

  /** The loop of db_diff that looks for unique variables. */
  method CountUnique(vars: Vec) returns (n: nat, name: string)
    ensures n == 1 <==> exists one :: OneUnique(vars, one)
    ensures n == 1 ==> OneUnique(vars, name)
  {
    n, name := 0, "";
    ghost var at, last := 0, 0;
    var i := 0;
    while i < |vars|
      invariant 0 <= i <= |vars|
      invariant n >= 2 ==> 0 <= at < last < i && vars[at].unique && vars[last].unique
      invariant n == 0 ==> forall k :: 0 <= k < i ==> !vars[k].unique
      invariant n == 1 ==> 0 <= at < i && vars[at].unique && vars[at].name == name
                           && forall k :: 0 <= k < i && vars[k].unique ==> k == at
    {
      if vars[i].unique {
        at, last := if n == 0 then i else at, i;
        n := n + 1;
        name := vars[i].name;
      }
      i := i + 1;
    }
    assert n == 1 ==> OneUnique(vars, name);
  }

  /** One round of the loop over the specification. */
  method DiffKey(tt: Lvec.Types, cmp: (string, string) -> int, db1: Content, db2: Content, ds: SpecKey, df: Diff)
    returns (ok: bool, ghost part: seq<DiffEnt>)
    requires tt.Valid() && ValueOrder(cmp) && Fits(tt, db1, ds) && Fits(tt, db2, ds)
    modifies df
    ensures ok && df.ents == old(df.ents) + part && PartOf(db1, db2, ds, part)
  {
    AnyVectorExactly(ds.key);
    if IsAnyVector(ds.key) {
      var items1, items2 := ItemsOf(db1, ds.key), ItemsOf(db2, ds.key);
      var n, name := CountUnique(ds.vars);
      if n == 1 {
        ok, part := DbdiffVector1(ds.vars, cmp, items1, items2, name, df);
      } else {
        DbdiffVector(items1, items2, df);
        SlowIsDiff(ds.vars, items1, items2);
        ok, part := true, LeftPart(items1, items2) + RightPart(items2, items1);
      }
      ListPart(db1, db2, ds, part);
    } else {
      var one, two := Plain(db1, ds.key), Plain(db2, ds.key);
      ok := DbdiffSingle(tt, one, two, Bytes(tt, one), Bytes(tt, two), ds.key, df);
      part := SingleDiff(ds.key, one, two);
      SinglePart(db1, db2, ds);
    }
  }

  lemma {:induction false} FlattenMembers(parts: seq<seq<DiffEnt>>, e: DiffEnt)
    ensures e in Flatten(parts) <==> exists i :: 0 <= i < |parts| && e in parts[i]
  {
    if parts != [] {
      var n := |parts| - 1;
      FlattenMembers(parts[..n], e);
      if e in Flatten(parts[..n]) {
        var i :| 0 <= i < n && e in parts[..n][i];
        assert e in parts[i];
      }
      if i :| 0 <= i < |parts| && e in parts[i] {
        assert i == n || e in parts[..n][i];
      }
    }
  }

  /** Some line of the specification has the change to report. */
  ghost predicate IsChange(db1: Content, db2: Content, dbspec: seq<SpecKey>, e: DiffEnt) {
    exists ds :: ds in dbspec && Reported(db1, db2, ds, e)
  }

  lemma PartsReport(db1: Content, db2: Content, dbspec: seq<SpecKey>, parts: seq<seq<DiffEnt>>, e: DiffEnt)
    requires |parts| == |dbspec| && forall i :: 0 <= i < |parts| ==> PartOf(db1, db2, dbspec[i], parts[i])
    ensures e in Flatten(parts) <==> IsChange(db1, db2, dbspec, e)
  {
    hide Reported;
    FlattenMembers(parts, e);
    if e in Flatten(parts) {
      var i :| 0 <= i < |parts| && e in parts[i];
      assert dbspec[i] in dbspec && Reported(db1, db2, dbspec[i], e);
    }
    if IsChange(db1, db2, dbspec, e) {
      var ds :| ds in dbspec && Reported(db1, db2, ds, e);
      var i :| 0 <= i < |dbspec| && dbspec[i] == ds;
      assert e in parts[i];
    }
  }

  lemma FlattenSnoc(parts: seq<seq<DiffEnt>>, part: seq<DiffEnt>)
    ensures Flatten(parts + [part]) == Flatten(parts) + part && Flatten([]) == []
  {
    assert (parts + [part])[..|parts|] == parts;
  }

  /** db_diff */
  method DbDiffAll(tt: Lvec.Types, cmp: (string, string) -> int, db1: Content, db2: Content, dbspec: seq<SpecKey>,
                   df: Diff) returns (ok: bool, ghost parts: seq<seq<DiffEnt>>)
    requires tt.Valid() && ValueOrder(cmp)
    requires forall ds :: ds in dbspec ==> Fits(tt, db1, ds) && Fits(tt, db2, ds)
    modifies df
    ensures ok && |parts| == |dbspec| && df.ents == old(df.ents) + Flatten(parts)
    ensures forall i :: 0 <= i < |dbspec| ==> PartOf(db1, db2, dbspec[i], parts[i])
    ensures forall e :: e in Flatten(parts) <==> IsChange(db1, db2, dbspec, e)
  {
    hide PartOf, Fits, Flatten, ValueOrder, IsChange;
    parts := [];
    FlattenSnoc([], []);
    var i := 0;
    while i < |dbspec|
      invariant 0 <= i == |parts| <= |dbspec|
      invariant df.ents == old(df.ents) + Flatten(parts)
      invariant forall k :: 0 <= k < i ==> PartOf(db1, db2, dbspec[k], parts[k])
    {
      ghost var part;
      ok, part := DiffKey(tt, cmp, db1, db2, dbspec[i], df);
      if !ok {
        return;
      }
      FlattenSnoc(parts, part);
      parts := parts + [part];
      i := i + 1;
    }
    forall e ensures e in Flatten(parts) <==> IsChange(db1, db2, dbspec, e) {
      PartsReport(db1, db2, dbspec, parts, e);
    }
    ok := true;
  }
}
