/** The difference of two databases, key by key of the specification: a byte comparison for plain keys, a quadratic
    comparison for lists, and a sort-and-merge for lists with one unique variable. */
module DbDiff {
  import opened Basics
  import opened Cvec
  import opened ListIndex
  import opened ScanList
  import Lvec

  /** An entry of a list together with the database key it was read from. */
  datatype Item = Item(key: string, vars: Vec)

  /** DBDIFF_OP_FIRST, DBDIFF_OP_SECOND and DBDIFF_OP_BOTH with the vectors they carry. */
  datatype DiffEnt = First(one: Item) | Second(two: Item) | Both(one: Item, two: Item)

  /** The list that the comparison appends to. */
  class Diff {
    var ents: seq<DiffEnt>

    constructor ()
      ensures ents == []
    {
      ents := [];
    }

    method Add(ent: DiffEnt)
      modifies this
      ensures ents == old(ents) + [ent]
    {
      ents := ents + [ent];
    }
  }

  // ---------------------------------------------------------------- plain keys

  function SingleDiff(key: string, one: Option<Vec>, two: Option<Vec>): seq<DiffEnt> {
    if one == two then []
    else match (one, two)
      case (Some(a), Some(b)) => [Both(Item(key, a), Item(key, b))]
      case (None, Some(b)) => [Second(Item(key, b))]
      case (Some(a), None) => [First(Item(key, a))]
      case (None, None) => []
  }

  /** A value as the database keeps it. */
  function Bytes(tt: Lvec.Types, value: Option<Vec>): Option<string> {
    if value.None? then None else Some(Lvec.Encode(tt, value.value))
  }

  /** The vector is one that its byte form determines. */
  predicate Storable(tt: Lvec.Types, value: Option<Vec>) {
    value.Some? ==> Lvec.FitsAll(tt, value.value) && Lvec.AllUnmarked(value.value)
  }

  /** dbdiff_single on the stored bytes. Comparing them comes to the same as comparing the vectors. */
  method DbdiffSingle(tt: Lvec.Types, ghost one: Option<Vec>, ghost two: Option<Vec>,
                      lvec1: Option<string>, lvec2: Option<string>, key: string, df: Diff) returns (ok: bool)
    requires tt.Valid() && Storable(tt, one) && Storable(tt, two)
    requires lvec1 == Bytes(tt, one) && lvec2 == Bytes(tt, two)
    modifies df
    ensures ok && df.ents == old(df.ents) + SingleDiff(key, one, two)
  {
    if one.Some? {
      Lvec.RoundTrip(tt, one.value);
    }
    if two.Some? {
      Lvec.RoundTrip(tt, two.value);
    }
    if lvec1 == lvec2 {
      return true;
    }
    var vr1: Option<Vec>, vr2: Option<Vec> := None, None;
    if lvec1.Some? {
      vr1 := Lvec.Lvec2cvec(tt, lvec1.value);
      if vr1.None? {
        return false;
      }
    }
    if lvec2.Some? {
      vr2 := Lvec.Lvec2cvec(tt, lvec2.value);
      if vr2.None? {
        return false;
      }
    }
    if lvec1.Some? && lvec2.Some? {
      df.Add(Both(Item(key, vr1.value), Item(key, vr2.value)));
    } else if lvec1.None? {
      df.Add(Second(Item(key, vr2.value)));
    } else {
      df.Add(First(Item(key, vr1.value)));
    }
    ok := true;
  }

  // ---------------------------------------------------------------- lists, quadratic

  /** First item of `items` that `vars` matches on the unique variables. */
  function Partner(vars: Vec, items: seq<Item>): Option<Item> {
    if items == [] then None
    else if Matches(vars, items[0].vars, false) then Some(items[0])
    else Partner(vars, items[1..])
  }

  function LeftEnts(x: Item, items2: seq<Item>): seq<DiffEnt> {
    var y := Partner(x.vars, items2);
    if y.None? then [First(x)]
    else if Matches(x.vars, y.value.vars, true) then []
    else [Both(x, y.value)]
  }

  function RightEnts(y: Item, items1: seq<Item>): seq<DiffEnt> {
    if Partner(y.vars, items1).None? then [Second(y)] else []
  }

  function LeftPart(items1: seq<Item>, items2: seq<Item>): seq<DiffEnt> {
    if items1 == [] then []
    else LeftPart(items1[..|items1| - 1], items2) + LeftEnts(items1[|items1| - 1], items2)
  }

  function RightPart(items2: seq<Item>, items1: seq<Item>): seq<DiffEnt> {
    if items2 == [] then []
    else RightPart(items2[..|items2| - 1], items1) + RightEnts(items2[|items2| - 1], items1)
  }

  /** The inner loop: walk `items` until one matches. */
  method FindPartner(vars: Vec, items: seq<Item>) returns (i: nat)
    ensures i <= |items|
    ensures Partner(vars, items) == if i < |items| then Some(items[i]) else None
  {
    i := 0;
    while i < |items|
      invariant 0 <= i <= |items|
      invariant Partner(vars, items) == Partner(vars, items[i..])
    {
      assert items[i..][0] == items[i] && items[i..][1..] == items[i + 1..];
      var same := LvMatchvar(vars, items[i].vars, false);
      if same {
        break;
      }
      i := i + 1;
    }
  }

  lemma LeftPartNext(items1: seq<Item>, i: nat, items2: seq<Item>)
    requires i < |items1|
    ensures LeftPart(items1[..i + 1], items2) == LeftPart(items1[..i], items2) + LeftEnts(items1[i], items2)
  {
    assert items1[..i + 1][..i] == items1[..i];
  }

  lemma RightPartNext(items2: seq<Item>, i: nat, items1: seq<Item>)
    requires i < |items2|
    ensures RightPart(items2[..i + 1], items1) == RightPart(items2[..i], items1) + RightEnts(items2[i], items1)
  {
    assert items2[..i + 1][..i] == items2[..i];
  }

  /** The first loop of dbdiff_vector: items of db1 that db2 lacks or holds with other values. */
  method DbdiffLeft(items1: seq<Item>, items2: seq<Item>, df: Diff)
    modifies df
    ensures df.ents == old(df.ents) + LeftPart(items1, items2)
  {
    var i1 := 0;
    while i1 < |items1|
      invariant 0 <= i1 <= |items1|
      invariant df.ents == old(df.ents) + LeftPart(items1[..i1], items2)
    {
      LeftPartNext(items1, i1, items2);
      var i2 := FindPartner(items1[i1].vars, items2);
      if i2 < |items2| {
        var equal := LvMatchvar(items1[i1].vars, items2[i2].vars, true);
        if !equal {
          df.Add(Both(items1[i1], items2[i2]));
        }
      } else {
        df.Add(First(items1[i1]));
      }
      i1 := i1 + 1;
    }
    assert items1[..|items1|] == items1;
  }

  /** The second loop: items of db2 that db1 lacks. */
  method DbdiffRight(items1: seq<Item>, items2: seq<Item>, df: Diff)
    modifies df
    ensures df.ents == old(df.ents) + RightPart(items2, items1)
  {
    var i2 := 0;
    while i2 < |items2|
      invariant 0 <= i2 <= |items2|
      invariant df.ents == old(df.ents) + RightPart(items2[..i2], items1)
    {
      RightPartNext(items2, i2, items1);
      var i1 := FindPartner(items2[i2].vars, items1);
      if i1 >= |items1| {
        df.Add(Second(items2[i2]));
      }
      i2 := i2 + 1;
    }
    assert items2[..|items2|] == items2;
  }

  /** dbdiff_vector */
  method DbdiffVector(items1: seq<Item>, items2: seq<Item>, df: Diff)
    modifies df
    ensures df.ents == old(df.ents) + (LeftPart(items1, items2) + RightPart(items2, items1))
  {
    DbdiffLeft(items1, items2, df);
    DbdiffRight(items1, items2, df);
  }

  // ---------------------------------------------------------------- what a list difference is

  /** The items of one list in one database: every one flags its unique variables as specified, none is a wildcard,
      and no two have the same unique values. */
  ghost predicate IsList(spec: Vec, items: seq<Item>) {
    && (forall x :: x in items ==> Conforms(spec, x.vars) && NoWildcard(x.vars))
    && (forall i, j :: 0 <= i < j < |items| ==> ItemKey(spec, items[i]) != ItemKey(spec, items[j]))
  }

  predicate NoWildcard(vars: Vec) {
    forall cv :: cv in vars ==> !cv.wildcard
  }

  function ItemKey(spec: Vec, x: Item): Option<Tuple> {
    TupleOf(spec, x.vars)
  }

  /** The entries a difference must have: items of one side without a partner, and partners that differ. */
  ghost predicate Expected(spec: Vec, items1: seq<Item>, items2: seq<Item>, e: DiffEnt) {
    match e
    case First(x) => x in items1 && forall y :: y in items2 ==> ItemKey(spec, x) != ItemKey(spec, y)
    case Second(y) => y in items2 && forall x :: x in items1 ==> ItemKey(spec, x) != ItemKey(spec, y)
    case Both(x, y) => x in items1 && y in items2 && ItemKey(spec, x) == ItemKey(spec, y) && !Matches(x.vars, y.vars, true)
  }

  /** Exactly the expected entries, once each. */
  ghost predicate IsDiff(spec: Vec, items1: seq<Item>, items2: seq<Item>, ents: seq<DiffEnt>) {
    NoDup(ents) && forall e :: e in ents <==> Expected(spec, items1, items2, e)
  }

  /** A difference is determined up to the order of its entries. */
  lemma DiffUnique(spec: Vec, items1: seq<Item>, items2: seq<Item>, a: seq<DiffEnt>, b: seq<DiffEnt>)
    requires IsDiff(spec, items1, items2, a) && IsDiff(spec, items1, items2, b)
    ensures multiset(a) == multiset(b)
  {
    NoDupMultiset(a);
    NoDupMultiset(b);
    forall e ensures multiset(a)[e] == multiset(b)[e] {
      assert e in a <==> e in b;
    }
  }

  lemma {:induction false} PartnerOf(spec: Vec, x: Item, items: seq<Item>)
    requires Conforms(spec, x.vars) && IsList(spec, items)
    ensures var p := Partner(x.vars, items);
            if p.Some? then p.value in items && ItemKey(spec, p.value) == ItemKey(spec, x)
            else forall y :: y in items ==> ItemKey(spec, y) != ItemKey(spec, x)
    ensures forall y :: y in items && ItemKey(spec, y) == ItemKey(spec, x) ==> Partner(x.vars, items) == Some(y)
  {
    if items != [] {
      MatchIsTupleEquality(spec, x.vars, items[0].vars);
      assert IsList(spec, items[1..]) by {
        assert forall y :: y in items[1..] ==> y in items;
      }
      PartnerOf(spec, x, items[1..]);
      forall y | y in items && ItemKey(spec, y) == ItemKey(spec, x) ensures Partner(x.vars, items) == Some(y) {
        var i :| 0 <= i < |items| && items[i] == y;
        if i > 0 {
          assert y in items[1..];
          assert ItemKey(spec, items[0]) != ItemKey(spec, items[i]);
        }
      }
    }
  }

  /** A part of a list is a list. */
  lemma SubList(spec: Vec, items: seq<Item>, part: seq<Item>)
    requires IsList(spec, items) && items != []
    requires part == items[1..] || part == items[..|items| - 1]
    ensures IsList(spec, part)
  {
    assert forall y :: y in part ==> y in items;
  }

  lemma {:induction false} LeftPartMembers(spec: Vec, items1: seq<Item>, items2: seq<Item>)
    requires IsList(spec, items1) && IsList(spec, items2)
    ensures NoDup(LeftPart(items1, items2))
    ensures forall e :: e in LeftPart(items1, items2) <==> !e.Second? && Expected(spec, items1, items2, e)
  {
    if items1 != [] {
      var n := |items1| - 1;
      var rest, x := items1[..n], items1[n];
      SubList(spec, items1, rest);
      LeftPartMembers(spec, rest, items2);
      PartnerOf(spec, x, items2);
      assert forall y :: y in items1 <==> y in rest || y == x;
      forall e: DiffEnt | !e.Second?
        ensures Expected(spec, items1, items2, e) <==> e in LeftEnts(x, items2) || Expected(spec, rest, items2, e)
      {
        match e
        case First(one) =>
        case Both(one, two) =>
      }
      forall e | e in LeftPart(rest, items2) ensures e !in LeftEnts(x, items2) {
        assert e.one in rest;
        var i :| 0 <= i < n && rest[i] == e.one;
        assert ItemKey(spec, items1[i]) != ItemKey(spec, items1[n]);
      }
      NoDupConcat(LeftPart(rest, items2), LeftEnts(x, items2));
    }
  }

  lemma {:induction false} RightPartMembers(spec: Vec, items2: seq<Item>, items1: seq<Item>)
    requires IsList(spec, items1) && IsList(spec, items2)
    ensures NoDup(RightPart(items2, items1))
    ensures forall e :: e in RightPart(items2, items1) <==> e.Second? && Expected(spec, items1, items2, e)
  {
    if items2 != [] {
      var n := |items2| - 1;
      var rest, y := items2[..n], items2[n];
      SubList(spec, items2, rest);
      RightPartMembers(spec, rest, items1);
      PartnerOf(spec, y, items1);
      assert forall z :: z in items2 <==> z in rest || z == y;
      forall e | e in RightPart(rest, items1) ensures e !in RightEnts(y, items1) {
        var i :| 0 <= i < n && rest[i] == e.two;
        assert ItemKey(spec, items2[i]) != ItemKey(spec, items2[n]);
      }
      NoDupConcat(RightPart(rest, items1), RightEnts(y, items1));
    }
  }

  /** The quadratic comparison produces the difference. */
  lemma SlowIsDiff(spec: Vec, items1: seq<Item>, items2: seq<Item>)
    requires IsList(spec, items1) && IsList(spec, items2)
    ensures IsDiff(spec, items1, items2, LeftPart(items1, items2) + RightPart(items2, items1))
  {
    LeftPartMembers(spec, items1, items2);
    RightPartMembers(spec, items2, items1);
    NoDupConcat(LeftPart(items1, items2), RightPart(items2, items1));
  }
}
