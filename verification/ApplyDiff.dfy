/** What a difference is for: applied to the first database it gives the second one. */
module ApplyDiff {
  import opened Basics
  import opened Cvec
  import opened ListIndex
  import opened ScanList
  import opened DbDiff

  /** What a vector says: each name with the type and value that a lookup of the name finds. */
  type Bindings = map<string, (nat, string)>

  function Bound(vars: Vec): (m: Bindings)
    ensures forall n :: n in m <==> Find(vars, n).Some?
    ensures forall n :: n in m ==> m[n] == (Find(vars, n).value.ty, Find(vars, n).value.val)
  {
    var names := set cv | cv in vars :: cv.name;
    assert forall n :: n in names <==> Find(vars, n).Some?;
    map n | n in names :: (Find(vars, n).value.ty, Find(vars, n).value.val)
  }

  /** A list as a map from unique tuple to bindings. */
  function View(spec: Vec, items: seq<Item>): map<Tuple, Bindings>
    requires forall x :: x in items ==> ItemKey(spec, x).Some?
  {
    if items == [] then map[]
    else
      var x := items[|items| - 1];
      View(spec, items[..|items| - 1])[ItemKey(spec, x).value := Bound(x.vars)]
  }

  /** Every item is in the view, under its own tuple. */
  lemma {:induction false} ViewHas(spec: Vec, items: seq<Item>, x: Item)
    requires IsList(spec, items) && x in items
    ensures ItemKey(spec, x).value in View(spec, items)
    ensures View(spec, items)[ItemKey(spec, x).value] == Bound(x.vars)
  {
    var n := |items| - 1;
    if x != items[n] {
      SubList(spec, items, items[..n]);
      assert items == items[..n] + [items[n]];
      ViewHas(spec, items[..n], x);
      var i :| 0 <= i < n && items[i] == x;
      assert ItemKey(spec, items[i]) != ItemKey(spec, items[n]);
    }
  }

  /** Whatever is in the view comes from an item. */
  lemma {:induction false} ViewFrom(spec: Vec, items: seq<Item>, t: Tuple) returns (x: Item)
    requires IsList(spec, items) && t in View(spec, items)
    ensures x in items && ItemKey(spec, x) == Some(t)
  {
    var n := |items| - 1;
    if ItemKey(spec, items[n]) == Some(t) {
      x := items[n];
    } else {
      SubList(spec, items, items[..n]);
      x := ViewFrom(spec, items[..n], t);
    }
  }

  /** The tuple that an entry is about. */
  function EntKey(spec: Vec, e: DiffEnt): Option<Tuple> {
    match e
    case First(x) => ItemKey(spec, x)
    case Second(y) => ItemKey(spec, y)
    case Both(_, y) => ItemKey(spec, y)
  }

  /** Remove FIRST, add SECOND, replace BOTH. */
  function Apply(spec: Vec, view: map<Tuple, Bindings>, ents: seq<DiffEnt>): map<Tuple, Bindings>
    requires forall e :: e in ents ==> EntKey(spec, e).Some?
  {
    if ents == [] then view
    else
      var e := ents[|ents| - 1];
      var before := Apply(spec, view, ents[..|ents| - 1]);
      match e
      case First(x) => before - {EntKey(spec, e).value}
      case Second(y) => before[EntKey(spec, e).value := Bound(y.vars)]
      case Both(_, y) => before[EntKey(spec, e).value := Bound(y.vars)]
  }

  /** No two entries are about the same tuple. */
  ghost predicate OnePerKey(spec: Vec, ents: seq<DiffEnt>) {
    && (forall e :: e in ents ==> EntKey(spec, e).Some?)
    && (forall i, j :: 0 <= i < j < |ents| ==> EntKey(spec, ents[i]) != EntKey(spec, ents[j]))
  }

  ghost predicate Untouched(spec: Vec, ents: seq<DiffEnt>, t: Tuple) {
    forall e :: e in ents ==> EntKey(spec, e) != Some(t)
  }

  /** A tuple without an entry keeps what it has. */
  lemma {:induction false} ApplyUntouched(spec: Vec, view: map<Tuple, Bindings>, ents: seq<DiffEnt>, t: Tuple)
    requires (forall e :: e in ents ==> EntKey(spec, e).Some?) && Untouched(spec, ents, t)
    ensures var after := Apply(spec, view, ents); (t in after <==> t in view) && (t in after ==> after[t] == view[t])
  {
    if ents != [] {
      var n := |ents| - 1;
      assert ents[n] in ents;
      ApplyUntouched(spec, view, ents[..n], t);
    }
  }

  /** A tuple with an entry gets what the entry says. */
  lemma {:induction false} ApplyTouched(spec: Vec, view: map<Tuple, Bindings>, ents: seq<DiffEnt>, i: nat)
    requires OnePerKey(spec, ents) && i < |ents|
    ensures ents[i] in ents
    ensures var after, t := Apply(spec, view, ents), EntKey(spec, ents[i]).value;
            if ents[i].First? then t !in after else t in after && after[t] == Bound(ents[i].two.vars)
  {
    var n := |ents| - 1;
    assert ents[n] in ents;
    if i < n {
      assert EntKey(spec, ents[i]) != EntKey(spec, ents[n]);
      ApplyTouched(spec, view, ents[..n], i);
    }
  }

  lemma ApplyLookup(spec: Vec, view: map<Tuple, Bindings>, ents: seq<DiffEnt>)
    requires OnePerKey(spec, ents)
    ensures var after := Apply(spec, view, ents);
            && (forall e :: e in ents && e.First? ==> EntKey(spec, e).value !in after)
            && (forall e :: e in ents && !e.First? ==>
                  EntKey(spec, e).value in after && after[EntKey(spec, e).value] == Bound(e.two.vars))
            && (forall t :: Untouched(spec, ents, t) ==>
                  (t in after <==> t in view) && (t in after ==> after[t] == view[t]))
  {
    hide Apply, Bound;
    var after := Apply(spec, view, ents);
    forall e | e in ents
      ensures if e.First? then EntKey(spec, e).value !in after
              else EntKey(spec, e).value in after && after[EntKey(spec, e).value] == Bound(e.two.vars)
    {
      var i :| 0 <= i < |ents| && ents[i] == e;
      ApplyTouched(spec, view, ents, i);
    }
    forall t | Untouched(spec, ents, t) ensures (t in after <==> t in view) && (t in after ==> after[t] == view[t]) {
      ApplyUntouched(spec, view, ents, t);
    }
  }

  /** The one item of a list with a given key. */
  lemma SameKeySameItem(spec: Vec, items: seq<Item>, x: Item, y: Item)
    requires IsList(spec, items) && x in items && y in items && ItemKey(spec, x) == ItemKey(spec, y)
    ensures x == y
  {
    var i :| 0 <= i < |items| && items[i] == x;
    var j :| 0 <= j < |items| && items[j] == y;
    assert i == j;
  }

  lemma DiffOnePerKey(spec: Vec, items1: seq<Item>, items2: seq<Item>, ents: seq<DiffEnt>)
    requires IsList(spec, items1) && IsList(spec, items2) && IsDiff(spec, items1, items2, ents)
    ensures OnePerKey(spec, ents)
  {
    forall i, j | 0 <= i < j < |ents| ensures EntKey(spec, ents[i]) != EntKey(spec, ents[j]) {
      var d, e := ents[i], ents[j];
      assert d in ents && e in ents && d != e;
      if EntKey(spec, d) == EntKey(spec, e) {
        if !d.Second? && !e.Second? {
          SameKeySameItem(spec, items1, d.one, e.one);
        }
        if !d.First? && !e.First? {
          SameKeySameItem(spec, items2, d.two, e.two);
        }
      }
    }
  }

  /** The branch in which the comparison says "equal" although the second item has more variables: the one-way
      lv_matchvar never looks at a name that only the second item has. */
  ghost predicate HiddenExtra(spec: Vec, items1: seq<Item>, items2: seq<Item>) {
    exists x, y :: x in items1 && y in items2 && ItemKey(spec, x) == ItemKey(spec, y)
                   && Matches(x.vars, y.vars, true) && HasExtraName(x.vars, y.vars)
  }

  ghost predicate HasExtraName(a: Vec, b: Vec) {
    exists cv :: cv in b && Find(a, cv.name).None?
  }

  lemma MatchesBound(a: Vec, b: Vec)
    requires Matches(a, b, true) && NoWildcard(b)
    ensures Bound(a) == Bound(b) <==> !HasExtraName(a, b)
  {
    forall n | n in Bound(a) ensures n in Bound(b) && Bound(b)[n] == Bound(a)[n] {
      var cv := Find(a, n).value;
      var i :| 0 <= i < |a| && a[i] == cv;
      assert MatchOne(a[i], b);
    }
    if HasExtraName(a, b) {
      var cv :| cv in b && Find(a, cv.name).None?;
      assert cv.name in Bound(b) && cv.name !in Bound(a);
    } else {
      forall n | n in Bound(b) ensures n in Bound(a) {
        assert Find(b, n).value in b;
      }
      assert Bound(a) == Bound(b);
    }
  }

  /** At a tuple that some entry is about, the applied difference is the second list. */
  lemma TouchedApplies(spec: Vec, items1: seq<Item>, items2: seq<Item>, ents: seq<DiffEnt>, e: DiffEnt)
    requires IsList(spec, items1) && IsList(spec, items2) && IsDiff(spec, items1, items2, ents) && e in ents
    requires OnePerKey(spec, ents)
    ensures var t, after := EntKey(spec, e).value, Apply(spec, View(spec, items1), ents);
            && (t in after <==> t in View(spec, items2))
            && (t in after ==> after[t] == View(spec, items2)[t])
  {
    ApplyLookup(spec, View(spec, items1), ents);
    assert Expected(spec, items1, items2, e);
    if e.First? {
      if EntKey(spec, e).value in View(spec, items2) {
        var y := ViewFrom(spec, items2, EntKey(spec, e).value);
      }
    } else {
      ViewHas(spec, items2, e.two);
    }
  }

  /** At a tuple that no entry is about, both lists have an item or none has. */
  lemma UntouchedBothOrNone(spec: Vec, items1: seq<Item>, items2: seq<Item>, ents: seq<DiffEnt>, t: Tuple)
    requires IsList(spec, items1) && IsList(spec, items2) && IsDiff(spec, items1, items2, ents)
    requires Untouched(spec, ents, t)
    ensures t in View(spec, items1) <==> t in View(spec, items2)
  {
    if t in View(spec, items1) {
      var x := ViewFrom(spec, items1, t);
      assert EntKey(spec, First(x)) == Some(t);
      assert !Expected(spec, items1, items2, First(x));
      var y :| y in items2 && ItemKey(spec, x) == ItemKey(spec, y);
      ViewHas(spec, items2, y);
    }
    if t in View(spec, items2) {
      var y := ViewFrom(spec, items2, t);
      assert EntKey(spec, Second(y)) == Some(t);
      assert !Expected(spec, items1, items2, Second(y));
      var x :| x in items1 && ItemKey(spec, x) == ItemKey(spec, y);
      ViewHas(spec, items1, x);
    }
  }

  /** An untouched pair matched in full; the two lists agree on it unless it hides an extra variable. */
  lemma UntouchedPair(spec: Vec, items1: seq<Item>, items2: seq<Item>, ents: seq<DiffEnt>, x: Item, y: Item)
    requires IsList(spec, items1) && IsList(spec, items2) && IsDiff(spec, items1, items2, ents)
    requires x in items1 && y in items2 && ItemKey(spec, x) == ItemKey(spec, y)
    ensures var t := ItemKey(spec, x).value;
            Untouched(spec, ents, t) <==> Matches(x.vars, y.vars, true)
  {
    var t := ItemKey(spec, x).value;
    if Untouched(spec, ents, t) {
      assert !Expected(spec, items1, items2, Both(x, y)) by {
        assert EntKey(spec, Both(x, y)) == Some(t);
      }
    } else {
      var e :| e in ents && EntKey(spec, e) == Some(t);
      assert Expected(spec, items1, items2, e);
      if e.Both? {
        SameKeySameItem(spec, items1, x, e.one);
        SameKeySameItem(spec, items2, y, e.two);
      }
    }
  }

  /** Applying a list difference to the first list gives the second one exactly when no pair of partners hides an
      extra variable of the second item. */
  lemma ListDiffApplies(spec: Vec, items1: seq<Item>, items2: seq<Item>, ents: seq<DiffEnt>)
    requires IsList(spec, items1) && IsList(spec, items2) && IsDiff(spec, items1, items2, ents)
    ensures OnePerKey(spec, ents)
    ensures Apply(spec, View(spec, items1), ents) == View(spec, items2) <==> !HiddenExtra(spec, items1, items2)
  {
    DiffOnePerKey(spec, items1, items2, ents);
    ApplyLookup(spec, View(spec, items1), ents);
    var after := Apply(spec, View(spec, items1), ents);
    if HiddenExtra(spec, items1, items2) {
      var x, y :| x in items1 && y in items2 && ItemKey(spec, x) == ItemKey(spec, y)
                  && Matches(x.vars, y.vars, true) && HasExtraName(x.vars, y.vars);
      UntouchedPair(spec, items1, items2, ents, x, y);
      MatchesBound(x.vars, y.vars);
      ViewHas(spec, items1, x);
      ViewHas(spec, items2, y);
      assert after[ItemKey(spec, x).value] == Bound(x.vars);
    } else {
      forall t
        ensures t in after <==> t in View(spec, items2)
        ensures t in after ==> after[t] == View(spec, items2)[t]
      {
        NoneHidden(spec, items1, items2, ents, t);
      }
      assert after == View(spec, items2);
    }
  }

  lemma NoneHidden(spec: Vec, items1: seq<Item>, items2: seq<Item>, ents: seq<DiffEnt>, t: Tuple)
    requires IsList(spec, items1) && IsList(spec, items2) && IsDiff(spec, items1, items2, ents)
    requires OnePerKey(spec, ents) && !HiddenExtra(spec, items1, items2)
    ensures var after := Apply(spec, View(spec, items1), ents);
            && (t in after <==> t in View(spec, items2))
            && (t in after ==> after[t] == View(spec, items2)[t])
  {
    if !Untouched(spec, ents, t) {
      var e :| e in ents && EntKey(spec, e) == Some(t);
      TouchedApplies(spec, items1, items2, ents, e);
    } else {
      ApplyLookup(spec, View(spec, items1), ents);
      UntouchedBothOrNone(spec, items1, items2, ents, t);
      if t in View(spec, items1) {
        var x := ViewFrom(spec, items1, t);
        var y := ViewFrom(spec, items2, t);
        UntouchedPair(spec, items1, items2, ents, x, y);
        MatchesBound(x.vars, y.vars);
        ViewHas(spec, items1, x);
        ViewHas(spec, items2, y);
      }
    }
  }

  lemma OneItemList(spec: Vec, x: Item)
    requires Conforms(spec, x.vars) && NoWildcard(x.vars)
    ensures IsList(spec, [x]) && View(spec, [x]) == map[ItemKey(spec, x).value := Bound(x.vars)]
  {
    assert [x][..0] == [];
    assert View(spec, []) == map[];
  }

  /** A change that the difference misses: the second database adds `$y` to an item that is otherwise the same. */
  lemma AddedVariableIsMissed() returns (spec: Vec, items1: seq<Item>, items2: seq<Item>)
    ensures IsList(spec, items1) && IsList(spec, items2) && View(spec, items1) != View(spec, items2)
    ensures LeftPart(items1, items2) + RightPart(items2, items1) == []
  {
    hide View, Conforms, TupleOf, LeftPart, RightPart, IsList;
    var k := Cv("k", 1, "1", true, false, false);
    var y := Cv("y", 1, "2", false, false, false);
    var a, b := Item("A.0", [k]), Item("A.0", [k, y]);
    spec, items1, items2 := [k], [a], [b];
    LedByKey(k, [k]);
    LedByKey(k, [k, y]);
    OneItemList(spec, a);
    OneItemList(spec, b);
    MissedPair(a, b);
    assert "y" in Bound(b.vars) && "y" !in Bound(a.vars) by {
      assert y in b.vars;
    }
    assert View(spec, [a])[[k.val]] != View(spec, [b])[[k.val]];
  }

  /** A vector that starts with the one unique variable and flags no other. */
  lemma LedByKey(k: Cv, vec: Vec)
    requires k.unique && !k.wildcard && vec != [] && vec[0] == k
    requires forall i :: 0 < i < |vec| ==> !vec[i].unique
    ensures Conforms([k], vec) && TupleOf([k], vec) == Some([k.val])
  {
    var spec := [k];
    assert spec[1..] == [] && UniqueValues([], vec) == Some([]);
    assert UniqueValues(spec, vec) == Some([k.val] + []);
    assert [k.val] + [] == [k.val] && |[k.val]| == 1;
    assert spec[0].unique && spec[0].name == k.name;
    assert UniqueName(spec, k.name);
  }

  lemma MissedPair(a: Item, b: Item)
    requires Matches(a.vars, b.vars, true) && Matches(b.vars, a.vars, false)
    ensures LeftPart([a], [b]) + RightPart([b], [a]) == []
  {
    assert [a][..0] == [] && [b][..0] == [];
    assert Partner(a.vars, [b]) == Some(b) && Partner(b.vars, [a]) == Some(a);
    assert LeftPart([], [b]) == [] && RightPart([], [a]) == [];
  }

  // ---------------------------------------------------------------- plain keys

  function ApplyPlain(plain: map<string, Vec>, ents: seq<DiffEnt>): map<string, Vec> {
    if ents == [] then plain
    else
      var before := ApplyPlain(plain, ents[..|ents| - 1]);
      match ents[|ents| - 1]
      case First(x) => before - {x.key}
      case Second(y) => before[y.key := y.vars]
      case Both(_, y) => before[y.key := y.vars]
  }

  function Lookup(plain: map<string, Vec>, key: string): Option<Vec> {
    if key in plain then Some(plain[key]) else None
  }

  /** For a plain key the difference always carries the first value to the second one, and changes no other key. */
  lemma PlainDiffApplies(plain: map<string, Vec>, key: string, two: Option<Vec>)
    ensures var after := ApplyPlain(plain, SingleDiff(key, Lookup(plain, key), two));
            Lookup(after, key) == two && forall k :: k != key ==> Lookup(after, k) == Lookup(plain, k)
  {
    var ents := SingleDiff(key, Lookup(plain, key), two);
    if ents != [] {
      assert ents[..|ents| - 1] == [];
      assert ApplyPlain(plain, []) == plain;
    }
  }
}
