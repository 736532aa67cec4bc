/** The two variants of the list index side by side, and what either of them guarantees to the comparison of databases. */
module ListVariants {
  import opened Basics
  import opened Cvec
  import opened ListIndex
  import opened DbDiff
  import C = ContentList
  import S = ScanList

  /** Some entry of the list holds these variables. */
  ghost predicate HasItem(base: string, db: Db, vec: Vec) {
    exists i: nat :: Entry(base, i) in db && db[Entry(base, i)] == Vars(vec)
  }

  ghost predicate IsRow(rows: Rows, vec: Vec) {
    exists t :: t in rows && rows[t] == vec
  }

  /** With content keys the entries are the rows. */
  lemma ContentItems(base: string, spec: Vec, sha1: string -> string, db: Db, rows: Rows, idx: map<Tuple, nat>,
                     issued: seq<Tuple>, vec: Vec)
    requires C.Represents(base, spec, sha1, db, rows, idx, issued)
    ensures HasItem(base, db, vec) <==> IsRow(rows, vec)
  {
    if HasItem(base, db, vec) {
      var i: nat :| Entry(base, i) in db && db[Entry(base, i)] == Vars(vec);
      assert C.InUse(idx, issued, i);
      assert C.Stored(base, spec, sha1, db, issued[i], i, rows[issued[i]]);
    }
    if IsRow(rows, vec) {
      var t :| t in rows && rows[t] == vec;
      assert C.Stored(base, spec, sha1, db, t, idx[t], rows[t]);
    }
  }

  /** And so they are in the variant that scans. */
  lemma ScanItems(base: string, spec: Vec, db: Db, rows: Rows, vec: Vec)
    requires S.Represents(base, spec, db, rows)
    ensures HasItem(base, db, vec) <==> IsRow(rows, vec)
  {
    if HasItem(base, db, vec) {
      var i: nat :| Entry(base, i) in db && db[Entry(base, i)] == Vars(vec);
      assert S.RowAt(base, spec, db, rows, i);
    }
    if IsRow(rows, vec) {
      var t :| t in rows && rows[t] == vec;
      assert S.HasPlace(base, spec, db, t);
      var i :| S.Place(base, spec, db, t, i);
      assert S.RowAt(base, spec, db, rows, i);
    }
  }

  /** Two lists that start out with the same contents have the same contents after any operations that agree with the
      specification, whichever variant keeps them. */
  method SameContents(a: C.List, b: S.List, ops: seq<Op>)
    requires a.Valid() && b.Valid() && a.spec == b.spec && S.Represents(b.base, b.spec, b.db, a.rows)
    requires forall op :: op in ops ==> S.Agrees(a.spec, op)
    modifies a, b
    ensures a.Valid() && b.Valid() && a.rows == Steps(a.spec, old(a.rows), ops)
    ensures S.Represents(b.base, b.spec, b.db, a.rows)
    ensures forall vec :: HasItem(a.base, a.db, vec) <==> HasItem(b.base, b.db, vec)
  {
    a.Run(ops);
    b.Run(ops);
    forall vec ensures HasItem(a.base, a.db, vec) <==> HasItem(b.base, b.db, vec) {
      ContentItems(a.base, a.spec, a.sha1, a.db, a.rows, a.idx, a.issued, vec);
      ScanItems(b.base, b.spec, b.db, a.rows, vec);
    }
  }

  // ---------------------------------------------------------------- lists as the comparison reads them

  /** What every row of a list is like: it has its tuple, flags its unique variables as specified, and is no pattern. */
  ghost predicate RowsOk(spec: Vec, rows: Rows) {
    forall t :: t in rows ==> S.Conforms(spec, rows[t]) && NoWildcard(rows[t]) && TupleOf(spec, rows[t]) == Some(t)
  }

  lemma StepRowsOk(spec: Vec, rows: Rows, op: Op)
    requires RowsOk(spec, rows) && S.Agrees(spec, op)
    ensures RowsOk(spec, Step(spec, rows, op))
  {
    if !op.Delete? {
      var t := TupleOf(spec, op.vec).value;
      var all := if op.MergeOp? && t in rows then Merge(op.vec, rows[t]) else op.vec;
      if op.MergeOp? && t in rows {
        S.MergeConforms(spec, op.vec, rows[t]);
        MergeKeepsTuple(spec, op.vec, rows[t]);
      }
      S.FilledConforms(spec, all);
      FilledTuple(spec, all);
    }
  }

  lemma {:induction false} StepsRowsOk(spec: Vec, rows: Rows, ops: seq<Op>)
    requires RowsOk(spec, rows) && forall op :: op in ops ==> S.Agrees(spec, op)
    ensures RowsOk(spec, Steps(spec, rows, ops))
    decreases |ops|
  {
    if ops != [] {
      StepRowsOk(spec, rows, ops[0]);
      StepsRowsOk(spec, Step(spec, rows, ops[0]), ops[1..]);
    }
  }

  /** The items are entries of the list, each read once. */
  ghost predicate Enumerates(base: string, db: Db, items: seq<Item>, places: seq<nat>) {
    && |items| == |places| && NoDup(places)
    && forall k :: 0 <= k < |items| ==> Entry(base, places[k]) in db && db[Entry(base, places[k])] == Vars(items[k].vars)
  }

  /** Whatever a list went through, its items have distinct unique tuples: what the comparison of lists relies on. */
  lemma ContentListIsComparable(base: string, spec: Vec, sha1: string -> string, db: Db, rows: Rows,
                                idx: map<Tuple, nat>, issued: seq<Tuple>, items: seq<Item>, places: seq<nat>)
    requires C.Represents(base, spec, sha1, db, rows, idx, issued) && RowsOk(spec, rows)
    requires Enumerates(base, db, items, places)
    ensures IsList(spec, items)
  {
    forall k | 0 <= k < |items|
      ensures C.InUse(idx, issued, places[k]) && rows[issued[places[k]]] == items[k].vars
    {
      assert C.InUse(idx, issued, places[k]);
      assert C.Stored(base, spec, sha1, db, issued[places[k]], places[k], rows[issued[places[k]]]);
    }
  }

  lemma ScanListIsComparable(base: string, spec: Vec, db: Db, rows: Rows, items: seq<Item>, places: seq<nat>)
    requires S.Represents(base, spec, db, rows) && RowsOk(spec, rows)
    requires Enumerates(base, db, items, places)
    ensures IsList(spec, items)
  {
    hide S.Conforms, TupleOf;
    forall k | 0 <= k < |items|
      ensures S.Conforms(spec, items[k].vars) && NoWildcard(items[k].vars)
      ensures ItemKey(spec, items[k]).Some? && S.Place(base, spec, db, ItemKey(spec, items[k]).value, places[k])
    {
      assert S.RowAt(base, spec, db, rows, places[k]);
      S.SomeTuple(spec, items[k].vars);
    }
  }
}
