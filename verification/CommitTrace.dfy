/** The calls a commit makes: which callbacks run, in which order, and how a failed commit takes them back. */
module CommitTrace {
  import opened Basics
  import opened Cvec
  import opened Sorting
  import opened DbDiff
  import opened DbDep
  import opened CommitVec

  datatype CommitOp = CoAdd | CoDelete | CoChange

  /** One call of a plugin: the dependency whose callback runs, and the commit data it gets. */
  datatype Call = Call(dep: Dep, op: CommitOp, sourceDb: string, targetDb: string,
                       sourceKey: Option<string>, targetKey: Option<string>,
                       sourceVec: Option<Vec>, targetVec: Option<Vec>)

  /** The commit at hand: the configured order and the names of the two databases. */
  datatype Job = Job(order: nat, running: string, candidate: string)

  /** The walks over the commit vector: the validation, the single walk of order 0, and the two walks of the others. */
  datatype Pass = Check | Whole | Remove | Insert

  /** dbdiff2commit_op */
  function OpOf(e: DiffEnt): CommitOp {
    match e
    case First(_) => CoDelete
    case Second(_) => CoAdd
    case Both(_, _) => CoChange
  }

  function CallFor(job: Job, op: CommitOp, dd: DD): Call {
    Call(dd.dep, op, job.running, job.candidate, dd.mkey1, dd.mkey2,
         if dd.ent.Second? then None else Some(dd.ent.one.vars),
         if dd.ent.First? then None else Some(dd.ent.two.vars))
  }

  /** What one walk does with one entry of the vector. */
  function CallOf(job: Job, pass: Pass, dd: DD): Option<Call> {
    var op := OpOf(dd.ent);
    match pass
    case Check => if dd.dep.cb.CommitCb? then None else Some(CallFor(job, op, dd))
    case Whole => if dd.dep.cb.ValidateCb? then None else Some(CallFor(job, op, dd))
    case Remove =>
      if dd.dep.cb.ValidateCb? || op.CoAdd? || (op.CoChange? && job.order != 2) then None
      else Some(CallFor(job, CoDelete, dd))
    case Insert =>
      if dd.dep.cb.ValidateCb? || op.CoDelete? then None
      else Some(CallFor(job, if job.order == 2 then CoAdd else op, dd))
  }

  function ToSeq(c: Option<Call>): seq<Call> {
    if c.Some? then [c.value] else []
  }

  /** The calls of a walk, in the order of the vector. */
  function Pick(job: Job, pass: Pass, vec: seq<DD>): seq<Call> {
    if vec == [] then [] else Pick(job, pass, vec[..|vec| - 1]) + ToSeq(CallOf(job, pass, vec[|vec| - 1]))
  }

  function Rev<T>(s: seq<T>): seq<T>
  {
    seq(|s|, i requires 0 <= i < |s| => s[|s| - 1 - i])
  }

  /** Source and target exchanged. */
  function Swap(c: Call): Call {
    Call(c.dep, c.op, c.targetDb, c.sourceDb, c.targetKey, c.sourceKey, c.targetVec, c.sourceVec)
  }

  /** Source and target exchanged, and ADD with DELETE. */
  function Inverse(c: Call): Call {
    Swap(c).(op := match c.op case CoAdd => CoDelete case CoDelete => CoAdd case CoChange => CoChange)
  }

  function Swaps(s: seq<Call>): seq<Call>
  {
    seq(|s|, i requires 0 <= i < |s| => Swap(s[i]))
  }

  function Inverses(s: seq<Call>): seq<Call>
  {
    seq(|s|, i requires 0 <= i < |s| => Inverse(s[i]))
  }

  /** The deletions of orders 1 and 2: the vector backwards. */
  function Removals(job: Job, vec: seq<DD>): seq<Call> {
    Rev(Pick(job, Remove, vec))
  }

  /** All the calls of a commit in which nothing fails. */
  function Forward(job: Job, vec: seq<DD>): seq<Call> {
    if job.order == 0 then Pick(job, Whole, vec) else Removals(job, vec) + Pick(job, Insert, vec)
  }

  /** The calls that take `calls` back: last first, each inverted. */
  function Undone(calls: seq<Call>): seq<Call> {
    Rev(Inverses(calls))
  }

  /** What the code issues when only the first `k` calls went well: `Undone` of them, except that a failed deletion
      walk repeats the deletions with source and target exchanged. */
  function Rollback(job: Job, vec: seq<DD>, k: nat): seq<Call>
    requires k <= |Forward(job, vec)|
  {
    var made := Forward(job, vec)[..k];
    if job.order == 0 || |Removals(job, vec)| <= k then Undone(made) else Swaps(Rev(made))
  }

  /** When the rollback is the exact mirror of what was done: unless a deletion walk failed after its first call. */
  lemma RollbackIsMirror(job: Job, vec: seq<DD>, k: nat)
    requires k <= |Forward(job, vec)|
    ensures Rollback(job, vec, k) == Undone(Forward(job, vec)[..k]) <==>
              job.order == 0 || k == 0 || |Removals(job, vec)| <= k
  {
    hide Pick, CallOf;
    if job.order != 0 && 0 < k < |Removals(job, vec)| {
      var first := Forward(job, vec)[0];
      assert Removals(job, vec)[0] == first;
      assert first in Pick(job, Remove, vec);
      PickOps(job, Remove, vec, first);
      assert Rollback(job, vec, k)[k - 1] == Swap(first);
      assert Undone(Forward(job, vec)[..k])[k - 1] == Inverse(first);
    }
  }

  // ---------------------------------------------------------------- walks

  lemma PickSnoc(job: Job, pass: Pass, a: seq<DD>, x: DD)
    ensures Pick(job, pass, a + [x]) == Pick(job, pass, a) + ToSeq(CallOf(job, pass, x))
  {
    hide CallOf, ToSeq;
    assert (a + [x])[..|a|] == a;
  }

  lemma {:induction false} PickConcat(job: Job, pass: Pass, a: seq<DD>, b: seq<DD>)
    ensures Pick(job, pass, a + b) == Pick(job, pass, a) + Pick(job, pass, b)
  {
    if b == [] {
      assert a + b == a;
    } else {
      var n := |b| - 1;
      PickConcat(job, pass, a, b[..n]);
      hide Pick;
      ConcatSnoc(job, pass, a, b[..n], b[n]);
      assert b[..n] + [b[n]] == b;
    }
  }

  lemma ConcatSnoc(job: Job, pass: Pass, a: seq<DD>, b: seq<DD>, x: DD)
    requires Pick(job, pass, a + b) == Pick(job, pass, a) + Pick(job, pass, b)
    ensures Pick(job, pass, a + (b + [x])) == Pick(job, pass, a) + Pick(job, pass, b + [x])
  {
    hide Pick, CallOf, ToSeq;
    PickSnoc(job, pass, a + b, x);
    PickSnoc(job, pass, b, x);
    ConcatAssoc(a, b, [x]);
    ConcatAssoc(Pick(job, pass, a), Pick(job, pass, b), ToSeq(CallOf(job, pass, x)));
  }

  /** One more entry at the end, and one more in front. */
  lemma PickStep(job: Job, pass: Pass, vec: seq<DD>, i: nat, j: nat)
    requires i <= j < |vec|
    ensures Pick(job, pass, vec[i..j + 1]) == Pick(job, pass, vec[i..j]) + ToSeq(CallOf(job, pass, vec[j]))
  {
    assert vec[i..j + 1][..j - i] == vec[i..j];
  }

  lemma PickStepDown(job: Job, pass: Pass, vec: seq<DD>, i: nat, j: nat)
    requires i < j <= |vec|
    ensures Pick(job, pass, vec[i..j]) == ToSeq(CallOf(job, pass, vec[i])) + Pick(job, pass, vec[i + 1..j])
  {
    assert vec[i..j] == [vec[i]] + vec[i + 1..j];
    PickConcat(job, pass, [vec[i]], vec[i + 1..j]);
    assert [vec[i]][..0] == [];
  }

  /** The walk makes a call exactly for the entries that have one. */
  lemma {:induction false} PickMembers(job: Job, pass: Pass, vec: seq<DD>, c: Call)
    ensures c in Pick(job, pass, vec) <==> exists dd :: dd in vec && CallOf(job, pass, dd) == Some(c)
  {
    if vec != [] {
      var n := |vec| - 1;
      PickMembers(job, pass, vec[..n], c);
      assert vec == vec[..n] + [vec[n]];
      assert vec[n] in vec;
    }
  }

  lemma PickOps(job: Job, pass: Pass, vec: seq<DD>, c: Call)
    requires c in Pick(job, pass, vec)
    ensures pass.Remove? ==> c.op.CoDelete?
    ensures pass.Insert? ==> !c.op.CoDelete? && (job.order == 2 ==> c.op.CoAdd?)
  {
    PickMembers(job, pass, vec, c);
  }

  lemma NoneLower(job: Job, pass: Pass, vec: seq<DD>, c: Call)
    requires vec != [] && Sorted(ByRow(), vec) && c in Pick(job, pass, vec[..|vec| - 1])
    ensures c.dep.row <= vec[|vec| - 1].dep.row
  {
    hide Pick;
    var n := |vec| - 1;
    PickMembers(job, pass, vec[..n], c);
    var dd :| dd in vec[..n] && CallOf(job, pass, dd) == Some(c);
    var k :| 0 <= k < n && vec[k] == dd;
    assert ByRow()(vec[k], vec[n]) <= 0;
  }

  ghost predicate RowsRise(calls: seq<Call>) {
    forall i, j :: 0 <= i < j < |calls| ==> calls[i].dep.row <= calls[j].dep.row
  }

  /** A walk along a vector sorted by priority makes its calls in that order. */
  lemma {:induction false} PickSorted(job: Job, pass: Pass, vec: seq<DD>)
    requires Sorted(ByRow(), vec)
    ensures RowsRise(Pick(job, pass, vec))
  {
    if vec != [] {
      var n := |vec| - 1;
      PickSorted(job, pass, vec[..n]);
      var p := Pick(job, pass, vec[..n]);
      forall i | 0 <= i < |p| ensures p[i].dep.row <= vec[n].dep.row {
        assert p[i] in p;
        NoneLower(job, pass, vec, p[i]);
      }
      var last := CallOf(job, pass, vec[n]);
      assert last.Some? ==> last.value.dep == vec[n].dep;
      assert RowsRise(p + ToSeq(last));
    }
  }

  /** The first walk of orders 1 and 2 makes the deletions, the second everything else. */
  lemma WalkKinds(job: Job, vec: seq<DD>, k: nat)
    requires job.order != 0 && k < |Forward(job, vec)|
    ensures var c := Forward(job, vec)[k];
            (c.op.CoDelete? <==> k < |Removals(job, vec)|) && (job.order == 2 ==> !c.op.CoChange?)
  {
    hide Pick, CallOf;
    var c, r := Forward(job, vec)[k], Removals(job, vec);
    if k < |r| {
      assert r[k] == c && c in Pick(job, Remove, vec);
      PickOps(job, Remove, vec, c);
    } else {
      assert Pick(job, Insert, vec)[k - |r|] == c;
      PickOps(job, Insert, vec, c);
    }
  }

  /** In orders 1 and 2 every deletion, by falling priority, comes before every other call, by rising priority; order 2
      has no CHANGE left. */
  lemma DeletesFirst(job: Job, vec: seq<DD>, i: nat, j: nat)
    requires job.order != 0 && Sorted(ByRow(), vec) && i < j < |Forward(job, vec)|
    ensures var f := Forward(job, vec);
            && (f[j].op.CoDelete? ==> f[i].op.CoDelete? && f[i].dep.row >= f[j].dep.row)
            && (!f[i].op.CoDelete? ==> !f[j].op.CoDelete? && f[i].dep.row <= f[j].dep.row)
    ensures job.order == 2 ==> !Forward(job, vec)[i].op.CoChange?
  {
    hide Pick, CallOf;
    var n := |Removals(job, vec)|;
    WalkKinds(job, vec, i);
    WalkKinds(job, vec, j);
    if j < n {
      PickSorted(job, Remove, vec);
      assert Pick(job, Remove, vec)[n - 1 - j].dep.row <= Pick(job, Remove, vec)[n - 1 - i].dep.row;
    } else if n <= i {
      PickSorted(job, Insert, vec);
      assert Pick(job, Insert, vec)[i - n].dep.row <= Pick(job, Insert, vec)[j - n].dep.row;
    }
  }

  /** Every entry whose dependency commits gets its call: a CHANGE one call in orders 0 and 1, and in order 2 a DELETE
      and later an ADD. */
  lemma EveryEntryCommits(job: Job, vec: seq<DD>, dd: DD)
    requires dd in vec && !dd.dep.cb.ValidateCb?
    ensures var f := Forward(job, vec); var op := OpOf(dd.ent);
            if job.order == 2 && op.CoChange? then CallFor(job, CoDelete, dd) in f && CallFor(job, CoAdd, dd) in f
            else CallFor(job, op, dd) in f
  {
    var f, op := Forward(job, vec), OpOf(dd.ent);
    if job.order == 0 {
      PickMembers(job, Whole, vec, CallFor(job, op, dd));
    } else {
      var d := CallFor(job, CoDelete, dd);
      PickMembers(job, Remove, vec, d);
      var p := Pick(job, Remove, vec);
      if d in p {
        var k :| 0 <= k < |p| && p[k] == d;
        assert Removals(job, vec)[|p| - 1 - k] == d;
      }
      PickMembers(job, Insert, vec, CallFor(job, if job.order == 2 then CoAdd else op, dd));
    }
  }

  // ---------------------------------------------------------------- walks cut short

  /** A walk stopped at entry `i` has made the first calls of the whole walk, and was at the next one. */
  lemma CutWalk(job: Job, pass: Pass, vec: seq<DD>, i: nat)
    requires i <= |vec|
    ensures var p, q := Pick(job, pass, vec), Pick(job, pass, vec[..i]);
            && q <= p
            && (i < |vec| && CallOf(job, pass, vec[i]).Some? ==>
                  |q| < |p| && p[|q|] == CallOf(job, pass, vec[i]).value)
  {
    hide Pick, CallOf;
    assert vec == vec[..i] + vec[i..];
    PickConcat(job, pass, vec[..i], vec[i..]);
    if i < |vec| {
      PickStepDown(job, pass, vec, i, |vec|);
      assert vec[i..|vec|] == vec[i..];
    }
  }

  /** The same for a walk from the end. */
  lemma CutRemovals(job: Job, vec: seq<DD>, i: nat)
    requires i < |vec|
    ensures var r, q := Removals(job, vec), Rev(Pick(job, Remove, vec[i + 1..]));
            && q <= r
            && (CallOf(job, Remove, vec[i]).Some? ==> |q| < |r| && r[|q|] == CallOf(job, Remove, vec[i]).value)
  {
    hide Pick, CallOf;
    assert vec == vec[..i] + vec[i..];
    PickConcat(job, Remove, vec[..i], vec[i..]);
    PickStepDown(job, Remove, vec, i, |vec|);
    assert vec[i..|vec|] == vec[i..] && vec[i + 1..|vec|] == vec[i + 1..];
  }

  lemma RevCons(c: Call, p: seq<Call>)
    ensures Rev([c] + p) == Rev(p) + [c]
  {}

  lemma UndoneCons(c: Call, p: seq<Call>)
    ensures Undone([c] + p) == Undone(p) + [Inverse(c)]
  {}

  lemma InversesSnoc(p: seq<Call>, c: Call)
    ensures Inverses(p + [c]) == Inverses(p) + [Inverse(c)]
  {}

  lemma SwapsSnoc(p: seq<Call>, c: Call)
    ensures Swaps(p + [c]) == Swaps(p) + [Swap(c)]
  {}

  lemma UndoneConcat(a: seq<Call>, b: seq<Call>)
    ensures Undone(a + b) == Undone(b) + Undone(a)
  {}

  lemma UndoneReversed(a: seq<Call>)
    ensures Undone(Rev(a)) == Inverses(a) && Rev(Rev(a)) == a
  {}
}
