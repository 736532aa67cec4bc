/** When a commit that is rolled back leaves the plugins as they were: exactly when it did not stop inside the deletion
    walk of orders 1 and 2. */
module CommitRestore {
  import opened KeyPattern
  import opened Sorting
  import opened DbDiff
  import opened DbDep
  import opened CommitVec
  import opened CommitTrace
  import opened DatabaseDiff
  import opened CommitLog
  import opened CommitSteps

  /** The plugins of a commit that can be undone: a call is taken back by its inverse, and one that fails does nothing. */
  ghost predicate Undoable<S(!new)>(p: Plugins<S>, job: Job, vec: seq<DD>) {
    forall c :: c in Forward(job, vec) ==> Undoes(p, c) && FailsClean(p, c)
  }

  /** The run ends as the opening left the plugins, but for the abort hook. */
  predicate Restored<S(==)>(p: Plugins<S>, job: Job, vec: seq<DD>, end: Ending, s: S)
    requires Possible(job, vec, end)
  {
    Replay(p, EventsOf(job, vec, end), s) == p.hook(AbortPhase, Replay(p, Opening(job, vec), s)).1
  }

  /** A run of undoable plugins that fails after `k` good calls and is rolled back. */
  ghost predicate CanFail<S(!new)>(p: Plugins<S>, job: Job, vec: seq<DD>, k: nat, end: Ending, s: S) {
    && end.RolledBack? && end.done == k && Possible(job, vec, end)
    && Undoable(p, job, vec) && Faithful(p, EventsOf(job, vec, end), s)
  }

  /** Whatever the undoable plugins do, a commit that fails after `k` good calls restores them. */
  ghost predicate AlwaysRestored(job: Job, vec: seq<DD>, k: nat) {
    forall p: Plugins<Counter>, end: Ending, s: Counter ::
      CanFail(p, job, vec, k, end, s) ==> Restored(p, job, vec, end, s)
  }

  // ---------------------------------------------------------------- a plugin that counts

  /** Nothing is counted before the complete hook. */
  datatype Counter = Counter(armed: bool, n: int)

  /** One more for a deletion and one less for an addition; call `f` is refused at count `k`. */
  function Count(f: Call, k: int, c: Call, s: Counter): (bool, Counter) {
    if !s.armed then (true, s)
    else match c.op
      case CoAdd => (true, Counter(true, s.n - 1))
      case CoDelete => if c == f && s.n == k then (false, s) else (true, Counter(true, s.n + 1))
      case CoChange => (true, s)
  }

  function Counting(f: Call, k: int): Plugins<Counter> {
    Plugins((c: Call, s: Counter) => Count(f, k, c, s),
            (h: Phase, s: Counter) => (true, if h.CompletePhase? then Counter(true, 0) else s))
  }

  lemma CountingUndoes(f: Call, k: int, c: Call)
    requires Inverse(c) != f
    ensures Undoes(Counting(f, k), c) && FailsClean(Counting(f, k), c)
  {
    var p := Counting(f, k);
    forall s | p.callback(c, s).0 ensures p.callback(Inverse(c), p.callback(c, s).1).1 == s {
    }
  }

  /** Before the complete hook. */
  lemma {:induction false} NotCounted(f: Call, k: int, calls: seq<Call>, s: Counter)
    requires !s.armed
    ensures Replay(Counting(f, k), Oks(Validating, calls), s) == s
    ensures Faithful(Counting(f, k), Oks(Validating, calls), s)
  {
    if calls != [] {
      var n := |calls| - 1;
      NotCounted(f, k, calls[..n], s);
      hide Replay, Faithful, Oks;
      OksSnoc(Validating, calls[..n], calls[n]);
      assert calls == calls[..n] + [calls[n]];
      ReplayMore(Counting(f, k), Oks(Validating, calls[..n]), Made(Validating, calls[n], true), s);
    }
  }

  lemma CountingOpening(f: Call, k: int, job: Job, vec: seq<DD>, s: Counter)
    requires !s.armed
    ensures Replay(Counting(f, k), Opening(job, vec), s) == Counter(true, 0)
    ensures Faithful(Counting(f, k), Opening(job, vec), s)
  {
    var p, calls := Counting(f, k), Pick(job, Check, vec);
    var start := [Began(true), Generic(true)];
    assert [] + [Began(true)] + [Generic(true)] == start;
    ReplayMore(p, [], Began(true), s);
    ReplayMore(p, [] + [Began(true)], Generic(true), s);
    assert Replay(p, start, s) == s && Faithful(p, start, s);
    NotCounted(f, k, calls, s);
    ReplayConcat(p, start, Oks(Validating, calls), s);
    ReplayMore(p, start + Oks(Validating, calls), Completed(true), s);
  }

  /** Deletions are counted, unless the one to refuse comes at its count. */
  lemma {:induction false} Counted(f: Call, k: int, stage: Stage, calls: seq<Call>, n: int)
    requires forall c :: c in calls ==> c.op.CoDelete?
    requires n + |calls| <= k || f !in calls
    ensures Replay(Counting(f, k), Oks(stage, calls), Counter(true, n)) == Counter(true, n + |calls|)
    ensures Faithful(Counting(f, k), Oks(stage, calls), Counter(true, n))
  {
    if calls != [] {
      var m := |calls| - 1;
      var last := calls[m];
      assert calls == calls[..m] + [last];
      Counted(f, k, stage, calls[..m], n);
      hide Replay, Faithful, Oks;
      OksSnoc(stage, calls[..m], last);
      ReplayMore(Counting(f, k), Oks(stage, calls[..m]), Made(stage, last, true), Counter(true, n));
    }
  }

  /** Every call of a commit goes from the running database to the candidate. */
  lemma ForwardBases(job: Job, vec: seq<DD>, c: Call)
    requires c in Forward(job, vec)
    ensures c.sourceDb == job.running && c.targetDb == job.candidate
  {
    var p, q := Pick(job, Remove, vec), Pick(job, Insert, vec);
    assert c in Pick(job, Whole, vec) || c in Rev(p) || c in q;
    assert c in Rev(p) ==> c in p;
    PickMembers(job, Whole, vec, c);
    PickMembers(job, Remove, vec, c);
    PickMembers(job, Insert, vec, c);
  }

  /** The calls of a deletion walk that was cut short, and those of its rollback, are deletions. */
  lemma CutIsDeletions(job: Job, vec: seq<DD>, k: nat)
    requires job.order != 0 && k < |Removals(job, vec)| && job.running != job.candidate
    ensures |Removals(job, vec)| <= |Forward(job, vec)|
    ensures var f := Forward(job, vec);
            f[k].op.CoDelete? && (forall c :: c in f[..k] ==> c.op.CoDelete?)
            && forall c :: c in Swaps(Rev(f[..k])) ==> c.op.CoDelete? && c != f[k]
  {
    hide Pick;
    var f := Forward(job, vec);
    forall i | 0 <= i <= k ensures f[i].op.CoDelete? && f[i].sourceDb == job.running && f[i].targetDb == job.candidate {
      WalkKinds(job, vec, i);
      ForwardBases(job, vec, f[i]);
    }
  }

  /** In every commit vector, and wherever in it the deletion walk fails after its first call, there are undoable plugins
      that the rollback does not restore: it deletes again where it should add. */
  lemma DeletionWalkNotRestored(job: Job, vec: seq<DD>, k: nat)
    returns (p: Plugins<Counter>, end: Ending, s: Counter)
    requires job.order != 0 && 0 < k < |Removals(job, vec)| && job.running != job.candidate
    ensures CanFail(p, job, vec, k, end, s) && !Restored(p, job, vec, end, s)
  {
    hide Pick, Opening, Removals, Forward, Replay, Faithful, Oks;
    CutIsDeletions(job, vec, k);
    var f := Forward(job, vec);
    p, s := Counting(f[k], k), Counter(false, 0);
    end := RolledBack(k, Oks(Undoing, Swaps(Rev(f[..k]))));
    assert Swaps(Rev(f[..k])) == Rollback(job, vec, k);
    AllMade(Undoing, Rollback(job, vec, k));
    forall c | c in f ensures Undoes(p, c) && FailsClean(p, c) {
      ForwardBases(job, vec, c);
      ForwardBases(job, vec, f[k]);
      CountingUndoes(f[k], k, c);
    }
    CountingOpening(f[k], k, job, vec, s);
    CountedTwice(f[..k], f[k], k);
    var o, tried := Opening(job, vec), Tried(job, vec, k);
    ReplayConcat(p, o, tried, s);
    ReplayConcat(p, o + tried, end.undo, s);
    ReplayMore(p, o + tried + end.undo, Aborted, s);
  }

  lemma AllMade(stage: Stage, calls: seq<Call>)
    ensures MadeAll(stage, calls, Oks(stage, calls))
  {}

  /** The deletions up to the refused one count, and their repetition counts on. */
  lemma CountedTwice(made: seq<Call>, f: Call, k: nat)
    requires |made| == k && forall c :: c in made ==> c.op.CoDelete?
    requires f.op.CoDelete? && forall c :: c in Swaps(Rev(made)) ==> c.op.CoDelete? && c != f
    ensures var p, tried := Counting(f, k), Oks(Committing, made) + [Made(Committing, f, false)];
            && Replay(p, tried, Counter(true, 0)) == Counter(true, k) && Faithful(p, tried, Counter(true, 0))
            && var again := Oks(Undoing, Swaps(Rev(made)));
               Replay(p, again, Counter(true, k)) == Counter(true, 2 * k) && Faithful(p, again, Counter(true, k))
  {
    hide Replay, Faithful, Oks;
    Counted(f, k, Committing, made, 0);
    ReplayMore(Counting(f, k), Oks(Committing, made), Made(Committing, f, false), Counter(true, 0));
    Counted(f, k, Undoing, Swaps(Rev(made)), k);
  }

  /** The condition is exact: undoable plugins are restored, whatever they do, if and only if the commit did not fail
      inside a deletion walk after its first call. */
  lemma RestoredExactly(job: Job, vec: seq<DD>, k: nat)
    requires k <= |Forward(job, vec)| && job.running != job.candidate
    ensures AlwaysRestored(job, vec, k) <==> job.order == 0 || k == 0 || |Removals(job, vec)| <= k
  {
    hide Forward, Removals, Faithful, Replay, EventsOf, Opening;
    if job.order == 0 || k == 0 || |Removals(job, vec)| <= k {
      forall p: Plugins<Counter>, end: Ending, s: Counter | CanFail(p, job, vec, k, end, s)
        ensures Restored(p, job, vec, end, s)
      {
        RollbackRestores(p, job, vec, end, s);
      }
    } else {
      var p, end, s := DeletionWalkNotRestored(job, vec, k);
    }
  }

  // ---------------------------------------------------------------- such commits are planned

  /** Two keys are deleted: a commit vector that two databases really have, with a deletion walk that can fail after its
      first call. */
  lemma DeletionsPlanned() returns (job: Job, dbspec: seq<SpecKey>, deps: seq<Dep>, files: map<string, Content>,
                                    ents: seq<DiffEnt>, vec: seq<DD>)
    ensures job.order == 1 && Planned(job, dbspec, deps, files, ents, vec)
    ensures |Removals(job, vec)| == 2 && !AlwaysRestored(job, vec, 1)
  {
    var dep := Dep(0, 0, false, CommitCb, "*");
    job, deps := Job(1, "running", "candidate"), [dep];
    dbspec := [SpecKey("a", []), SpecKey("b", [])];
    var here, gone := Content(map["a" := [], "b" := []], map[]), Content(map[], map[]);
    files := map["running" := here, "candidate" := gone];
    var a, b := First(Item("a", [])), First(Item("b", []));
    ents, vec := [a, b], [Pair(dep, [a, b], 0), Pair(dep, [a, b], 1)];
    TwoKeysDiffer(here, gone, dbspec, ents);
    TwoKeysConcern(dep, ents, vec);
    PickPair(job, Remove, vec[0], vec[1]);
    assert vec == [vec[0], vec[1]];
    RestoredExactly(job, vec, 1);
  }

  lemma TwoKeysDiffer(here: Content, gone: Content, dbspec: seq<SpecKey>, ents: seq<DiffEnt>)
    requires here.plain == map["a" := [], "b" := []] && gone.plain == map[]
    requires dbspec == [SpecKey("a", []), SpecKey("b", [])]
    requires ents == [First(Item("a", [])), First(Item("b", []))]
    ensures DiffOf(here, gone, dbspec, ents)
  {
    var parts := [[ents[0]], [ents[1]]];
    assert parts[..1] == [[ents[0]]] && parts[..1][..0] == [];
    assert Flatten(parts[..1]) == [ents[0]];
    assert ents == Flatten(parts);
    assert PartOf(here, gone, dbspec[0], parts[0]) && PartOf(here, gone, dbspec[1], parts[1]);
  }

  lemma TwoKeysConcern(dep: Dep, ents: seq<DiffEnt>, vec: seq<DD>)
    requires dep == Dep(0, 0, false, CommitCb, "*") && |ents| == 2 && ents[0].First? && ents[1].First?
    requires vec == [Pair(dep, ents, 0), Pair(dep, ents, 1)]
    ensures Sorted(ByRow(), vec) && Sound([dep], ents, vec) && OncePerSlot(vec) && Complete([dep], ents, vec)
  {
    forall k | 0 <= k < 2 ensures Concerns(dep, ents[k]) && Covered(vec, SlotOf(dep, ents[k], k)) {
      assert Lang("", KeyOf(ents[k])[..0]);
      assert Init("*") == "" && Starred("*");
      assert vec[k] in vec && Slotted(vec[k]) == SlotOf(dep, ents[k], k);
    }
    forall dd | dd in vec ensures SoundEntry([dep], ents, dd) {
      assert dd == vec[0] || dd == vec[1];
    }
  }

  lemma PickPair(job: Job, pass: Pass, a: DD, b: DD)
    ensures Pick(job, pass, [a, b]) == ToSeq(CallOf(job, pass, a)) + ToSeq(CallOf(job, pass, b))
  {
    PickConcat(job, pass, [], [a]);
    assert [a, b][..1] == [] + [a] && [a][..0] == [];
  }
}
