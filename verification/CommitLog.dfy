/** The log of a commit: what a run may leave in it, what that does to the plugins, and what follows for every run. */
module CommitLog {
  import opened DbDep
  import opened CommitTrace

  datatype Phase = BeginPhase | CompletePhase | EndPhase | AbortPhase

  /** The plugins: state transformers that report whether they succeeded. */
  datatype Plugins<!S> = Plugins(callback: (Call, S) -> (bool, S), hook: (Phase, S) -> (bool, S))

  datatype Stage = Validating | Committing | Undoing

  /** What a run can be seen to do. */
  datatype Event =
    | Began(ok: bool)
    | Generic(ok: bool)
    | Made(stage: Stage, call: Call, ok: bool)
    | Completed(ok: bool)
    | Copied(source: string, target: string, ok: bool)
    | Ended
    | Aborted

  /** The note of a hook. The results of the end and abort hooks are not looked at. */
  function HookEvent(phase: Phase, ok: bool): Event {
    match phase
    case BeginPhase => Began(ok)
    case CompletePhase => Completed(ok)
    case EndPhase => Ended
    case AbortPhase => Aborted
  }

  // ---------------------------------------------------------------- the log and the plugin state

  /** What one event does to the state of the plugins. */
  function Effect<S>(p: Plugins<S>, e: Event, s: S): S {
    match e
    case Began(_) => p.hook(BeginPhase, s).1
    case Made(_, c, _) => p.callback(c, s).1
    case Completed(_) => p.hook(CompletePhase, s).1
    case Ended => p.hook(EndPhase, s).1
    case Aborted => p.hook(AbortPhase, s).1
    case Generic(_) => s
    case Copied(_, _, _) => s
  }

  /** The event reports what the plugins answered. */
  predicate Reports<S>(p: Plugins<S>, e: Event, s: S) {
    match e
    case Began(ok) => ok == p.hook(BeginPhase, s).0
    case Made(_, c, ok) => ok == p.callback(c, s).0
    case Completed(ok) => ok == p.hook(CompletePhase, s).0
    case _ => true
  }

  /** The state of the plugins after a log. */
  function Replay<S>(p: Plugins<S>, log: seq<Event>, s: S): S {
    if log == [] then s else Effect(p, log[|log| - 1], Replay(p, log[..|log| - 1], s))
  }

  predicate Faithful<S>(p: Plugins<S>, log: seq<Event>, s: S) {
    log == [] || (Faithful(p, log[..|log| - 1], s) && Reports(p, log[|log| - 1], Replay(p, log[..|log| - 1], s)))
  }

  /** One more event. */
  lemma ReplayMore<S>(p: Plugins<S>, log: seq<Event>, e: Event, s: S)
    ensures Replay(p, log + [e], s) == Effect(p, e, Replay(p, log, s))
    ensures Faithful(p, log + [e], s) <==> Faithful(p, log, s) && Reports(p, e, Replay(p, log, s))
  {
    assert (log + [e])[..|log|] == log;
  }

  lemma {:induction false} ReplayConcat<S>(p: Plugins<S>, a: seq<Event>, b: seq<Event>, s: S)
    ensures Replay(p, a + b, s) == Replay(p, b, Replay(p, a, s))
    ensures Faithful(p, a + b, s) <==> Faithful(p, a, s) && Faithful(p, b, Replay(p, a, s))
  {
    if b == [] {
      assert a + b == a;
    } else {
      var n := |b| - 1;
      ReplayConcat(p, a, b[..n], s);
      assert (a + b)[..|a + b| - 1] == a + b[..n];
    }
  }

  // ---------------------------------------------------------------- what a run leaves in the log

  /** Calls that all went well. */
  function Oks(stage: Stage, calls: seq<Call>): seq<Event>
  {
    seq(|calls|, i requires 0 <= i < |calls| => Made(stage, calls[i], true))
  }

  /** The calls were made, whatever they answered. */
  predicate MadeAll(stage: Stage, calls: seq<Call>, events: seq<Event>) {
    && |events| == |calls|
    && forall i :: 0 <= i < |calls| ==> events[i] == Made(stage, calls[i], events[i].Made? && events[i].ok)
  }

  /** Everything that has to succeed before the first commit callback. */
  function Opening(job: Job, vec: seq<DD>): seq<Event> {
    [Began(true), Generic(true)] + Oks(Validating, Pick(job, Check, vec)) + [Completed(true)]
  }

  function Failed(e: Event): Event {
    match e
    case Began(_) => Began(false)
    case Generic(_) => Generic(false)
    case Made(stage, c, _) => Made(stage, c, false)
    case Completed(_) => Completed(false)
    case Copied(a, b, _) => Copied(a, b, false)
    case Ended => Ended
    case Aborted => Aborted
  }

  /** How a run ends: without a commit vector, at step `at` of the opening, rolled back after `done` good calls (all of
      them when it is the copy that fails), at the copy back, or well. */
  datatype Ending =
    | Unplanned
    | Refused(at: nat)
    | RolledBack(done: nat, undo: seq<Event>)
    | CopyBackFailed
    | Done

  predicate Possible(job: Job, vec: seq<DD>, end: Ending) {
    match end
    case Refused(at) => at < |Opening(job, vec)|
    case RolledBack(done, undo) =>
      done <= |Forward(job, vec)| && MadeAll(Undoing, Rollback(job, vec, done), undo)
    case _ => true
  }

  /** The commit callbacks and what stopped them. */
  function Tried(job: Job, vec: seq<DD>, done: nat): seq<Event>
    requires done <= |Forward(job, vec)|
  {
    var f := Forward(job, vec);
    Oks(Committing, f[..done])
    + [if done < |f| then Made(Committing, f[done], false) else Copied(job.candidate, job.running, false)]
  }

  /** The whole log of a run. */
  function EventsOf(job: Job, vec: seq<DD>, end: Ending): seq<Event>
    requires Possible(job, vec, end)
  {
    match end
    case Unplanned => [Aborted]
    case Refused(at) => Opening(job, vec)[..at] + [Failed(Opening(job, vec)[at]), Aborted]
    case RolledBack(done, undo) => Opening(job, vec) + Tried(job, vec, done) + undo + [Aborted]
    case CopyBackFailed => Opening(job, vec) + Oks(Committing, Forward(job, vec))
                           + [Copied(job.candidate, job.running, true), Copied(job.running, job.candidate, false), Aborted]
    case Done => Opening(job, vec) + Oks(Committing, Forward(job, vec))
                 + [Copied(job.candidate, job.running, true), Copied(job.running, job.candidate, true), Ended]
  }

  /** Exactly one of the two closing hooks runs, as the last thing, and it is the end hook just when the run went well. */
  lemma OneClosing(job: Job, vec: seq<DD>, end: Ending)
    requires Possible(job, vec, end)
    ensures var log := EventsOf(job, vec, end);
            && log != [] && log[|log| - 1] == (if end.Done? then Ended else Aborted)
            && forall i :: 0 <= i < |log| - 1 ==> !log[i].Ended? && !log[i].Aborted?
  {
    hide Pick, Forward, Rollback;
    var o := Opening(job, vec);
    assert forall i :: 0 <= i < |o| ==> !o[i].Ended? && !o[i].Aborted?;
    hide Opening;
  }

  predicate IsFailure(e: Event) {
    e == Failed(e) && !e.Ended? && !e.Aborted?
  }

  lemma OpeningOnlyValidates(job: Job, vec: seq<DD>, i: nat)
    requires i < |Opening(job, vec)|
    ensures var e := Opening(job, vec)[i]; e.Made? ==> e.stage.Validating?
  {
    hide Pick;
  }

  /** A commit callback comes after the whole opening, every step of which succeeded; an undo comes after a failure. */
  lemma NoEarlyCommit(job: Job, vec: seq<DD>, end: Ending, i: nat)
    requires Possible(job, vec, end) && i < |EventsOf(job, vec, end)|
    requires var e := EventsOf(job, vec, end)[i]; e.Made? && !e.stage.Validating?
    ensures var log := EventsOf(job, vec, end);
            && Opening(job, vec) <= log[..i]
            && (log[i].stage.Undoing? ==> end.RolledBack? && exists k :: 0 <= k < i && IsFailure(log[k]))
  {
    hide Opening, Forward, Rollback;
    var log, o := EventsOf(job, vec, end), Opening(job, vec);
    if end.Refused? {
      OpeningOnlyValidates(job, vec, if i < end.at then i else end.at);
    } else {
      if i < |o| {
        OpeningOnlyValidates(job, vec, i);
      }
      assert log[..|o|] == o;
      if log[i].stage.Undoing? {
        var t := Tried(job, vec, end.done);
        assert log[|o|..][..|t|] == t;
        assert log[|o| + |t| - 1] == t[|t| - 1];
      }
    }
  }

  /** Every dependency that validates was asked, and agreed, before the first commit callback. */
  lemma AllValidated(job: Job, vec: seq<DD>, dd: DD)
    requires dd in vec && !dd.dep.cb.CommitCb?
    ensures Made(Validating, CallFor(job, OpOf(dd.ent), dd), true) in Opening(job, vec)
  {
    var c := CallFor(job, OpOf(dd.ent), dd);
    PickMembers(job, Check, vec, c);
    var calls := Pick(job, Check, vec);
    var k :| 0 <= k < |calls| && calls[k] == c;
    assert Opening(job, vec)[2 + k] == Made(Validating, c, true);
  }

  // ---------------------------------------------------------------- restoring the plugins

  /** A successful call is undone by its inverse. */
  ghost predicate Undoes<S(!new)>(p: Plugins<S>, c: Call) {
    forall s :: p.callback(c, s).0 ==> p.callback(Inverse(c), p.callback(c, s).1).1 == s
  }

  /** A call that fails changes nothing. */
  ghost predicate FailsClean<S(!new)>(p: Plugins<S>, c: Call) {
    forall s :: !p.callback(c, s).0 ==> p.callback(c, s).1 == s
  }

  /** Good calls followed by their mirror leave the plugins where they were. */
  lemma {:induction false} MirrorRestores<S(!new)>(p: Plugins<S>, calls: seq<Call>, undo: seq<Event>, s: S)
    requires forall c :: c in calls ==> Undoes(p, c)
    requires Faithful(p, Oks(Committing, calls), s) && MadeAll(Undoing, Undone(calls), undo)
    ensures Replay(p, undo, Replay(p, Oks(Committing, calls), s)) == s
  {
    if calls == [] {
      assert undo == [];
    } else {
      var n := |calls| - 1;
      var init := calls[..n];
      assert Oks(Committing, calls)[..n] == Oks(Committing, init);
      assert MadeAll(Undoing, Undone(init), undo[1..]);
      MirrorRestores(p, init, undo[1..], s);
      assert undo[0].call == Inverse(calls[n]);
      FirstUndo(p, Replay(p, Oks(Committing, init), s), calls[n], undo);
      assert Oks(Committing, calls)[n] == Made(Committing, calls[n], true);
    }
  }

  lemma FirstUndo<S(!new)>(p: Plugins<S>, s: S, c: Call, undo: seq<Event>)
    requires Undoes(p, c) && p.callback(c, s).0
    requires undo != [] && undo[0].Made? && undo[0].call == Inverse(c)
    ensures Replay(p, undo, p.callback(c, s).1) == Replay(p, undo[1..], s)
  {
    assert undo == undo[..1] + undo[1..];
    assert undo[..1][..0] == [];
    ReplayConcat(p, undo[..1], undo[1..], p.callback(c, s).1);
  }

  /** A commit that is rolled back, other than from the deletion walk, leaves the plugins as the opening left them. */
  lemma RollbackRestores<S(!new)>(p: Plugins<S>, job: Job, vec: seq<DD>, end: Ending, s: S)
    requires end.RolledBack? && Possible(job, vec, end)
    requires forall c :: c in Forward(job, vec) ==> Undoes(p, c) && FailsClean(p, c)
    requires job.order == 0 || end.done == 0 || |Removals(job, vec)| <= end.done
    requires Faithful(p, EventsOf(job, vec, end), s)
    ensures Replay(p, EventsOf(job, vec, end), s) == p.hook(AbortPhase, Replay(p, Opening(job, vec), s)).1
  {
    hide Opening, Forward, Rollback, Removals;
    var f, o, t := Forward(job, vec), Opening(job, vec), Tried(job, vec, end.done);
    var log := EventsOf(job, vec, end);
    assert log[..|log| - 1] == o + t + end.undo;
    ReplayConcat(p, o + t, end.undo, s);
    ReplayConcat(p, o, t, s);
    RollbackIsMirror(job, vec, end.done);
    var ready := Replay(p, o, s);
    TriedCounts(p, job, vec, end.done, ready);
    MirrorRestores(p, f[..end.done], end.undo, ready);
  }

  /** What stops the commit leaves the plugins alone. */
  lemma TriedCounts<S(!new)>(p: Plugins<S>, job: Job, vec: seq<DD>, done: nat, s: S)
    requires done <= |Forward(job, vec)| && Faithful(p, Tried(job, vec, done), s)
    requires forall c :: c in Forward(job, vec) ==> FailsClean(p, c)
    ensures Faithful(p, Oks(Committing, Forward(job, vec)[..done]), s)
    ensures Replay(p, Tried(job, vec, done), s) == Replay(p, Oks(Committing, Forward(job, vec)[..done]), s)
  {
    hide Forward;
    var f, t := Forward(job, vec), Tried(job, vec, done);
    assert t[..|t| - 1] == Oks(Committing, f[..done]);
    if done < |f| {
      assert FailsClean(p, f[done]);
    }
  }
}
