/** The candidate lock: the handlers of client messages that take it, release it or have to respect it. */
module Lock {
  import opened Basics

  datatype Msg =
    | Change(db: string)
    | Load(replace: bool, db: string)
    | InitDb(db: string)
    | Rm(file: string)
    | Copy(source: string, target: string)
    | LockDb(db: string)
    | UnlockDb(db: string)
    | Kill(victim: int)

  /** Who holds the lock (nobody: 0), the databases, and the connected clients. */
  datatype State<D> = State(locked: int, files: map<string, D>, clients: seq<int>)

  /** Only the named file may differ. */
  ghost predicate OnlyChanges<D>(name: string, a: map<string, D>, b: map<string, D>) {
    forall f :: f != name ==> (f in a <==> f in b) && (f in a ==> a[f] == b[f])
  }

  /** The candidate is not set, or it is the file asked for and another client has locked it. */
  predicate Denied<D>(candidate: Option<string>, s: State<D>, pid: int, file: string) {
    candidate == None || (file == candidate.value && s.locked != 0 && pid != s.locked)
  }

  /** What handling one message may do; `ok` is whether the client is told that it went well. */
  ghost predicate Step<D>(candidate: Option<string>, empty: D, s: State<D>, pid: int, msg: Msg, ok: bool, t: State<D>) {
    match msg
    case Change(db) =>
      if Denied(candidate, s, pid, db) then !ok && t == s
      else t == s.(files := t.files) && OnlyChanges(db, s.files, t.files)
    case Load(replace, db) =>
      if Denied(candidate, s, pid, db) || (replace && db !in s.files) then !ok && t == s
      else t == s.(files := t.files) && OnlyChanges(db, s.files, t.files)
    case InitDb(db) =>
      if Denied(candidate, s, pid, db) || !ok then !ok && t == s
      else t == s.(files := if db in s.files then s.files else s.files[db := empty])
    case Rm(file) =>
      if Denied(candidate, s, pid, file) || !ok then !ok && t == s
      else file in s.files && t == s.(files := s.files - {file})
    case Copy(source, target) =>
      if Denied(candidate, s, pid, target) || source !in s.files then !ok && t == s
      else
        && t == s.(files := t.files) && OnlyChanges(target, s.files, t.files)
        && (ok ==> target in t.files && t.files[target] == if source == target then empty else s.files[source])
    case LockDb(db) =>
      if Some(db) != candidate || (s.locked != 0 && pid != s.locked) then !ok && t == s
      else ok && t == s.(locked := pid)
    case UnlockDb(db) =>
      if Some(db) != candidate || (s.locked != 0 && pid != s.locked) then !ok && t == s
      else ok && t == s.(locked := 0)
    case Kill(victim) =>
      ok && t == s.(locked := if s.locked == victim then 0 else s.locked, clients := Del(s.clients, victim))
  }

  // ---------------------------------------------------------------- runs

  /** One message handled. */
  datatype Seen<D> = Seen(pid: int, msg: Msg, ok: bool, before: State<D>, after: State<D>)

  ghost predicate Run<D>(candidate: Option<string>, empty: D, t: seq<Seen<D>>) {
    && (forall i :: 0 <= i < |t| ==> Step(candidate, empty, t[i].before, t[i].pid, t[i].msg, t[i].ok, t[i].after))
    && (forall i :: 0 <= i < |t| - 1 ==> t[i + 1].before == t[i].after)
  }

  /** The message with which `p` gives the lock back, or loses it. */
  predicate Releases<D>(candidate: Option<string>, x: Seen<D>, p: int) {
    (x.pid == p && x.msg.UnlockDb? && Some(x.msg.db) == candidate) || x.msg == Kill(p)
  }

  /** A successful lock. */
  predicate Obtains<D>(x: Seen<D>, p: int) {
    x.pid == p && x.msg.LockDb? && x.ok
  }

  /** The message leaves the candidate database alone. */
  ghost predicate SparesCandidate<D>(candidate: Option<string>, x: Seen<D>) {
    candidate.Some? ==>
      && (candidate.value in x.before.files <==> candidate.value in x.after.files)
      && (candidate.value in x.before.files ==> x.after.files[candidate.value] == x.before.files[candidate.value])
  }

  /** From the message that obtains the lock on, and until one that releases it, the lock is held. */
  lemma {:induction false} HeldSince<D>(candidate: Option<string>, empty: D, t: seq<Seen<D>>, p: int, i: nat, j: nat)
    requires Run(candidate, empty, t) && i < j < |t| && p != 0 && Obtains(t[i], p)
    requires forall k :: i < k < j ==> !Releases(candidate, t[k], p)
    ensures t[j].before.locked == p
    decreases j
  {
    assert Step(candidate, empty, t[i].before, t[i].pid, t[i].msg, t[i].ok, t[i].after);
    if j == i + 1 {
      assert t[j].before == t[i].after;
    } else {
      HeldSince(candidate, empty, t, p, i, j - 1);
      assert Step(candidate, empty, t[j - 1].before, t[j - 1].pid, t[j - 1].msg, t[j - 1].ok, t[j - 1].after);
      assert t[j].before == t[j - 1].after;
    }
  }

  /** While `p` holds the lock, no other client obtains or clears it or touches the candidate; it is free again just
      after the message that releases it. */
  lemma LockProtects<D>(candidate: Option<string>, empty: D, t: seq<Seen<D>>, p: int, i: nat, j: nat)
    requires Run(candidate, empty, t) && i < j < |t| && p != 0 && Obtains(t[i], p)
    requires forall k :: i < k < j ==> !Releases(candidate, t[k], p)
    ensures t[j].after.locked == if Releases(candidate, t[j], p) then 0 else p
    ensures t[j].pid != p ==> SparesCandidate(candidate, t[j]) && (t[j].msg.LockDb? || t[j].msg.UnlockDb? ==> !t[j].ok)
  {
    HeldSince(candidate, empty, t, p, i, j);
    assert Step(candidate, empty, t[j].before, t[j].pid, t[j].msg, t[j].ok, t[j].after);
  }

  /** Between two successful locks by different clients the first one was released. */
  lemma LocksExclude<D>(candidate: Option<string>, empty: D, t: seq<Seen<D>>, p: int, q: int, i: nat, j: nat)
    requires Run(candidate, empty, t) && i < j < |t| && p != 0 && q != p && Obtains(t[i], p) && Obtains(t[j], q)
    ensures exists k :: i < k < j && Releases(candidate, t[k], p)
  {
    if forall k :: i < k < j ==> !Releases(candidate, t[k], p) {
      LockProtects(candidate, empty, t, p, i, j);
    }
  }

  /** A client with process id 0 is told that it holds the lock, but nobody does. */
  lemma ZeroLocksNothing<D>(candidate: Option<string>, empty: D, x: Seen<D>)
    requires Step(candidate, empty, x.before, x.pid, x.msg, x.ok, x.after) && Obtains(x, 0)
    ensures x.after.locked == 0
  {}

  /** Who may work with the candidate: anyone while it is free, and its holder. */
  predicate MayEnter<D>(s: State<D>, pid: int) {
    s.locked == 0 || s.locked == pid
  }

  /** Which requests for the lock are granted: exactly those for the candidate while it is free or one's own. */
  lemma LockGranted<D>(candidate: Option<string>, empty: D, x: Seen<D>)
    requires Step(candidate, empty, x.before, x.pid, x.msg, x.ok, x.after)
    ensures x.msg.LockDb? ==> (x.ok <==> Some(x.msg.db) == candidate && MayEnter(x.before, x.pid))
    ensures x.msg.LockDb? ==> x.after == if x.ok then x.before.(locked := x.pid) else x.before
    ensures x.msg.UnlockDb? ==> (x.ok <==> Some(x.msg.db) == candidate && MayEnter(x.before, x.pid))
  {}

  /** Work on a database that is not kept from the client: every change, addition, removal and copy is a step. */
  lemma Admitted<D>(candidate: Option<string>, empty: D, s: State<D>, pid: int, db: string, d: D, source: string)
    requires candidate.Some? && (db == candidate.value ==> MayEnter(s, pid))
    ensures var t := s.(files := s.files[db := d]);
            && Step(candidate, empty, s, pid, Change(db), true, t)
            && (db in s.files ==> Step(candidate, empty, s, pid, Load(true, db), true, t))
            && Step(candidate, empty, s, pid, Load(false, db), true, t)
    ensures var t := s.(files := if db in s.files then s.files else s.files[db := empty]);
            Step(candidate, empty, s, pid, InitDb(db), true, t)
    ensures db in s.files ==> Step(candidate, empty, s, pid, Rm(db), true, s.(files := s.files - {db}))
    ensures source in s.files && source != db ==>
              Step(candidate, empty, s, pid, Copy(source, db), true, s.(files := s.files[db := s.files[source]]))
  {}

  /** From a lock to its release its holder can do everything with the candidate, and can lock it again. */
  lemma HolderAdmitted<D>(candidate: Option<string>, empty: D, t: seq<Seen<D>>, p: int, i: nat, j: nat, d: D)
    requires Run(candidate, empty, t) && i < j < |t| && p != 0 && Obtains(t[i], p) && candidate.Some?
    requires forall k :: i < k < j ==> !Releases(candidate, t[k], p)
    ensures var s := t[j].before;
            && Step(candidate, empty, s, p, Change(candidate.value), true, s.(files := s.files[candidate.value := d]))
            && Step(candidate, empty, s, p, LockDb(candidate.value), true, s)
            && Step(candidate, empty, s, p, UnlockDb(candidate.value), true, s.(locked := 0))
    ensures t[j].pid == p && t[j].msg == LockDb(candidate.value) ==> t[j].ok
  {
    HeldSince(candidate, empty, t, p, i, j);
    Admitted(candidate, empty, t[j].before, p, candidate.value, d, candidate.value);
    assert Step(candidate, empty, t[j].before, t[j].pid, t[j].msg, t[j].ok, t[j].after);
  }

  // ---------------------------------------------------------------- the backend

  class Backend<D(0)> {
    const candidate: Option<string>
    const empty: D
    var locked: int
    var files: map<string, D>
    var clients: seq<int>

    constructor (candidate: Option<string>, empty: D, files: map<string, D>, clients: seq<int>)
      ensures this.candidate == candidate && this.empty == empty && Now() == State(0, files, clients)
    {
      this.candidate, this.empty, this.files, this.clients, locked := candidate, empty, files, clients, 0;
    }

    ghost function Now(): State<D>
      reads this
    {
      State(locked, files, clients)
    }

    method DbLock(id: int)
      modifies `locked
      ensures locked == id
    {
      locked := id;
    }

    method DbUnlock()
      modifies `locked
      ensures locked == 0
    {
      if locked == 0 {
        return;
      }
      locked := 0;
    }

    /** The test that the handlers begin with. */
    method MayChange(pid: int, file: string) returns (ok: bool)
      ensures ok == !Denied(candidate, Now(), pid, file)
    {
      if candidate == None {
        return false;
      }
      if file == candidate.value && locked != 0 && pid != locked {
        return false;
      }
      ok := true;
    }

    /** Some change to the contents of one database, complete or not. */
    method Rewrite(db: string) returns (ok: bool)
      modifies `files
      ensures OnlyChanges(db, old(files), files)
    {
      ok := *;
      var keep: bool := *;
      if keep {
        var d: D := *;
        files := files[db := d];
      } else {
        files := files - {db};
      }
    }

    method FromClientChange(pid: int, db: string) returns (ok: bool)
      modifies `files
      ensures Step(candidate, empty, old(Now()), pid, Change(db), ok, Now())
    {
      ok := MayChange(pid, db);
      if !ok {
        return;
      }
      ok := Rewrite(db);
    }

    method FromClientLoad(pid: int, replace: bool, db: string) returns (ok: bool)
      modifies `files
      ensures Step(candidate, empty, old(Now()), pid, Load(replace, db), ok, Now())
    {
      ok := MayChange(pid, db);
      if !ok {
        return;
      }
      if replace {
        if db !in files {
          return false;
        }
        files := files - {db};
        ok := *;
        if !ok {
          return;
        }
        files := files[db := empty];
      }
      ok := Rewrite(db);
    }

    method FromClientInitdb(pid: int, db: string) returns (ok: bool)
      modifies `files
      ensures Step(candidate, empty, old(Now()), pid, InitDb(db), ok, Now())
    {
      ok := MayChange(pid, db);
      if !ok {
        return;
      }
      ok := *;
      if ok && db !in files {
        files := files[db := empty];
      }
    }

    method FromClientRm(pid: int, file: string) returns (ok: bool)
      modifies `files
      ensures Step(candidate, empty, old(Now()), pid, Rm(file), ok, Now())
    {
      ok := MayChange(pid, file);
      if !ok {
        return;
      }
      ok := *;
      if file !in files {
        ok := false;
      }
      if ok {
        files := files - {file};
      }
    }

    method FromClientCopy(pid: int, source: string, target: string) returns (ok: bool)
      modifies `files
      ensures Step(candidate, empty, old(Now()), pid, Copy(source, target), ok, Now())
    {
      ok := MayChange(pid, target);
      if !ok {
        return;
      }
      if source !in files {
        return false;
      }
      ok := *;
      if ok {
        files := files[target := if source == target then empty else files[source]];
      } else {
        var truncated: bool := *;
        if truncated {
          var part: D := *;
          files := files[target := part];
        }
      }
    }

    method FromClientLock(pid: int, db: string) returns (ok: bool)
      modifies `locked
      ensures Step(candidate, empty, old(Now()), pid, LockDb(db), ok, Now())
    {
      if candidate == None || db != candidate.value {
        return false;
      }
      if locked != 0 {
        if pid != locked {
          return false;
        }
      } else {
        DbLock(pid);
      }
      ok := true;
    }

    method FromClientUnlock(pid: int, db: string) returns (ok: bool)
      modifies `locked
      ensures Step(candidate, empty, old(Now()), pid, UnlockDb(db), ok, Now())
    {
      if candidate == None || db != candidate.value {
        return false;
      }
      if locked != 0 {
        if pid == locked {
          DbUnlock();
        } else {
          return false;
        }
      }
      ok := true;
    }

    method FromClientKill(pid: int, victim: int) returns (ok: bool)
      modifies `locked, `clients
      ensures Step(candidate, empty, old(Now()), pid, Kill(victim), ok, Now())
    {
      clients := Del(clients, victim);
      if locked == victim {
        DbUnlock();
      }
      ok := true;
    }

    method FromClient(pid: int, msg: Msg) returns (ok: bool)
      modifies this
      ensures Step(candidate, empty, old(Now()), pid, msg, ok, Now())
    {
      match msg {
        case Change(db) => ok := FromClientChange(pid, db);
        case Load(replace, db) => ok := FromClientLoad(pid, replace, db);
        case InitDb(db) => ok := FromClientInitdb(pid, db);
        case Rm(file) => ok := FromClientRm(pid, file);
        case Copy(source, target) => ok := FromClientCopy(pid, source, target);
        case LockDb(db) => ok := FromClientLock(pid, db);
        case UnlockDb(db) => ok := FromClientUnlock(pid, db);
        case Kill(victim) => ok := FromClientKill(pid, victim);
      }
    }

    /** Messages one after the other, as they come in. */
    method Serve(msgs: seq<(int, Msg)>) returns (ghost t: seq<Seen<D>>)
      modifies this
      ensures Run(candidate, empty, t) && |t| == |msgs|
      ensures forall i :: 0 <= i < |t| ==> (t[i].pid, t[i].msg) == msgs[i]
      ensures t != [] ==> t[0].before == old(Now()) && t[|t| - 1].after == Now()
    {
      t := [];
      var i := 0;
      while i < |msgs|
        invariant 0 <= i == |t| <= |msgs| && Run(candidate, empty, t)
        invariant forall k :: 0 <= k < i ==> (t[k].pid, t[k].msg) == msgs[k]
        invariant if t == [] then Now() == old(Now()) else t[0].before == old(Now()) && t[|t| - 1].after == Now()
      {
        ghost var before := Now();
        var ok := FromClient(msgs[i].0, msgs[i].1);
        t := t + [Seen(msgs[i].0, msgs[i].1, ok, before, Now())];
        i := i + 1;
      }
    }
  }
}
