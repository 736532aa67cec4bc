/** Dependencies of plugins on database keys, and the commit vector that pairs them with the changed keys. */
module DbDep {
  import opened Basics
  import opened KeyPattern
  import opened DbDiff

  datatype CallbackType = ValidateCb | CommitCb | BothCb

  /** A registered dependency: its identity, processing order, kind, callback type and key pattern. */
  datatype Dep = Dep(id: nat, row: nat, tree: bool, cb: CallbackType, pattern: string)

  /** One entry of the commit vector: a dependency, the change at position `at` of the difference, and the keys, of
      which a tree dependency sees only the matched part. */
  datatype DD = DD(dep: Dep, at: nat, ent: DiffEnt, mkey1: Option<string>, mkey2: Option<string>)

  // ---------------------------------------------------------------- the matcher

  function Init(s: string): string
    requires s != ""
  {
    s[..|s| - 1]
  }

  /** A pattern `Q*` with no other star. */
  predicate Starred(skey: string) {
    skey != "" && skey[|skey| - 1] == '*' && '*' !in Init(skey)
  }

  /** The length of the longest prefix of `key` that the pattern accepts. */
  ghost predicate LongestPrefix(q: string, key: string, n: nat) {
    n <= |key| && Lang(q, key[..n]) && forall p :: 0 <= p <= |key| && Lang(q, key[..p]) ==> p <= n
  }

  /** What dbdep_match_key accepts: for `Q*` the keys with a prefix in the language of `Q`; for a pattern without a star
      its own words and, because the test for a trailing wildcard does not look at the character, also the words of
      the pattern without its last character. */
  ghost predicate Accepts(skey: string, key: string) {
    if Starred(skey) then exists p :: 0 <= p <= |key| && Lang(Init(skey), key[..p])
    else Lang(skey, key) || (skey != "" && Lang(Init(skey), key))
  }

  /** How much of `key` the scan of a pattern eats, taking all the digits of an index; None when it fails. */
  function Scan(q: string, key: string): (r: Option<nat>)
    ensures r.Some? ==> r.value <= |key|
    decreases |q|
  {
    if q == "" then Some(0)
    else if key == "" then None
    else if q[0] == '[' && key[0] == '.' then Plus(1, ScanIndex(q[1..], key[1..]))
    else if q[0] == key[0] then Plus(1, Scan(q[1..], key[1..]))
    else None
  }

  /** The scan after a `.` has answered a `[`. */
  function ScanIndex(q: string, key: string): (r: Option<nat>)
    ensures r.Some? ==> r.value <= |key|
    decreases |q|
  {
    if q == "" || q[0] != ']' || DigitRun(key) == 0 then None
    else Plus(DigitRun(key), Scan(q[1..], key[DigitRun(key)..]))
  }

  function Plus(n: nat, r: Option<nat>): Option<nat> {
    if r.None? then None else Some(n + r.value)
  }

  /** What a scan should find: the longest prefix in the language, or that there is none. */
  ghost predicate Finds(q: string, key: string, r: Option<nat>) {
    if r.Some? then LongestPrefix(q, key, r.value)
    else forall p :: 0 <= p <= |key| ==> !Lang(q, key[..p])
  }

  /** A literal in front. */
  lemma FindsPlain(q: string, key: string, r: Option<nat>)
    requires q != "" && key != "" && BracketFree(key) && !(q[0] == '[' && key[0] == '.') && q[0] == key[0]
    requires Finds(q[1..], key[1..], r)
    ensures Finds(q, key, Plus(1, r))
  {
    forall p | 0 < p <= |key| ensures Lang(q, key[..p]) <==> Lang(q[1..], key[1..][..p - 1]) {
      assert key[..p][0] == key[0] && key[..p][1..] == key[1..][..p - 1];
    }
    RestOfNothing(false, q);
    assert key[..0] == "";
    if r.Some? {
      assert key[..1 + r.value][1..] == key[1..][..r.value];
    }
  }

  /** The digits of a prefix: all of them when the prefix is long enough, else nothing but digits. */
  lemma RunOfPrefix(t: string, n: nat)
    requires n <= |t|
    ensures DigitRun(t[..n]) == if n <= DigitRun(t) then n else DigitRun(t)
  {
    var u, m := t[..n], DigitRun(t);
    var k := if n <= m then n else m;
    assert u[..k] == t[..m][..k];
    RunIsLongest(u, k);
    assert u[..DigitRun(u)] == t[..DigitRun(u)];
    RunIsLongest(t, DigitRun(u));
  }

  /** An index in front: a prefix with an index in it, and how far the rest of the pattern reaches. */
  lemma IndexPrefix(q: string, t: string, n: nat)
    requires n <= |t| && (q != "" ==> !IsDigit(q[0]))
    ensures var m := DigitRun(t);
            AfterDigits(q, t[..n]) <==>
              m >= 1 && if n < m then n >= 1 && q == "" else Lang(q, t[m..][..n - m])
  {
    var m := DigitRun(t);
    Greedy(q, t[..n]);
    RunOfPrefix(t, n);
    if n < m {
      assert t[..n][n..] == "";
      RestOfNothing(false, q);
    } else {
      assert t[..n][m..] == t[m..][..n - m];
    }
  }

  lemma FindsIndex(q: string, key: string, r: Option<nat>)
    requires |q| >= 2 && q[0] == '[' && q[1] == ']' && key != "" && key[0] == '.'
    requires DigitRun(key[1..]) >= 1 && (|q| > 2 ==> !IsDigit(q[2]))
    requires Finds(q[2..], key[1..][DigitRun(key[1..])..], r)
    ensures Finds(q, key, Plus(1 + DigitRun(key[1..]), r))
  {
    var t, m, rest := key[1..], DigitRun(key[1..]), q[2..];
    assert key[..0] == "";
    RestOfNothing(false, q);
    forall p | 0 < p <= |key|
      ensures Lang(q, key[..p]) <==> (if p - 1 < m then p > 1 && rest == "" else Lang(rest, t[m..][..p - 1 - m]))
    {
      assert key[..p][0] == key[0] && key[..p][1..] == t[..p - 1];
      LangIndex(q, key[..p]);
      IndexPrefix(rest, t, p - 1);
    }
    assert t[m..][..0] == "";
    RestOfNothing(false, rest);
  }

  lemma FindsNothing(q: string, key: string)
    requires q != "" && BracketFree(key) && NoDigitAfterIndex(q)
    requires key == "" || (if q[0] == '[' && key[0] == '.' then |q| < 2 || q[1] != ']' || DigitRun(key[1..]) == 0
                           else q[0] != key[0])
    ensures Finds(q, key, None)
  {
    forall p | 0 <= p <= |key| ensures !Lang(q, key[..p]) {
      if p == 0 || key == "" {
        assert key[..p] == "";
        RestOfNothing(false, q);
      } else {
        assert key[..p][0] == key[0];
        if IndexFirst(q) && key[0] == '.' {
          assert key[..p][1..] == key[1..][..p - 1];
          LangIndex(q, key[..p]);
          IndexPrefix(q[2..], key[1..], p - 1);
        }
      }
    }
  }

  /** The greedy scan finds the longest prefix of the key that the pattern accepts, if there is one. */
  lemma {:induction false} ScanFindsLongest(q: string, key: string)
    requires BracketFree(key) && NoDigitAfterIndex(q)
    ensures Finds(q, key, Scan(q, key))
    decreases |q|
  {
    if q == "" {
      assert key[..0] == "";
    } else if key == "" {
      FindsNothing(q, key);
    } else if q[0] == '[' && key[0] == '.' {
      var m := DigitRun(key[1..]);
      if |q| < 2 || q[1] != ']' || m == 0 {
        FindsNothing(q, key);
      } else {
        assert q[1..][1..] == q[2..];
        ScanFindsLongest(q[2..], key[1..][m..]);
        FindsIndex(q, key, Scan(q[2..], key[1..][m..]));
      }
    } else if q[0] == key[0] {
      ScanFindsLongest(q[1..], key[1..]);
      FindsPlain(q, key, Scan(q[1..], key[1..]));
    } else {
      FindsNothing(q, key);
    }
  }

  // ---------------------------------------------------------------- dbdep_match_key

  /** The scan from a position on, in either state of the matcher. */
  function ScanFrom(vec: bool, q: string, key: string): Option<nat> {
    if vec then ScanIndex(q, key) else Scan(q, key)
  }

  function From(s: string, i: nat): string
    requires i <= |s|
  {
    s[i..]
  }

  function Mid(s: string, j: nat, n: nat): string
    requires j <= n <= |s|
  {
    s[j..n]
  }

  /** At `i`, `j` what is left decides about the first `n` characters of the pattern. */
  ghost predicate OnTrack(skey: string, n: nat, key: string, i: nat, j: nat, vec: bool)
    requires n <= |skey| && i <= |key| && j <= n
  {
    Scan(skey[..n], key) == Plus(i, ScanFrom(vec, Mid(skey, j, n), From(key, i)))
  }

  lemma TrackStart(skey: string, n: nat, key: string)
    requires n <= |skey|
    ensures OnTrack(skey, n, key, 0, 0, false)
  {
    assert key[0..] == key && skey[0..n] == skey[..n];
  }

  /** One character of the pattern is consumed. */
  lemma TrackStep(skey: string, n: nat, key: string, i: nat, j: nat, vec: bool)
    requires i < |key| && j < n <= |skey| && OnTrack(skey, n, key, i, j, vec)
    ensures var m := DigitRun(From(key, i));
            if vec then if skey[j] == ']' && m >= 1 then OnTrack(skey, n, key, i + m, j + 1, false)
                        else Scan(skey[..n], key).None?
            else if skey[j] == '[' && key[i] == '.' then OnTrack(skey, n, key, i + 1, j + 1, true)
            else if skey[j] == key[i] then OnTrack(skey, n, key, i + 1, j + 1, false)
            else Scan(skey[..n], key).None?
  {
    hide Scan, ScanIndex, ScanFrom, Plus, From, Mid, DigitRun;
    SliceTail(skey, j, n);
    DropDrop(key, i, 1);
    DropDrop(key, i, DigitRun(From(key, i)));
    ScanStep(Scan(skey[..n], key), i, vec, Mid(skey, j, n), From(key, i));
  }

  lemma SliceTail(s: string, j: nat, n: nat)
    requires j < n <= |s|
    ensures Mid(s, j, n) != "" && Mid(s, j, n)[0] == s[j] && Mid(s, j, n)[1..] == Mid(s, j + 1, n)
  {}

  lemma DropDrop(s: string, i: nat, m: nat)
    requires i + m <= |s|
    ensures |From(s, i)| == |s| - i && From(s, i)[m..] == From(s, i + m) && (i < |s| ==> From(s, i)[0] == s[i])
  {}

  lemma PlusPlus(i: nat, m: nat, r: Option<nat>)
    ensures Plus(i, Plus(m, r)) == Plus(i + m, r) && Plus(i, None) == None
  {}

  lemma ScanIndexIs(q: string, k: string)
    requires q != ""
    ensures ScanIndex(q, k) ==
            if q[0] == ']' && DigitRun(k) >= 1 then Plus(DigitRun(k), Scan(q[1..], k[DigitRun(k)..])) else None
  {
    hide Scan, DigitRun, Plus;
  }

  lemma ScanIs(q: string, k: string)
    requires q != "" && k != ""
    ensures Scan(q, k) ==
            if q[0] == '[' && k[0] == '.' then Plus(1, ScanIndex(q[1..], k[1..]))
            else if q[0] == k[0] then Plus(1, Scan(q[1..], k[1..]))
            else None
  {
    hide ScanIndex, Plus;
  }

  /** One step of the scan on what is left. */
  lemma ScanStep(whole: Option<nat>, i: nat, vec: bool, q: string, k: string)
    requires q != "" && k != "" && whole == Plus(i, ScanFrom(vec, q, k))
    ensures var m := DigitRun(k);
            if vec then if q[0] == ']' && m >= 1 then whole == Plus(i + m, ScanFrom(false, q[1..], k[m..])) else whole.None?
            else if q[0] == '[' && k[0] == '.' then whole == Plus(i + 1, ScanFrom(true, q[1..], k[1..]))
            else if q[0] == k[0] then whole == Plus(i + 1, ScanFrom(false, q[1..], k[1..]))
            else whole.None?
  {
    hide Scan, ScanIndex, Plus, DigitRun;
    if vec {
      ScanIndexIs(q, k);
      PlusPlus(i, DigitRun(k), Scan(q[1..], k[DigitRun(k)..]));
    } else {
      ScanIs(q, k);
      PlusPlus(i, 1, ScanIndex(q[1..], k[1..]));
      PlusPlus(i, 1, Scan(q[1..], k[1..]));
    }
  }

  /** The scan of the first `n` characters does not end at the end of the key. */
  ghost predicate NotWhole(skey: string, n: nat, key: string)
    requires n <= |skey|
  {
    Scan(skey[..n], key) != Some(|key|)
  }

  lemma WholeIsLang(q: string, key: string)
    requires BracketFree(key) && NoDigitAfterIndex(q)
    ensures Scan(q, key) == Some(|key|) <==> Lang(q, key)
  {
    ScanFindsLongest(q, key);
    assert key[..|key|] == key;
  }

  /** A literal pattern step never leaves the scan whole when the pattern ends before the key. */
  lemma TrackEnd(skey: string, n: nat, key: string, i: nat, vec: bool)
    requires n <= |skey| && i <= |key| && OnTrack(skey, n, key, i, n, vec)
    ensures Scan(skey[..n], key) == if vec then None else Some(i)
  {
    MidNone(skey, n);
    hide DigitRun, From, Mid;
  }

  lemma MidNone(s: string, n: nat)
    requires n <= |s|
    ensures Mid(s, n, n) == ""
  {}

  /** The key is used up before the pattern. */
  lemma TrackKeyEnd(skey: string, n: nat, key: string, j: nat, vec: bool)
    requires n <= |skey| && j <= n && OnTrack(skey, n, key, |key|, j, vec)
    ensures Scan(skey[..n], key) == if !vec && j == n then Some(|key|) else None
  {
    assert key[|key|..] == "";
    assert j < n ==> skey[j..n] != "";
    assert j == n ==> skey[j..n] == "";
  }

  /** The part of the key that dbdep_match_key hands back. */
  ghost predicate IsMatchedPart(skey: string, key: string, matched: string) {
    if Starred(skey) then |matched| <= |key| && matched == key[..|matched|] && LongestPrefix(Init(skey), key, |matched|)
    else matched == key
  }

  /** The patterns that the registration functions document: a star at most at the end, and no star inside an index. */
  predicate DepPattern(skey: string) {
    && NoDigitAfterIndex(skey)
    && (Starred(skey) || '*' !in skey)
    && (Starred(skey) && |skey| >= 2 ==> skey[|skey| - 2] != '[')
  }

  lemma InitPattern(skey: string)
    requires skey != "" && NoDigitAfterIndex(skey)
    ensures NoDigitAfterIndex(Init(skey))
  {
    var t := Init(skey);
    forall j | 0 <= j && j + 2 < |t| && t[j] == '[' && t[j + 1] == ']' ensures !IsDigit(t[j + 2]) {
      assert t[j] == skey[j] && t[j + 1] == skey[j + 1] && t[j + 2] == skey[j + 2];
    }
  }

  /** What the position at which the loop stopped says about a pattern with a star at the end. */
  lemma StarVerdict(key: string, skey: string, i: nat, j: nat, vec: bool)
    requires BracketFree(key) && DepPattern(skey) && Starred(skey)
    requires i <= |key| && j < |skey| && OnTrack(skey, |skey| - 1, key, i, j, vec)
    requires j == |skey| - 1 || i == |key|
    requires j == |skey| - 1 ==> i == |key| || !vec
    ensures var ok := j == |skey| - 1 && !vec;
            (ok <==> Accepts(skey, key)) && (ok ==> IsMatchedPart(skey, key, key[..i]))
  {
    InitPattern(skey);
    ScanFindsLongest(Init(skey), key);
    if i == |key| {
      TrackKeyEnd(skey, |skey| - 1, key, j, vec);
    } else {
      TrackEnd(skey, |skey| - 1, key, i, vec);
    }
  }

  /** The same for a pattern without a star. */
  lemma PlainVerdict(key: string, skey: string, i: nat, j: nat, vec: bool)
    requires BracketFree(key) && DepPattern(skey) && !Starred(skey)
    requires i <= |key| && j <= |skey| && OnTrack(skey, |skey|, key, i, j, vec)
    requires i == |key| || j == |skey|
    requires if skey != "" && j < |skey| then OnTrack(skey, |skey| - 1, key, i, j, vec)
             else skey != "" ==> NotWhole(skey, |skey| - 1, key)
    ensures var ok := !vec && i == |key| && (j == |skey| || j == |skey| - 1);
            (ok <==> Accepts(skey, key)) && (ok ==> IsMatchedPart(skey, key, key[..i]))
  {
    assert skey[..|skey|] == skey && key[..|key|] == key;
    WholeIsLang(skey, key);
    if skey != "" {
      InitPattern(skey);
      WholeIsLang(Init(skey), key);
    }
    if i == |key| {
      TrackKeyEnd(skey, |skey|, key, j, vec);
      if j < |skey| {
        TrackKeyEnd(skey, |skey| - 1, key, j, vec);
      }
    } else {
      TrackEnd(skey, |skey|, key, i, vec);
    }
  }

  /** The scan has failed for good. */
  lemma FailVerdict(key: string, skey: string)
    requires BracketFree(key) && DepPattern(skey) && skey != ""
    requires NotWhole(skey, |skey| - 1, key)
    requires if Starred(skey) then Scan(skey[..|skey| - 1], key).None? else NotWhole(skey, |skey|, key)
    ensures !Accepts(skey, key)
  {
    assert skey[..|skey|] == skey;
    InitPattern(skey);
    ScanFindsLongest(Init(skey), key);
    WholeIsLang(Init(skey), key);
    WholeIsLang(skey, key);
  }

  /** What the loop knows at `i`, `j` about the whole pattern and about the pattern without its last character. */
  ghost predicate Position(key: string, skey: string, i: nat, j: nat, vec: bool) {
    && i <= |key| && j <= |skey|
    && (vec ==> j >= 1 && skey[j - 1] == '[')
    && (!Starred(skey) ==> OnTrack(skey, |skey|, key, i, j, vec))
    && (if skey != "" && j < |skey| then OnTrack(skey, |skey| - 1, key, i, j, vec)
        else !Starred(skey) && (skey != "" ==> NotWhole(skey, |skey| - 1, key)))
  }

  /** One round of the loop: either the next position, or the pattern fails. */
  lemma PositionStep(key: string, skey: string, i: nat, j: nat, vec: bool)
    requires BracketFree(key) && DepPattern(skey)
    requires i < |key| && j < |skey| && Position(key, skey, i, j, vec)
    requires skey[j] != '*'
    ensures var m := DigitRun(key[i..]);
            if vec then if skey[j] == ']' && m >= 1 then Position(key, skey, i + m, j + 1, false) else !Accepts(skey, key)
            else if skey[j] == '[' && key[i] == '.' then Position(key, skey, i + 1, j + 1, true)
            else if skey[j] == key[i] then Position(key, skey, i + 1, j + 1, false)
            else !Accepts(skey, key)
  {
    hide Scan, ScanIndex, DigitRun;
    var m, n := DigitRun(key[i..]), |skey| - 1;
    var fails := if vec then !(skey[j] == ']' && m >= 1) else !(skey[j] == '[' && key[i] == '.') && skey[j] != key[i];
    if !Starred(skey) {
      TrackStep(skey, |skey|, key, i, j, vec);
    }
    if j < n {
      TrackStep(skey, n, key, i, j, vec);
    } else {
      TrackEnd(skey, n, key, i, vec);
    }
    if fails {
      FailVerdict(key, skey);
    }
  }

  lemma PositionStart(key: string, skey: string)
    ensures Position(key, skey, 0, 0, false)
  {
    TrackStart(skey, |skey|, key);
    if skey != "" {
      TrackStart(skey, |skey| - 1, key);
    }
  }

  /** The verdict where the loop ends: at a star, at the end of the key, or at the end of the pattern. */
  lemma PositionEnd(key: string, skey: string, i: nat, j: nat, vec: bool)
    requires BracketFree(key) && DepPattern(skey) && Position(key, skey, i, j, vec)
    requires i == |key| || j == |skey| || skey[j] == '*'
    ensures var ok := !vec && if j < |skey| && skey[j] == '*' then true else i == |key| && (j == |skey| || j == |skey| - 1);
            (ok <==> Accepts(skey, key)) && (ok ==> IsMatchedPart(skey, key, key[..i]))
  {
    if Starred(skey) {
      StarVerdict(key, skey, i, j, vec);
    } else {
      PlainVerdict(key, skey, i, j, vec);
    }
  }

  /** dbdep_match_key: whether the key matches, and the matched part of the key. */
  method DbdepMatchKey(key: string, skey: string) returns (ok: bool, matched: string)
    requires BracketFree(key) && DepPattern(skey)
    ensures ok <==> Accepts(skey, key)
    ensures ok ==> IsMatchedPart(skey, key, matched)
  {
    hide Accepts, IsMatchedPart;
    var i, j := 0, 0;
    var vec := false;
    PositionStart(key, skey);
    while i < |key| && j < |skey|
      invariant 0 <= i <= |key| && 0 <= j <= |skey|
      invariant Position(key, skey, i, j, vec)
    {
      var k, s := key[i], skey[j];
      if s == '*' {
        PositionEnd(key, skey, i, j, vec);
        return true, key[..i];
      }
      PositionStep(key, skey, i, j, vec);
      if vec {
        vec := false;
        if s == ']' {
          var found, last := MatchKeyIndex(i, key);
          if found {
            i, j := last + 1, j + 1;
            continue;
          }
        }
        return false, "";
      } else {
        if s == '[' && k == '.' {
          vec := true;
        } else {
          if k != s {
            return false, "";
          }
        }
      }
      i, j := i + 1, j + 1;
    }
    PositionEnd(key, skey, i, j, vec);
    if i >= |key| && j >= |skey| && !vec {
      return true, key[..i];
    } else if i >= |key| && j == |skey| - 1 && !vec {
      return true, key[..i];
    } else {
      return false, "";
    }
  }

  lemma {:induction false} OpenEndRejects(q: string, key: string)
    requires q != "" && q[|q| - 1] == '[' && BracketFree(key)
    ensures !Lang(q, key)
    decreases |q|
  {
    if key != "" && IndexFirst(q) && key[0] == '.' {
      LangIndex(q, key);
      var tail := key[1..];
      forall n | 1 <= n <= |tail| ensures !Lang(q[2..], tail[n..]) {
        OpenEndRejects(q[2..], tail[n..]);
      }
    } else if key != "" && |q| > 1 {
      OpenEndRejects(q[1..], key[1..]);
    }
  }

  /** A pattern that ends with an index accepts exactly its own words. */
  lemma IndexPatternIsExact(skey: string, key: string)
    requires |skey| >= 2 && skey[|skey| - 2] == '[' && skey[|skey| - 1] == ']' && BracketFree(key)
    ensures Accepts(skey, key) <==> Lang(skey, key)
  {
    OpenEndRejects(Init(skey), key);
  }

  /** A pattern that ends with a plain character also accepts a key that lacks it. */
  lemma ShortKeyAccepted()
    ensures exists skey, key :: DepPattern(skey) && BracketFree(key) && Accepts(skey, key) && !Lang(skey, key)
  {
    assert "ab"[..1] == "a" && "ab"[1..] == "b" && "a"[1..] == "";
    assert Init("ab") == "a";
    assert Lang("", "") && Lang("a", "a") && !Lang("b", "");
    assert !Lang("ab", "a");
    assert DepPattern("ab") && BracketFree("a") && Accepts("ab", "a");
  }
}
