/** Database keys such as `A.4.B.7` against key patterns such as `A[].B[]`: the language of a pattern, and the step
    lemmas behind the two hand-written matchers. */
module KeyPattern {

  predicate IsDigit(c: char) {
    '0' <= c <= '9'
  }

  predicate AllDigits(s: string) {
    forall i :: 0 <= i < |s| ==> IsDigit(s[i])
  }

  /** The pattern starts with `[]`. */
  predicate IndexFirst(skey: string) {
    |skey| >= 2 && skey[0] == '[' && skey[1] == ']'
  }

  /** `key` is `skey` with every `[]` replaced by a dot and one or more digits. */
  ghost predicate Lang(skey: string, key: string)
    decreases |skey|
  {
    if skey == "" then key == ""
    else if IndexFirst(skey) then
      key != "" && key[0] == '.'
      && var rest := key[1..];
         exists n :: 1 <= n <= |rest| && AllDigits(rest[..n]) && Lang(skey[2..], rest[n..])
    else key != "" && key[0] == skey[0] && Lang(skey[1..], key[1..])
  }

  /** One or more digits, then a word of the pattern. */
  ghost predicate AfterDigits(skey: string, key: string) {
    exists n :: 1 <= n <= |key| && AllDigits(key[..n]) && Lang(skey, key[n..])
  }

  lemma LangIndex(skey: string, key: string)
    requires IndexFirst(skey) && key != "" && key[0] == '.'
    ensures Lang(skey, key) <==> AfterDigits(skey[2..], key[1..])
  {}

  predicate BracketFree(key: string) {
    forall i :: 0 <= i < |key| ==> key[i] != '[' && key[i] != ']'
  }

  /** No `[]` is followed by a digit. */
  predicate NoDigitAfterIndex(skey: string) {
    forall j :: 0 <= j && j + 2 < |skey| && skey[j] == '[' && skey[j + 1] == ']' ==> !IsDigit(skey[j + 2])
  }

  // ---------------------------------------------------------------- lines that stand for many keys

  /** key_isanyvector: `[]` occurs in the key. */
  predicate IsAnyVector(key: string) {
    exists i :: 0 <= i < |key| - 1 && key[i] == '[' && key[i + 1] == ']'
  }

  /** The line stands for other keys than itself: it is a list, or lies below one. */
  ghost predicate IsListLine(skey: string) {
    exists key :: Lang(skey, key) && key != skey
  }

  /** Brackets stand only as `[]`. */
  predicate Paired(skey: string)
    decreases |skey|
  {
    if skey == "" then true
    else if IndexFirst(skey) then Paired(skey[2..])
    else skey[0] != '[' && skey[0] != ']' && Paired(skey[1..])
  }

  /** The key of a line with index 0 everywhere. */
  function Instance(skey: string): (key: string)
    ensures |key| == |skey|
    ensures forall i :: 0 <= i < |skey| - 1 && skey[i] == '[' && skey[i + 1] == ']' ==> key[i] == '.'
    ensures forall i :: 0 <= i < |skey| ==> key[i] == skey[i] || key[i] == '.' || key[i] == '0'
  {
    if skey == "" then ""
    else if IndexFirst(skey) then ".0" + Instance(skey[2..])
    else [skey[0]] + Instance(skey[1..])
  }

  lemma {:induction false} InstanceOf(skey: string)
    ensures Lang(skey, Instance(skey))
    ensures Paired(skey) ==> BracketFree(Instance(skey))
    decreases |skey|
  {
    if skey == "" {
    } else if IndexFirst(skey) {
      InstanceOf(skey[2..]);
      var rest := Instance(skey)[1..];
      assert rest[..1] == "0" && rest[1..] == Instance(skey[2..]);
      assert AllDigits(rest[..1]);
    } else {
      InstanceOf(skey[1..]);
      assert Instance(skey)[1..] == Instance(skey[1..]);
    }
  }

  lemma {:induction false} OnlyItself(skey: string, key: string)
    requires Lang(skey, key) && !IsAnyVector(skey)
    ensures key == skey
    decreases |skey|
  {
    if skey != "" {
      assert !(skey[0] == '[' && |skey| > 1 && skey[0 + 1] == ']');
      OnlyItself(skey[1..], key[1..]);
    }
  }

  /** The test for `[]` tells which lines stand for other keys than themselves; when brackets stand only as `[]`, for
      other keys that a database can have. */
  lemma AnyVectorExactly(skey: string)
    ensures IsAnyVector(skey) <==> IsListLine(skey)
    ensures Paired(skey) ==> (IsAnyVector(skey) <==> exists key :: BracketFree(key) && Lang(skey, key) && key != skey)
  {
    InstanceOf(skey);
    if IsAnyVector(skey) {
      var i :| 0 <= i < |skey| - 1 && skey[i] == '[' && skey[i + 1] == ']';
      assert Instance(skey)[i] != skey[i];
    } else {
      forall key | Lang(skey, key) ensures key == skey {
        OnlyItself(skey, key);
      }
    }
  }

  /** The length of the run of digits at the start. */
  function DigitRun(s: string): (n: nat)
    ensures n <= |s| && AllDigits(s[..n]) && (n < |s| ==> !IsDigit(s[n]))
  {
    if s == "" || !IsDigit(s[0]) then 0 else
      var n := DigitRun(s[1..]);
      assert s[..1 + n] == [s[0]] + s[1..][..n];
      1 + n
  }

  lemma {:induction false} RunIsLongest(key: string, n: nat)
    requires n <= |key| && AllDigits(key[..n])
    ensures n <= DigitRun(key)
  {
    if n > 0 {
      assert IsDigit(key[..n][0]);
      assert key[..n][1..] == key[1..][..n - 1];
      RunIsLongest(key[1..], n - 1);
    }
  }

  lemma NoDigitFirst(skey: string, key: string)
    requires Lang(skey, key) && (skey != "" ==> !IsDigit(skey[0])) && key != ""
    ensures !IsDigit(key[0])
  {}

  /** When the rest of the pattern does not start with a digit, eating all digits is the only way on. */
  lemma Greedy(skey: string, key: string)
    requires skey != "" ==> !IsDigit(skey[0])
    ensures AfterDigits(skey, key) <==> DigitRun(key) >= 1 && Lang(skey, key[DigitRun(key)..])
  {
    hide DigitRun;
    var m := DigitRun(key);
    if AfterDigits(skey, key) {
      var n :| 1 <= n <= |key| && AllDigits(key[..n]) && Lang(skey, key[n..]);
      RunIsLongest(key, n);
      if n < m {
        assert IsDigit(key[..m][n]) && key[n..][0] == key[n];
        NoDigitFirst(skey, key[n..]);
      }
    }
  }

  /** What is left to accept: after the `.` that answers a `[` the pattern must go on with `]` and the key with digits. */
  ghost predicate Rest(vec: bool, skey: string, key: string) {
    if vec then skey != "" && skey[0] == ']' && AfterDigits(skey[1..], key) else Lang(skey, key)
  }

  lemma RestOfNothing(vec: bool, skey: string)
    ensures Rest(vec, skey, "") <==> !vec && skey == ""
  {}

  /** A `[` answered by a `.`. */
  lemma StepOpen(skey: string, key: string)
    requires skey != "" && key != "" && skey[0] == '[' && key[0] == '.'
    ensures Rest(false, skey, key) <==> Rest(true, skey[1..], key[1..])
  {
    if IndexFirst(skey) {
      LangIndex(skey, key);
      assert skey[1..][1..] == skey[2..];
    }
  }

  /** A character that stands for itself. */
  lemma StepPlain(skey: string, key: string)
    requires skey != "" && key != "" && BracketFree(key) && !(skey[0] == '[' && key[0] == '.')
    ensures Rest(false, skey, key) <==> skey[0] == key[0] && Rest(false, skey[1..], key[1..])
  {}

  /** A `]` answered by all the digits there are. */
  lemma StepIndex(skey: string, key: string)
    requires skey != "" && BracketFree(key) && (|skey| > 1 ==> !IsDigit(skey[1]))
    ensures Rest(true, skey, key) <==>
            skey[0] == ']' && DigitRun(key) >= 1 && Rest(false, skey[1..], key[DigitRun(key)..])
  {
    Greedy(skey[1..], key);
  }

  /** match_key_index, the same in both matchers: eat digits; `i` ends on the last one. */
  method MatchKeyIndex(i0: nat, key: string) returns (ok: bool, i: nat)
    requires i0 <= |key|
    ensures ok <==> DigitRun(key[i0..]) >= 1
    ensures i == if ok then i0 + DigitRun(key[i0..]) - 1 else i0
  {
    i := i0;
    while i < |key| && IsDigit(key[i])
      invariant i0 <= i <= |key|
      invariant DigitRun(key[i0..]) == i - i0 + DigitRun(key[i..])
    {
      assert key[i..][0] == key[i] && key[i..][1..] == key[i + 1..];
      i := i + 1;
    }
    if i == i0 {
      return false, i0;
    }
    return true, i - 1;
  }

  // ---------------------------------------------------------------- patterns of the specification

  /** Names do not start with a digit, and `[]` is followed by `.`, `[` or the end. */
  predicate SpecPattern(skey: string) {
    && (forall j :: 0 <= j && j + 2 < |skey| && skey[j] == '[' && skey[j + 1] == ']' ==>
          skey[j + 2] == '.' || skey[j + 2] == '[')
    && (forall j :: 0 <= j && j + 1 < |skey| && skey[j] == '.' ==> !IsDigit(skey[j + 1]))
  }

  lemma SpecPatternTail(skey: string, n: nat)
    requires SpecPattern(skey) && n <= |skey|
    ensures SpecPattern(skey[n..])
  {
    var t := skey[n..];
    forall j | 0 <= j && j + 2 < |t| && t[j] == '[' && t[j + 1] == ']' ensures t[j + 2] == '.' || t[j + 2] == '[' {
      assert t[j] == skey[n + j] && t[j + 1] == skey[n + j + 1] && t[j + 2] == skey[n + j + 2];
    }
    forall j | 0 <= j && j + 1 < |t| && t[j] == '.' ensures !IsDigit(t[j + 1]) {
      assert t[j] == skey[n + j] && t[j + 1] == skey[n + j + 1];
    }
  }

  /** A key that goes on with an index does not go on with a name. */
  lemma IndexIsNoName(a: string, b: string, key: string)
    requires IndexFirst(a) && b != "" && !IndexFirst(b) && SpecPattern(b)
    requires Lang(a, key)
    ensures !Lang(b, key)
  {
    LangIndex(a, key);
    var tail := key[1..];
    var n :| 1 <= n <= |tail| && AllDigits(tail[..n]);
    assert IsDigit(tail[0]) by {
      assert IsDigit(tail[..n][0]);
    }
  }

  /** What follows the index at the front of a word. */
  lemma AfterIndex(a: string, key: string)
    requires IndexFirst(a) && SpecPattern(a) && BracketFree(key) && Lang(a, key)
    ensures key != "" && SpecPattern(a[2..]) && BracketFree(key[1..][DigitRun(key[1..])..])
    ensures Lang(a[2..], key[1..][DigitRun(key[1..])..])
  {
    hide DigitRun;
    LangIndex(a, key);
    SpecPatternTail(a, 2);
    Greedy(a[2..], key[1..]);
  }

  /** Distinct patterns of a specification never accept the same key. */
  lemma {:induction false} Unambiguous(a: string, b: string, key: string)
    requires SpecPattern(a) && SpecPattern(b) && BracketFree(key)
    requires Lang(a, key) && Lang(b, key)
    ensures a == b
    decreases |a|
  {
    if a == "" || b == "" {
      RestOfNothing(false, a);
      RestOfNothing(false, b);
    } else if IndexFirst(a) && IndexFirst(b) {
      AfterIndex(a, key);
      AfterIndex(b, key);
      Unambiguous(a[2..], b[2..], key[1..][DigitRun(key[1..])..]);
      assert a == a[..2] + a[2..] && b == b[..2] + b[2..];
      assert a[..2] == b[..2];
    } else if IndexFirst(a) {
      IndexIsNoName(a, b, key);
    } else if IndexFirst(b) {
      IndexIsNoName(b, a, key);
    } else {
      SpecPatternTail(a, 1);
      SpecPatternTail(b, 1);
      Unambiguous(a[1..], b[1..], key[1..]);
      assert a == [a[0]] + a[1..] && b == [b[0]] + b[1..];
    }
  }
}
