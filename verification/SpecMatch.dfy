/** Finding the line of the specification that a database key belongs to, and the regular expression that finds the
    keys of a line. */
module SpecMatch {
  import opened Basics
  import opened KeyPattern

  /** What is left of the key is to match what is left of the line. */
  ghost predicate Remains(skey: string, key: string, vec: bool, i: nat, j: nat) {
    i <= |key| && j <= |skey| && Rest(vec, skey[j..], key[i..])
  }

  /** A `]` at `j` after an answered `[`, and anything else there. */
  lemma AtIndex(skey: string, key: string, i: nat, j: nat)
    requires i < |key| && j < |skey| && BracketFree(key) && NoDigitAfterIndex(skey)
    requires j >= 1 && skey[j - 1] == '['
    ensures var n := DigitRun(key[i..]);
            Remains(skey, key, true, i, j) <==> skey[j] == ']' && n >= 1 && Remains(skey, key, false, i + n, j + 1)
  {
    hide DigitRun;
    var s, k, n := skey[j..], key[i..], DigitRun(key[i..]);
    assert s[0] == skey[j] && s[1..] == skey[j + 1..] && k[n..] == key[i + n..];
    if skey[j] == ']' {
      assert |s| > 1 ==> s[1] == skey[j + 1];
      StepIndex(s, k);
    }
  }

  /** A character at `j` that is no answered bracket. */
  lemma AtChar(skey: string, key: string, i: nat, j: nat)
    requires i < |key| && j < |skey| && BracketFree(key)
    ensures Remains(skey, key, false, i, j) <==>
              if skey[j] == '[' && key[i] == '.' then Remains(skey, key, true, i + 1, j + 1)
              else key[i] == skey[j] && Remains(skey, key, false, i + 1, j + 1)
  {
    hide Rest;
    var s, k := skey[j..], key[i..];
    assert s[0] == skey[j] && s[1..] == skey[j + 1..] && k[0] == key[i] && k[1..] == key[i + 1..];
    if skey[j] == '[' && key[i] == '.' {
      StepOpen(s, k);
    } else {
      StepPlain(s, k);
    }
  }

  /** One of the two has come to its end. */
  lemma AtEnd(skey: string, key: string, vec: bool, i: nat, j: nat)
    requires i <= |key| && j <= |skey| && (i == |key| || j == |skey|)
    ensures Remains(skey, key, vec, i, j) <==> i == |key| && j == |skey| && !vec
  {
    if i == |key| {
      RestOfNothing(vec, skey[j..]);
    }
  }

  lemma AtStart(skey: string, key: string)
    ensures Remains(skey, key, false, 0, 0) <==> Lang(skey, key)
  {
    assert key[0..] == key && skey[0..] == skey;
  }

  /** dbspec_key_match */
  method DbspecKeyMatch(key: string, skey: string) returns (ok: bool)
    requires BracketFree(key) && NoDigitAfterIndex(skey)
    ensures ok <==> Lang(skey, key)
  {
    hide *;
    var i, j := 0, 0;
    var vec := false;
    AtStart(skey, key);
    while i < |key| && j < |skey|
      invariant 0 <= i <= |key| && 0 <= j <= |skey|
      invariant vec ==> j >= 1 && skey[j - 1] == '['
      invariant Lang(skey, key) <==> Remains(skey, key, vec, i, j)
    {
      var k, s := key[i], skey[j];
      if vec {
        AtIndex(skey, key, i, j);
        vec := false;
        if s == ']' {
          var found, last := MatchKeyIndex(i, key);
          if found {
            i, j := last + 1, j + 1;
            continue;
          }
        }
        return false;
      } else {
        AtChar(skey, key, i, j);
        if s == '[' && k == '.' {
          vec := true;
        } else if k != s {
          return false;
        }
      }
      i, j := i + 1, j + 1;
    }
    AtEnd(skey, key, vec, i, j);
    ok := i >= |key| && j >= |skey| && !vec;
  }

  /** key2spec_key: the first line whose key matches. */
  method Key2SpecKey(specs: seq<string>, key: string) returns (r: Option<string>)
    requires BracketFree(key) && forall s :: s in specs ==> NoDigitAfterIndex(s)
    ensures r == FirstMatch(specs, key)
  {
    var d := 0;
    while d < |specs|
      invariant 0 <= d <= |specs|
      invariant FirstMatch(specs, key) == FirstMatch(specs[d..], key)
    {
      assert specs[d..][0] == specs[d] && specs[d..][1..] == specs[d + 1..];
      var found := DbspecKeyMatch(key, specs[d]);
      if found {
        return Some(specs[d]);
      }
      d := d + 1;
    }
    r := None;
  }

  ghost function FirstMatch(specs: seq<string>, key: string): Option<string> {
    if specs == [] then None
    else if Lang(specs[0], key) then Some(specs[0])
    else FirstMatch(specs[1..], key)
  }

  /** The line found is the only one that accepts the key, so the order of the specification does not matter. */
  lemma {:induction false} FirstMatchIsOnly(specs: seq<string>, key: string, s: string)
    requires BracketFree(key) && forall x :: x in specs ==> SpecPattern(x)
    ensures FirstMatch(specs, key) == Some(s) <==> s in specs && Lang(s, key)
  {
    if specs != [] {
      FirstMatchIsOnly(specs[1..], key, s);
      if Lang(specs[0], key) && s in specs && Lang(s, key) {
        Unambiguous(specs[0], s, key);
      }
    }
  }

  lemma KeyLookupIgnoresOrder(specs: seq<string>, others: seq<string>, key: string)
    requires BracketFree(key) && multiset(specs) == multiset(others)
    requires forall x :: x in specs ==> SpecPattern(x)
    ensures FirstMatch(specs, key) == FirstMatch(others, key)
  {
    assert forall x :: x in specs <==> x in multiset(specs);
    assert forall x :: x in others <==> x in multiset(others);
    if FirstMatch(specs, key).Some? {
      FirstMatchIsOnly(specs, key, FirstMatch(specs, key).value);
      FirstMatchIsOnly(others, key, FirstMatch(specs, key).value);
    } else if FirstMatch(others, key).Some? {
      FirstMatchIsOnly(specs, key, FirstMatch(others, key).value);
      FirstMatchIsOnly(others, key, FirstMatch(others, key).value);
    }
  }

  // ---------------------------------------------------------------- regular expressions

  const INDEX: string := "\\.[0-9]+"

  /** clicon_strsplit with the delimiter `[]`. */
  function Split(s: string): (parts: seq<string>)
    ensures parts != []
  {
    if s == "" then [""]
    else if IndexFirst(s) then [""] + Split(s[2..])
    else
      var rest := Split(s[1..]);
      [[s[0]] + rest[0]] + rest[1..]
  }

  /** clicon_strjoin */
  function Join(parts: seq<string>, delim: string): string {
    if parts == [] then ""
    else if |parts| == 1 then parts[0]
    else parts[0] + delim + Join(parts[1..], delim)
  }

  /** db_gen_rxkey, between the anchors `^` and `$`. */
  function RxBody(basekey: string): string {
    Join(Split(basekey), INDEX)
  }

  lemma JoinHead(c: char, parts: seq<string>, delim: string)
    requires parts != []
    ensures Join([[c] + parts[0]] + parts[1..], delim) == [c] + Join(parts, delim)
  {
    var longer := [[c] + parts[0]] + parts[1..];
    if |parts| > 1 {
      assert longer[1..] == parts[1..];
    }
  }

  lemma RxBodyUnfold(s: string)
    ensures s == "" ==> RxBody(s) == ""
    ensures IndexFirst(s) ==> RxBody(s) == INDEX + RxBody(s[2..])
    ensures s != "" && !IndexFirst(s) ==> RxBody(s) == [s[0]] + RxBody(s[1..])
  {
    if IndexFirst(s) {
      var parts := [""] + Split(s[2..]);
      assert parts[1..] == Split(s[2..]);
      assert "" + INDEX + Join(parts[1..], INDEX) == INDEX + Join(parts[1..], INDEX);
    } else if s != "" {
      JoinHead(s[0], Split(s[1..]), INDEX);
    }
  }

  /** Extended regular expressions (section 9.4 of the Base Definitions of POSIX.1-2017) without groups, alternatives,
      intervals and inner anchors: a sequence of one-character expressions, each with the number of times it may stand. */
  datatype Atom = Lit(c: char) | Any | Digit

  datatype Times = Once | Star | Plus | Opt

  datatype Piece = Piece(atom: Atom, times: Times)

  predicate Takes(atom: Atom, c: char) {
    match atom
    case Lit(d) => c == d
    case Any => true
    case Digit => IsDigit(c)
  }

  predicate MayStand(times: Times, n: nat) {
    match times
    case Once => n == 1
    case Star => true
    case Plus => n >= 1
    case Opt => n <= 1
  }

  /** The strings that an expression between anchors matches. */
  ghost predicate RxLang(rx: seq<Piece>, key: string)
    decreases |rx|
  {
    if rx == [] then key == ""
    else exists n :: 0 <= n <= |key| && TakesAll(rx[0], key[..n]) && RxLang(rx[1..], key[n..])
  }

  ghost predicate TakesAll(p: Piece, s: string) {
    MayStand(p.times, |s|) && forall i :: 0 <= i < |s| ==> Takes(p.atom, s[i])
  }

  predicate Duplicates(c: char) {
    c == '*' || c == '+' || c == '?'
  }

  /** Characters that mean something else in an expression and are not part of the model. */
  predicate Unmodelled(c: char) {
    c == '(' || c == ')' || c == '{' || c == '|' || c == '^' || c == '$'
  }

  /** The one-character expression at the front, and its length. */
  function ParseAtom(rx: string): (r: Option<(Atom, nat)>)
    ensures r.Some? ==> 1 <= r.value.1 <= |rx|
  {
    if rx == "" || Duplicates(rx[0]) || Unmodelled(rx[0]) then None
    else if rx[0] == '\\' then
      if |rx| >= 2 && rx[1] == '.' then Some((Lit('.'), 2)) else None
    else if rx[0] == '[' then
      if |rx| >= 5 && rx[..5] == "[0-9]" then Some((Digit, 5)) else None
    else if rx[0] == '.' then Some((Any, 1))
    else Some((Lit(rx[0]), 1))
  }

  /** How often it may stand, and the length of the sign that says so. */
  function ParseTimes(rx: string): (r: (Times, nat))
    ensures r.1 <= |rx|
  {
    if rx == "" then (Once, 0)
    else if rx[0] == '*' then (Star, 1)
    else if rx[0] == '+' then (Plus, 1)
    else if rx[0] == '?' then (Opt, 1)
    else (Once, 0)
  }

  /** regcomp with REG_EXTENDED, or None for an expression outside the model. */
  function Parse(rx: string): Option<seq<Piece>>
    decreases |rx|
  {
    if rx == "" then Some([])
    else
      var a :- ParseAtom(rx);
      var t := ParseTimes(rx[a.1..]);
      var rest :- Parse(rx[a.1..][t.1..]);
      Some([Piece(a.0, t.0)] + rest)
  }

  /** The key is found by the expression generated from the line. */
  ghost predicate Finds(skey: string, key: string) {
    var rx := Parse(RxBody(skey));
    rx.Some? && RxLang(rx.value, key)
  }

  /** Brackets stand only as `[]`, and nothing but dots and signs of repetition means something else in an
      expression. */
  predicate Names(skey: string)
    decreases |skey|
  {
    if skey == "" then true
    else if IndexFirst(skey) then Names(skey[2..])
    else skey[0] != '\\' && skey[0] != '[' && skey[0] != ']' && !Unmodelled(skey[0]) && Names(skey[1..])
  }

  predicate HasSign(skey: string) {
    exists i :: 0 <= i < |skey| && Duplicates(skey[i])
  }

  /** Names without signs of repetition. */
  predicate PlainNames(skey: string) {
    Names(skey) && !HasSign(skey)
  }

  lemma PlainTail(skey: string, n: nat)
    requires !HasSign(skey) && n <= |skey|
    ensures !HasSign(skey[n..])
  {}

  /** `key` is `skey` with every `[]` replaced by a dot and digits, and every dot by any character. */
  ghost predicate Loose(skey: string, key: string)
    decreases |skey|
  {
    if skey == "" then key == ""
    else if IndexFirst(skey) then
      key != "" && key[0] == '.'
      && exists n :: 1 <= n <= |key| - 1 && AllDigits(key[1..][..n]) && Loose(skey[2..], key[1..][n..])
    else key != "" && (skey[0] == '.' || key[0] == skey[0]) && Loose(skey[1..], key[1..])
  }

  /** The pieces of a plain line. */
  function Pieces(skey: string): seq<Piece>
    decreases |skey|
  {
    if skey == "" then []
    else if IndexFirst(skey) then [Piece(Lit('.'), Once), Piece(Digit, Plus)] + Pieces(skey[2..])
    else [Piece(if skey[0] == '.' then Any else Lit(skey[0]), Once)] + Pieces(skey[1..])
  }

  lemma ParseDigits(rest: string)
    requires Parse(rest).Some?
    ensures Parse("[0-9]+" + rest) == Some([Piece(Digit, Plus)] + Parse(rest).value)
  {
    var rx := "[0-9]+" + rest;
    assert rx[..5] == "[0-9]" && rx[5..] == "+" + rest && rx[5..][1..] == rest;
    assert ParseAtom(rx) == Some((Digit, 5));
  }

  lemma ParseIndex(rx: string, rest: string)
    requires rx == INDEX + rest && Parse(rest).Some?
    ensures Parse(rx) == Some([Piece(Lit('.'), Once)] + ([Piece(Digit, Plus)] + Parse(rest).value))
  {
    hide Parse;
    ParseDigits(rest);
    assert rx[2..] == "[0-9]+" + rest;
    assert rx[0] == '\\' && rx[1] == '.' && rx[2] == '[';
    ParseEscaped(rx);
  }

  /** An escaped dot that is not repeated. */
  lemma ParseEscaped(rx: string)
    requires |rx| > 2 && rx[0] == '\\' && rx[1] == '.' && rx[2] == '[' && Parse(rx[2..]).Some?
    ensures Parse(rx) == Some([Piece(Lit('.'), Once)] + Parse(rx[2..]).value)
  {
    var tail := rx[2..];
    assert tail[0] == '[' && tail[0..] == tail;
    assert ParseTimes(tail) == (Once, 0);
  }

  /** A character that is not repeated, because what follows it can be parsed. */
  lemma ParsePlain(rx: string)
    requires rx != "" && Parse(rx[1..]).Some?
    requires rx[0] != '\\' && rx[0] != '[' && !Duplicates(rx[0]) && !Unmodelled(rx[0])
    ensures Parse(rx) == Some([Piece(if rx[0] == '.' then Any else Lit(rx[0]), Once)] + Parse(rx[1..]).value)
  {
    assert rx[1..][0..] == rx[1..];
    assert ParseTimes(rx[1..]) == (Once, 0);
  }

  /** The front of a plain line. */
  lemma PlainFront(skey: string)
    requires PlainNames(skey) && skey != ""
    ensures if IndexFirst(skey) then PlainNames(skey[2..])
            else PlainNames(skey[1..]) && skey[0] != '\\' && skey[0] != '['
                 && !Duplicates(skey[0]) && !Unmodelled(skey[0])
  {
    if IndexFirst(skey) {
      PlainTail(skey, 2);
    } else {
      PlainTail(skey, 1);
      assert Duplicates(skey[0]) ==> HasSign(skey);
    }
  }

  lemma PiecesUnfold(skey: string)
    requires skey != ""
    ensures IndexFirst(skey) ==> Pieces(skey) == [Piece(Lit('.'), Once)] + ([Piece(Digit, Plus)] + Pieces(skey[2..]))
    ensures !IndexFirst(skey) ==>
              Pieces(skey) == [Piece(if skey[0] == '.' then Any else Lit(skey[0]), Once)] + Pieces(skey[1..])
  {}

  lemma {:induction false} PlainParse(skey: string)
    requires PlainNames(skey)
    ensures Parse(RxBody(skey)) == Some(Pieces(skey))
    decreases |skey|
  {
    RxBodyUnfold(skey);
    if skey != "" {
      hide *;
      PlainFront(skey);
      PiecesUnfold(skey);
      if IndexFirst(skey) {
        PlainParse(skey[2..]);
        ParseIndex(RxBody(skey), RxBody(skey[2..]));
      } else {
        PlainParse(skey[1..]);
        assert RxBody(skey)[1..] == RxBody(skey[1..]);
        ParsePlain(RxBody(skey));
      }
    }
  }

  lemma RxOnce(p: Piece, rest: seq<Piece>, key: string)
    requires p.times == Once
    ensures RxLang([p] + rest, key) <==> key != "" && Takes(p.atom, key[0]) && RxLang(rest, key[1..])
  {
    var rx := [p] + rest;
    assert rx[1..] == rest;
    if RxLang(rx, key) {
      var n :| 0 <= n <= |key| && TakesAll(rx[0], key[..n]) && RxLang(rest, key[n..]);
      assert Takes(p.atom, key[..n][0]);
    }
    if key != "" && Takes(p.atom, key[0]) && RxLang(rest, key[1..]) {
      assert TakesAll(rx[0], key[..1]);
    }
  }

  lemma RxDigits(rest: seq<Piece>, key: string)
    ensures RxLang([Piece(Digit, Plus)] + rest, key) <==>
            exists n :: 1 <= n <= |key| && AllDigits(key[..n]) && RxLang(rest, key[n..])
  {
    var rx := [Piece(Digit, Plus)] + rest;
    assert rx[1..] == rest;
    forall n | 0 <= n <= |key| ensures TakesAll(rx[0], key[..n]) <==> n >= 1 && AllDigits(key[..n]) {}
  }

  /** What the expression of a plain line finds: the keys of the line, with any character for a dot. */
  lemma {:induction false} PlainFinds(skey: string, key: string)
    ensures RxLang(Pieces(skey), key) <==> Loose(skey, key)
    decreases |skey|
  {
    if skey == "" {
    } else if IndexFirst(skey) {
      var rest := Pieces(skey[2..]);
      var dot, digits := Piece(Lit('.'), Once), Piece(Digit, Plus);
      assert Pieces(skey) == [dot] + ([digits] + rest);
      RxOnce(dot, [digits] + rest, key);
      if key != "" {
        RxDigits(rest, key[1..]);
        forall n | 1 <= n <= |key[1..]| ensures RxLang(rest, key[1..][n..]) <==> Loose(skey[2..], key[1..][n..]) {
          PlainFinds(skey[2..], key[1..][n..]);
        }
      }
    } else {
      RxOnce(Pieces(skey)[0], Pieces(skey[1..]), key);
      if key != "" {
        PlainFinds(skey[1..], key[1..]);
      }
    }
  }

  lemma {:induction false} LangIsLoose(skey: string, key: string)
    ensures Lang(skey, key) ==> Loose(skey, key)
    ensures '.' !in skey && Loose(skey, key) ==> Lang(skey, key)
    decreases |skey|
  {
    if skey == "" || key == "" {
    } else if IndexFirst(skey) {
      var tail := key[1..];
      forall n | 1 <= n <= |tail|
        ensures Lang(skey[2..], tail[n..]) ==> Loose(skey[2..], tail[n..])
        ensures '.' !in skey && Loose(skey[2..], tail[n..]) ==> Lang(skey[2..], tail[n..])
      {
        LangIsLoose(skey[2..], tail[n..]);
      }
    } else {
      LangIsLoose(skey[1..], key[1..]);
    }
  }

  /** Every key that belongs to a plain line is found by the expression of that line. */
  lemma RegexFindsKeys(skey: string, key: string)
    requires PlainNames(skey) && Lang(skey, key)
    ensures Finds(skey, key)
  {
    PlainParse(skey);
    PlainFinds(skey, key);
    LangIsLoose(skey, key);
  }

  function Dots(s: string): nat {
    if s == "" then 0 else (if s[0] == '.' then 1 else 0) + Dots(s[1..])
  }

  lemma {:induction false} DotsFrom(s: string, n: nat)
    requires n <= |s| && AllDigits(s[..n])
    ensures Dots(s) == Dots(s[n..])
  {
    if n > 0 {
      assert s[..n][0] == s[0] && s[1..][..n - 1] == s[..n][1..] && s[1..][n - 1..] == s[n..];
      DotsFrom(s[1..], n - 1);
    } else {
      assert s[0..] == s;
    }
  }

  /** The dots of a key are those of its line and one for every index. */
  function LineDots(skey: string): nat {
    if skey == "" then 0
    else if IndexFirst(skey) then 1 + LineDots(skey[2..])
    else (if skey[0] == '.' then 1 else 0) + LineDots(skey[1..])
  }

  lemma {:induction false} LangDots(skey: string, key: string)
    requires Lang(skey, key)
    ensures Dots(key) == LineDots(skey)
    decreases |skey|
  {
    if skey == "" {
    } else if IndexFirst(skey) {
      LangIndex(skey, key);
      var tail := key[1..];
      var n :| 1 <= n <= |tail| && AllDigits(tail[..n]) && Lang(skey[2..], tail[n..]);
      DotsFrom(tail, n);
      LangDots(skey[2..], tail[n..]);
    } else {
      LangDots(skey[1..], key[1..]);
    }
  }

  /** A key with `x` for every dot of the line. */
  function Undotted(skey: string): string {
    if skey == "" then ""
    else if IndexFirst(skey) then ".0" + Undotted(skey[2..])
    else [if skey[0] == '.' then 'x' else skey[0]] + Undotted(skey[1..])
  }

  lemma {:induction false} UndottedLoose(skey: string)
    ensures Loose(skey, Undotted(skey))
    decreases |skey|
  {
    if skey == "" {
    } else if IndexFirst(skey) {
      UndottedLoose(skey[2..]);
      var key, rest := Undotted(skey), Undotted(skey[2..]);
      assert key[1..] == "0" + rest && key[1..][..1] == "0" && key[1..][1..] == rest;
      assert AllDigits(key[1..][..1]);
    } else {
      UndottedLoose(skey[1..]);
      assert Undotted(skey)[1..] == Undotted(skey[1..]);
    }
  }

  lemma {:induction false} UndottedBracketFree(skey: string)
    requires Names(skey)
    ensures BracketFree(Undotted(skey))
    decreases |skey|
  {
    if skey == "" {
    } else if IndexFirst(skey) {
      UndottedBracketFree(skey[2..]);
    } else {
      UndottedBracketFree(skey[1..]);
    }
  }

  lemma {:induction false} UndottedDots(skey: string)
    ensures Dots(Undotted(skey)) <= LineDots(skey)
    ensures '.' in skey ==> Dots(Undotted(skey)) < LineDots(skey)
    decreases |skey|
  {
    if skey == "" {
    } else if IndexFirst(skey) {
      UndottedDots(skey[2..]);
      var rest := Undotted(skey[2..]);
      assert (".0" + rest)[1..] == "0" + rest && ("0" + rest)[1..] == rest;
      assert skey == skey[..2] + skey[2..] && skey[..2] == "[]";
    } else {
      UndottedDots(skey[1..]);
      assert Undotted(skey)[1..] == Undotted(skey[1..]);
      assert skey == [skey[0]] + skey[1..];
    }
  }

  /** The expression of a plain line finds nothing but the keys of the line if and only if the line has no dot of its
      own: dots are not escaped. */
  lemma RegexIsExact(skey: string)
    requires PlainNames(skey)
    ensures '.' !in skey <==> forall key :: BracketFree(key) ==> (Finds(skey, key) <==> Lang(skey, key))
  {
    PlainParse(skey);
    if '.' in skey {
      var key := Undotted(skey);
      UndottedLoose(skey);
      UndottedBracketFree(skey);
      UndottedDots(skey);
      PlainFinds(skey, key);
      assert Finds(skey, key) && BracketFree(key);
      if Lang(skey, key) {
        LangDots(skey, key);
      }
    } else {
      forall key ensures Finds(skey, key) <==> Lang(skey, key) {
        PlainFinds(skey, key);
        LangIsLoose(skey, key);
      }
    }
  }

  // ---------------------------------------------------------------- names with signs of repetition

  /** No piece takes the character. */
  ghost predicate NeverTakes(rx: seq<Piece>, c: char) {
    forall i :: 0 <= i < |rx| ==> !Takes(rx[i].atom, c)
  }

  lemma {:induction false} NotMatched(rx: seq<Piece>, key: string, c: char)
    requires NeverTakes(rx, c) && RxLang(rx, key)
    ensures c !in key
    decreases |rx|
  {
    if rx != [] {
      var n :| 0 <= n <= |key| && TakesAll(rx[0], key[..n]) && RxLang(rx[1..], key[n..]);
      NotMatched(rx[1..], key[n..], c);
      assert key == key[..n] + key[n..];
    }
  }

  /** Every dot of the expression is escaped. */
  ghost predicate DotsEscaped(rx: string) {
    forall i :: 0 <= i < |rx| && rx[i] == '.' ==> i > 0 && rx[i - 1] == '\\'
  }

  /** A sign of repetition is never text that an expression takes, unless it takes any character. */
  lemma {:induction false} SignNotTaken(rx: string, c: char)
    requires Parse(rx).Some? && Duplicates(c) && DotsEscaped(rx)
    ensures NeverTakes(Parse(rx).value, c)
    decreases |rx|
  {
    if rx != "" {
      var a := ParseAtom(rx).value;
      var t := ParseTimes(rx[a.1..]);
      var k := a.1 + t.1;
      var rest := rx[a.1..][t.1..];
      assert rest == rx[k..];
      AtomEnd(rx, k);
      forall i | 0 <= i < |rest| && rest[i] == '.' ensures i > 0 && rest[i - 1] == '\\' {
        assert rest[i] == rx[k + i];
      }
      SignNotTaken(rest, c);
    }
  }

  /** A piece does not end in a backslash. */
  lemma AtomEnd(rx: string, k: nat)
    requires ParseAtom(rx).Some? && k == ParseAtom(rx).value.1 + ParseTimes(rx[ParseAtom(rx).value.1..]).1
    ensures 1 <= k <= |rx| && rx[k - 1] != '\\'
  {
    var m := ParseAtom(rx).value.1;
    if k == m && rx[0] == '[' {
      assert rx[..5][4] == ']';
    } else if k > m {
      assert rx[m..][0] == rx[m];
    }
  }

  lemma {:induction false} BodyDots(skey: string)
    requires '.' !in skey
    ensures DotsEscaped(RxBody(skey))
    decreases |skey|
  {
    RxBodyUnfold(skey);
    hide RxBody;
    if skey == "" {
    } else if IndexFirst(skey) {
      BodyDots(skey[2..]);
      var rx, rest := RxBody(skey), RxBody(skey[2..]);
      assert forall i :: |INDEX| <= i < |rx| ==> rx[i] == rest[i - |INDEX|];
    } else {
      BodyDots(skey[1..]);
      var rx, rest := RxBody(skey), RxBody(skey[1..]);
      assert forall i :: 1 <= i < |rx| ==> rx[i] == rest[i - 1];
    }
  }

  /** Every character of a line outside its indices is in every key of the line. */
  lemma {:induction false} LineCharInKey(skey: string, key: string, i: nat)
    requires Lang(skey, key) && i < |skey| && skey[i] != '[' && skey[i] != ']'
    ensures skey[i] in key
    decreases |skey|
  {
    if IndexFirst(skey) {
      LangIndex(skey, key);
      var tail := key[1..];
      var n :| 1 <= n <= |tail| && AllDigits(tail[..n]) && Lang(skey[2..], tail[n..]);
      LineCharInKey(skey[2..], tail[n..], i - 2);
    } else if i > 0 {
      LineCharInKey(skey[1..], key[1..], i - 1);
    }
  }

  /** A line with a sign of repetition, and no dot, finds none of its own keys. */
  lemma SignsFindNothing(skey: string, key: string)
    requires Parse(RxBody(skey)).Some? && '.' !in skey && HasSign(skey) && Lang(skey, key)
    ensures !Finds(skey, key)
  {
    var i :| 0 <= i < |skey| && Duplicates(skey[i]);
    LineCharInKey(skey, key, i);
    BodyDots(skey);
    SignNotTaken(RxBody(skey), skey[i]);
    if Finds(skey, key) {
      NotMatched(Parse(RxBody(skey)).value, key, skey[i]);
    }
  }

  /** Nor does one whose signs come after plain names and dots without an index. */
  lemma {:induction false} SignsAfterDots(names: string, rest: string, key: string)
    requires PlainNames(names) && '[' !in names
    requires Parse(RxBody(rest)).Some? && '.' !in rest && HasSign(rest) && Lang(names + rest, key)
    ensures Parse(RxBody(names + rest)).Some? && !Finds(names + rest, key)
    decreases |names|
  {
    var skey := names + rest;
    if names == "" {
      assert skey == rest;
      SignsFindNothing(rest, key);
    } else {
      assert skey[0] == names[0] && skey[1..] == names[1..] + rest;
      PlainTail(names, 1);
      SignsAfterDots(names[1..], rest, key[1..]);
      RxBodyUnfold(skey);
      assert Duplicates(names[0]) ==> HasSign(names);
      ParsePlain(RxBody(skey));
      RxOnce(Parse(RxBody(skey)).value[0], Parse(RxBody(skey[1..])).value, key);
    }
  }

  /** So a line without dots finds its keys if and only if it has no sign of repetition. */
  lemma KeysFoundExactly(skey: string)
    requires Names(skey) && Parse(RxBody(skey)).Some? && '.' !in skey
    ensures !HasSign(skey) <==> forall key :: Lang(skey, key) ==> Finds(skey, key)
  {
    if HasSign(skey) {
      var key := Undotted(skey);
      UndottedLoose(skey);
      LangIsLoose(skey, key);
      SignsFindNothing(skey, key);
    } else {
      forall key | Lang(skey, key) ensures Finds(skey, key) {
        RegexFindsKeys(skey, key);
      }
    }
  }

  /** For example the line `a+b` does not find the key `a+b`. */
  lemma PlusIsMissed()
    ensures Lang("a+b", "a+b") && Parse(RxBody("a+b")).Some? && !Finds("a+b", "a+b")
  {
    RxBodyUnfold("a+b");
    RxBodyUnfold("+b");
    RxBodyUnfold("b");
    RxBodyUnfold("");
    assert "a+b"[1..] == "+b" && "+b"[1..] == "b" && "b"[1..] == "";
    assert RxBody("a+b") == "a+b";
    assert ParseTimes("+b") == (Plus, 1) && ParseTimes("") == (Once, 0);
    assert "b"[1..][0..] == "";
    assert Parse("b") == Some([Piece(Lit('b'), Once)] + []);
    assert Parse("a+b").Some?;
    assert Lang("b", "b") && Lang("+b", "+b");
    assert Duplicates("a+b"[1]);
    SignsFindNothing("a+b", "a+b");
  }
}
