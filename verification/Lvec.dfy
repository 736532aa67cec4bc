/** The byte form of a variable vector: a sequence of (name, value) pairs of length-prefixed lvalues. Bytes are chars
    below 256; an lvalue is a type byte, a flags byte, a 16-bit length and the value. */
module Lvec {
  import opened Basics
  import opened Cvec

  /** What CLIgen knows about its types: the code of the string type, and which types are stored inline. */
  datatype Types = Types(text: nat, inline: nat -> bool) {
    ghost predicate Valid() {
      text < 256 && !inline(text)
    }
  }

  const HLEN := 4

  const NUL: char := 0 as char

  /** A header: type, zero flags, low and high byte of the length; type and length are cut to 8 and 16 bits. */
  function Header(ty: nat, len: nat): (h: string)
    ensures |h| == HLEN
  {
    [(ty % 256) as char, NUL, (len % 256) as char, (len / 256 % 256) as char]
  }

  function Lvalue(ty: nat, val: string): string {
    Header(ty, |val|) + val
  }

  /** The name as it is written: unique variables are marked with a `!`. */
  function NameText(cv: Cv): string {
    (if cv.unique then "!" else "") + cv.name + [NUL]
  }

  /** The value as it is written; a text goes with its terminator. */
  function Payload(tt: Types, cv: Cv): string {
    if tt.inline(cv.ty) then cv.val else cv.val + [NUL]
  }

  function EncodeCv(tt: Types, cv: Cv): string {
    Lvalue(tt.text, NameText(cv)) + Lvalue(cv.ty, Payload(tt, cv))
  }

  function Encode(tt: Types, vec: Vec): string {
    if vec == [] then "" else EncodeCv(tt, vec[0]) + Encode(tt, vec[1..])
  }

  lemma {:induction false} EncodeAppend(tt: Types, a: Vec, b: Vec)
    ensures Encode(tt, a + b) == Encode(tt, a) + Encode(tt, b)
  {
    if a == [] {
      assert a + b == b;
    } else {
      assert (a + b)[1..] == a[1..] + b;
      EncodeAppend(tt, a[1..], b);
    }
  }

  // ---------------------------------------------------------------- reading

  function TypeAt(s: string): nat
    requires |s| >= HLEN
  {
    s[0] as nat
  }

  function LenAt(s: string): nat
    requires |s| >= HLEN
  {
    s[2] as nat + 256 * s[3] as nat
  }

  /** A whole lvalue is at the front of the bytes. */
  predicate Whole(s: string) {
    |s| >= HLEN && HLEN + LenAt(s) <= |s|
  }

  /** The value of the first lvalue. */
  function ValueAt(s: string): string
    requires Whole(s)
  {
    s[HLEN..HLEN + LenAt(s)]
  }

  /** The bytes after the first lvalue. */
  function Tail(s: string): (t: string)
    requires Whole(s)
    ensures |t| < |s|
  {
    s[HLEN + LenAt(s)..]
  }

  /** The bytes are a whole number of lvalues. */
  predicate Framed(s: string)
    decreases |s|
  {
    s == "" || (Whole(s) && Framed(Tail(s)))
  }

  function Count(s: string): nat
    requires Framed(s)
    decreases |s|
  {
    if s == "" then 0 else 1 + Count(Tail(s))
  }

  /** The bytes are a whole number of pairs of lvalues. */
  predicate Paired(s: string)
    decreases |s|
  {
    s == "" || (Whole(s) && Whole(Tail(s)) && Paired(Tail(Tail(s))))
  }

  lemma {:induction false} EvenIsPaired(s: string)
    requires Framed(s)
    ensures Paired(s) <==> Count(s) % 2 == 0
    decreases |s|
  {
    if s != "" && Tail(s) != "" {
      EvenIsPaired(Tail(Tail(s)));
      assert Count(s) == 2 + Count(Tail(Tail(s)));
    }
  }

  /** The C string at the start of `s`: everything before the first NUL. */
  function CString(s: string): (r: string)
    ensures |r| <= |s| && r == s[..|r|] && NUL !in r
    ensures |r| < |s| ==> s[|r|] == NUL
  {
    if s == "" || s[0] == NUL then "" else
      var r := CString(s[1..]);
      assert [s[0]] + r == s[..|r| + 1];
      [s[0]] + r
  }

  lemma {:induction false} CStringOf(text: string, rest: string)
    requires NUL !in text
    ensures CString(text + [NUL] + rest) == text
  {
    var s := text + [NUL] + rest;
    if text != "" {
      assert s[1..] == text[1..] + [NUL] + rest;
      CStringOf(text[1..], rest);
    }
  }

  function DecodeCv(tt: Types, name: string, value: string): Cv
    requires Whole(value)
  {
    var unique := name != "" && name[0] == '!';
    var ty := TypeAt(value);
    Cv(if unique then name[1..] else name, ty, if tt.inline(ty) then ValueAt(value) else CString(value[HLEN..]),
       unique, false, false)
  }

  function Prepend(vec: Vec, rest: Option<Vec>): Option<Vec> {
    if rest.None? then None else Some(vec + rest.value)
  }

  lemma PrependOne(vec: Vec, cv: Cv, rest: Option<Vec>)
    ensures Prepend(vec, Prepend([cv], rest)) == Prepend(vec + [cv], rest)
  {
    assert rest.Some? ==> vec + ([cv] + rest.value) == (vec + [cv]) + rest.value;
  }

  function DecodePairs(tt: Types, s: string): Option<Vec>
    requires Paired(s)
    decreases |s|
  {
    if s == "" then Some([])
    else if TypeAt(s) != tt.text then None
    else Prepend([DecodeCv(tt, CString(ValueAt(s)), Tail(s))], DecodePairs(tt, Tail(Tail(s))))
  }

  /** lvec2cvec as a function: None for an odd number of lvalues and for a name that is not a text. */
  function Decode(tt: Types, s: string): Option<Vec>
    requires Framed(s)
  {
    EvenIsPaired(s);
    if Count(s) % 2 != 0 then None else DecodePairs(tt, s)
  }

  // ---------------------------------------------------------------- the round trip

  /** What the byte form has room for: C strings, an 8-bit type, 16-bit lengths, and of the flags V_UNIQUE. */
  predicate Fits(tt: Types, cv: Cv) {
    && NUL !in cv.name && |NameText(cv)| < 0x1_0000
    && cv.ty < 256 && |Payload(tt, cv)| < 0x1_0000
    && (!tt.inline(cv.ty) ==> NUL !in cv.val)
    && !cv.wildcard && !cv.unset
  }

  predicate FitsAll(tt: Types, vec: Vec) {
    forall cv :: cv in vec ==> Fits(tt, cv)
  }

  /** The leading `!` of a name that is not unique reads back as the mark. */
  predicate Unmarked(cv: Cv) {
    cv.unique || cv.name == "" || cv.name[0] != '!'
  }

  function Reread(cv: Cv): Cv {
    if Unmarked(cv) then cv else cv.(name := cv.name[1..], unique := true)
  }

  function RereadAll(vec: Vec): (r: Vec)
    ensures |r| == |vec|
    ensures forall i :: 0 <= i < |vec| ==> r[i] == Reread(vec[i])
  {
    seq(|vec|, i requires 0 <= i < |vec| => Reread(vec[i]))
  }

  lemma LvalueHead(ty: nat, val: string, rest: string)
    requires ty < 256 && |val| < 0x1_0000
    ensures var s := Lvalue(ty, val) + rest;
            Whole(s) && TypeAt(s) == ty && ValueAt(s) == val && Tail(s) == rest && s[HLEN..] == val + rest
  {
    var n := |val|;
    assert n % 256 + 256 * (n / 256 % 256) == n;
  }

  /** One variable is read back from the front of the bytes, and the rest of the bytes is left. */
  lemma EncodedHead(tt: Types, cv: Cv, rest: string)
    requires tt.Valid() && Fits(tt, cv)
    ensures var s := EncodeCv(tt, cv) + rest;
            && Whole(s) && TypeAt(s) == tt.text && Whole(Tail(s)) && Tail(Tail(s)) == rest
            && DecodeCv(tt, CString(ValueAt(s)), Tail(s)) == Reread(cv)
  {
    hide Header, Lvalue, Whole, LenAt, TypeAt, ValueAt, Tail;
    var tail := Lvalue(cv.ty, Payload(tt, cv)) + rest;
    var s := EncodeCv(tt, cv) + rest;
    assert s == Lvalue(tt.text, NameText(cv)) + tail;
    LvalueHead(tt.text, NameText(cv), tail);
    LvalueHead(cv.ty, Payload(tt, cv), rest);
    var text := (if cv.unique then "!" else "") + cv.name;
    CStringOf(text, "");
    assert text + [NUL] + "" == NameText(cv);
    if !tt.inline(cv.ty) {
      CStringOf(cv.val, rest);
      assert cv.val + [NUL] + rest == Payload(tt, cv) + rest;
    }
    assert cv.unique ==> text[0] == '!' && text[1..] == cv.name;
    assert !cv.unique ==> text == cv.name;
  }

  /** Putting one encoded variable in front of a whole number of pairs. */
  lemma DecodeOne(tt: Types, cv: Cv, rest: string)
    requires tt.Valid() && Fits(tt, cv) && Framed(rest) && Paired(rest)
    ensures var s := EncodeCv(tt, cv) + rest;
            Framed(s) && Paired(s) && DecodePairs(tt, s) == Prepend([Reread(cv)], DecodePairs(tt, rest))
  {
    EncodedHead(tt, cv, rest);
    var s := EncodeCv(tt, cv) + rest;
    assert Framed(Tail(s));
  }

  lemma {:induction false} DecodeEncoded(tt: Types, vec: Vec)
    requires tt.Valid() && FitsAll(tt, vec)
    ensures var s := Encode(tt, vec);
            Framed(s) && Paired(s) && DecodePairs(tt, s) == Some(RereadAll(vec))
  {
    if vec != [] {
      DecodeEncoded(tt, vec[1..]);
      DecodeStep(tt, vec);
    }
  }

  lemma DecodeStep(tt: Types, vec: Vec)
    requires tt.Valid() && FitsAll(tt, vec) && vec != []
    requires var rest := Encode(tt, vec[1..]);
             Framed(rest) && Paired(rest) && DecodePairs(tt, rest) == Some(RereadAll(vec[1..]))
    ensures var s := Encode(tt, vec);
            Framed(s) && Paired(s) && DecodePairs(tt, s) == Some(RereadAll(vec))
  {
    hide DecodePairs, Paired, Framed;
    DecodeOne(tt, vec[0], Encode(tt, vec[1..]));
    assert RereadAll(vec) == [Reread(vec[0])] + RereadAll(vec[1..]);
  }

  /** No name other than a unique one starts with `!`. */
  predicate AllUnmarked(vec: Vec) {
    forall cv :: cv in vec ==> Unmarked(cv)
  }

  lemma RereadSame(vec: Vec)
    ensures RereadAll(vec) == vec <==> AllUnmarked(vec)
  {
    if RereadAll(vec) == vec {
      forall cv | cv in vec ensures Unmarked(cv) {
        var i :| 0 <= i < |vec| && vec[i] == cv;
        assert RereadAll(vec)[i] == Reread(cv);
      }
    }
  }

  /** Reading inverts writing exactly for the vectors in which no name other than a unique one starts with `!`. */
  lemma RoundTrip(tt: Types, vec: Vec)
    requires tt.Valid() && FitsAll(tt, vec)
    ensures Framed(Encode(tt, vec))
    ensures Decode(tt, Encode(tt, vec)) == Some(vec) <==> AllUnmarked(vec)
  {
    DecodeEncoded(tt, vec);
    EvenIsPaired(Encode(tt, vec));
    RereadSame(vec);
  }

  /** Comparing bytes decides equality of vectors. */
  lemma EncodeInjective(tt: Types, a: Vec, b: Vec)
    requires tt.Valid() && FitsAll(tt, a) && FitsAll(tt, b)
    requires AllUnmarked(a) && AllUnmarked(b)
    requires Encode(tt, a) == Encode(tt, b)
    ensures a == b
  {
    RoundTrip(tt, a);
    RoundTrip(tt, b);
  }

  /** Without the condition two vectors share their bytes: a plain variable `!x` is written like a unique `x`. */
  lemma MarkedNameCollides(tt: Types)
    requires tt.Valid()
    ensures exists a: Vec, b: Vec :: FitsAll(tt, a) && FitsAll(tt, b) && a != b && Encode(tt, a) == Encode(tt, b)
  {
    var x := Cv("!x", tt.text, "1", false, false, false);
    var y := Cv("x", tt.text, "1", true, false, false);
    assert NameText(x) == NameText(y);
    assert [x] != [y] by {
      assert [x][0] != [y][0];
    }
    assert Encode(tt, [x]) == Encode(tt, [y]);
    assert FitsAll(tt, [x]) && FitsAll(tt, [y]);
  }

  // ---------------------------------------------------------------- where the variables are

  /** An lvalue at `p`: a byte for the type, one that is not used, two for the length, the low one first, and the value. */
  predicate LvalueIn(s: string, p: nat, ty: nat, val: string) {
    && p + 4 + |val| <= |s| && s[p] as nat == ty
    && s[p + 2] as nat + 256 * s[p + 3] as nat == |val| && s[p + 4..p + 4 + |val|] == val
  }

  lemma LvalueAt(before: string, ty: nat, val: string, rest: string, s: string)
    requires ty < 256 && |val| < 0x1_0000 && s == before + Lvalue(ty, val) + rest
    ensures LvalueIn(s, |before|, ty, val)
  {
    var h := Header(ty, |val|);
    assert s == before + (h + (val + rest));
    assert s[|before|] == h[0] && s[|before| + 2] == h[2] && s[|before| + 3] == h[3];
  }

  lemma EncodeOne(tt: Types, cv: Cv)
    ensures Encode(tt, [cv]) == EncodeCv(tt, cv)
  {
    hide EncodeCv;
    assert [cv][1..] == [] && EncodeCv(tt, cv) + "" == EncodeCv(tt, cv);
  }

  lemma EncodeAround(tt: Types, a: Vec, cv: Cv, b: Vec)
    ensures Encode(tt, a + [cv] + b) == Encode(tt, a) + EncodeCv(tt, cv) + Encode(tt, b)
    ensures Encode(tt, a + [cv]) == Encode(tt, a) + EncodeCv(tt, cv)
  {
    hide Encode, EncodeCv;
    EncodeAppend(tt, a + [cv], b);
    EncodeAppend(tt, a, [cv]);
    EncodeOne(tt, cv);
  }

  lemma TwoLvalues(before: string, t: nat, x: string, u: nat, y: string, rest: string, s: string)
    requires t < 256 && u < 256 && |x| < 0x1_0000 && |y| < 0x1_0000
    requires s == before + (Lvalue(t, x) + Lvalue(u, y)) + rest
    ensures LvalueIn(s, |before|, t, x) && LvalueIn(s, |before| + 4 + |x|, u, y)
    ensures |Lvalue(t, x) + Lvalue(u, y)| == 8 + |x| + |y|
  {
    LvalueSize(t, x);
    LvalueSize(u, y);
    hide Lvalue, LvalueIn;
    assert s == before + Lvalue(t, x) + (Lvalue(u, y) + rest);
    assert s == (before + Lvalue(t, x)) + Lvalue(u, y) + rest;
    LvalueAt(before, t, x, Lvalue(u, y) + rest, s);
    LvalueAt(before + Lvalue(t, x), u, y, rest, s);
  }

  lemma VariablePlaced(tt: Types, a: Vec, cv: Cv, b: Vec)
    requires tt.Valid() && Fits(tt, cv)
    ensures var s, p := Encode(tt, a + [cv] + b), |Encode(tt, a)|;
            && LvalueIn(s, p, tt.text, NameText(cv)) && LvalueIn(s, p + 4 + |NameText(cv)|, cv.ty, Payload(tt, cv))
            && |Encode(tt, a + [cv])| == p + 8 + |NameText(cv)| + |Payload(tt, cv)|
  {
    hide Lvalue, Encode, LvalueIn, NameText, Payload;
    EncodeAround(tt, a, cv, b);
    var s, before, rest := Encode(tt, a + [cv] + b), Encode(tt, a), Encode(tt, b);
    assert s == before + (Lvalue(tt.text, NameText(cv)) + Lvalue(cv.ty, Payload(tt, cv))) + rest;
    TwoLvalues(before, tt.text, NameText(cv), cv.ty, Payload(tt, cv), rest, s);
  }

  /** What is written of a variable: its name, marked when it is unique, and its value, both with a terminator unless the
      value is kept inline. */
  predicate Written(tt: Types, cv: Cv, name: string, value: string) {
    && name == (if cv.unique then "!" + cv.name else cv.name) + [NUL]
    && value == if tt.inline(cv.ty) then cv.val else cv.val + [NUL]
  }

  /** Every variable is where the ones before it end. */
  lemma VariableLaidOut(tt: Types, a: Vec, cv: Cv, b: Vec, name: string, value: string)
    requires tt.Valid() && Fits(tt, cv) && Written(tt, cv, name, value)
    ensures var s, p := Encode(tt, a + [cv] + b), |Encode(tt, a)|;
            && LvalueIn(s, p, tt.text, name) && LvalueIn(s, p + 4 + |name|, cv.ty, value)
            && |Encode(tt, a + [cv])| == p + 8 + |name| + |value|
  {
    hide *;
    WrittenSo(tt, cv, name, value);
    VariablePlaced(tt, a, cv, b);
  }

  lemma WrittenSo(tt: Types, cv: Cv, name: string, value: string)
    requires Written(tt, cv, name, value)
    ensures name == NameText(cv) && value == Payload(tt, cv)
  {
    assert "" + cv.name == cv.name;
  }

  lemma LvalueSize(ty: nat, val: string)
    ensures |Lvalue(ty, val)| == 4 + |val|
  {}

  // ---------------------------------------------------------------- the C functions

  /** Copy `text` into `buf` at `p`, as the memcpy, strncpy and header writes do. */
  method Put(buf: array<char>, p: nat, text: string)
    requires p + |text| <= buf.Length
    modifies buf
    ensures buf[p..p + |text|] == text
    ensures buf[..p] == old(buf[..p]) && buf[p + |text|..] == old(buf[p + |text|..])
  {
    var i := 0;
    while i < |text|
      invariant 0 <= i <= |text|
      invariant buf[p..p + i] == text[..i]
      invariant buf[..p] == old(buf[..p])
      invariant buf[p + |text|..] == old(buf[p + |text|..])
    {
      buf[p + i] := text[i];
      i := i + 1;
    }
  }

  /** The first loop of cvec2lvec: the length of the byte form. */
  method Measure(tt: Types, vr: Vec) returns (tlen: nat)
    ensures tlen == |Encode(tt, vr)|
  {
    tlen := 0;
    var i := 0;
    while i < |vr|
      invariant 0 <= i <= |vr|
      invariant tlen == |Encode(tt, vr[..i])|
    {
      var cv := vr[i];
      var len1 := HLEN + |cv.name| + 1;
      if cv.unique {
        len1 := len1 + 1;
      }
      var len2 := HLEN + |Payload(tt, cv)|;
      tlen := tlen + len1 + len2;
      EncodeSnoc(tt, vr, i);
      i := i + 1;
    }
    assert vr[..|vr|] == vr;
  }

  /** One round of the second loop: the name lvalue and the value lvalue. */
  method PutCv(tt: Types, buf: array<char>, p: nat, cv: Cv)
    requires p + |EncodeCv(tt, cv)| <= buf.Length
    modifies buf
    ensures buf[..p + |EncodeCv(tt, cv)|] == old(buf[..p]) + EncodeCv(tt, cv)
  {
    var first := Lvalue(tt.text, NameText(cv));
    var second := Lvalue(cv.ty, Payload(tt, cv));
    Put(buf, p, first);
    assert buf[..p + |first|] == old(buf[..p]) + first;
    label Named:
    Put(buf, p + |first|, second);
    assert buf[..p + |first| + |second|] == old@Named(buf[..p + |first|]) + second;
    assert old(buf[..p]) + first + second == old(buf[..p]) + EncodeCv(tt, cv);
  }

  /** cvec2lvec: measure, allocate, write. The length computed first is the number of bytes written. */
  method Cvec2lvec(tt: Types, vr: Vec) returns (lvec: array<char>)
    ensures fresh(lvec) && lvec[..] == Encode(tt, vr)
  {
    var tlen := Measure(tt, vr);
    lvec := new char[tlen];
    var lv := 0;
    var i := 0;
    while i < |vr|
      invariant 0 <= i <= |vr|
      invariant lv == |Encode(tt, vr[..i])| <= lvec.Length
      invariant lvec[..lv] == Encode(tt, vr[..i])
    {
      EncodeSnoc(tt, vr, i);
      EncodePrefix(tt, vr, i + 1);
      PutCv(tt, lvec, lv, vr[i]);
      lv := lv + |EncodeCv(tt, vr[i])|;
      i := i + 1;
    }
    assert vr[..|vr|] == vr;
  }

  lemma EncodePrefix(tt: Types, vr: Vec, i: nat)
    requires i <= |vr|
    ensures |Encode(tt, vr[..i])| <= |Encode(tt, vr)|
  {
    assert vr[..i] + vr[i..] == vr;
    EncodeAppend(tt, vr[..i], vr[i..]);
  }

  lemma EncodeSnoc(tt: Types, vr: Vec, i: nat)
    requires i < |vr|
    ensures Encode(tt, vr[..i + 1]) == Encode(tt, vr[..i]) + EncodeCv(tt, vr[i])
  {
    assert vr[..i + 1] == vr[..i] + [vr[i]];
    EncodeAppend(tt, vr[..i], [vr[i]]);
    assert Encode(tt, [vr[i]]) == EncodeCv(tt, vr[i]) + "";
  }

  /** The first loop of lvec2cvec; `val` is the buffer from the current position on. */
  method CountLvalues(lvec: string) returns (nr: nat)
    requires Framed(lvec)
    ensures nr == Count(lvec)
  {
    nr := 0;
    var val := lvec;
    while val != ""
      invariant Framed(val)
      invariant Count(lvec) == nr + Count(val)
      decreases |val|
    {
      nr := nr + 1;
      val := Tail(val);
    }
  }

  /** The second loop of lvec2cvec. */
  method ReadPairs(tt: Types, lvec: string) returns (vr: Option<Vec>)
    requires Paired(lvec)
    ensures vr == DecodePairs(tt, lvec)
  {
    var vec: Vec := [];
    var val := lvec;
    ghost var whole := DecodePairs(tt, lvec);
    assert whole.Some? ==> [] + whole.value == whole.value;
    while val != ""
      invariant Paired(val)
      invariant whole == Prepend(vec, DecodePairs(tt, val))
      decreases |val|
    {
      if TypeAt(val) != tt.text {
        return None;
      }
      var name := CString(ValueAt(val));
      val := Tail(val);
      var cv := DecodeCv(tt, name, val);
      val := Tail(val);
      PrependOne(vec, cv, DecodePairs(tt, val));
      vec := vec + [cv];
    }
    assert vec + [] == vec;
    vr := Some(vec);
  }

  /** lvec2cvec: count the lvalues, then read them in pairs. */
  method Lvec2cvec(tt: Types, lvec: string) returns (vr: Option<Vec>)
    requires Framed(lvec)
    ensures vr == Decode(tt, lvec)
  {
    var nr := CountLvalues(lvec);
    if nr % 2 != 0 {
      return None;
    }
    EvenIsPaired(lvec);
    vr := ReadPairs(tt, lvec);
  }
}
