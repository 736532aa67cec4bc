/** The messages between client and backend: their byte form, and how they get through a socket. */
module Proto {
  import opened Basics

  const NUL: char := 0 as char
  const WORD := 0x1_0000_0000

  datatype Msg =
    | Commit(dbsrc: string, dbdst: string, snapshot: nat, startup: nat)
    | Validate(db: string)
    | Change(db: string, op: nat, key: string, lvec: string)
    | Save(db: string, snapshot: nat, file: Option<string>)
    | Load(replace: int, db: string, filename: string)
    | Copy(source: string, target: string)
    | Rm(filename: string)
    | InitDb(filename: string)
    | LockDb(db: string)
    | UnlockDb(db: string)
    | Kill(session: nat)
    | Debug(level: nat)
    | Subscription(status: int, stream: string, format: nat, filter: string)
    | Notify(loglevel: int, event: string)
    | Err(err: nat, suberr: nat, reason: string)

  /** enum clicon_msg_type */
  function OpType(m: Msg): nat {
    match m
    case Commit(_, _, _, _) => 1
    case Validate(_) => 2
    case Change(_, _, _, _) => 3
    case Save(_, _, _) => 4
    case Load(_, _, _) => 5
    case Copy(_, _) => 6
    case Rm(_) => 7
    case InitDb(_) => 8
    case LockDb(_) => 9
    case UnlockDb(_) => 10
    case Kill(_) => 11
    case Debug(_) => 12
    case Subscription(_, _, _, _) => 14
    case Notify(_, _) => 16
    case Err(_, _, _) => 17
  }

  // ---------------------------------------------------------------- fields

  /** htonl */
  function Big(v: nat): string {
    [(v / 0x100_0000 % 256) as char, (v / 0x1_0000 % 256) as char, (v / 0x100 % 256) as char, (v % 256) as char]
  }

  /** ntohl of the first four bytes */
  function FromBig(s: string): nat
    requires |s| >= 4
  {
    s[0] as nat * 0x100_0000 + s[1] as nat * 0x1_0000 + s[2] as nat * 0x100 + s[3] as nat
  }

  lemma BigBack(v: nat, rest: string)
    requires v < WORD
    ensures FromBig(Big(v) + rest) == v
  {
    var a, b, c := v / 0x100_0000, v / 0x1_0000, v / 0x100;
    assert a < 256 && b == a * 256 + b % 256 && c == b * 256 + c % 256 && v == c * 256 + v % 256;
    assert (Big(v) + rest)[..4] == Big(v);
  }

  /** An int as 32 unsigned bits, and back. */
  function Unsigned(v: int): nat {
    v % WORD
  }

  function Signed(v: nat): int {
    if v < WORD / 2 then v else v - WORD
  }

  predicate Int32(v: int) {
    -(WORD / 2) <= v < WORD / 2
  }

  function CStr(s: string): string {
    s + [NUL]
  }

  /** The text up to the first terminator, if there is one. */
  function TextAt(s: string): Option<string> {
    if s == "" then None
    else if s[0] == NUL then Some("")
    else match TextAt(s[1..])
      case None => None
      case Some(t) => Some([s[0]] + t)
  }

  lemma {:induction false} TextBack(s: string, rest: string)
    requires NUL !in s
    ensures TextAt(CStr(s) + rest) == Some(s)
  {
    if s == "" {
      assert (CStr(s) + rest)[0] == NUL;
    } else {
      assert (CStr(s) + rest)[1..] == CStr(s[1..]) + rest;
      TextBack(s[1..], rest);
      assert s == [s[0]] + s[1..];
    }
  }

  // ---------------------------------------------------------------- bodies

  function Body(m: Msg): string {
    match m
    case Commit(src, dst, snapshot, startup) => Big(snapshot) + Big(startup) + CStr(src) + CStr(dst)
    case Change(db, op, key, lvec) => Big(op) + Big(|lvec|) + CStr(db) + CStr(key) + lvec
    case Save(db, snapshot, filename) => Big(snapshot) + CStr(db) + if filename.Some? then CStr(filename.value) else ""
    case Load(replace, db, filename) => Big(Unsigned(replace)) + CStr(db) + CStr(filename)
    case Copy(source, target) => CStr(source) + CStr(target)
    case Validate(s) => CStr(s)
    case Rm(s) => CStr(s)
    case InitDb(s) => CStr(s)
    case LockDb(s) => CStr(s)
    case UnlockDb(s) => CStr(s)
    case Kill(v) => Big(v)
    case Debug(v) => Big(v)
    case Subscription(status, stream, format, filter) =>
      Big(Unsigned(status)) + Big(format) + CStr(stream) + CStr(filter)
    case Notify(level, event) => Big(Unsigned(level)) + CStr(event)
    case Err(err, suberr, reason) => Big(err) + Big(suberr) + CStr(reason)
  }

  /** Strings are C strings, numbers fit their fields, and a file name goes with a save exactly when it is no snapshot. */
  predicate Valid(m: Msg) {
    match m
    case Commit(src, dst, snapshot, startup) => NUL !in src && NUL !in dst && snapshot < WORD && startup < WORD
    case Change(db, op, key, lvec) => NUL !in db && NUL !in key && op < WORD && |lvec| < WORD
    case Save(db, snapshot, filename) =>
      NUL !in db && snapshot < WORD && (filename.Some? <==> snapshot == 0) && (filename.Some? ==> NUL !in filename.value)
    case Load(replace, db, filename) => Int32(replace) && NUL !in db && NUL !in filename
    case Copy(source, target) => NUL !in source && NUL !in target
    case Validate(s) => NUL !in s
    case Rm(s) => NUL !in s
    case InitDb(s) => NUL !in s
    case LockDb(s) => NUL !in s
    case UnlockDb(s) => NUL !in s
    case Kill(v) => v < WORD
    case Debug(v) => v < WORD
    case Subscription(status, stream, format, filter) =>
      Int32(status) && NUL !in stream && format < WORD && NUL !in filter
    case Notify(level, event) => Int32(level) && NUL !in event
    case Err(err, suberr, reason) => err < WORD && suberr < WORD && NUL !in reason
  }

  // ---------------------------------------------------------------- where the fields are

  /** Four bytes, the highest first, hold the number. */
  predicate NumberIn(s: string, p: nat, v: int) {
    p + 4 <= |s|
    && v == s[p] as nat * 0x100_0000 + s[p + 1] as nat * 0x1_0000 + s[p + 2] as nat * 0x100 + s[p + 3] as nat
  }

  /** The text and its terminator. */
  predicate TextIn(s: string, p: nat, text: string) {
    p + |text| < |s| && s[p..p + |text|] == text && s[p + |text|] == NUL
  }

  /** The places of the fields of a message, and that nothing follows them. */
  predicate LaidOut(m: Msg, s: string) {
    match m
    case Commit(src, dst, snapshot, startup) =>
      && NumberIn(s, 0, snapshot) && NumberIn(s, 4, startup)
      && TextIn(s, 8, src) && TextIn(s, 9 + |src|, dst) && |s| == 10 + |src| + |dst|
    case Change(db, op, key, lvec) =>
      && NumberIn(s, 0, op) && NumberIn(s, 4, |lvec|)
      && TextIn(s, 8, db) && TextIn(s, 9 + |db|, key) && 10 + |db| + |key| <= |s| && s[10 + |db| + |key|..] == lvec
    case Save(db, snapshot, filename) =>
      && NumberIn(s, 0, snapshot) && TextIn(s, 4, db)
      && if filename.None? then |s| == 5 + |db|
         else TextIn(s, 5 + |db|, filename.value) && |s| == 6 + |db| + |filename.value|
    case Load(replace, db, filename) =>
      && NumberIn(s, 0, if replace < 0 then replace + WORD else replace)
      && TextIn(s, 4, db) && TextIn(s, 5 + |db|, filename) && |s| == 6 + |db| + |filename|
    case Copy(source, target) =>
      TextIn(s, 0, source) && TextIn(s, 1 + |source|, target) && |s| == 2 + |source| + |target|
    case Validate(a) => TextIn(s, 0, a) && |s| == 1 + |a|
    case Rm(a) => TextIn(s, 0, a) && |s| == 1 + |a|
    case InitDb(a) => TextIn(s, 0, a) && |s| == 1 + |a|
    case LockDb(a) => TextIn(s, 0, a) && |s| == 1 + |a|
    case UnlockDb(a) => TextIn(s, 0, a) && |s| == 1 + |a|
    case Kill(v) => NumberIn(s, 0, v) && |s| == 4
    case Debug(v) => NumberIn(s, 0, v) && |s| == 4
    case Subscription(status, stream, format, filter) =>
      && NumberIn(s, 0, if status < 0 then status + WORD else status) && NumberIn(s, 4, format)
      && TextIn(s, 8, stream) && TextIn(s, 9 + |stream|, filter) && |s| == 10 + |stream| + |filter|
    case Notify(level, event) =>
      NumberIn(s, 0, if level < 0 then level + WORD else level) && TextIn(s, 4, event) && |s| == 5 + |event|
    case Err(err, suberr, reason) =>
      NumberIn(s, 0, err) && NumberIn(s, 4, suberr) && TextIn(s, 8, reason) && |s| == 9 + |reason|
  }

  lemma NumberPut(before: string, v: nat, rest: string, s: string)
    requires v < WORD && s == before + Big(v) + rest
    ensures NumberIn(s, |before|, v)
  {
    BigBack(v, rest);
    assert s[|before|..] == Big(v) + rest;
    var tail := s[|before|..];
    assert tail[0] == s[|before|] && tail[1] == s[|before| + 1] && tail[2] == s[|before| + 2]
        && tail[3] == s[|before| + 3];
  }

  lemma TextPut(before: string, text: string, rest: string, s: string)
    requires s == before + CStr(text) + rest
    ensures TextIn(s, |before|, text)
  {}

  lemma TextsLaidOut(m: Msg)
    requires Valid(m) && (m.Copy? || m.Validate? || m.Rm? || m.InitDb? || m.LockDb? || m.UnlockDb?)
    ensures LaidOut(m, Body(m))
  {
    hide Big, CStr, TextIn;
    match m
    case Copy(source, target) => TwoTexts(Body(m), source, target);
    case Validate(a) => OneText(Body(m), a);
    case Rm(a) => OneText(Body(m), a);
    case InitDb(a) => OneText(Body(m), a);
    case LockDb(a) => OneText(Body(m), a);
    case UnlockDb(a) => OneText(Body(m), a);
  }

  lemma NumberLaidOut(m: Msg)
    requires Valid(m) && (m.Save? || m.Load? || m.Notify? || m.Kill? || m.Debug?)
    ensures LaidOut(m, Body(m))
  {
    hide Big, CStr, NumberIn, TextIn;
    var s := Body(m);
    match m
    case Save(db, snapshot, filename) =>
      if filename.None? {
        NumberText(s, snapshot, db, "");
      } else {
        NumberText(s, snapshot, db, CStr(filename.value));
        SecondText(s, snapshot, db, filename.value);
      }
    case Load(replace, db, filename) =>
      NumberText(s, Unsigned(replace), db, CStr(filename));
      SecondText(s, Unsigned(replace), db, filename);
    case Notify(level, event) => NumberText(s, Unsigned(level), event, "");
    case Kill(v) => OneNumber(s, v);
    case Debug(v) => OneNumber(s, v);
  }

  /** Every field of a valid message is at its place in the body. */
  lemma BodyLaidOut(m: Msg)
    requires Valid(m)
    ensures LaidOut(m, Body(m))
  {
    hide Big, CStr, NumberIn, TextIn;
    match m {
      case Commit(src, dst, snapshot, startup) => TwoNumbersTwoTexts(Body(m), snapshot, startup, src, dst, "");
      case Change(db, op, key, lvec) => TwoNumbersTwoTexts(Body(m), op, |lvec|, db, key, lvec);
      case Subscription(status, stream, format, filter) =>
        TwoNumbersTwoTexts(Body(m), Unsigned(status), format, stream, filter, "");
      case Err(err, suberr, reason) => TwoNumbersText(Body(m), err, suberr, reason);
      case _ =>
        if m.Save? || m.Load? || m.Notify? || m.Kill? || m.Debug? {
          NumberLaidOut(m);
        } else {
          TextsLaidOut(m);
        }
    }
  }

  lemma TwoNumbersTwoTexts(s: string, u: nat, v: nat, a: string, b: string, rest: string)
    requires u < WORD && v < WORD
    requires s == Big(u) + Big(v) + CStr(a) + CStr(b) + rest || (rest == "" && s == Big(u) + Big(v) + CStr(a) + CStr(b))
    ensures NumberIn(s, 0, u) && NumberIn(s, 4, v) && TextIn(s, 8, a) && TextIn(s, 9 + |a|, b)
    ensures |s| == 10 + |a| + |b| + |rest| && s[10 + |a| + |b|..] == rest
  {
    var x, y := Big(u), Big(v);
    assert |x| == 4 && |y| == 4 && |CStr(a)| == |a| + 1 && |CStr(b)| == |b| + 1;
    NumberPut("", u, y + CStr(a) + CStr(b) + rest, s) by {
      assert s == "" + x + (y + CStr(a) + CStr(b) + rest);
    }
    NumberPut(x, v, CStr(a) + CStr(b) + rest, s) by {
      assert s == x + y + (CStr(a) + CStr(b) + rest);
    }
    TextPut(x + y, a, CStr(b) + rest, s) by {
      assert s == x + y + CStr(a) + (CStr(b) + rest);
    }
    TextPut(x + y + CStr(a), b, rest, s) by {
      assert s == x + y + CStr(a) + CStr(b) + rest;
    }
  }

  lemma NumberText(s: string, u: nat, a: string, rest: string)
    requires u < WORD && (s == Big(u) + CStr(a) + rest || (rest == "" && s == Big(u) + CStr(a)))
    ensures NumberIn(s, 0, u) && TextIn(s, 4, a) && |s| == 5 + |a| + |rest|
  {
    var x := Big(u);
    assert |x| == 4 && |CStr(a)| == |a| + 1;
    assert s == "" + x + (CStr(a) + rest) && s == x + CStr(a) + rest;
    NumberPut("", u, CStr(a) + rest, s);
    TextPut(x, a, rest, s);
  }

  lemma SecondText(s: string, u: nat, a: string, b: string)
    requires s == Big(u) + CStr(a) + CStr(b)
    ensures TextIn(s, 5 + |a|, b) && |s| == 6 + |a| + |b|
  {
    assert |Big(u)| == 4 && |CStr(a)| == |a| + 1;
    assert s == Big(u) + CStr(a) + CStr(b) + "";
    TextPut(Big(u) + CStr(a), b, "", s);
  }

  lemma TwoTexts(s: string, a: string, b: string)
    requires s == CStr(a) + CStr(b)
    ensures TextIn(s, 0, a) && TextIn(s, 1 + |a|, b) && |s| == 2 + |a| + |b|
  {
    assert s == "" + CStr(a) + CStr(b) && s == CStr(a) + CStr(b) + "";
    TextPut("", a, CStr(b), s);
    TextPut(CStr(a), b, "", s);
  }

  lemma OneText(s: string, a: string)
    requires s == CStr(a)
    ensures TextIn(s, 0, a) && |s| == 1 + |a|
  {}

  lemma OneNumber(s: string, v: nat)
    requires v < WORD && s == Big(v)
    ensures NumberIn(s, 0, v) && |s| == 4
  {
    assert s == "" + Big(v) + "";
    NumberPut("", v, "", s);
  }

  lemma TwoNumbersText(s: string, u: nat, v: nat, a: string)
    requires u < WORD && v < WORD && s == Big(u) + Big(v) + CStr(a)
    ensures NumberIn(s, 0, u) && NumberIn(s, 4, v) && TextIn(s, 8, a) && |s| == 9 + |a|
  {
    assert s == "" + Big(u) + (Big(v) + CStr(a)) && s == Big(u) + Big(v) + CStr(a) + "";
    NumberPut("", u, Big(v) + CStr(a), s);
    NumberPut(Big(u), v, CStr(a), s);
    TextPut(Big(u) + Big(v), a, "", s);
  }

  // ---------------------------------------------------------------- writing

  /** strncpy: the text, cut or filled up with zeroes to `n` bytes. */
  method Strncpy(buf: array<char>, p: nat, s: string, n: nat)
    requires p + n <= buf.Length && |s| <= n
    modifies buf
    ensures buf[..p] == old(buf[..p]) && buf[p..p + |s|] == s && buf[p + n..] == old(buf[p + n..])
    ensures forall i :: p + |s| <= i < p + n ==> buf[i] == NUL
  {
    var i := 0;
    while i < n
      invariant 0 <= i <= n
      invariant forall k :: p <= k < p + i ==> buf[k] == if k - p < |s| then s[k - p] else NUL
      invariant forall k :: 0 <= k < buf.Length && !(p <= k < p + i) ==> buf[k] == old(buf[k])
    {
      buf[p + i] := if i < |s| then s[i] else NUL;
      i := i + 1;
    }
  }

  /** The body under construction, and how far it is written; the rest is zero. */
  class Writer {
    const buf: array<char>
    var p: nat

    ghost predicate Valid()
      reads this, buf
    {
      p <= buf.Length && forall i :: p <= i < buf.Length ==> buf[i] == NUL
    }

    ghost function Written(): string
      requires Valid()
      reads this, buf
    {
      buf[..p]
    }

    constructor (len: nat)
      ensures Valid() && fresh(buf) && buf.Length == len && Written() == "" && p == 0
    {
      buf, p := new char[len](_ => NUL), 0;
    }

    /** The buffer is full. */
    lemma Done()
      requires Valid() && p == buf.Length
      ensures buf[..] == Written()
    {}

    method PutInt(v: nat)
      requires Valid() && p + 4 <= buf.Length
      modifies this, buf
      ensures Valid() && Written() == old(Written()) + Big(v) && p == old(p) + 4
    {
      var bytes := Big(v);
      buf[p], buf[p + 1], buf[p + 2], buf[p + 3] := bytes[0], bytes[1], bytes[2], bytes[3];
      p := p + 4;
    }

    /** The text and, because the rest of the buffer is zero, its terminator. */
    method PutStr(s: string)
      requires Valid() && p + |s| + 1 <= buf.Length
      modifies this, buf
      ensures Valid() && Written() == old(Written()) + CStr(s) && p == old(p) + |s| + 1
    {
      Strncpy(buf, p, s, buf.Length - p);
      assert buf[..p + |s| + 1] == buf[..p] + buf[p..p + |s|] + [buf[p + |s|]];
      p := p + |s| + 1;
    }

    method PutRaw(s: string)
      requires Valid() && p + |s| <= buf.Length
      modifies this, buf
      ensures Valid() && Written() == old(Written()) + s && p == old(p) + |s|
    {
      var i := 0;
      while i < |s|
        invariant 0 <= i <= |s| && p == old(p)
        invariant forall k :: p <= k < p + i ==> buf[k] == s[k - p]
        invariant forall k :: 0 <= k < buf.Length && !(p <= k < p + i) ==> buf[k] == old(buf[k])
      {
        buf[p + i] := s[i];
        i := i + 1;
      }
      assert buf[..p + |s|] == buf[..p] + buf[p..p + |s|];
      p := p + |s|;
    }
  }

  /** A message in memory: the two 16-bit fields of the header, and the body. */
  datatype Packet = Packet(opLen: nat, opType: nat, body: string)

  const HEADER := 4

  /** What an encoder makes of a message; the length field is cut to 16 bits. */
  function Packed(m: Msg): Packet {
    Packet((HEADER + |Body(m)|) % 0x1_0000, OpType(m), Body(m))
  }

  // The encoders: the buffer is as long as the fields need, and they are written one after the other.

  method EncodeCommit(src: string, dst: string, snapshot: nat, startup: nat) returns (w: Writer)
    ensures fresh(w) && fresh(w.buf) && w.buf[..] == Body(Commit(src, dst, snapshot, startup))
  {
    hide Big, CStr;
    w := new Writer(2 * 4 + |src| + 1 + |dst| + 1);
    w.PutInt(snapshot);
    w.PutInt(startup);
    w.PutStr(src);
    w.PutStr(dst);
    w.Done();
  }

  method EncodeChange(db: string, op: nat, key: string, lvec: string) returns (w: Writer)
    ensures fresh(w) && fresh(w.buf) && w.buf[..] == Body(Change(db, op, key, lvec))
  {
    hide Big, CStr;
    w := new Writer(2 * 4 + |db| + 1 + |key| + 1 + |lvec|);
    w.PutInt(op);
    w.PutInt(|lvec|);
    w.PutStr(db);
    w.PutStr(key);
    w.PutRaw(lvec);
    w.Done();
  }

  method EncodeSave(db: string, snapshot: nat, file: Option<string>) returns (w: Writer)
    requires file.Some? <==> snapshot == 0
    ensures fresh(w) && fresh(w.buf) && w.buf[..] == Body(Save(db, snapshot, file))
  {
    hide Big, CStr;
    w := new Writer(4 + |db| + 1 + if snapshot == 0 then |file.value| + 1 else 0);
    w.PutInt(snapshot);
    w.PutStr(db);
    if snapshot == 0 {
      w.PutStr(file.value);
    }
    w.Done();
  }

  method EncodeLoad(replace: int, db: string, filename: string) returns (w: Writer)
    ensures fresh(w) && fresh(w.buf) && w.buf[..] == Body(Load(replace, db, filename))
  {
    hide Big, CStr;
    w := new Writer(4 + |db| + 1 + |filename| + 1);
    w.PutInt(Unsigned(replace));
    w.PutStr(db);
    w.PutStr(filename);
    w.Done();
  }

  method EncodeCopy(source: string, target: string) returns (w: Writer)
    ensures fresh(w) && fresh(w.buf) && w.buf[..] == Body(Copy(source, target))
  {
    hide Big, CStr;
    w := new Writer(|source| + 1 + |target| + 1);
    w.PutStr(source);
    w.PutStr(target);
    w.Done();
  }

  /** clicon_msg_1str_encode */
  method EncodeStr(s: string) returns (w: Writer)
    ensures fresh(w) && fresh(w.buf) && w.buf[..] == CStr(s)
  {
    w := new Writer(|s| + 1);
    w.PutStr(s);
    w.Done();
  }

  method EncodeWord(v: nat) returns (w: Writer)
    ensures fresh(w) && fresh(w.buf) && w.buf[..] == Big(v)
  {
    w := new Writer(4);
    w.PutInt(v);
    w.Done();
  }

  method EncodeSubscription(status: int, stream: string, format: nat, filter: string) returns (w: Writer)
    ensures fresh(w) && fresh(w.buf) && w.buf[..] == Body(Subscription(status, stream, format, filter))
  {
    hide Big, CStr;
    w := new Writer(4 + 4 + |stream| + 1 + |filter| + 1);
    w.PutInt(Unsigned(status));
    w.PutInt(format);
    w.PutStr(stream);
    w.PutStr(filter);
    w.Done();
  }

  method EncodeNotify(level: int, event: string) returns (w: Writer)
    ensures fresh(w) && fresh(w.buf) && w.buf[..] == Body(Notify(level, event))
  {
    hide Big, CStr;
    w := new Writer(4 + |event| + 1);
    w.PutInt(Unsigned(level));
    w.PutStr(event);
    w.Done();
  }

  method EncodeErr(err: nat, suberr: nat, reason: string) returns (w: Writer)
    ensures fresh(w) && fresh(w.buf) && w.buf[..] == Body(Err(err, suberr, reason))
  {
    hide Big, CStr;
    w := new Writer(2 * 4 + |reason| + 1);
    w.PutInt(err);
    w.PutInt(suberr);
    w.PutStr(reason);
    w.Done();
  }

  method Encode(m: Msg) returns (pkt: Packet)
    requires Valid(m)
    ensures pkt == Packed(m)
  {
    hide Big, CStr, Body;
    var w: Writer;
    match m {
      case Commit(src, dst, snapshot, startup) => w := EncodeCommit(src, dst, snapshot, startup);
      case Change(db, op, key, lvec) => w := EncodeChange(db, op, key, lvec);
      case Save(db, snapshot, file) => w := EncodeSave(db, snapshot, file);
      case Load(replace, db, filename) => w := EncodeLoad(replace, db, filename);
      case Copy(source, target) => w := EncodeCopy(source, target);
      case Validate(s) => StrBody(m, s); w := EncodeStr(s);
      case Rm(s) => StrBody(m, s); w := EncodeStr(s);
      case InitDb(s) => StrBody(m, s); w := EncodeStr(s);
      case LockDb(s) => StrBody(m, s); w := EncodeStr(s);
      case UnlockDb(s) => StrBody(m, s); w := EncodeStr(s);
      case Kill(v) => WordBody(m, v); w := EncodeWord(v);
      case Debug(v) => WordBody(m, v); w := EncodeWord(v);
      case Subscription(status, stream, format, filter) => w := EncodeSubscription(status, stream, format, filter);
      case Notify(level, event) => w := EncodeNotify(level, event);
      case Err(err, suberr, reason) => w := EncodeErr(err, suberr, reason);
    }
    pkt := Packet((HEADER + w.buf.Length) % 0x1_0000, OpType(m), w.buf[..]);
  }

  lemma StrBody(m: Msg, s: string)
    requires m == Validate(s) || m == Rm(s) || m == InitDb(s) || m == LockDb(s) || m == UnlockDb(s)
    ensures Body(m) == CStr(s)
  {}

  lemma WordBody(m: Msg, v: nat)
    requires m == Kill(v) || m == Debug(v)
    ensures Body(m) == Big(v)
  {}

  // ---------------------------------------------------------------- reading

  /** The number at the front, and what is behind it. */
  function IntAt(s: string): Option<(nat, string)> {
    if |s| < 4 then None else Some((FromBig(s), s[4..]))
  }

  /** The C string at the front, and what is behind it. */
  function StrAt(s: string): Option<(string, string)> {
    var t :- TextAt(s);
    if |t| + 1 <= |s| then Some((t, s[|t| + 1..])) else None
  }

  lemma IntBack(v: nat, rest: string)
    requires v < WORD
    ensures IntAt(Big(v) + rest) == Some((v, rest))
  {
    BigBack(v, rest);
  }

  lemma StrBack(t: string, rest: string)
    requires NUL !in t
    ensures StrAt(CStr(t) + rest) == Some((t, rest))
  {
    TextBack(t, rest);
  }

  function ParseCommit(s: string): Option<Msg> {
    var (snapshot, s1) :- IntAt(s);
    var (startup, s2) :- IntAt(s1);
    var (src, s3) :- StrAt(s2);
    var (dst, _) :- StrAt(s3);
    Some(Commit(src, dst, snapshot, startup))
  }

  function ParseChange(s: string): Option<Msg> {
    var (op, s1) :- IntAt(s);
    var (len, s2) :- IntAt(s1);
    var (db, s3) :- StrAt(s2);
    var (key, s4) :- StrAt(s3);
    if len <= |s4| then Some(Change(db, op, key, s4[..len])) else None
  }

  function ParseSave(s: string): Option<Msg> {
    var (snapshot, s1) :- IntAt(s);
    var (db, s2) :- StrAt(s1);
    if snapshot == 0 then
      var (file, _) :- StrAt(s2);
      Some(Save(db, snapshot, Some(file)))
    else Some(Save(db, snapshot, None))
  }

  function ParseLoad(s: string): Option<Msg> {
    var (replace, s1) :- IntAt(s);
    var (db, s2) :- StrAt(s1);
    var (filename, _) :- StrAt(s2);
    Some(Load(Signed(replace), db, filename))
  }

  function ParseCopy(s: string): Option<Msg> {
    var (source, s1) :- StrAt(s);
    var (target, _) :- StrAt(s1);
    Some(Copy(source, target))
  }

  function ParseSubscription(s: string): Option<Msg> {
    var (status, s1) :- IntAt(s);
    var (format, s2) :- IntAt(s1);
    var (stream, s3) :- StrAt(s2);
    var (filter, _) :- StrAt(s3);
    Some(Subscription(Signed(status), stream, format, filter))
  }

  function ParseNotify(s: string): Option<Msg> {
    var (level, s1) :- IntAt(s);
    var (event, _) :- StrAt(s1);
    Some(Notify(Signed(level), event))
  }

  function ParseErr(s: string): Option<Msg> {
    var (err, s1) :- IntAt(s);
    var (suberr, s2) :- IntAt(s1);
    var (reason, _) :- StrAt(s2);
    Some(Err(err, suberr, reason))
  }

  function Parse(opType: nat, s: string): Option<Msg> {
    match opType
    case 1 => ParseCommit(s)
    case 3 => ParseChange(s)
    case 4 => ParseSave(s)
    case 5 => ParseLoad(s)
    case 6 => ParseCopy(s)
    case 11 => var (v, _) :- IntAt(s); Some(Kill(v))
    case 12 => var (v, _) :- IntAt(s); Some(Debug(v))
    case 14 => ParseSubscription(s)
    case 16 => ParseNotify(s)
    case 17 => ParseErr(s)
    case _ =>
      var (t, _) :- StrAt(s);
      match opType
      case 2 => Some(Validate(t))
      case 7 => Some(Rm(t))
      case 8 => Some(InitDb(t))
      case 9 => Some(LockDb(t))
      case 10 => Some(UnlockDb(t))
      case _ => None
  }

  lemma CommitBack(m: Msg)
    requires m.Commit? && Valid(m)
    ensures ParseCommit(Body(m)) == Some(m)
  {
    hide Big, CStr, IntAt, StrAt;
    var s3 := CStr(m.dbdst) + "";
    var s2 := CStr(m.dbsrc) + s3;
    var s1 := Big(m.startup) + s2;
    assert Body(m) == Big(m.snapshot) + s1;
    IntBack(m.snapshot, s1);
    IntBack(m.startup, s2);
    StrBack(m.dbsrc, s3);
    StrBack(m.dbdst, "");
  }

  lemma ChangeBack(m: Msg)
    requires m.Change? && Valid(m)
    ensures ParseChange(Body(m)) == Some(m)
  {
    hide Big, CStr, IntAt, StrAt;
    var s3 := CStr(m.key) + m.lvec;
    var s2 := CStr(m.db) + s3;
    var s1 := Big(|m.lvec|) + s2;
    assert Body(m) == Big(m.op) + s1;
    IntBack(m.op, s1);
    IntBack(|m.lvec|, s2);
    StrBack(m.db, s3);
    StrBack(m.key, m.lvec);
    assert m.lvec[..|m.lvec|] == m.lvec;
  }

  lemma SaveBack(m: Msg)
    requires m.Save? && Valid(m)
    ensures ParseSave(Body(m)) == Some(m)
  {
    hide Big, CStr, IntAt, StrAt;
    var s2 := if m.file.Some? then CStr(m.file.value) + "" else "";
    var s1 := CStr(m.db) + s2;
    assert Body(m) == Big(m.snapshot) + s1;
    IntBack(m.snapshot, s1);
    StrBack(m.db, s2);
    if m.file.Some? {
      StrBack(m.file.value, "");
    }
  }

  lemma LoadBack(m: Msg)
    requires m.Load? && Valid(m)
    ensures ParseLoad(Body(m)) == Some(m)
  {
    hide Big, CStr, IntAt, StrAt;
    var s2 := CStr(m.filename) + "";
    var s1 := CStr(m.db) + s2;
    assert Body(m) == Big(Unsigned(m.replace)) + s1;
    IntBack(Unsigned(m.replace), s1);
    StrBack(m.db, s2);
    StrBack(m.filename, "");
  }

  lemma CopyBack(m: Msg)
    requires m.Copy? && Valid(m)
    ensures ParseCopy(Body(m)) == Some(m)
  {
    hide CStr, StrAt;
    var s1 := CStr(m.target) + "";
    assert Body(m) == CStr(m.source) + s1;
    StrBack(m.source, s1);
    StrBack(m.target, "");
  }

  lemma SubscriptionBack(m: Msg)
    requires m.Subscription? && Valid(m)
    ensures ParseSubscription(Body(m)) == Some(m)
  {
    hide Big, CStr, IntAt, StrAt;
    var s3 := CStr(m.filter) + "";
    var s2 := CStr(m.stream) + s3;
    var s1 := Big(m.format) + s2;
    assert Body(m) == Big(Unsigned(m.status)) + s1;
    IntBack(Unsigned(m.status), s1);
    IntBack(m.format, s2);
    StrBack(m.stream, s3);
    StrBack(m.filter, "");
  }

  lemma NotifyBack(m: Msg)
    requires m.Notify? && Valid(m)
    ensures ParseNotify(Body(m)) == Some(m)
  {
    hide Big, CStr, IntAt, StrAt;
    var s1 := CStr(m.event) + "";
    assert Body(m) == Big(Unsigned(m.loglevel)) + s1;
    IntBack(Unsigned(m.loglevel), s1);
    StrBack(m.event, "");
  }

  lemma ErrBack(m: Msg)
    requires m.Err? && Valid(m)
    ensures ParseErr(Body(m)) == Some(m)
  {
    hide Big, CStr, IntAt, StrAt;
    var s2 := CStr(m.reason) + "";
    var s1 := Big(m.suberr) + s2;
    assert Body(m) == Big(m.err) + s1;
    IntBack(m.err, s1);
    IntBack(m.suberr, s2);
    StrBack(m.reason, "");
  }

  /** Decoding undoes encoding. */
  lemma ParseBody(m: Msg)
    requires Valid(m)
    ensures Parse(OpType(m), Body(m)) == Some(m)
  {
    hide Big, CStr, IntAt, StrAt, ParseCommit, ParseChange, ParseSave, ParseLoad, ParseCopy, ParseSubscription,
         ParseNotify, ParseErr;
    match m {
      case Commit(_, _, _, _) => CommitBack(m);
      case Change(_, _, _, _) => ChangeBack(m);
      case Save(_, _, _) => SaveBack(m);
      case Load(_, _, _) => LoadBack(m);
      case Copy(_, _) => CopyBack(m);
      case Subscription(_, _, _, _) => SubscriptionBack(m);
      case Notify(_, _) => NotifyBack(m);
      case Err(_, _, _) => ErrBack(m);
      case Kill(v) => IntBack(v, ""); assert Body(m) == Big(v) + "";
      case Debug(v) => IntBack(v, ""); assert Body(m) == Big(v) + "";
      case Validate(s) => StrBack(s, ""); assert Body(m) == CStr(s) + "";
      case Rm(s) => StrBack(s, ""); assert Body(m) == CStr(s) + "";
      case InitDb(s) => StrBack(s, ""); assert Body(m) == CStr(s) + "";
      case LockDb(s) => StrBack(s, ""); assert Body(m) == CStr(s) + "";
      case UnlockDb(s) => StrBack(s, ""); assert Body(m) == CStr(s) + "";
    }
  }

  /** The number at offset `p`. */
  method GetInt(body: string, p: nat) returns (r: Option<nat>, q: nat)
    requires p <= |body|
    ensures match IntAt(body[p..])
            case None => r == None
            case Some((v, rest)) => r == Some(v) && q <= |body| && body[q..] == rest
  {
    if |body| - p < 4 {
      return None, p;
    }
    q := p + 4;
    assert body[p..][4..] == body[q..];
    r := Some(FromBig(body[p..p + 4]));
  }

  lemma {:induction false} TextIs(s: string, n: nat)
    requires n < |s| && s[n] == NUL && NUL !in s[..n]
    ensures TextAt(s) == Some(s[..n])
  {
    assert s == CStr(s[..n]) + s[n + 1..];
    TextBack(s[..n], s[n + 1..]);
  }

  lemma {:induction false} NoText(s: string)
    requires NUL !in s
    ensures TextAt(s) == None
  {
    if s != "" {
      NoText(s[1..]);
    }
  }

  /** The C string at offset `p`. */
  method GetStr(body: string, p: nat) returns (r: Option<string>, q: nat)
    requires p <= |body|
    ensures match StrAt(body[p..])
            case None => r == None
            case Some((t, rest)) => r == Some(t) && q <= |body| && body[q..] == rest
  {
    hide TextAt;
    q := p;
    while q < |body| && body[q] != NUL
      invariant p <= q <= |body| && NUL !in body[p..q]
    {
      q := q + 1;
    }
    if q == |body| {
      assert body[p..q] == body[p..];
      NoText(body[p..]);
      return None, q;
    }
    assert body[p..][..q - p] == body[p..q] && body[p..][q - p + 1..] == body[q + 1..];
    TextIs(body[p..], q - p);
    r, q := Some(body[p..q]), q + 1;
  }

  // The decoders: the fields one after the other, through an advancing offset.

  method DecodeCommit(body: string) returns (r: Option<Msg>)
    ensures r == ParseCommit(body)
  {
    hide IntAt, StrAt;
    var snapshot, p :- GetInt(body, 0);
    var startup, p1 :- GetInt(body, p);
    var src, p2 :- GetStr(body, p1);
    var dst, p3 :- GetStr(body, p2);
    return Some(Commit(src, dst, snapshot, startup));
  }

  method DecodeChange(body: string) returns (r: Option<Msg>)
    ensures r == ParseChange(body)
  {
    hide IntAt, StrAt;
    var op, p :- GetInt(body, 0);
    var len, p1 :- GetInt(body, p);
    var db, p2 :- GetStr(body, p1);
    var key, p3 :- GetStr(body, p2);
    if len > |body| - p3 {
      return None;
    }
    assert body[p3..][..len] == body[p3..p3 + len];
    return Some(Change(db, op, key, if len != 0 then body[p3..p3 + len] else ""));
  }

  method DecodeSave(body: string) returns (r: Option<Msg>)
    ensures r == ParseSave(body)
  {
    hide IntAt, StrAt;
    var snapshot, p :- GetInt(body, 0);
    var db, p1 :- GetStr(body, p);
    if snapshot == 0 {
      var file, p2 :- GetStr(body, p1);
      return Some(Save(db, snapshot, Some(file)));
    }
    return Some(Save(db, snapshot, None));
  }

  method DecodeLoad(body: string) returns (r: Option<Msg>)
    ensures r == ParseLoad(body)
  {
    hide IntAt, StrAt;
    var replace, p :- GetInt(body, 0);
    var db, p1 :- GetStr(body, p);
    var filename, p2 :- GetStr(body, p1);
    return Some(Load(Signed(replace), db, filename));
  }

  method DecodeCopy(body: string) returns (r: Option<Msg>)
    ensures r == ParseCopy(body)
  {
    hide StrAt;
    var source, p :- GetStr(body, 0);
    var target, p1 :- GetStr(body, p);
    return Some(Copy(source, target));
  }

  method DecodeSubscription(body: string) returns (r: Option<Msg>)
    ensures r == ParseSubscription(body)
  {
    hide IntAt, StrAt;
    var status, p :- GetInt(body, 0);
    var format, p1 :- GetInt(body, p);
    var stream, p2 :- GetStr(body, p1);
    var filter, p3 :- GetStr(body, p2);
    return Some(Subscription(Signed(status), stream, format, filter));
  }

  method DecodeNotify(body: string) returns (r: Option<Msg>)
    ensures r == ParseNotify(body)
  {
    hide IntAt, StrAt;
    var level, p :- GetInt(body, 0);
    var event, p1 :- GetStr(body, p);
    return Some(Notify(Signed(level), event));
  }

  method DecodeErr(body: string) returns (r: Option<Msg>)
    ensures r == ParseErr(body)
  {
    hide IntAt, StrAt;
    var err, p :- GetInt(body, 0);
    var suberr, p1 :- GetInt(body, p);
    var reason, p2 :- GetStr(body, p1);
    return Some(Err(err, suberr, reason));
  }

  method Decode(pkt: Packet) returns (r: Option<Msg>)
    ensures r == Parse(pkt.opType, pkt.body)
  {
    hide IntAt, StrAt;
    match pkt.opType {
      case 1 => r := DecodeCommit(pkt.body);
      case 3 => r := DecodeChange(pkt.body);
      case 4 => r := DecodeSave(pkt.body);
      case 5 => r := DecodeLoad(pkt.body);
      case 6 => r := DecodeCopy(pkt.body);
      case 11 =>
        var v, p :- GetInt(pkt.body, 0);
        r := Some(Kill(v));
      case 12 =>
        var v, p :- GetInt(pkt.body, 0);
        r := Some(Debug(v));
      case 14 => r := DecodeSubscription(pkt.body);
      case 16 => r := DecodeNotify(pkt.body);
      case 17 => r := DecodeErr(pkt.body);
      case _ =>
        var t, p :- GetStr(pkt.body, 0);
        r := match pkt.opType
             case 2 => Some(Validate(t))
             case 7 => Some(Rm(t))
             case 8 => Some(InitDb(t))
             case 9 => Some(LockDb(t))
             case 10 => Some(UnlockDb(t))
             case _ => None;
    }
  }
}
