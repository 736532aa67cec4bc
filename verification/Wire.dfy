/** How messages get through a socket: reads and writes that may be split or interrupted, and the framing. */
module Wire {
  import opened Basics
  import opened Cvec
  import opened Proto
  import Lvec

  datatype Errno = Eintr | Eagain | Eother

  /** The bytes of a message that are sent: its header in the order of the machine and its body, as many of them as the
      length field says. */
  function Bytes(pkt: Packet): string
    requires pkt.opLen <= HEADER + |pkt.body|
  {
    ([(pkt.opLen % 256) as char, (pkt.opLen / 256 % 256) as char, (pkt.opType % 256) as char,
      (pkt.opType / 256 % 256) as char] + pkt.body)[..pkt.opLen]
  }

  /** The length field at the front of a stream. */
  function LengthIn(s: string): nat
    requires |s| >= HEADER
  {
    s[0] as nat % 256 + 256 * (s[1] as nat % 256)
  }

  function PacketOf(s: string): Packet
    requires |s| >= HEADER
  {
    Packet(LengthIn(s), s[2] as nat % 256 + 256 * (s[3] as nat % 256), s[HEADER..])
  }

  /** The whole message goes out just when its length fits the 16-bit field. */
  lemma WholeOnWire(m: Msg)
    ensures Packed(m).opLen <= HEADER + |Body(m)|
    ensures |Bytes(Packed(m))| == HEADER + |Body(m)| <==> HEADER + |Body(m)| < 0x1_0000
  {}

  /** What is in front of a stream after a message that fits was sent is that message. */
  lemma Delivered(m: Msg, rest: string)
    requires Valid(m) && HEADER + |Body(m)| < 0x1_0000
    ensures Packed(m).opLen <= HEADER + |Packed(m).body|
    ensures var s := Bytes(Packed(m)) + rest; var n := |Bytes(Packed(m))|;
            && n >= HEADER && LengthIn(s) == n && PacketOf(s[..n]) == Packed(m) && s[n..] == rest
            && Parse(PacketOf(s[..n]).opType, PacketOf(s[..n]).body) == Some(m)
  {
    hide Body, Parse, Valid, Bytes, LengthIn, PacketOf;
    ParseBody(m);
    var p := Packed(m);
    HeaderBack(p);
    assert (Bytes(p) + rest)[..|Bytes(p)|] == Bytes(p) && (Bytes(p) + rest)[|Bytes(p)|..] == rest;
    SameLength(Bytes(p), rest);
  }

  /** A packet that is sent whole is read back. */
  lemma HeaderBack(p: Packet)
    requires p.opLen == HEADER + |p.body| < 0x1_0000 && p.opType < 0x1_0000
    ensures |Bytes(p)| == p.opLen && LengthIn(Bytes(p)) == p.opLen && PacketOf(Bytes(p)) == p
  {
    var hdr := [(p.opLen % 256) as char, (p.opLen / 256 % 256) as char, (p.opType % 256) as char,
                (p.opType / 256 % 256) as char];
    assert Bytes(p) == hdr + p.body;
  }

  lemma SameLength(s: string, rest: string)
    requires |s| >= HEADER
    ensures LengthIn(s + rest) == LengthIn(s)
  {}

  /** One direction of a connection: the bytes on their way, and how often a call may still be interrupted. `signalled`
      is whether the last interruption was by a signal that the process wants to see. */
  class Socket {
    var bytes: string
    var interruptions: nat
    var signalled: bool
    ghost var failures: nat  // calls that failed other than by an interruption or a lack of data
    ghost var short: bool    // whether the last read failed or returned less than was asked for

    constructor ()
      ensures bytes == "" && failures == 0
    {
      bytes, interruptions, signalled, failures, short := "", *, false, 0, false;
    }

    /** Such an error is to be tried again. */
    predicate Again(errno: Errno)
      reads this
    {
      errno.Eagain? || (errno.Eintr? && !signalled)
    }

    /** read: an error, nothing at the end of the stream, or some of the bytes asked for. */
    method Read(n: nat) returns (res: int, data: string, errno: Errno)
      modifies this
      ensures res < 0 ==> res == -1 && bytes == old(bytes) && data == ""
      ensures res >= 0 ==> res == |data| <= n && old(bytes) == data + bytes && (res == 0 && n > 0 ==> bytes == "")
      ensures interruptions <= old(interruptions)
      ensures res < 0 && errno != Eother ==> interruptions < old(interruptions)
      ensures failures == old(failures) + if res < 0 && !Again(errno) then 1 else 0
      ensures short <==> res < n
    {
      data, errno := "", Eother;
      var fails: bool := *;
      if fails {
        var again: bool := *;
        signalled := *;
        if interruptions > 0 {
          interruptions := interruptions - 1;
          errno := if again then Eagain else Eintr;
        }
        failures, short := failures + if Again(errno) then 0 else 1, true;
        return -1, "", errno;
      }
      var k: int := *;
      k := if k > n then n else if k < 1 then 1 else k;
      k := if n == 0 then 0 else if k > |bytes| then |bytes| else k;
      res, data, bytes := k, bytes[..k], bytes[k..];
      short := res < n;
    }

    /** write: an error, or some of the bytes given. */
    method Write(data: string) returns (res: int, errno: Errno)
      requires data != ""
      modifies this
      ensures res < 0 ==> res == -1 && bytes == old(bytes)
      ensures res >= 0 ==> 0 < res <= |data| && bytes == old(bytes) + data[..res]
      ensures interruptions <= old(interruptions)
      ensures res < 0 && errno != Eother ==> interruptions < old(interruptions)
      ensures failures == old(failures) + if res < 0 && !Again(errno) then 1 else 0
    {
      errno := Eother;
      var fails: bool := *;
      if fails {
        var again: bool := *;
        signalled := *;
        if interruptions > 0 {
          interruptions := interruptions - 1;
          errno := if again then Eagain else Eintr;
        }
        failures := failures + if Again(errno) then 0 else 1;
        return -1, errno;
      }
      var k: int := *;
      k := if k < 1 then 1 else if k > |data| then |data| else k;
      res, bytes := k, bytes + data[..k];
    }

    /** atomicio with read. An interruption by a signal the process wants to see ends it. */
    method AtomicRead(n: nat) returns (res: int, data: string)
      modifies this
      ensures res == n || res == 0 || res == -1
      ensures old(bytes) == data + bytes && |data| <= n
      ensures res == n > 0 ==> |data| == n
      ensures res == 0 && n > 0 ==> bytes == "" && |data| < n
      ensures failures == old(failures) + if res == -1 then 1 else 0
    {
      data := "";
      while |data| < n
        invariant |data| <= n && old(bytes) == data + bytes && failures == old(failures)
        decreases interruptions, n - |data|
      {
        var some, errno;
        res, some, errno := Read(n - |data|);
        if res == -1 {
          if (errno == Eintr && !signalled) || errno == Eagain {
            continue;
          }
          return;
        }
        if res == 0 {
          return;
        }
        data := data + some;
      }
      res := n;
    }

    /** atomicio with write. */
    method AtomicWrite(data: string) returns (res: int)
      modifies this
      ensures res == |data| || res == -1
      ensures exists k :: 0 <= k <= |data| && bytes == old(bytes) + data[..k] && (res == |data| ==> k == |data|)
      ensures failures == old(failures) + if res == -1 then 1 else 0
    {
      var pos := 0;
      while pos < |data|
        invariant 0 <= pos <= |data| && bytes == old(bytes) + data[..pos] && failures == old(failures)
        decreases interruptions, |data| - pos
      {
        var errno;
        res, errno := Write(data[pos..]);
        if res == -1 {
          if (errno == Eintr && !signalled) || errno == Eagain {
            continue;
          }
          return;
        }
        assert data[..pos] + data[pos..][..res] == data[..pos + res];
        pos := pos + res;
      }
      res := pos;
    }

    /** clicon_msg_send */
    method Send(pkt: Packet) returns (ok: bool)
      requires pkt.opLen <= HEADER + |pkt.body|
      modifies this
      ensures ok ==> bytes == old(bytes) + Bytes(pkt)
      ensures failures == old(failures) + if ok then 0 else 1
    {
      var data := Bytes(pkt);
      var res := AtomicWrite(data);
      assert data[..|data|] == data;
      ok := res >= 0;
    }

    /** clicon_msg_rcv: the header by as many reads as it takes, the body by one. */
    method Receive() returns (ok: bool, eof: bool, pkt: Packet)
      modifies this
      ensures eof ==> ok && bytes == "" && |old(bytes)| < HEADER
      ensures ok && !eof ==>
                && HEADER <= pkt.opLen <= |old(bytes)| && pkt.opLen == LengthIn(old(bytes))
                && pkt == PacketOf(old(bytes)[..pkt.opLen]) && bytes == old(bytes)[pkt.opLen..]
      ensures !ok && failures == old(failures) ==>
                && |old(bytes)| >= HEADER
                && (LengthIn(old(bytes)) < HEADER || (short && |bytes| <= |old(bytes)| - HEADER))
    {
      pkt, eof := Packet(0, 0, ""), false;
      var len, hdr := AtomicRead(HEADER);
      if len < 0 {
        return false, eof, pkt;
      }
      if len == 0 {
        return true, true, pkt;
      }
      SameLength(hdr, bytes);
      var opLen := LengthIn(hdr);
      if opLen < HEADER {
        var res, data, errno := Read(0x1_0000_0000_0000_0000 + opLen - HEADER);
        return false, eof, pkt;
      }
      var len2, body, errno := Read(opLen - HEADER);
      if len2 < 0 || len2 != opLen - HEADER {
        return false, eof, pkt;
      }
      assert old(bytes) == hdr + body + bytes;
      assert old(bytes)[..opLen] == hdr + body;
      pkt := PacketOf(hdr + body);
      ok := true;
    }
  }

  /** A message goes out and comes in. */
  method Exchange(sock: Socket, m: Msg) returns (r: Option<Msg>)
    requires Valid(m) && HEADER + |Body(m)| < 0x1_0000 && sock.bytes == ""
    modifies sock
    ensures r.Some? ==> r == Some(m) && sock.bytes == ""
    ensures r.None? && sock.failures == old(sock.failures) ==> sock.short
  {
    hide Body, Parse;
    var pkt := Encode(m);
    var sent := sock.Send(pkt);
    if !sent {
      return None;
    }
    Delivered(m, "");
    assert sock.bytes == Bytes(pkt) + "";
    var ok, eof, got := sock.Receive();
    if !ok || eof {
      return None;
    }
    r := Decode(got);
  }

  /** clicon_proto_change_cvec, and at the other end from_client_change: the variables a client sends are the variables
      that the backend applies. */
  method SendVariables(tt: Lvec.Types, sock: Socket, db: string, op: nat, key: string, vec: Vec)
    returns (r: Option<(string, nat, string, Vec)>)
    requires tt.Valid() && Lvec.FitsAll(tt, vec) && Lvec.AllUnmarked(vec)
    requires Proto.NUL !in db && Proto.NUL !in key && op < WORD
    requires HEADER + 4 + 4 + |db| + 1 + |key| + 1 + |Lvec.Encode(tt, vec)| < 0x1_0000 && sock.bytes == ""
    modifies sock
    ensures r.Some? ==> r == Some((db, op, key, vec)) && sock.bytes == ""
    ensures r.None? && sock.failures == old(sock.failures) ==> sock.short
  {
    hide Parse, Lvec.Encode, Lvec.Decode;
    Lvec.RoundTrip(tt, vec);
    var lvec := Lvec.Cvec2lvec(tt, vec);
    var m := Change(db, op, key, lvec[..]);
    var got :- Exchange(sock, m);
    var vr := Lvec.Lvec2cvec(tt, got.lvec);
    return Some((got.db, got.op, got.key, vr.value));
  }
}
