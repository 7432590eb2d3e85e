/** The framing protocol of player_comms.rs over the link: the ready
    handshake, the command envelope, chunked bulk sends, the reply-length
    header and packetised reply bodies. Each operation is a function of the
    link state (`...Spec`) and a method on the handle, with the loops of the
    source, proved to compute it. */
module PlayerComms {
  import opened Bytes
  import opened Errors
  import opened Transport
  import opened Framing

  /** The errors the framing layer can raise: transport errors and the
      decoder's length assertion. */
  predicate LinkError(e: Error)
  {
    e.Usb? || e == Panic(LengthMismatch)
  }

  /** `k` bulk receives of four bytes. */
  function Polls(k: nat): (r: seq<Transfer>)
    ensures |r| == k && forall i | 0 <= i < k :: r[i] == In(4)
  {
    if k == 0 then [] else [In(4)] + Polls(k - 1)
  }

  /** The log of `b` extends that of `a` by bulk receives only. */
  ghost predicate OnlyReceives(a: Wire, b: Wire)
  {
    |a.log| <= |b.log| && b.log[..|a.log|] == a.log &&
    (forall i | |a.log| <= i < |b.log| :: b.log[i].In?) &&
    b.sends == a.sends && b.closeFault == a.closeFault
  }

  lemma OnlyReceivesTrans(a: Wire, b: Wire, c: Wire)
    requires OnlyReceives(a, b) && OnlyReceives(b, c)
    ensures OnlyReceives(a, c)
  {
    assert c.log[..|a.log|] == c.log[..|b.log|][..|a.log|];
  }

  // ---------------------------------------------------------------------
  // Ready handshake

  /** `is_ready`: one 4-byte receive; a reply of another length is an `Io`
      error (unless it overflows the receive), and the answer is whether the
      bytes are exactly `15 00 00 00`. */
  function IsReadySpec(w: Wire): (s: Step<bool>)
    ensures s.wire.log == w.log + [In(4)]
    ensures s.wire == Receive(w, 4).wire
    ensures s.res == Ok(true) <==> w.inbound != [] && w.inbound[0] == Data(READY_SIGNAL)
    ensures s.res == Ok(false) <==> w.inbound != [] && w.inbound[0].Data? &&
                                    |w.inbound[0].bytes| == 4 && w.inbound[0].bytes != READY_SIGNAL
    ensures w.inbound != [] && w.inbound[0].Data? && |w.inbound[0].bytes| < 4 ==> s.res == Err(Usb(Io))
  {
    var rx := Receive(w, 4);
    match rx.res
    case Err(e) => Step(Err(e), rx.wire)
    case Ok(buf) => if |buf| != 4 then Step(Err(Usb(Io)), rx.wire) else Step(Ok(buf == READY_SIGNAL), rx.wire)
  }

  method IsReady(h: UsbHandle) returns (r: Result<bool>)
    modifies h
    ensures Step(r, h.State()) == IsReadySpec(old(h.State()))
  {
    var buf :- h.BulkReceive(4);
    if |buf| != 4 {
      return Err(Usb(Io));
    }
    return Ok(buf == READY_SIGNAL);
  }

  /** `wait_ready`: poll `is_ready` until it answers true. */
  function WaitReadySpec(w: Wire): (s: Step<()>)
    ensures s.res.Err? ==> s.res.error.Usb?
    decreases |w.inbound|
  {
    var s := IsReadySpec(w);
    match s.res
    case Err(e) => Step(Err(e), s.wire)
    case Ok(ready) => if ready then Step(Ok(()), s.wire) else WaitReadySpec(s.wire)
  }

  method WaitReady(h: UsbHandle) returns (r: Result<()>)
    modifies h
    ensures Step(r, h.State()) == WaitReadySpec(old(h.State()))
  {
    while true
      invariant WaitReadySpec(h.State()) == WaitReadySpec(old(h.State()))
      decreases |h.inbound|
    {
      var ready :- IsReady(h);
      if ready {
        return Ok(());
      }
    }
  }

  /** A 4-byte packet other than the ready signal: `wait_ready` skips it. */
  predicate Busy(p: Packet)
  {
    p.Data? && |p.bytes| == 4 && p.bytes != READY_SIGNAL
  }

  /** How many packets at the front of the script `wait_ready` skips. */
  function LeadingBusy(s: seq<Packet>): (n: nat)
    ensures n <= |s| && (forall i | 0 <= i < n :: Busy(s[i])) && (n < |s| ==> !Busy(s[n]))
  {
    if |s| == 0 || !Busy(s[0]) then 0 else 1 + LeadingBusy(s[1..])
  }

  /** `wait_ready` issues one receive per skipped packet and one more; it
      succeeds exactly when the first packet it does not skip is the ready
      signal, and then consumes that packet and nothing after it. */
  lemma WaitReadyPolls(w: Wire)
    ensures var n := LeadingBusy(w.inbound);
            var s := WaitReadySpec(w);
            s.wire.log == w.log + Polls(n + 1) &&
            s.wire.inbound == (if n < |w.inbound| then w.inbound[n + 1..] else []) &&
            s.wire.sends == w.sends && s.wire.closeFault == w.closeFault &&
            (s.res.Ok? <==> n < |w.inbound| && w.inbound[n] == Data(READY_SIGNAL))
  {
    WaitReadyTraffic(w);
    WaitReadyOutcome(w);
  }

  /** The receives `wait_ready` issues, and what it leaves alone. */
  lemma {:induction false} WaitReadyTraffic(w: Wire)
    ensures var s := WaitReadySpec(w);
            s.wire.log == w.log + Polls(LeadingBusy(w.inbound) + 1) &&
            s.wire.sends == w.sends && s.wire.closeFault == w.closeFault
    decreases |w.inbound|
  {
    var n := LeadingBusy(w.inbound);
    if n > 0 {
      var w1 := WaitReadySkip(w);
      WaitReadyTraffic(w1);
      var m := LeadingBusy(w1.inbound);
      assert m + 1 == n;
      assert w.log + [In(4)] + Polls(m + 1) == w.log + Polls(n + 1) by {
        assert Polls(n + 1) == [In(4)] + Polls(n);
        LogAssoc(w.log, [In(4)], Polls(n));
      }
    } else {
      assert IsReadySpec(w).res != Ok(false);
      assert Polls(1) == [In(4)];
    }
  }

  /** What `wait_ready` consumes, and when it succeeds. */
  lemma {:induction false} WaitReadyOutcome(w: Wire)
    ensures var n := LeadingBusy(w.inbound);
            var s := WaitReadySpec(w);
            s.wire.inbound == (if n < |w.inbound| then w.inbound[n + 1..] else []) &&
            (s.res.Ok? <==> n < |w.inbound| && w.inbound[n] == Data(READY_SIGNAL))
    decreases |w.inbound|
  {
    var n := LeadingBusy(w.inbound);
    if n > 0 {
      var w1 := WaitReadySkip(w);
      WaitReadyOutcome(w1);
      var m := LeadingBusy(w1.inbound);
      assert m + 1 == n;
      if n < |w.inbound| {
        assert w1.inbound[m + 1..] == w.inbound[n + 1..];
        assert w1.inbound[m] == w.inbound[n];
      }
    } else {
      assert IsReadySpec(w).res != Ok(false);
    }
  }

  /** Appending to a log one piece at a time. */
  lemma LogAssoc(a: seq<Transfer>, b: seq<Transfer>, c: seq<Transfer>)
    ensures a + b + c == a + (b + c)
  {
  }

  /** A busy packet at the front is polled, dropped, and polling goes on. */
  lemma WaitReadySkip(w: Wire) returns (w1: Wire)
    requires |w.inbound| > 0 && Busy(w.inbound[0])
    ensures w1.inbound == w.inbound[1..] && w1.log == w.log + [In(4)]
    ensures w1.sends == w.sends && w1.closeFault == w.closeFault
    ensures WaitReadySpec(w) == WaitReadySpec(w1)
  {
    w1 := IsReadySpec(w).wire;
  }

  /** The handshake only receives. */
  lemma {:induction false} WaitReadyReceives(w: Wire)
    ensures OnlyReceives(w, WaitReadySpec(w).wire)
  {
    WaitReadyPolls(w);
    var s := WaitReadySpec(w);
    assert s.wire.log[..|w.log|] == w.log;
  }

  // ---------------------------------------------------------------------
  // Sending

  /** `send_piecemeal_data`: one bulk send of the piecemeal encoding. */
  function SendPiecemealSpec(w: Wire, data: seq<byte>): (s: Step<nat>)
  {
    Send(w, EncodePiecemeal(data))
  }

  method SendPiecemealData(h: UsbHandle, data: seq<byte>) returns (r: Result<nat>)
    modifies h
    ensures Step(r, h.State()) == SendPiecemealSpec(old(h.State()), data)
  {
    var encoded := EncodePiecemealData(data);
    r := h.BulkSend(encoded);
  }

  /** The eight bytes of a command: big-endian opcode, then big-endian argument. */
  function CommandMessage(op: u32, arg: u32): seq<byte>
  {
    ToBeBytes(op) + ToBeBytes(arg)
  }

  /** The single bulk transfer that carries a command. */
  function CommandFrame(op: u32, arg: u32): seq<byte>
  {
    EncodePiecemeal(CommandMessage(op, arg))
  }

  /** A command goes out as exactly 11 bytes:
      `[0x43, o0, o1, o2, 0x43, o3, a0, a1, 0x42, a2, a3]`. */
  lemma CommandFrameBytes(op: u32, arg: u32)
    ensures var o, a := ToBeBytes(op), ToBeBytes(arg);
            CommandFrame(op, arg) == [0x43, o[0], o[1], o[2], 0x43, o[3], a[0], a[1], 0x42, a[2], a[3]]
  {
    var m := CommandMessage(op, arg);
    assert m[3..][3..] == m[6..];
    assert m[6..][2..] == [];
    assert Groups(PIECEMEAL_CHUNK_SEND, m[6..]) == [0x42] + m[6..8];
    assert Groups(PIECEMEAL_CHUNK_SEND, m[3..]) == [0x43] + m[3..6] + [0x42] + m[6..8];
  }

  /** `send_command`: wait for ready, then send the command message. */
  function SendCommandSpec(w: Wire, op: u32, arg: u32): (s: Step<()>)
    ensures s.res.Err? ==> s.res.error.Usb?
  {
    var r := WaitReadySpec(w);
    match r.res
    case Err(e) => Step(Err(e), r.wire)
    case Ok(_) =>
      var t := SendPiecemealSpec(r.wire, CommandMessage(op, arg));
      match t.res
      case Err(e) => Step(Err(e), t.wire)
      case Ok(_) => Step(Ok(()), t.wire)
  }

  method SendCommand(h: UsbHandle, op: u32, arg: u32) returns (r: Result<()>)
    modifies h
    ensures Step(r, h.State()) == SendCommandSpec(old(h.State()), op, arg)
  {
    var ready :- WaitReady(h);
    var message := CommandMessage(op, arg);
    var sent := SendPiecemealData(h, message);
    match sent
    case Ok(_) => return Ok(());
    case Err(e) => return Err(e);
  }

  /** `send_ack`: the one-byte acknowledgement 0x44. */
  function SendAckSpec(w: Wire): Step<nat>
  {
    Send(w, [ACK])
  }

  method SendAck(h: UsbHandle) returns (r: Result<nat>)
    modifies h
    ensures Step(r, h.State()) == SendAckSpec(old(h.State()))
  {
    r := h.BulkSend([ACK]);
  }

  /** `send_chunked_data`: one bulk send per chunk of at most 254 bytes,
      stopping at the first failed send. */
  function SendChunkedSpec(w: Wire, data: seq<byte>): (s: Step<()>)
    ensures s.res.Err? ==> s.res.error.Usb?
    decreases |data|
  {
    if data == [] then Step(Ok(()), w)
    else
      var k := Min(MAX_CHUNK, |data|);
      var t := Send(w, [SEND_CHUNK, k] + data[..k]);
      match t.res
      case Err(e) => Step(Err(e), t.wire)
      case Ok(_) => SendChunkedSpec(t.wire, data[k..])
  }

  method SendChunkedData(h: UsbHandle, data: seq<byte>) returns (r: Result<()>)
    modifies h
    ensures Step(r, h.State()) == SendChunkedSpec(old(h.State()), data)
  {
    var i := 0;
    while i < |data|
      invariant i <= |data|
      invariant SendChunkedSpec(h.State(), data[i..]) == SendChunkedSpec(old(h.State()), data)
    {
      var k := Min(MAX_CHUNK, |data| - i);
      var chunk := data[i..i + k];
      assert data[i..][..k] == chunk && data[i..][k..] == data[i + k..];
      var sent :- h.BulkSend([SEND_CHUNK, k] + chunk);
      i := i + k;
    }
    assert data[i..] == [];
    return Ok(());
  }

  /** Bulk sends of these frames, in order. */
  function Outs(frames: seq<seq<byte>>): (r: seq<Transfer>)
    ensures |r| == |frames|
  {
    if frames == [] then [] else [Out(frames[0])] + Outs(frames[1..])
  }

  /** When the link accepts every send, `send_chunked_data` sends exactly the
      frames `ChunkFrames(data)` (⌈N/254⌉ of them, `[0x63, len] ++ chunk`,
      the chunks making up `data`) and receives nothing. */
  lemma {:induction false} SendChunkedFrames(w: Wire, data: seq<byte>)
    requires Accepting(w)
    ensures var s := SendChunkedSpec(w, data);
            s.res.Ok? && s.wire.log == w.log + Outs(ChunkFrames(data)) &&
            s.wire.inbound == w.inbound && Accepting(s.wire)
    decreases |data|
  {
    if data != [] {
      var k := Min(MAX_CHUNK, |data|);
      var frame := [SEND_CHUNK, k] + data[..k];
      var w1 := SendChunkedHead(w, data);
      SendChunkedFrames(w1, data[k..]);
      OutsCons(frame, ChunkFrames(data[k..]));
      assert w.log + Outs(ChunkFrames(data)) == w1.log + Outs(ChunkFrames(data[k..]));
    }
  }

  /** One accepted chunk send. */
  lemma SendChunkedHead(w: Wire, data: seq<byte>) returns (w1: Wire)
    requires Accepting(w) && data != []
    ensures var k := Min(MAX_CHUNK, |data|);
            var frame := [SEND_CHUNK, k] + data[..k];
            w1.log == w.log + [Out(frame)] && w1.inbound == w.inbound && Accepting(w1) &&
            SendChunkedSpec(w, data) == SendChunkedSpec(w1, data[k..]) &&
            ChunkFrames(data) == [frame] + ChunkFrames(data[k..])
  {
    var k := Min(MAX_CHUNK, |data|);
    var t := Send(w, [SEND_CHUNK, k] + data[..k]);
    w1 := t.wire;
    assert w1.sends == if w.sends == [] then [] else w.sends[1..];
  }

  lemma OutsCons(frame: seq<byte>, rest: seq<seq<byte>>)
    ensures Outs([frame] + rest) == [Out(frame)] + Outs(rest)
  {
    assert ([frame] + rest)[1..] == rest;
  }

  // ---------------------------------------------------------------------
  // Receiving

  /** The low three bytes of a length header, big-endian. */
  function LengthField(d: seq<byte>): nat
    requires |d| == 4
  {
    (d[1] as int) * 0x1_0000 + (d[2] as int) * 0x100 + d[3] as int
  }

  /** `receive_data_length`: skip ready signals; anything but a 4-byte packet
      tagged 0x1B is an `Io` error; the length is the header's big-endian
      value masked with 0x00FFFFFF. */
  function ReceiveDataLengthSpec(w: Wire): (s: Step<nat>)
    ensures s.res.Err? ==> s.res.error.Usb?
    ensures s.res.Ok? ==> s.res.value < 0x100_0000
    decreases |w.inbound|
  {
    var rx := Receive(w, 4);
    match rx.res
    case Err(e) => Step(Err(e), rx.wire)
    case Ok(data) =>
      if data == READY_SIGNAL then ReceiveDataLengthSpec(rx.wire)
      else if |data| != 4 || data[0] != LENGTH_TAG then Step(Err(Usb(Io)), rx.wire)
      else Step(Ok(NumFromArrU32(data) % 0x100_0000), rx.wire)
  }

  method ReceiveDataLength(h: UsbHandle) returns (r: Result<nat>)
    modifies h
    ensures Step(r, h.State()) == ReceiveDataLengthSpec(old(h.State()))
  {
    var data: seq<byte>;
    while true
      invariant ReceiveDataLengthSpec(h.State()) == ReceiveDataLengthSpec(old(h.State()))
      decreases |h.inbound|
    {
      data :- h.BulkReceive(4);
      if data == READY_SIGNAL {
        continue;
      }
      if |data| != 4 || data[0] != LENGTH_TAG {
        return Err(Usb(Io));
      }
      return Ok(NumFromArrU32(data) % 0x100_0000);
    }
  }

  /** How many ready signals at the front of the script are discarded. */
  function LeadingReady(s: seq<Packet>): (n: nat)
    ensures n <= |s| && (forall i | 0 <= i < n :: s[i] == Data(READY_SIGNAL)) &&
            (n < |s| ==> s[n] != Data(READY_SIGNAL))
  {
    if s == [] || s[0] != Data(READY_SIGNAL) then 0 else 1 + LeadingReady(s[1..])
  }

  /** A packet that is a valid reply-length header. */
  predicate IsLengthHeader(p: Packet)
  {
    p.Data? && |p.bytes| == 4 && p.bytes[0] == LENGTH_TAG
  }

  /** `receive_data_length` issues one receive per stray ready signal and one
      more; it succeeds exactly when the first other packet is a length
      header, whose low three bytes it returns; any other packet of at most
      four bytes is an `Io` error. */
  lemma {:induction false} ReceiveDataLengthHeader(w: Wire)
    ensures var m := LeadingReady(w.inbound);
            var s := ReceiveDataLengthSpec(w);
            s.wire.log == w.log + Polls(m + 1) &&
            s.wire.inbound == (if m < |w.inbound| then w.inbound[m + 1..] else []) &&
            s.wire.sends == w.sends && s.wire.closeFault == w.closeFault &&
            (s.res.Ok? <==> m < |w.inbound| && IsLengthHeader(w.inbound[m])) &&
            (s.res.Ok? ==> s.res.value == LengthField(w.inbound[m].bytes)) &&
            ((m < |w.inbound| && w.inbound[m].Data? && |w.inbound[m].bytes| <= 4 &&
              !IsLengthHeader(w.inbound[m])) ==> s.res == Err(Usb(Io)))
    decreases |w.inbound|
  {
    var m := LeadingReady(w.inbound);
    var rx := Receive(w, 4);
    if m > 0 {
      ReceiveDataLengthHeader(rx.wire);
      assert rx.wire.inbound == w.inbound[1..];
      assert LeadingReady(rx.wire.inbound) == m - 1;
      assert w.log + [In(4)] + Polls(m) == w.log + Polls(m + 1);
      if m < |w.inbound| {
        assert w.inbound[1..][m..] == w.inbound[m + 1..];
      }
    } else if w.inbound != [] && IsLengthHeader(w.inbound[0]) {
      var d := w.inbound[0].bytes;
      MaskedLength(d);
    } else {
      assert Polls(1) == [In(4)];
    }
  }

  lemma MaskedLength(d: seq<byte>)
    requires |d| == 4
    ensures NumFromArrU32(d) % 0x100_0000 == LengthField(d)
  {
    var lo := LengthField(d);
    assert 0 <= lo < 0x100_0000;
    assert NumFromArrU32(d) == (d[0] as int) * 0x100_0000 + lo;
  }

  /** The header read only receives. */
  lemma {:induction false} ReceiveDataLengthReceives(w: Wire)
    ensures OnlyReceives(w, ReceiveDataLengthSpec(w).wire)
  {
    ReceiveDataLengthHeader(w);
    var s := ReceiveDataLengthSpec(w);
    assert s.wire.log[..|w.log|] == w.log;
  }

  /** The capacity `receive_data` reserves for the body of an L-byte reply. */
  function Capacity(expectedLen: nat): nat
  {
    expectedLen + expectedLen / 3 + (3 - expectedLen % 3) % 3 + 1
  }

  /** The packet loop of `receive_data`: receive up to 128 bytes (never more
      than the room left), append, and stop after the first short packet. */
  function ReceivePacketsSpec(w: Wire, buf: seq<byte>, cap: nat): (s: Step<seq<byte>>)
    requires |buf| <= cap
    ensures s.res.Ok? ==> buf <= s.res.value && |s.res.value| <= cap
    ensures s.res.Err? ==> s.res.error.Usb?
    decreases |w.inbound|
  {
    var rx := Receive(w, Min(PACKET_SIZE, cap - |buf|));
    match rx.res
    case Err(e) => Step(Err(e), rx.wire)
    case Ok(recv) =>
      if |recv| == PACKET_SIZE then ReceivePacketsSpec(rx.wire, buf + recv, cap)
      else Step(Ok(buf + recv), rx.wire)
  }

  /** The packet loop only receives. */
  lemma {:induction false} ReceivePacketsReceives(w: Wire, buf: seq<byte>, cap: nat)
    requires |buf| <= cap
    ensures OnlyReceives(w, ReceivePacketsSpec(w, buf, cap).wire)
    decreases |w.inbound|
  {
    var rx := Receive(w, Min(PACKET_SIZE, cap - |buf|));
    assert rx.wire.log[..|w.log|] == w.log;
    assert OnlyReceives(w, rx.wire);
    if rx.res.Ok? && |rx.res.value| == PACKET_SIZE {
      ReceivePacketsReceives(rx.wire, buf + rx.res.value, cap);
      OnlyReceivesTrans(w, rx.wire, ReceivePacketsSpec(rx.wire, buf + rx.res.value, cap).wire);
    }
  }

  /** `receive_data`: the packet loop, the acknowledgement, then decoding. */
  function ReceiveDataSpec(w: Wire, expectedLen: nat): (s: Step<seq<byte>>)
    ensures s.res.Ok? ==> |s.res.value| == expectedLen
    ensures s.res.Err? ==> LinkError(s.res.error)
  {
    var p := ReceivePacketsSpec(w, [], Capacity(expectedLen));
    match p.res
    case Err(e) => Step(Err(e), p.wire)
    case Ok(buf) =>
      var a := SendAckSpec(p.wire);
      match a.res
      case Err(e) => Step(Err(e), a.wire)
      case Ok(_) => Step(DecodePiecemeal(buf, expectedLen), a.wire)
  }

  method ReceiveData(h: UsbHandle, expectedLen: nat) returns (r: Result<seq<byte>>)
    modifies h
    ensures Step(r, h.State()) == ReceiveDataSpec(old(h.State()), expectedLen)
  {
    var cap := Capacity(expectedLen);
    var buf: seq<byte> := [];
    var transferred := PACKET_SIZE;
    while transferred == PACKET_SIZE
      invariant |buf| <= cap
      invariant transferred == PACKET_SIZE ==>
        ReceivePacketsSpec(h.State(), buf, cap) == ReceivePacketsSpec(old(h.State()), [], cap)
      invariant transferred != PACKET_SIZE ==>
        Step(Ok(buf), h.State()) == ReceivePacketsSpec(old(h.State()), [], cap)
      decreases |h.inbound|
    {
      var recv :- h.BulkReceive(Min(PACKET_SIZE, cap - |buf|));
      transferred := |recv|;
      buf := buf + recv;
    }
    var ack :- SendAck(h);
    r := DecodePiecemealData(buf, expectedLen);
  }

  /** `receive_reply(max)`: read the header; a declared length of 0 or above
      `max` is `InvalidParam`; otherwise receive exactly that many bytes. */
  function ReceiveReplySpec(w: Wire, max: nat): (s: Step<seq<byte>>)
    ensures s.res.Ok? ==> 1 <= |s.res.value| <= max
    ensures s.res.Err? ==> LinkError(s.res.error)
  {
    var d := ReceiveDataLengthSpec(w);
    match d.res
    case Err(e) => Step(Err(e), d.wire)
    case Ok(len) =>
      if len == 0 || len > max then Step(Err(Usb(InvalidParam)), d.wire)
      else ReceiveDataSpec(d.wire, len)
  }

  method ReceiveReply(h: UsbHandle, max: nat) returns (r: Result<seq<byte>>)
    modifies h
    ensures Step(r, h.State()) == ReceiveReplySpec(old(h.State()), max)
  {
    var len :- ReceiveDataLength(h);
    if len == 0 || len > max {
      return Err(Usb(InvalidParam));
    }
    r := ReceiveData(h, len);
  }

  /** The log of `b` extends that of `a` by receives and then exactly one
      acknowledgement, which comes last. */
  ghost predicate ReceivesThenAck(a: Wire, b: Wire)
  {
    |a.log| < |b.log| && b.log[..|a.log|] == a.log && b.log[|b.log| - 1] == Out([ACK]) &&
    forall i | |a.log| <= i < |b.log| - 1 :: b.log[i].In?
  }

  /** `receive_reply`: a declared length of 0 or above `max` fails with
      `InvalidParam` right after the header, with no body read and no ack;
      a reply has exactly the declared length, which is in 1..max; and a
      successful reply was acknowledged exactly once, after its packets. */
  lemma ReceiveReplyContract(w: Wire, max: nat)
    ensures var d := ReceiveDataLengthSpec(w);
            var s := ReceiveReplySpec(w, max);
            (d.res.Ok? && (d.res.value == 0 || d.res.value > max) ==>
               s == Step(Err(Usb(InvalidParam)), d.wire)) &&
            (s.res.Ok? ==> d.res.Ok? && |s.res.value| == d.res.value && 1 <= d.res.value <= max &&
                           ReceivesThenAck(w, s.wire))
  {
    var d := ReceiveDataLengthSpec(w);
    var s := ReceiveReplySpec(w, max);
    ReceiveDataLengthReceives(w);
    if s.res.Ok? {
      var p := ReceivePacketsSpec(d.wire, [], Capacity(d.res.value));
      ReceivePacketsReceives(d.wire, [], Capacity(d.res.value));
      OnlyReceivesTrans(w, d.wire, p.wire);
      assert s.wire.log == p.wire.log + [Out([ACK])];
      assert s.wire.log[..|p.wire.log|] == p.wire.log;
    }
  }

  // ---------------------------------------------------------------------
  // A well-formed reply, as the device sends it

  /** The length header that announces a `len`-byte reply. */
  function LengthHeader(len: nat): (d: seq<byte>)
    requires len < 0x100_0000
    ensures |d| == 4 && d[0] == LENGTH_TAG && LengthField(d) == len
  {
    var low := len % 0x1_0000;
    [LENGTH_TAG, (len / 0x1_0000) as byte, (low / 0x100) as byte, (low % 0x100) as byte]
  }

  /** A reply body as the device hands it over: full 128-byte packets, then
      one short packet (possibly empty) that ends the body. */
  function BodyPackets(body: seq<byte>): seq<Packet>
    decreases |body|
  {
    if |body| < PACKET_SIZE then [Data(body)]
    else [Data(body[..PACKET_SIZE])] + BodyPackets(body[PACKET_SIZE..])
  }

  /** The packets of a device reply carrying `c`: the length header, then
      `c` grouped with the device's base 0x1C. */
  function ReplyPackets(c: seq<byte>): seq<Packet>
    requires |c| < 0x100_0000
  {
    [Data(LengthHeader(|c|))] + BodyPackets(Groups(PIECEMEAL_CHUNK_RECV, c))
  }

  /** The packet loop takes a body's packets and nothing more, as long as
      the body fits the room reserved for it. */
  lemma {:induction false} ReceiveBody(w: Wire, body: seq<byte>, rest: seq<Packet>, buf: seq<byte>, cap: nat)
    requires w.inbound == BodyPackets(body) + rest && |buf| + |body| < cap
    ensures var p := ReceivePacketsSpec(w, buf, cap);
            p.res == Ok(buf + body) && p.wire.inbound == rest && p.wire.sends == w.sends
    decreases |body|
  {
    if |body| < PACKET_SIZE {
      assert w.inbound == [Data(body)] + rest;
      ReceiveLastPacket(w, body, buf, cap);
    } else {
      var head, tail := body[..PACKET_SIZE], body[PACKET_SIZE..];
      assert w.inbound == [Data(head)] + (BodyPackets(tail) + rest);
      var w1 := ReceiveFullPacket(w, head, buf, cap);
      ReceiveBody(w1, tail, rest, buf + head, cap);
      assert buf + head + tail == buf + body;
    }
  }

  /** A full packet is appended and the loop goes on. */
  lemma ReceiveFullPacket(w: Wire, head: seq<byte>, buf: seq<byte>, cap: nat) returns (w1: Wire)
    requires w.inbound != [] && w.inbound[0] == Data(head) && |head| == PACKET_SIZE && |buf| + PACKET_SIZE < cap
    ensures w1.inbound == w.inbound[1..] && w1.sends == w.sends
    ensures ReceivePacketsSpec(w, buf, cap) == ReceivePacketsSpec(w1, buf + head, cap)
  {
    w1 := Receive(w, PACKET_SIZE).wire;
  }

  /** A short packet that fits ends the loop. */
  lemma ReceiveLastPacket(w: Wire, last: seq<byte>, buf: seq<byte>, cap: nat)
    requires w.inbound != [] && w.inbound[0] == Data(last) && |last| < PACKET_SIZE && |buf| + |last| < cap
    ensures var p := ReceivePacketsSpec(w, buf, cap);
            p.res == Ok(buf + last) && p.wire.inbound == w.inbound[1..] && p.wire.sends == w.sends
  {
  }

  /** The room `receive_data` reserves always exceeds the grouped body. */
  lemma CapacityRoom(len: nat)
    ensures len + (len + 2) / 3 < Capacity(len)
  {
    var q, r := len / 3, len % 3;
    assert len == 3 * q + r;
    if r == 0 {
      assert (len + 2) / 3 == q && Capacity(len) == 4 * q + 1;
    } else if r == 1 {
      assert (len + 2) / 3 == q + 1 && Capacity(len) == 4 * q + 4;
    } else {
      assert (len + 2) / 3 == q + 1 && Capacity(len) == 4 * q + 4;
    }
  }

  /** A length header at the front of the script is read at once. */
  lemma ReceiveHeaderScripted(w: Wire, len: nat, rest: seq<Packet>) returns (d: Step<nat>)
    requires len < 0x100_0000 && w.inbound == [Data(LengthHeader(len))] + rest
    ensures d == ReceiveDataLengthSpec(w)
    ensures d.res == Ok(len) && d.wire.inbound == rest && d.wire.sends == w.sends
  {
    assert LeadingReady(w.inbound) == 0;
    ReceiveDataLengthHeader(w);
    d := ReceiveDataLengthSpec(w);
  }

  /** `receive_reply(max)` of a well-formed reply of 1..`max` bytes returns
      exactly those bytes, takes exactly that reply's packets off the script
      and acknowledges it with an accepted send. */
  lemma ReceiveReplyScripted(w: Wire, c: seq<byte>, rest: seq<Packet>, max: nat)
    requires 1 <= |c| <= max && |c| < 0x100_0000
    requires w.inbound == ReplyPackets(c) + rest && Accepting(w)
    ensures var s := ReceiveReplySpec(w, max);
            s.res == Ok(c) && s.wire.inbound == rest && Accepting(s.wire)
  {
    var d := ReceiveHeaderScripted(w, |c|, BodyPackets(Groups(PIECEMEAL_CHUNK_RECV, c)) + rest);
    GroupedBody(c);
    ReceiveDataScripted(d.wire, Groups(PIECEMEAL_CHUNK_RECV, c), c, rest);
    assert ReceiveReplySpec(w, max) == ReceiveDataSpec(d.wire, |c|);
  }

  /** A body grouped from `c` fits the room reserved for `c` and decodes
      to `c`. */
  lemma GroupedBody(c: seq<byte>)
    ensures var body := Groups(PIECEMEAL_CHUNK_RECV, c);
            |body| < Capacity(|c|) && DecodePiecemeal(body, |c|) == Ok(c)
  {
    var body := Groups(PIECEMEAL_CHUNK_RECV, c);
    GroupsLength(PIECEMEAL_CHUNK_RECV, c);
    CapacityRoom(|c|);
    DecodeGroups(c, []);
    assert body + [] == body;
  }

  /** `receive_data(len(c))` of a body that fits and decodes to `c` returns
      `c`, takes exactly the body's packets and acknowledges it. */
  lemma ReceiveDataScripted(w: Wire, body: seq<byte>, c: seq<byte>, rest: seq<Packet>)
    requires w.inbound == BodyPackets(body) + rest && Accepting(w)
    requires |body| < Capacity(|c|) && DecodePiecemeal(body, |c|) == Ok(c)
    ensures var s := ReceiveDataSpec(w, |c|);
            s.res == Ok(c) && s.wire.inbound == rest && Accepting(s.wire)
  {
    ReceiveBody(w, body, rest, [], Capacity(|c|));
    var p := ReceivePacketsSpec(w, [], Capacity(|c|));
    assert p.res == Ok(body) by {
      assert [] + body == body;
    }
    AckAccepted(p.wire);
  }

  /** The ack goes out when no send is refused, and none is refused after it. */
  lemma AckAccepted(w: Wire)
    requires Accepting(w)
    ensures var a := SendAckSpec(w);
            a.res.Ok? && a.wire.inbound == w.inbound && Accepting(a.wire)
  {
    var a := SendAckSpec(w);
    assert a.wire.sends == if w.sends == [] then [] else w.sends[1..];
  }

  /** A reply body's traffic sends nothing but its acknowledgement. */
  lemma ReceiveDataQuiet(w: Wire, expectedLen: nat, f: seq<byte>)
    requires f != [ACK]
    ensures var s := ReceiveDataSpec(w, expectedLen);
            |w.log| <= |s.wire.log| && s.wire.log[..|w.log|] == w.log &&
            CountOut(s.wire.log, f) == CountOut(w.log, f)
  {
    var p := ReceivePacketsSpec(w, [], Capacity(expectedLen));
    ReceivePacketsReceives(w, [], Capacity(expectedLen));
    OnlyReceivesCount(w, p.wire, f);
    if p.res.Ok? {
      var s := ReceiveDataSpec(w, expectedLen);
      assert s.wire.log == p.wire.log + [Out([ACK])];
      CountOutSnoc(p.wire.log, Out([ACK]), f);
      assert s.wire.log[..|w.log|] == p.wire.log[..|w.log|];
    }
  }

  /** A reply's traffic sends nothing but acknowledgements. */
  lemma ReceiveReplyQuiet(w: Wire, max: nat, f: seq<byte>)
    requires f != [ACK]
    ensures var s := ReceiveReplySpec(w, max);
            |w.log| <= |s.wire.log| && s.wire.log[..|w.log|] == w.log &&
            CountOut(s.wire.log, f) == CountOut(w.log, f)
  {
    var d := ReceiveDataLengthSpec(w);
    ReceiveDataLengthReceives(w);
    OnlyReceivesCount(w, d.wire, f);
    if d.res.Ok? && !(d.res.value == 0 || d.res.value > max) {
      ReceiveDataQuiet(d.wire, d.res.value, f);
      var s := ReceiveReplySpec(w, max);
      assert s.wire.log[..|w.log|] == s.wire.log[..|d.wire.log|][..|w.log|];
    }
  }

  /** Receives leave every send count unchanged. */
  lemma {:induction false} OnlyReceivesCount(a: Wire, b: Wire, f: seq<byte>)
    requires OnlyReceives(a, b)
    ensures CountOut(b.log, f) == CountOut(a.log, f)
    decreases |b.log|
  {
    if |b.log| > |a.log| {
      var b' := b.(log := b.log[..|b.log| - 1]);
      assert b'.log[..|a.log|] == a.log;
      OnlyReceivesCount(a, b', f);
    } else {
      assert b.log == a.log;
    }
  }

  /** A command's traffic: receives while waiting for ready, then (if the
      device became ready) the 11-byte frame as the last transfer. */
  lemma SendCommandLog(w: Wire, op: u32, arg: u32)
    ensures var r := WaitReadySpec(w);
            var s := SendCommandSpec(w, op, arg);
            OnlyReceives(w, r.wire) &&
            (r.res.Err? ==> s.wire == r.wire) &&
            (r.res.Ok? ==> s.wire.log == r.wire.log + [Out(CommandFrame(op, arg))])
  {
    WaitReadyReceives(w);
  }
}
