/** The retry policy of `read_block_spare` and `write_block_spare`, counted
    on the transfer log: how many block-read or block-write command frames
    each outcome implies. */
module Retries {
  import opened Bytes
  import opened Errors
  import Op = Opcodes
  import opened Transport
  import opened Framing
  import opened PlayerComms
  import opened Commands

  /** The 11-byte frame that asks for block `n` and its spare. */
  function ReadFrame(n: u32): seq<byte>
  {
    CommandFrame(Op.Opcode(Op.ReadBlockAndSpare), n)
  }

  /** The 11-byte frame that announces a write of block `n` and its spare. */
  function WriteFrame(n: u32): seq<byte>
  {
    CommandFrame(Op.Opcode(Op.WriteBlockAndSpare), n)
  }

  /** 1 when `f` is `frame`, else 0. */
  function Hit(f: seq<byte>, frame: seq<byte>): nat
  {
    if f == frame then 1 else 0
  }

  lemma CommandFrameNotAck(op: u32, arg: u32)
    ensures CommandFrame(op, arg) != [ACK]
    ensures |CommandFrame(op, arg)| == 11 && CommandFrame(op, arg)[0] == 0x43
  {
    CommandFrameBytes(op, arg);
  }

  // ---------------------------------------------------------------------
  // Per-stage counts

  /** A command adds at most one send of its own frame, and exactly one when
      it succeeds; it sends nothing else. */
  lemma SendCommandCount(w: Wire, op: u32, arg: u32, f: seq<byte>)
    ensures var s := SendCommandSpec(w, op, arg);
            CountOut(s.wire.log, f) <= CountOut(w.log, f) + Hit(f, CommandFrame(op, arg)) &&
            (s.res.Ok? ==> CountOut(s.wire.log, f) == CountOut(w.log, f) + Hit(f, CommandFrame(op, arg)))
  {
    var r := WaitReadySpec(w);
    SendCommandLog(w, op, arg);
    OnlyReceivesCount(w, r.wire, f);
    if r.res.Ok? {
      CountOutSnoc(r.wire.log, Out(CommandFrame(op, arg)), f);
    }
  }

  lemma ReceiveCodeQuiet(w: Wire, f: seq<byte>)
    requires f != [ACK]
    ensures CountOut(ReceiveCodeSpec(w).wire.log, f) == CountOut(w.log, f)
  {
    ReceiveReplyQuiet(w, 8, f);
  }

  lemma RequestBlockReadCount(w: Wire, n: u32, f: seq<byte>)
    requires f != [ACK]
    ensures var s := RequestBlockReadSpec(w, Op.ReadBlockAndSpare, n);
            CountOut(s.wire.log, f) <= CountOut(w.log, f) + Hit(f, ReadFrame(n)) &&
            (s.res.Ok? ==> CountOut(s.wire.log, f) == CountOut(w.log, f) + Hit(f, ReadFrame(n)))
  {
    var op := Op.Opcode(Op.ReadBlockAndSpare);
    SendCommandCount(w, op, n, f);
    var sc := SendCommandSpec(w, op, n);
    if sc.res.Ok? {
      ReceiveCodeQuiet(sc.wire, f);
    }
  }

  /** `reply` sends nothing of its own but acknowledgements. */
  ghost predicate ReplyQuiet(reply: ReplyReader, f: seq<byte>)
  {
    forall w :: CountOut(reply(w).wire.log, f) == CountOut(w.log, f)
  }

  lemma {:induction false} ChunksQuiet(reply: ReplyReader, w: Wire, count: nat, buf: seq<byte>, f: seq<byte>)
    requires ReplyQuiet(reply, f)
    ensures CountOut(Chunks(reply, w, count, buf).wire.log, f) == CountOut(w.log, f)
    decreases count
  {
    if count > 0 {
      var r := reply(w);
      if r.res.Ok? {
        ChunksQuiet(reply, r.wire, count - 1, buf + r.res.value, f);
      }
    }
  }

  /** A reply received is acknowledged exactly once. */
  lemma ReceiveReplyAcks(w: Wire, max: nat)
    ensures var s := ReceiveReplySpec(w, max);
            s.res.Ok? ==> CountOut(s.wire.log, [ACK]) == CountOut(w.log, [ACK]) + 1
  {
    var s := ReceiveReplySpec(w, max);
    if s.res.Ok? {
      var d := ReceiveDataLengthSpec(w);
      ReceiveDataLengthReceives(w);
      OnlyReceivesCount(w, d.wire, [ACK]);
      var p := ReceivePacketsSpec(d.wire, [], Capacity(d.res.value));
      ReceivePacketsReceives(d.wire, [], Capacity(d.res.value));
      OnlyReceivesCount(d.wire, p.wire, [ACK]);
      assert s.wire.log == p.wire.log + [Out([ACK])];
      CountOutSnoc(p.wire.log, Out([ACK]), [ACK]);
    }
  }

  /** When each reply adds one `f`, a completed chunk loop adds `count`. */
  lemma {:induction false} ChunksAdd(reply: ReplyReader, w: Wire, count: nat, buf: seq<byte>, f: seq<byte>)
    requires AddsOnSuccess(reply, f, 1)
    ensures var s := Chunks(reply, w, count, buf);
            s.res.Ok? ==> CountOut(s.wire.log, f) == CountOut(w.log, f) + count
    decreases count
  {
    if count > 0 {
      var r := reply(w);
      if r.res.Ok? {
        ChunksAdd(reply, r.wire, count - 1, buf + r.res.value, f);
      }
    }
  }

  /** `get_block` acknowledges each of its `blockSize / blockChunkSize`
      replies once when it succeeds, and never sends anything else. */
  lemma GetBlockAcks(w: Wire, cfg: Config, f: seq<byte>)
    requires f != [ACK]
    ensures var s := GetBlockSpec(w, cfg);
            (s.res.Ok? ==> CountOut(s.wire.log, [ACK]) == CountOut(w.log, [ACK]) + ChunksPerBlock(cfg)) &&
            CountOut(s.wire.log, f) == CountOut(w.log, f)
  {
    var reply := ReplyOf(cfg.blockChunkSize);
    assert AddsOnSuccess(reply, [ACK], 1) by {
      forall w' | reply(w').res.Ok? ensures CountOut(reply(w').wire.log, [ACK]) == CountOut(w'.log, [ACK]) + 1 {
        ReceiveReplyAcks(w', cfg.blockChunkSize);
      }
    }
    assert ReplyQuiet(reply, f) by {
      forall w' ensures CountOut(reply(w').wire.log, f) == CountOut(w'.log, f) {
        ReceiveReplyQuiet(w', cfg.blockChunkSize, f);
      }
    }
    ChunksAdd(reply, w, ChunksPerBlock(cfg), [], [ACK]);
    ChunksQuiet(reply, w, ChunksPerBlock(cfg), [], f);
  }

  lemma ReadAttemptQuiet(w: Wire, cfg: Config, f: seq<byte>)
    requires f != [ACK]
    ensures CountOut(ReadAttemptSpec(w, cfg).wire.log, f) == CountOut(w.log, f)
  {
    var b := GetBlockSpec(w, cfg);
    var reply := ReplyOf(cfg.blockChunkSize);
    assert ReplyQuiet(reply, f) by {
      forall w' ensures CountOut(reply(w').wire.log, f) == CountOut(w'.log, f) {
        ReceiveReplyQuiet(w', cfg.blockChunkSize, f);
      }
    }
    ChunksQuiet(reply, w, ChunksPerBlock(cfg), [], f);
    if b.res.Ok? {
      ReceiveReplyQuiet(b.wire, cfg.spareSize, f);
    }
  }

  // ---------------------------------------------------------------------
  // Counting through a retry loop

  /** `stage` adds at most `up` sends of `f`. */
  ghost predicate AddsAtMost<T>(stage: Wire -> Step<T>, f: seq<byte>, up: nat)
  {
    forall w :: CountOut(stage(w).wire.log, f) <= CountOut(w.log, f) + up
  }

  /** `stage` adds exactly `k` sends of `f` whenever it succeeds. */
  ghost predicate AddsOnSuccess<T>(stage: Wire -> Step<T>, f: seq<byte>, k: nat)
  {
    forall w :: stage(w).res.Ok? ==> CountOut(stage(w).wire.log, f) == CountOut(w.log, f) + k
  }

  /** `stage` sends no `f` at all. */
  ghost predicate AddsNone<T>(stage: Wire -> Step<T>, f: seq<byte>)
  {
    forall w :: CountOut(stage(w).wire.log, f) == CountOut(w.log, f)
  }

  /** `stage` never fails with `e`. */
  ghost predicate NeverFailsWith<T>(stage: Wire -> Step<T>, e: Error)
  {
    forall w :: stage(w).res != Err(e)
  }

  /** When request and attempt together send `f` at most once, the loop
      sends it at most once per iteration. */
  lemma {:induction false} RetryAtMost<T>(request: Wire -> Step<()>, attempt: Wire -> Step<T>, giveUp: Error, w: Wire, attempts: nat,
                                          f: seq<byte>, r: nat, a: nat)
    requires AddsAtMost(request, f, r) && AddsAtMost(attempt, f, a) && r + a <= 1
    ensures CountOut(Retry(request, attempt, giveUp, w, attempts).wire.log, f) <= CountOut(w.log, f) + attempts
    decreases attempts
  {
    if attempts > 0 {
      var q := request(w);
      if q.res.Ok? {
        var t := attempt(q.wire);
        if t.res.Err? && Retryable(t.res.error) {
          RetryAtMost(request, attempt, giveUp, t.wire, attempts - 1, f, r, a);
        }
      }
    }
  }

  /** When the request sends `f` once on success and the attempt never
      sends it, giving up means `f` went out once per iteration, and a
      success comes after at least one `f`. */
  lemma {:induction false} RetryRequests<T>(request: Wire -> Step<()>, attempt: Wire -> Step<T>, giveUp: Error, w: Wire, attempts: nat, f: seq<byte>)
    requires AddsOnSuccess(request, f, 1) && AddsNone(attempt, f)
    requires NeverFailsWith(request, giveUp) && NeverFailsWith(attempt, giveUp)
    ensures var s := Retry(request, attempt, giveUp, w, attempts);
            (s.res == Err(giveUp) ==> CountOut(s.wire.log, f) == CountOut(w.log, f) + attempts) &&
            (s.res.Ok? ==> CountOut(w.log, f) + 1 <= CountOut(s.wire.log, f))
    decreases attempts
  {
    if attempts > 0 {
      var q := request(w);
      if q.res.Ok? {
        var t := attempt(q.wire);
        if t.res.Err? && Retryable(t.res.error) {
          RetryRequests(request, attempt, giveUp, t.wire, attempts - 1, f);
        }
      }
    }
  }

  // ---------------------------------------------------------------------
  // read_block_spare

  /** The request sends the read frame at most once, exactly once when it
      succeeds, and fails only with a USB error, a panic or a negative code
      of `ReadBlockAndSpare`. */
  lemma ReadRequestCounts(n: u32)
    ensures AddsAtMost(ReadRequest(n), ReadFrame(n), 1)
    ensures AddsOnSuccess(ReadRequest(n), ReadFrame(n), 1)
    ensures NeverFailsWith(ReadRequest(n), ReadBlock(n))
  {
    CommandFrameNotAck(Op.Opcode(Op.ReadBlockAndSpare), n);
    forall w
      ensures CountOut(ReadRequest(n)(w).wire.log, ReadFrame(n)) <= CountOut(w.log, ReadFrame(n)) + 1
      ensures ReadRequest(n)(w).res.Ok? ==> CountOut(ReadRequest(n)(w).wire.log, ReadFrame(n)) == CountOut(w.log, ReadFrame(n)) + 1
      ensures ReadRequest(n)(w).res != Err(ReadBlock(n))
    {
      RequestBlockReadCount(w, n, ReadFrame(n));
    }
  }

  /** The retried part receives only, and fails only with a link error. */
  lemma ReadAttemptCounts(cfg: Config, n: u32)
    ensures AddsNone(ReadAttempt(cfg), ReadFrame(n))
    ensures AddsAtMost(ReadAttempt(cfg), ReadFrame(n), 0)
    ensures NeverFailsWith(ReadAttempt(cfg), ReadBlock(n))
  {
    CommandFrameNotAck(Op.Opcode(Op.ReadBlockAndSpare), n);
    forall w
      ensures CountOut(ReadAttempt(cfg)(w).wire.log, ReadFrame(n)) == CountOut(w.log, ReadFrame(n))
      ensures ReadAttempt(cfg)(w).res != Err(ReadBlock(n))
    {
      ReadAttemptQuiet(w, cfg, ReadFrame(n));
    }
  }

  /** `read_block_spare` asks for the block at most once per iteration;
      `ReadBlock(n)` means that it asked in every iteration (every request
      was answered, every transfer failed); a success comes after at least
      one request. */
  lemma ReadRetriesCount(w: Wire, cfg: Config, n: u32, attempts: nat)
    ensures var s := ReadRetriesSpec(w, cfg, n, attempts);
            var before := CountOut(w.log, ReadFrame(n));
            var after := CountOut(s.wire.log, ReadFrame(n));
            after <= before + attempts &&
            (s.res == Err(ReadBlock(n)) ==> after == before + attempts) &&
            (s.res.Ok? ==> before + 1 <= after)
  {
    ReadRequestCounts(n);
    ReadAttemptCounts(cfg, n);
    RetryAtMost(ReadRequest(n), ReadAttempt(cfg), ReadBlock(n), w, attempts, ReadFrame(n), 1, 0);
    RetryRequests(ReadRequest(n), ReadAttempt(cfg), ReadBlock(n), w, attempts, ReadFrame(n));
  }

  /** `read_block_spare` itself: at most five requests, exactly five when it
      gives up with `ReadBlock(n)`, at least one before a success. */
  lemma ReadBlockSpareCount(w: Wire, cfg: Config, n: u32)
    ensures var s := ReadBlockSpareSpec(w, cfg, n);
            var before := CountOut(w.log, ReadFrame(n));
            var after := CountOut(s.wire.log, ReadFrame(n));
            after <= before + ATTEMPTS &&
            (s.res == Err(ReadBlock(n)) ==> after == before + ATTEMPTS) &&
            (s.res.Ok? ==> before + 1 <= after)
  {
    ReadRetriesCount(w, cfg, n, ATTEMPTS);
  }

  /** A failed request is not retried: the error is returned as it is. */
  lemma ReadRequestNotRetried(w: Wire, cfg: Config, n: u32)
    ensures var q := RequestBlockReadSpec(w, Op.ReadBlockAndSpare, n);
            var s := ReadBlockSpareSpec(w, cfg, n);
            q.res.Err? ==> s == Step(Err(q.res.error), q.wire) &&
                           CountOut(s.wire.log, ReadFrame(n)) <= CountOut(w.log, ReadFrame(n)) + 1
  {
    CommandFrameNotAck(Op.Opcode(Op.ReadBlockAndSpare), n);
    RequestBlockReadCount(w, n, ReadFrame(n));
  }

  // ---------------------------------------------------------------------
  // write_block_spare

  /** Byte 5 of an encoding is the fourth data byte. */
  lemma EncodeByte5(x: seq<byte>)
    requires |x| >= 4
    ensures |EncodePiecemeal(x)| > 5 && EncodePiecemeal(x)[5] == x[3]
  {
    EncodeTags(x, 1);
  }

  /** The rewritten spare can never be mistaken for a write command. */
  lemma SpareFrameIsNotWriteFrame(cfg: Config, spare: seq<byte>, n: u32)
    requires |spare| >= 3
    ensures EncodePiecemeal(RewriteSpare(cfg, spare)) != WriteFrame(n)
  {
    EncodeByte5(RewriteSpare(cfg, spare));
    CommandFrameBytes(Op.Opcode(Op.WriteBlockAndSpare), n);
  }

  lemma {:induction false} SendChunkedQuiet(w: Wire, data: seq<byte>, f: seq<byte>)
    requires f != [] && f[0] != SEND_CHUNK
    ensures CountOut(SendChunkedSpec(w, data).wire.log, f) == CountOut(w.log, f)
    decreases |data|
  {
    if data != [] {
      var k := Min(MAX_CHUNK, |data|);
      var t := Send(w, [SEND_CHUNK, k] + data[..k]);
      CountOutSnoc(w.log, Out([SEND_CHUNK, k] + data[..k]), f);
      if t.res.Ok? {
        SendChunkedQuiet(t.wire, data[k..], f);
      }
    }
  }

  /** The write request sends the write frame at most once and nothing
      else it could be mistaken for. */
  lemma RequestBlockWriteCount(w: Wire, n: u32, f: seq<byte>)
    ensures CountOut(RequestBlockWriteSpec(w, Op.WriteBlockAndSpare, n).wire.log, f) <= CountOut(w.log, f) + Hit(f, WriteFrame(n))
  {
    var op := Op.Opcode(Op.WriteBlockAndSpare);
    SendCommandCount(w, op, n, f);
    var sc := SendCommandSpec(w, op, n);
    if sc.res.Ok? {
      WaitReadyReceives(sc.wire);
      OnlyReceivesCount(sc.wire, WaitReadySpec(sc.wire).wire, f);
    }
  }

  /** `send_spare` sends only the encoded spare. */
  lemma SendSpareQuiet(w: Wire, cfg: Config, spare: seq<byte>, f: seq<byte>)
    requires |spare| >= 3 && f != EncodePiecemeal(RewriteSpare(cfg, spare))
    ensures CountOut(SendSpareSpec(w, cfg, spare).wire.log, f) == CountOut(w.log, f)
  {
    SendSpareTraffic(w, cfg, spare);
    var r := WaitReadySpec(w);
    OnlyReceivesCount(w, r.wire, f);
    if r.res.Ok? {
      CountOutSnoc(r.wire.log, Out(EncodePiecemeal(RewriteSpare(cfg, spare))), f);
    }
  }

  /** The transfer after the request never repeats the write frame. */
  lemma WriteTransferQuiet(w: Wire, cfg: Config, block: seq<byte>, spare: seq<byte>, n: u32)
    requires |spare| >= 3
    ensures CountOut(WriteTransferSpec(w, cfg, block, spare).wire.log, WriteFrame(n)) == CountOut(w.log, WriteFrame(n))
  {
    CommandFrameNotAck(Op.Opcode(Op.WriteBlockAndSpare), n);
    SpareFrameIsNotWriteFrame(cfg, spare, n);
    TransferQuiet(w, cfg, block, spare, WriteFrame(n));
  }

  /** The transfer sends only chunk frames and the encoded spare. */
  lemma TransferQuiet(w: Wire, cfg: Config, block: seq<byte>, spare: seq<byte>, f: seq<byte>)
    requires |spare| >= 3
    requires f != [] && f[0] != SEND_CHUNK && f != [ACK] && f != EncodePiecemeal(RewriteSpare(cfg, spare))
    ensures CountOut(WriteTransferSpec(w, cfg, block, spare).wire.log, f) == CountOut(w.log, f)
  {
    SendChunkedQuiet(w, block, f);
    var b := SendChunkedSpec(w, block);
    if b.res.Ok? {
      SendSpareQuiet(b.wire, cfg, spare, f);
      var sp := SendSpareSpec(b.wire, cfg, spare);
      if sp.res.Ok? {
        CheckBlockWriteQuiet(sp.wire, f);
        assert WriteTransferSpec(w, cfg, block, spare) == CheckBlockWriteSpec(sp.wire);
      } else {
        assert WriteTransferSpec(w, cfg, block, spare) == sp;
      }
    } else {
      assert WriteTransferSpec(w, cfg, block, spare) == b;
    }
  }

  /** The device's check after a write only receives. */
  lemma CheckBlockWriteQuiet(w: Wire, f: seq<byte>)
    requires f != [ACK]
    ensures CountOut(CheckBlockWriteSpec(w).wire.log, f) == CountOut(w.log, f)
  {
    ReceiveCodeQuiet(w, f);
    assert CheckBlockWriteSpec(w).wire == ReceiveCodeSpec(w).wire;
  }

  /** One iteration announces the write at most once. */
  lemma WriteAttemptCount(w: Wire, cfg: Config, block: seq<byte>, spare: seq<byte>, n: u32)
    requires |spare| >= 3
    ensures CountOut(WriteAttemptSpec(w, cfg, block, spare, n).wire.log, WriteFrame(n)) <= CountOut(w.log, WriteFrame(n)) + 1
  {
    RequestBlockWriteCount(w, n, WriteFrame(n));
    var q := RequestBlockWriteSpec(w, Op.WriteBlockAndSpare, n);
    if q.res.Ok? {
      WriteTransferQuiet(q.wire, cfg, block, spare, n);
    }
  }

  lemma WriteAttemptCounts(cfg: Config, block: seq<byte>, spare: seq<byte>, n: u32)
    requires |spare| >= 3
    ensures AddsAtMost(Proceed, WriteFrame(n), 0)
    ensures AddsAtMost(WriteAttempt(cfg, block, spare, n), WriteFrame(n), 1)
  {
    forall w
      ensures CountOut(WriteAttempt(cfg, block, spare, n)(w).wire.log, WriteFrame(n)) <= CountOut(w.log, WriteFrame(n)) + 1
    {
      WriteAttemptCount(w, cfg, block, spare, n);
    }
  }

  /** Each iteration sends the write command at most once. */
  lemma WriteRetriesCount(w: Wire, cfg: Config, block: seq<byte>, spare: seq<byte>, n: u32, attempts: nat)
    requires |spare| >= 3
    ensures CountOut(WriteRetriesSpec(w, cfg, block, spare, n, attempts).wire.log, WriteFrame(n)) <=
            CountOut(w.log, WriteFrame(n)) + attempts
  {
    WriteAttemptCounts(cfg, block, spare, n);
    RetryAtMost(Proceed, WriteAttempt(cfg, block, spare, n), WriteBlock(n), w, attempts, WriteFrame(n), 0, 1);
  }

  /** `write_block_spare` announces the write at most five times, and not at
      all (no transfer of any kind) for a block marked bad. */
  lemma WriteBlockSpareCount(w: Wire, cfg: Config, block: seq<byte>, spare: seq<byte>, n: u32)
    ensures var s := WriteBlockSpareSpec(w, cfg, block, spare, n);
            CountOut(s.wire.log, WriteFrame(n)) <= CountOut(w.log, WriteFrame(n)) + ATTEMPTS &&
            (|spare| >= 6 && spare[5] != 0xFF ==> s.wire == w && s.res.Ok?)
  {
    if |spare| >= 6 && spare[5] == 0xFF {
      WriteRetriesCount(w, cfg, block, spare, n, ATTEMPTS);
    }
  }

  /** No stage of a write fails with a `WriteBlock` error. */
  lemma WriteAttemptErrors(cfg: Config, block: seq<byte>, spare: seq<byte>, n: u32)
    requires |spare| >= 3
    ensures forall w :: Proceed(w).res.Err? ==> !Proceed(w).res.error.WriteBlock?
    ensures forall w :: WriteAttempt(cfg, block, spare, n)(w).res.Err? ==> !WriteAttempt(cfg, block, spare, n)(w).res.error.WriteBlock?
  {
  }

  /** A loop that gives up with `giveUp` and whose stages never fail with
      an error of the kind `P` fails with such an error only by giving up. */
  lemma {:induction false} RetryGivesUpOnly<T>(request: Wire -> Step<()>, attempt: Wire -> Step<T>, giveUp: Error, w: Wire, attempts: nat, P: Error -> bool)
    requires forall w :: request(w).res.Err? ==> !P(request(w).res.error)
    requires forall w :: attempt(w).res.Err? ==> !P(attempt(w).res.error)
    ensures var s := Retry(request, attempt, giveUp, w, attempts);
            s.res.Err? && P(s.res.error) ==> s.res.error == giveUp
    decreases attempts
  {
    if attempts > 0 {
      var q := request(w);
      if q.res.Ok? {
        var t := attempt(q.wire);
        if t.res.Err? && Retryable(t.res.error) {
          RetryGivesUpOnly(request, attempt, giveUp, t.wire, attempts - 1, P);
        }
      }
    }
  }

  /** A `WriteBlock` error of `write_block_spare` is always `WriteBlock(n)`:
      it means the five iterations were used up. */
  lemma WriteGivesUp(w: Wire, cfg: Config, block: seq<byte>, spare: seq<byte>, n: u32, attempts: nat)
    requires |spare| >= 3
    ensures var s := WriteRetriesSpec(w, cfg, block, spare, n, attempts);
            s.res.Err? && s.res.error.WriteBlock? ==> s.res.error == WriteBlock(n)
  {
    var isWriteBlock := (e: Error) => e.WriteBlock?;
    WriteAttemptErrors(cfg, block, spare, n);
    RetryGivesUpOnly(Proceed, WriteAttempt(cfg, block, spare, n), WriteBlock(n), w, attempts, isWriteBlock);
  }
}
