/** The command layer of commands.rs: opcodes sent through the framing
    protocol, return codes read from replies, block transfer with retries,
    filename checks and the whole-device dump. */
module Commands {
  import opened Bytes
  import opened Errors
  import Op = Opcodes
  import opened Transport
  import opened Framing
  import opened PlayerComms
  import opened FileNames

  /** The sizes the crate takes from its `constants` module. */
  datatype Sizes = Sizes(blockSize: nat, spareSize: nat, blockChunkSize: nat)

  /** What the code needs of the constants: blocks split into whole chunks,
      and a spare long enough for `spare[5]` and `data[..3]`. */
  predicate ValidConfig(c: Sizes)
  {
    c.blockChunkSize > 0 && c.blockSize % c.blockChunkSize == 0 && c.spareSize >= 6
  }

  type Config = c: Sizes | ValidConfig(c) witness Sizes(0x4000, 0x10, 0x1000)

  /** A block's data and its spare area. */
  type BlockSpare = (seq<byte>, seq<byte>)

  // ---------------------------------------------------------------------
  // Return codes

  /** `command_ret`: the big-endian `i32` at bytes 4..8 of a reply. */
  function CommandRet(buf: seq<byte>): (ret: i32)
    requires |buf| >= 8
    ensures ret < 0 <==> buf[4] >= 0x80
    ensures ToBeBytes(ret % 0x1_0000_0000) == buf[4..8]
  {
    NumFromArrI32(buf[4..8])
  }

  /** `num_from_arr::<u32>(&reply[4..8])`, with the slice's panic on a short reply. */
  function ReplyWord(reply: seq<byte>): (r: Result<u32>)
    ensures r.Ok? <==> |reply| >= 8
    ensures r.Err? ==> r.error == Panic(IndexOutOfRange)
    ensures r.Ok? ==> ToBeBytes(r.value) == reply[4..8]
  {
    if |reply| < 8 then Err(Panic(IndexOutOfRange)) else Ok(NumFromArrU32(reply[4..8]))
  }

  /** `command_ret(&reply)`, with the slice's panic on a short reply. */
  function ReplyCode(reply: seq<byte>): (r: Result<i32>)
    ensures r.Ok? <==> |reply| >= 8
    ensures r.Err? ==> r.error == Panic(IndexOutOfRange)
    ensures r.Ok? ==> r.value == CommandRet(reply)
  {
    if |reply| < 8 then Err(Panic(IndexOutOfRange)) else Ok(CommandRet(reply))
  }

  /** `command_ret(&self.receive_reply(8)?)`. */
  function ReceiveCodeSpec(w: Wire): (s: Step<i32>)
    ensures s.res.Err? ==> LinkError(s.res.error) || s.res.error == Panic(IndexOutOfRange)
  {
    var rr := ReceiveReplySpec(w, 8);
    match rr.res
    case Err(e) => Step(Err(e), rr.wire)
    case Ok(reply) => Step(ReplyCode(reply), rr.wire)
  }

  /** Send a command whose reply carries a return code, and read the code. */
  function CommandCodeSpec(w: Wire, op: u32, arg: u32): Step<i32>
  {
    var sc := SendCommandSpec(w, op, arg);
    match sc.res
    case Err(e) => Step(Err(e), sc.wire)
    case Ok(_) => ReceiveCodeSpec(sc.wire)
  }

  method ReceiveCode(h: UsbHandle) returns (r: Result<i32>)
    modifies h
    ensures Step(r, h.State()) == ReceiveCodeSpec(old(h.State()))
  {
    var reply :- ReceiveReply(h, 8);
    r := ReplyCode(reply);
  }

  // ---------------------------------------------------------------------
  // Block read

  /** `request_block_read`: a negative code is `Command(command, ret)`. */
  function RequestBlockReadSpec(w: Wire, command: Op.Command, blockNum: u32): (s: Step<()>)
    ensures s.res.Err? ==> s.res.error.Usb? || s.res.error.Panic? || (s.res.error.Command? && s.res.error.command == command && s.res.error.ret < 0)
  {
    var c := CommandCodeSpec(w, Op.Opcode(command), blockNum);
    match c.res
    case Err(e) => Step(Err(e), c.wire)
    case Ok(ret) => if ret < 0 then Step(Err(Command(command, ret)), c.wire) else Step(Ok(()), c.wire)
  }

  method RequestBlockRead(h: UsbHandle, command: Op.Command, blockNum: u32) returns (r: Result<()>)
    modifies h
    ensures Step(r, h.State()) == RequestBlockReadSpec(old(h.State()), command, blockNum)
  {
    var sent :- SendCommand(h, Op.Opcode(command), blockNum);
    var ret :- ReceiveCode(h);
    if ret < 0 {
      return Err(Command(command, ret));
    }
    return Ok(());
  }

  /** `request_block_read` against its return code: a link failure is passed
      on, a negative code is `Command(command, ret)` and any other code is
      `Ok`, with the link as the command exchange left it. */
  lemma RequestBlockReadCodes(w: Wire, command: Op.Command, blockNum: u32)
    ensures var s := RequestBlockReadSpec(w, command, blockNum);
            var c := CommandCodeSpec(w, Op.Opcode(command), blockNum);
            s.wire == c.wire &&
            (c.res.Err? ==> s.res == Err(c.res.error)) &&
            (c.res.Ok? && c.res.value < 0 ==> s.res == Err(Command(command, c.res.value))) &&
            (s.res.Ok? <==> c.res.Ok? && c.res.value >= 0)
  {
  }

  /** A stage that reads one reply from the device. */
  type ReplyReader = Wire -> Step<seq<byte>>

  /** `receive_reply(max)` as a stage. */
  function ReplyOf(max: nat): ReplyReader
  {
    w => ReceiveReplySpec(w, max)
  }

  /** What `receive_reply(max)` guarantees: 1..`max` bytes, or a link error. */
  ghost predicate RepliesWithin(reply: ReplyReader, max: nat)
  {
    forall w :: (reply(w).res.Ok? ==> 1 <= |reply(w).res.value| <= max) &&
                (reply(w).res.Err? ==> LinkError(reply(w).res.error))
  }

  lemma ReplyOfWithin(max: nat)
    ensures RepliesWithin(ReplyOf(max), max)
  {
    forall w ensures (ReplyOf(max)(w).res.Ok? ==> 1 <= |ReplyOf(max)(w).res.value| <= max) &&
                     (ReplyOf(max)(w).res.Err? ==> LinkError(ReplyOf(max)(w).res.error))
    {
      assert ReplyOf(max)(w) == ReceiveReplySpec(w, max);
    }
  }

  /** The remaining `count` iterations of `get_block`'s loop, with `buf`
      collected so far: one reply per iteration, appended to the buffer. */
  function Chunks(reply: ReplyReader, w: Wire, count: nat, buf: seq<byte>): Step<seq<byte>>
    decreases count
  {
    if count == 0 then Step(Ok(buf), w)
    else
      var r := reply(w);
      match r.res
      case Err(e) => Step(Err(e), r.wire)
      case Ok(c) => Chunks(reply, r.wire, count - 1, buf + c)
  }

  /** One iteration of the chunk loop: a failed reply ends it, a reply
      received is appended and the loop goes on. */
  lemma ChunksStep(reply: ReplyReader, w: Wire, count: nat, buf: seq<byte>)
    requires count > 0
    ensures var r := reply(w);
            Chunks(reply, w, count, buf) ==
              if r.res.Err? then Step(Err(r.res.error), r.wire) else Chunks(reply, r.wire, count - 1, buf + r.res.value)
  {
  }

  /** Each of the `count` replies adds between 1 and `max` bytes to the
      buffer, and a failure is a failure of one of the replies. */
  lemma {:induction false} ChunksLength(reply: ReplyReader, max: nat, w: Wire, count: nat, buf: seq<byte>)
    requires RepliesWithin(reply, max)
    ensures var s := Chunks(reply, w, count, buf);
            (s.res.Ok? ==> buf <= s.res.value && |buf| + count <= |s.res.value| <= |buf| + count * max) &&
            (s.res.Err? ==> LinkError(s.res.error))
    decreases count
  {
    if count > 0 {
      var r := reply(w);
      if r.res.Ok? {
        var c := r.res.value;
        ChunksLength(reply, max, r.wire, count - 1, buf + c);
        MulSucc(count, max);
        var s := Chunks(reply, w, count, buf);
        if s.res.Ok? {
          PrefixExtend(buf, c, s.res.value);
        }
      }
    }
  }

  /** A prefix of an extension of `a` is also a prefix of `a`'s extension. */
  lemma PrefixExtend(a: seq<byte>, c: seq<byte>, v: seq<byte>)
    requires a + c <= v
    ensures a <= v
  {
    assert v[..|a|] == (a + c)[..|a|];
  }

  /** `BLOCK_SIZE / BLOCK_CHUNK_SIZE`: how many replies make up a block. */
  function ChunksPerBlock(cfg: Config): nat
  {
    cfg.blockSize / cfg.blockChunkSize
  }

  /** `get_block`: `blockSize / blockChunkSize` replies of at most one chunk each. */
  function GetBlockSpec(w: Wire, cfg: Config): Step<seq<byte>>
  {
    Chunks(ReplyOf(cfg.blockChunkSize), w, ChunksPerBlock(cfg), [])
  }

  /** A block carries at least one byte per chunk and never more than a
      block; a failed block read is a link failure. */
  lemma GetBlockLength(w: Wire, cfg: Config)
    ensures var s := GetBlockSpec(w, cfg);
            (s.res.Ok? ==> ChunksPerBlock(cfg) <= |s.res.value| <= cfg.blockSize) &&
            (s.res.Err? ==> LinkError(s.res.error))
  {
    ReplyOfWithin(cfg.blockChunkSize);
    ChunksLength(ReplyOf(cfg.blockChunkSize), cfg.blockChunkSize, w, ChunksPerBlock(cfg), []);
    DivMulExact(cfg.blockSize, cfg.blockChunkSize);
  }

  /** Replies that a length header can announce. */
  ghost predicate Announceable(cs: seq<seq<byte>>)
  {
    forall i | 0 <= i < |cs| :: |cs[i]| < 0x100_0000
  }

  /** The device's packets for the replies `cs`, one after the other. */
  function ReplyScripts(cs: seq<seq<byte>>): seq<Packet>
    requires Announceable(cs)
  {
    if cs == [] then [] else ReplyPackets(cs[0]) + ReplyScripts(cs[1..])
  }

  /** `cs[0] + cs[1] + ...`. */
  function Concat(cs: seq<seq<byte>>): seq<byte>
  {
    if cs == [] then [] else cs[0] + Concat(cs[1..])
  }

  lemma ConcatCons(c: seq<byte>, cs: seq<seq<byte>>)
    ensures Concat([c] + cs) == c + Concat(cs)
  {
    assert ([c] + cs)[1..] == cs;
  }

  /** Over a script of well-formed replies `cs` of 1..`max` bytes, the chunk
      loop appends exactly those replies, in order, to `buf`, and leaves the
      rest of the script for what comes next. */
  lemma {:induction false} ChunksScripted(w: Wire, cs: seq<seq<byte>>, rest: seq<Packet>, max: nat, buf: seq<byte>)
    requires Announceable(cs) && forall i | 0 <= i < |cs| :: 1 <= |cs[i]| <= max
    requires w.inbound == ReplyScripts(cs) + rest && Accepting(w)
    ensures var s := Chunks(ReplyOf(max), w, |cs|, buf);
            s.res == Ok(buf + Concat(cs)) && s.wire.inbound == rest && Accepting(s.wire)
    decreases |cs|
  {
    if cs == [] {
      assert buf + [] == buf;
    } else {
      var tail := cs[1..];
      ScriptsTail(cs, rest, max);
      ScriptsCons(cs, rest);
      ReceiveReplyScripted(w, cs[0], ReplyScripts(tail) + rest, max);
      var r := ReceiveReplySpec(w, max);
      assert ReplyOf(max)(w) == r;
      ChunksStep(ReplyOf(max), w, |cs|, buf);
      assert |tail| == |cs| - 1;
      ChunksScripted(r.wire, tail, rest, max, buf + cs[0]);
      assert buf + cs[0] + Concat(tail) == buf + Concat(cs);
    }
  }

  /** The script of the first reply comes first. */
  lemma ScriptsCons(cs: seq<seq<byte>>, rest: seq<Packet>)
    requires cs != [] && Announceable(cs) && Announceable(cs[1..])
    ensures ReplyScripts(cs) + rest == ReplyPackets(cs[0]) + (ReplyScripts(cs[1..]) + rest)
  {
    var head, tail := ReplyPackets(cs[0]), ReplyScripts(cs[1..]);
    assert ReplyScripts(cs) == head + tail;
  }

  /** The replies after the first keep their bounds. */
  lemma ScriptsTail(cs: seq<seq<byte>>, rest: seq<Packet>, max: nat)
    requires cs != [] && Announceable(cs) && forall i | 0 <= i < |cs| :: 1 <= |cs[i]| <= max
    ensures Announceable(cs[1..]) && (forall i | 0 <= i < |cs[1..]| :: 1 <= |cs[1..][i]| <= max) &&
            1 <= |cs[0]| <= max && |cs[0]| < 0x100_0000
  {
    var tail := cs[1..];
    assert Announceable(tail) by {
      forall i | 0 <= i < |tail| ensures |tail[i]| < 0x100_0000 {
        assert tail[i] == cs[i + 1];
      }
    }
  }

  /** `get_block` over a script of `blockSize / blockChunkSize` well-formed
      replies of at most one chunk each returns their concatenation. */
  lemma GetBlockScripted(w: Wire, cfg: Config, cs: seq<seq<byte>>, rest: seq<Packet>)
    requires |cs| == ChunksPerBlock(cfg) && Announceable(cs)
    requires forall i | 0 <= i < |cs| :: 1 <= |cs[i]| <= cfg.blockChunkSize
    requires w.inbound == ReplyScripts(cs) + rest && Accepting(w)
    ensures var s := GetBlockSpec(w, cfg);
            s.res == Ok(Concat(cs)) && s.wire.inbound == rest && Accepting(s.wire)
  {
    ChunksScripted(w, cs, rest, cfg.blockChunkSize, []);
    assert [] + Concat(cs) == Concat(cs);
  }

  /** A 16-byte block read in 4-byte chunks is the four chunks in order. */
  lemma GetBlockOfFourChunks(w: Wire, cfg: Config, a: seq<byte>, b: seq<byte>, c: seq<byte>, d: seq<byte>)
    requires cfg.blockSize == 16 && cfg.blockChunkSize == 4
    requires |a| == |b| == |c| == |d| == 4
    requires w.inbound == ReplyScripts([a, b, c, d]) && Accepting(w)
    ensures GetBlockSpec(w, cfg).res == Ok(a + b + c + d)
  {
    var cs := [a, b, c, d];
    assert w.inbound == ReplyScripts(cs) + [];
    ConcatCons(d, []);
    ConcatCons(c, [d]);
    ConcatCons(b, [c, d]);
    ConcatCons(a, [b, c, d]);
    assert Concat(cs) == a + b + c + d;
    GetBlockScripted(w, cfg, cs, []);
  }

  method GetBlock(h: UsbHandle, cfg: Config) returns (r: Result<seq<byte>>)
    modifies h
    ensures Step(r, h.State()) == GetBlockSpec(old(h.State()), cfg)
  {
    var count := ChunksPerBlock(cfg);
    var buf: seq<byte> := [];
    var i := 0;
    while i < count
      invariant i <= count
      invariant Chunks(ReplyOf(cfg.blockChunkSize), h.State(), count - i, buf) == GetBlockSpec(old(h.State()), cfg)
    {
      ChunksStep(ReplyOf(cfg.blockChunkSize), h.State(), count - i, buf);
      assert ReplyOf(cfg.blockChunkSize)(h.State()) == ReceiveReplySpec(h.State(), cfg.blockChunkSize);
      var c := ReceiveReply(h, cfg.blockChunkSize);
      if c.Err? {
        return Err(c.error);
      }
      buf := buf + c.value;
      i := i + 1;
    }
    return Ok(buf);
  }

  /** `get_spare`: one reply of at most a spare area. */
  function GetSpareSpec(w: Wire, cfg: Config): Step<seq<byte>>
  {
    ReceiveReplySpec(w, cfg.spareSize)
  }

  method GetSpare(h: UsbHandle, cfg: Config) returns (r: Result<seq<byte>>)
    modifies h
    ensures Step(r, h.State()) == GetSpareSpec(old(h.State()), cfg)
  {
    r := ReceiveReply(h, cfg.spareSize);
  }

  /** The part of a `read_block_spare` attempt that `try_continue!` guards:
      `get_block`, then `get_spare`. A block has at most `blockSize` bytes,
      a spare 1..`spareSize`. */
  function ReadAttemptSpec(w: Wire, cfg: Config): (s: Step<BlockSpare>)
    ensures s.res.Ok? ==> |s.res.value.0| <= cfg.blockSize && 1 <= |s.res.value.1| <= cfg.spareSize
    ensures s.res.Err? ==> LinkError(s.res.error)
  {
    var b := GetBlockSpec(w, cfg);
    GetBlockLength(w, cfg);
    match b.res
    case Err(e) => Step(Err(e), b.wire)
    case Ok(block) =>
      var sp := GetSpareSpec(b.wire, cfg);
      match sp.res
      case Err(e) => Step(Err(e), sp.wire)
      case Ok(spare) => Step(Ok((block, spare)), sp.wire)
  }

  /** The last `attempts` iterations of a retry loop: `request` is not
      retried (its error is returned at once, `?`); a retryable failure of
      `attempt` uses up the iteration (`try_continue!`), a panic or a
      success is returned; with no iteration left the loop gives up with
      `giveUp`. */
  function Retry<T>(request: Wire -> Step<()>, attempt: Wire -> Step<T>, giveUp: Error, w: Wire, attempts: nat): Step<T>
    decreases attempts
  {
    if attempts == 0 then Step(Err(giveUp), w)
    else
      var q := request(w);
      match q.res
      case Err(e) => Step(Err(e), q.wire)
      case Ok(_) =>
        var a := attempt(q.wire);
        match a.res
        case Ok(_) => a
        case Err(e) => if Retryable(e) then Retry(request, attempt, giveUp, a.wire, attempts - 1) else a
  }

  /** Every success of `attempt` satisfies `P`. */
  ghost predicate SucceedsWith<T>(attempt: Wire -> Step<T>, P: T -> bool)
  {
    forall w :: attempt(w).res.Ok? ==> P(attempt(w).res.value)
  }

  /** A retry loop succeeds only with a value some attempt succeeded with. */
  lemma {:induction false} RetrySucceedsWith<T>(request: Wire -> Step<()>, attempt: Wire -> Step<T>, giveUp: Error, w: Wire, attempts: nat, P: T -> bool)
    requires SucceedsWith(attempt, P)
    ensures var s := Retry(request, attempt, giveUp, w, attempts);
            s.res.Ok? ==> P(s.res.value)
    decreases attempts
  {
    if attempts > 0 {
      var q := request(w);
      if q.res.Ok? {
        var a := attempt(q.wire);
        if a.res.Err? && Retryable(a.res.error) {
          RetrySucceedsWith(request, attempt, giveUp, a.wire, attempts - 1, P);
        }
      }
    }
  }

  /** One iteration of a retry loop: a failed request is returned, a
      retryable failure of the attempt goes on to the next iteration, and
      anything else ends the loop. */
  lemma RetryStep<T>(request: Wire -> Step<()>, attempt: Wire -> Step<T>, giveUp: Error, w: Wire, attempts: nat, next: nat)
    requires attempts > 0 && next == attempts - 1
    ensures var q := request(w);
            var a := attempt(q.wire);
            Retry(request, attempt, giveUp, w, attempts) ==
              if q.res.Err? then Step(Err(q.res.error), q.wire)
              else if a.res.Err? && Retryable(a.res.error) then Retry(request, attempt, giveUp, a.wire, next)
              else a
  {
  }

  /** The request of `read_block_spare`. */
  function ReadRequest(blockNum: u32): Wire -> Step<()>
  {
    w => RequestBlockReadSpec(w, Op.ReadBlockAndSpare, blockNum)
  }

  /** The retried part of `read_block_spare`. */
  function ReadAttempt(cfg: Config): Wire -> Step<BlockSpare>
  {
    w => ReadAttemptSpec(w, cfg)
  }

  /** A block and spare of the sizes a read can give. */
  function ReadSized(cfg: Config): BlockSpare -> bool
  {
    (bs: BlockSpare) => |bs.0| <= cfg.blockSize && 1 <= |bs.1| <= cfg.spareSize
  }

  /** The last `attempts` iterations of `read_block_spare`'s loop. Whatever
      attempt succeeds, its block and spare have the sizes above. */
  function ReadRetriesSpec(w: Wire, cfg: Config, blockNum: u32, attempts: nat): (s: Step<BlockSpare>)
    ensures s.res.Ok? ==> |s.res.value.0| <= cfg.blockSize && 1 <= |s.res.value.1| <= cfg.spareSize
  {
    assert SucceedsWith(ReadAttempt(cfg), ReadSized(cfg));
    RetrySucceedsWith(ReadRequest(blockNum), ReadAttempt(cfg), ReadBlock(blockNum), w, attempts, ReadSized(cfg));
    Retry(ReadRequest(blockNum), ReadAttempt(cfg), ReadBlock(blockNum), w, attempts)
  }

  const ATTEMPTS: nat := 5

  /** One iteration of `read_block_spare`'s loop: the request's failure is
      returned, a retryable failure of the attempt goes on to the next
      iteration, and anything else ends the loop. */
  lemma ReadRetriesStep(w: Wire, cfg: Config, blockNum: u32, attempts: nat, next: nat)
    requires attempts > 0 && next == attempts - 1
    ensures var q := RequestBlockReadSpec(w, Op.ReadBlockAndSpare, blockNum);
            var a := ReadAttemptSpec(q.wire, cfg);
            ReadRetriesSpec(w, cfg, blockNum, attempts) ==
              if q.res.Err? then Step(Err(q.res.error), q.wire)
              else if a.res.Err? && Retryable(a.res.error) then ReadRetriesSpec(a.wire, cfg, blockNum, next)
              else a
  {
    RetryStep(ReadRequest(blockNum), ReadAttempt(cfg), ReadBlock(blockNum), w, attempts, next);
    var q := ReadRequest(blockNum)(w);
    assert q == RequestBlockReadSpec(w, Op.ReadBlockAndSpare, blockNum);
    assert ReadAttempt(cfg)(q.wire) == ReadAttemptSpec(q.wire, cfg);
  }

  /** `read_block_spare`. */
  function ReadBlockSpareSpec(w: Wire, cfg: Config, blockNum: u32): (s: Step<BlockSpare>)
  {
    ReadRetriesSpec(w, cfg, blockNum, ATTEMPTS)
  }

  /** The two `try_continue!` stages of one `read_block_spare` iteration:
      `get_block`, then `get_spare`, stopping at the first failure. */
  method ReadAttemptCmd(h: UsbHandle, cfg: Config) returns (r: Result<BlockSpare>)
    modifies h
    ensures Step(r, h.State()) == ReadAttemptSpec(old(h.State()), cfg)
  {
    var block :- GetBlock(h, cfg);
    var spare :- GetSpare(h, cfg);
    return Ok((block, spare));
  }

  method ReadBlockSpare(h: UsbHandle, cfg: Config, blockNum: u32) returns (r: Result<BlockSpare>)
    modifies h
    ensures Step(r, h.State()) == ReadBlockSpareSpec(old(h.State()), cfg, blockNum)
  {
    var left: nat := ATTEMPTS;
    while left > 0
      invariant ReadRetriesSpec(h.State(), cfg, blockNum, left) == ReadBlockSpareSpec(old(h.State()), cfg, blockNum)
    {
      var next := left - 1;
      ReadRetriesStep(h.State(), cfg, blockNum, left, next);
      var requested :- RequestBlockRead(h, Op.ReadBlockAndSpare, blockNum);
      r := ReadAttemptCmd(h, cfg);
      if r.Ok? || !Retryable(r.error) {
        return;
      }
      left := next;
    }
    return Err(ReadBlock(blockNum));
  }

  // ---------------------------------------------------------------------
  // Block write

  /** `request_block_write`: the command, then a ready wait. */
  function RequestBlockWriteSpec(w: Wire, command: Op.Command, blockNum: u32): Step<()>
  {
    var sc := SendCommandSpec(w, Op.Opcode(command), blockNum);
    match sc.res
    case Err(e) => Step(Err(e), sc.wire)
    case Ok(_) => WaitReadySpec(sc.wire)
  }

  method RequestBlockWrite(h: UsbHandle, command: Op.Command, blockNum: u32) returns (r: Result<()>)
    modifies h
    ensures Step(r, h.State()) == RequestBlockWriteSpec(old(h.State()), command, blockNum)
  {
    var sent :- SendCommand(h, Op.Opcode(command), blockNum);
    r := WaitReady(h);
  }

  /** `check_block_write`: a negative code is `CheckBlockWrite(ret)`. */
  function CheckBlockWriteSpec(w: Wire): (s: Step<()>)
    ensures s.res.Err? ==> LinkError(s.res.error) || s.res.error == Panic(IndexOutOfRange) ||
                           (s.res.error.CheckBlockWrite? && s.res.error.ret < 0)
  {
    var c := ReceiveCodeSpec(w);
    match c.res
    case Err(e) => Step(Err(e), c.wire)
    case Ok(ret) => if ret < 0 then Step(Err(Error.CheckBlockWrite(ret)), c.wire) else Step(Ok(()), c.wire)
  }

  method CheckBlockWrite(h: UsbHandle) returns (r: Result<()>)
    modifies h
    ensures Step(r, h.State()) == CheckBlockWriteSpec(old(h.State()))
  {
    var ret :- ReceiveCode(h);
    if ret < 0 {
      return Err(Error.CheckBlockWrite(ret));
    }
    return Ok(());
  }

  /** `check_block_write` against its return code: a negative code is
      `CheckBlockWrite(ret)` and any other code is `Ok`. */
  lemma CheckBlockWriteCodes(w: Wire)
    ensures var s := CheckBlockWriteSpec(w);
            var c := ReceiveCodeSpec(w);
            s.wire == c.wire &&
            (c.res.Err? ==> s.res == Err(c.res.error)) &&
            (c.res.Ok? && c.res.value < 0 ==> s.res == Err(Error.CheckBlockWrite(c.res.value))) &&
            (s.res.Ok? <==> c.res.Ok? && c.res.value >= 0)
  {
  }

  /** `send_block`: the block goes out chunked. */
  method SendBlock(h: UsbHandle, data: seq<byte>) returns (r: Result<()>)
    modifies h
    ensures Step(r, h.State()) == SendChunkedSpec(old(h.State()), data)
  {
    r := SendChunkedData(h, data);
  }

  /** The spare as transmitted: its first three bytes, then 0xFF up to a
      full spare area. */
  function RewriteSpare(cfg: Config, spare: seq<byte>): (r: seq<byte>)
    requires |spare| >= 3
    ensures |r| == cfg.spareSize && r[..3] == spare[..3]
    ensures forall i | 3 <= i < |r| :: r[i] == 0xFF
  {
    spare[..3] + seq(cfg.spareSize - 3, _ => 0xFF)
  }

  /** `send_spare`: wait for ready, then send the rewritten spare piecemeal. */
  function SendSpareSpec(w: Wire, cfg: Config, spare: seq<byte>): Step<()>
    requires |spare| >= 3
  {
    var r := WaitReadySpec(w);
    match r.res
    case Err(e) => Step(Err(e), r.wire)
    case Ok(_) =>
      var t := SendPiecemealSpec(r.wire, RewriteSpare(cfg, spare));
      match t.res
      case Err(e) => Step(Err(e), t.wire)
      case Ok(_) => Step(Ok(()), t.wire)
  }

  method SendSpare(h: UsbHandle, cfg: Config, spare: seq<byte>) returns (r: Result<()>)
    requires |spare| >= 3
    modifies h
    ensures Step(r, h.State()) == SendSpareSpec(old(h.State()), cfg, spare)
  {
    var ready :- WaitReady(h);
    var data := spare[..3] + seq(cfg.spareSize - 3, _ => 0xFF);
    var sent := SendPiecemealData(h, data);
    match sent
    case Ok(_) => return Ok(());
    case Err(e) => return Err(e);
  }

  /** `send_spare` waits for ready and then sends exactly one frame: the
      piecemeal encoding of `spareSize` bytes, the first three of the
      spare and 0xFF after them. */
  lemma SendSpareTraffic(w: Wire, cfg: Config, spare: seq<byte>)
    requires |spare| >= 3
    ensures var r := WaitReadySpec(w);
            var s := SendSpareSpec(w, cfg, spare);
            OnlyReceives(w, r.wire) &&
            (r.res.Err? ==> s == Step(Err(r.res.error), r.wire)) &&
            (r.res.Ok? ==> s.wire.log == r.wire.log + [Out(EncodePiecemeal(RewriteSpare(cfg, spare)))]) &&
            Ungroup(PIECEMEAL_CHUNK_SEND, EncodePiecemeal(RewriteSpare(cfg, spare))) == Some(RewriteSpare(cfg, spare))
  {
    WaitReadyReceives(w);
    UngroupGroups(PIECEMEAL_CHUNK_SEND, RewriteSpare(cfg, spare));
  }

  /** What follows the request in one iteration of `write_block_spare`'s
      loop: the block, the spare and the device's check, stopping at the
      first failure. */
  function WriteTransferSpec(w: Wire, cfg: Config, block: seq<byte>, spare: seq<byte>): Step<()>
    requires |spare| >= 3
  {
    var b := SendChunkedSpec(w, block);
    if b.res.Err? then b
    else
      var sp := SendSpareSpec(b.wire, cfg, spare);
      if sp.res.Err? then sp
      else CheckBlockWriteSpec(sp.wire)
  }

  /** One iteration of `write_block_spare`'s loop: the request, then the
      transfer. */
  function WriteAttemptSpec(w: Wire, cfg: Config, block: seq<byte>, spare: seq<byte>, blockNum: u32): Step<()>
    requires |spare| >= 3
  {
    var q := RequestBlockWriteSpec(w, Op.WriteBlockAndSpare, blockNum);
    if q.res.Err? then q
    else WriteTransferSpec(q.wire, cfg, block, spare)
  }

  /** `write_block_spare` has no step before the retried part. */
  function Proceed(w: Wire): Step<()>
  {
    Step(Ok(()), w)
  }

  /** The retried part of `write_block_spare`. */
  function WriteAttempt(cfg: Config, block: seq<byte>, spare: seq<byte>, blockNum: u32): Wire -> Step<()>
    requires |spare| >= 3
  {
    w => WriteAttemptSpec(w, cfg, block, spare, blockNum)
  }

  /** The last `attempts` iterations of `write_block_spare`'s loop: any
      failed stage uses up the iteration, a panic unwinds through all. */
  function WriteRetriesSpec(w: Wire, cfg: Config, block: seq<byte>, spare: seq<byte>, blockNum: u32, attempts: nat): Step<()>
    requires |spare| >= 3
  {
    Retry(Proceed, WriteAttempt(cfg, block, spare, blockNum), WriteBlock(blockNum), w, attempts)
  }

  /** One iteration of `write_block_spare`'s loop: a retryable failure of
      the request or of the transfer goes on to the next iteration, and
      anything else ends the loop. */
  lemma WriteRetriesStep(w: Wire, cfg: Config, block: seq<byte>, spare: seq<byte>, blockNum: u32, attempts: nat, next: nat)
    requires |spare| >= 3 && attempts > 0 && next == attempts - 1
    ensures var a := WriteAttemptSpec(w, cfg, block, spare, blockNum);
            WriteRetriesSpec(w, cfg, block, spare, blockNum, attempts) ==
              if a.res.Err? && Retryable(a.res.error) then WriteRetriesSpec(a.wire, cfg, block, spare, blockNum, next)
              else a
  {
    RetryStep(Proceed, WriteAttempt(cfg, block, spare, blockNum), WriteBlock(blockNum), w, attempts, next);
    assert Proceed(w) == Step(Ok(()), w);
    assert WriteAttempt(cfg, block, spare, blockNum)(w) == WriteAttemptSpec(w, cfg, block, spare, blockNum);
  }

  /** `write_block_spare`: a bad block (spare byte 5 not 0xFF) is skipped
      without any traffic; a spare too short to have a byte 5 panics. */
  function WriteBlockSpareSpec(w: Wire, cfg: Config, block: seq<byte>, spare: seq<byte>, blockNum: u32): (s: Step<()>)
    ensures |spare| >= 6 && spare[5] != 0xFF ==> s == Step(Ok(()), w)
    ensures |spare| < 6 ==> s == Step(Err(Panic(IndexOutOfRange)), w)
  {
    if |spare| < 6 then Step(Err(Panic(IndexOutOfRange)), w)
    else if spare[5] != 0xFF then Step(Ok(()), w)
    else WriteRetriesSpec(w, cfg, block, spare, blockNum, ATTEMPTS)
  }

  /** The last three `try_continue!` stages of one `write_block_spare`
      iteration: the block, the spare, the device's check, stopping at the
      first failure. */
  method WriteTransfer(h: UsbHandle, cfg: Config, block: seq<byte>, spare: seq<byte>) returns (r: Result<()>)
    requires |spare| >= 3
    modifies h
    ensures Step(r, h.State()) == WriteTransferSpec(old(h.State()), cfg, block, spare)
  {
    r := SendBlock(h, block);
    if r.Err? {
      return;
    }
    r := SendSpare(h, cfg, spare);
    if r.Err? {
      return;
    }
    r := CheckBlockWrite(h);
  }

  method WriteBlockSpare(h: UsbHandle, cfg: Config, block: seq<byte>, spare: seq<byte>, blockNum: u32) returns (r: Result<()>)
    modifies h
    ensures Step(r, h.State()) == WriteBlockSpareSpec(old(h.State()), cfg, block, spare, blockNum)
  {
    if |spare| < 6 {
      return Err(Panic(IndexOutOfRange));
    }
    if spare[5] != 0xFF {
      return Ok(());
    }
    var left: nat := ATTEMPTS;
    while left > 0
      invariant WriteRetriesSpec(h.State(), cfg, block, spare, blockNum, left) ==
                WriteBlockSpareSpec(old(h.State()), cfg, block, spare, blockNum)
    {
      var next := left - 1;
      WriteRetriesStep(h.State(), cfg, block, spare, blockNum, left, next);
      r := RequestBlockWrite(h, Op.WriteBlockAndSpare, blockNum);
      if r.Ok? {
        r := WriteTransfer(h, cfg, block, spare);
      }
      if r.Ok? || !Retryable(r.error) {
        return;
      }
      left := next;
    }
    return Err(WriteBlock(blockNum));
  }

  // ---------------------------------------------------------------------
  // Simple commands

  /** `init_fs`: a negative code is `InitFS(ret)`. */
  function InitFSSpec(w: Wire): (s: Step<()>)
  {
    var c := CommandCodeSpec(w, Op.Opcode(Op.InitFS), 0);
    match c.res
    case Err(e) => Step(Err(e), c.wire)
    case Ok(ret) => if ret < 0 then Step(Err(InitFS(ret)), c.wire) else Step(Ok(()), c.wire)
  }

  method InitFs(h: UsbHandle) returns (r: Result<()>)
    modifies h
    ensures Step(r, h.State()) == InitFSSpec(old(h.State()))
  {
    var sent :- SendCommand(h, Op.Opcode(Op.InitFS), 0);
    var ret :- ReceiveCode(h);
    if ret < 0 {
      return Err(InitFS(ret));
    }
    return Ok(());
  }

  /** `init_fs` against its return code: a negative code is `InitFS(ret)`
      and any other code is `Ok`. */
  lemma InitFSCodes(w: Wire)
    ensures var s := InitFSSpec(w);
            var c := CommandCodeSpec(w, Op.Opcode(Op.InitFS), 0);
            s.wire == c.wire &&
            (c.res.Err? ==> s.res == Err(c.res.error)) &&
            (c.res.Ok? && c.res.value < 0 ==> s.res == Err(InitFS(c.res.value))) &&
            (s.res.Ok? <==> c.res.Ok? && c.res.value >= 0)
  {
  }

  /** `get_num_blocks`: bytes 4..8 of the reply as a big-endian `u32`. */
  function GetNumBlocksSpec(w: Wire): (s: Step<u32>)
  {
    var sc := SendCommandSpec(w, Op.Opcode(Op.GetNumBlocks), 0);
    match sc.res
    case Err(e) => Step(Err(e), sc.wire)
    case Ok(_) =>
      var rr := ReceiveReplySpec(sc.wire, 8);
      match rr.res
      case Err(e) => Step(Err(e), rr.wire)
      case Ok(reply) => Step(ReplyWord(reply), rr.wire)
  }

  method GetNumBlocksCmd(h: UsbHandle) returns (r: Result<u32>)
    modifies h
    ensures Step(r, h.State()) == GetNumBlocksSpec(old(h.State()))
  {
    var sent :- SendCommand(h, Op.Opcode(Op.GetNumBlocks), 0);
    var reply :- ReceiveReply(h, 8);
    r := ReplyWord(reply);
  }

  /** Failures of `get_num_blocks`: the link, or a reply too short for a
      return code. */
  lemma GetNumBlocksErrors(w: Wire)
    ensures var s := GetNumBlocksSpec(w);
            s.res.Err? ==> LinkError(s.res.error) || s.res.error == Panic(IndexOutOfRange)
  {
    var sc := SendCommandSpec(w, Op.Opcode(Op.GetNumBlocks), 0);
    if sc.res.Ok? {
      var rr := ReceiveReplySpec(sc.wire, 8);
    }
  }

  /** A command whose reply is read and discarded (`set_seqno`, `set_led`). */
  function CommandIgnoringReplySpec(w: Wire, command: Op.Command, arg: u32): Step<()>
  {
    var sc := SendCommandSpec(w, Op.Opcode(command), arg);
    match sc.res
    case Err(e) => Step(Err(e), sc.wire)
    case Ok(_) =>
      var rr := ReceiveReplySpec(sc.wire, 8);
      match rr.res
      case Err(e) => Step(Err(e), rr.wire)
      case Ok(_) => Step(Ok(()), rr.wire)
  }

  /** `set_seqno` and `set_led`: whatever the reply says, only link and
      framing errors are reported. */
  lemma IgnoredReplyErrors(w: Wire, command: Op.Command, arg: u32)
    ensures var s := CommandIgnoringReplySpec(w, command, arg);
            (s.res.Err? ==> LinkError(s.res.error)) &&
            (s.res.Ok? <==> SendCommandSpec(w, Op.Opcode(command), arg).res.Ok? &&
                            ReceiveReplySpec(SendCommandSpec(w, Op.Opcode(command), arg).wire, 8).res.Ok?)
  {
  }

  method SetSeqNo(h: UsbHandle, arg: u32) returns (r: Result<()>)
    modifies h
    ensures Step(r, h.State()) == CommandIgnoringReplySpec(old(h.State()), Op.SetSeqNo, arg)
  {
    var sent :- SendCommand(h, Op.Opcode(Op.SetSeqNo), arg);
    var reply :- ReceiveReply(h, 8);
    return Ok(());
  }

  method SetLed(h: UsbHandle, ledval: u32) returns (r: Result<()>)
    modifies h
    ensures Step(r, h.State()) == CommandIgnoringReplySpec(old(h.State()), Op.SetLED, ledval)
  {
    var sent :- SendCommand(h, Op.Opcode(Op.SetLED), ledval);
    var reply :- ReceiveReply(h, 8);
    return Ok(());
  }

  /** `set_time`: the first four bytes travel as the argument, the last four
      piecemeal once the device has accepted the command. */
  function SetTimeSpec(w: Wire, timedata: seq<byte>): Step<()>
    requires |timedata| == 8
  {
    var c := CommandCodeSpec(w, Op.Opcode(Op.SetTime), NumFromArrU32(timedata[..4]));
    match c.res
    case Err(e) => Step(Err(e), c.wire)
    case Ok(ret) =>
      if ret < 0 then Step(Err(SetTime(ret)), c.wire)
      else
        var t := SendPiecemealSpec(c.wire, timedata[4..]);
        match t.res
        case Err(e) => Step(Err(e), t.wire)
        case Ok(_) => Step(Ok(()), t.wire)
  }

  /** The command frame of `set_time` carries the first half of the time data
      unchanged; the second half is sent after the code exactly when the
      code is non-negative, and a negative code is `SetTime(ret)`. */
  lemma SetTimeTraffic(w: Wire, timedata: seq<byte>)
    requires |timedata| == 8
    ensures CommandMessage(Op.Opcode(Op.SetTime), NumFromArrU32(timedata[..4])) == [0, 0, 0, 0x1E] + timedata[..4]
    ensures var c := CommandCodeSpec(w, Op.Opcode(Op.SetTime), NumFromArrU32(timedata[..4]));
            var s := SetTimeSpec(w, timedata);
            (c.res.Ok? && c.res.value < 0 ==> s == Step(Err(SetTime(c.res.value)), c.wire)) &&
            (c.res.Ok? && c.res.value >= 0 ==> s.wire.log == c.wire.log + [Out(EncodePiecemeal(timedata[4..]))]) &&
            (s.res.Ok? ==> c.res.Ok? && c.res.value >= 0)
  {
  }

  method SetTimeCmd(h: UsbHandle, timedata: seq<byte>) returns (r: Result<()>)
    requires |timedata| == 8
    modifies h
    ensures Step(r, h.State()) == SetTimeSpec(old(h.State()), timedata)
  {
    var firstHalf := NumFromArrU32(timedata[..4]);
    var secondHalf := timedata[4..];
    var sent :- SendCommand(h, Op.Opcode(Op.SetTime), firstHalf);
    var ret :- ReceiveCode(h);
    if ret < 0 {
      return Err(SetTime(ret));
    }
    var t :- SendPiecemealData(h, secondHalf);
    return Ok(());
  }

  /** `get_bbid`: a negative code is `GetBBID(ret)`; otherwise the code read
      as unsigned, so below 2^31. */
  function GetBBIDSpec(w: Wire): (s: Step<u32>)
    ensures s.res.Ok? ==> s.res.value < 0x8000_0000
  {
    var sc := SendCommandSpec(w, Op.Opcode(Op.GetBBID), 0);
    match sc.res
    case Err(e) => Step(Err(e), sc.wire)
    case Ok(_) =>
      var rr := ReceiveReplySpec(sc.wire, 8);
      match rr.res
      case Err(e) => Step(Err(e), rr.wire)
      case Ok(reply) =>
        if |reply| < 8 then Step(Err(Panic(IndexOutOfRange)), rr.wire)
        else
          var ret := CommandRet(reply);
          if ret < 0 then Step(Err(GetBBID(ret)), rr.wire)
          else Step(Ok(NumFromArrU32(reply[4..8])), rr.wire)
  }

  /** The identifier is the return code itself. */
  lemma GetBBIDIsCode(w: Wire)
    ensures var s := GetBBIDSpec(w);
            var c := CommandCodeSpec(w, Op.Opcode(Op.GetBBID), 0);
            (s.res.Ok? <==> c.res.Ok? && c.res.value >= 0) &&
            (s.res.Ok? ==> s.res.value == c.res.value) &&
            (c.res.Ok? && c.res.value < 0 ==> s.res == Err(GetBBID(c.res.value)))
  {
  }

  method GetBbid(h: UsbHandle) returns (r: Result<u32>)
    modifies h
    ensures Step(r, h.State()) == GetBBIDSpec(old(h.State()))
  {
    var sent :- SendCommand(h, Op.Opcode(Op.GetBBID), 0);
    var reply :- ReceiveReply(h, 8);
    var ret :- ReplyCode(reply);
    if ret < 0 {
      return Err(GetBBID(ret));
    }
    return Ok(NumFromArrU32(reply[4..8]));
  }

  // ---------------------------------------------------------------------
  // File checksum

  /** The argument of the `FileChksum` command: the length of the name with
      its NUL, truncated to `u32` by `as u32`. */
  function FileNameArg(filename: seq<byte>): u32
  {
    (|filename| + 1) % 0x1_0000_0000
  }

  /** `send_filename`: the name checks, then the command, a ready wait and
      the padded name. */
  function SendFilenameSpec(w: Wire, filename: seq<byte>): Step<()>
  {
    match FileNameError(filename)
    case Some(e) => Step(Err(e), w)
    case None =>
      var sc := SendCommandSpec(w, Op.Opcode(Op.FileChksum), FileNameArg(filename));
      if sc.res.Err? then sc
      else
        var wr := WaitReadySpec(sc.wire);
        if wr.res.Err? then wr
        else
          var t := SendPiecemealSpec(wr.wire, FileNamePayload(filename));
          match t.res
          case Err(e) => Step(Err(e), t.wire)
          case Ok(_) => Step(Ok(()), t.wire)
  }

  /** A refused filename fails before any transfer. An accepted one is sent
      as the `FileChksum` command with the NUL-inclusive length, and the
      last transfer is the padded name, after receives only. */
  lemma SendFilenameTraffic(w: Wire, filename: seq<byte>)
    ensures var s := SendFilenameSpec(w, filename);
            var sc := SendCommandSpec(w, Op.Opcode(Op.FileChksum), FileNameArg(filename));
            (FileNameError(filename).Some? ==> s == Step(Err(FileNameError(filename).value), w)) &&
            (s.res.Ok? ==>
               (FileNameError(filename).None? && sc.res.Ok? &&
                sc.wire.log[|sc.wire.log| - 1] == Out(CommandFrame(Op.Opcode(Op.FileChksum), FileNameArg(filename))) &&
                s.wire.log == WaitReadySpec(sc.wire).wire.log + [Out(EncodePiecemeal(FileNamePayload(filename)))] &&
                OnlyReceives(sc.wire, WaitReadySpec(sc.wire).wire)))
  {
    var sc := SendCommandSpec(w, Op.Opcode(Op.FileChksum), FileNameArg(filename));
    SendCommandLog(w, Op.Opcode(Op.FileChksum), FileNameArg(filename));
    WaitReadyReceives(sc.wire);
  }

  method SendFilename(h: UsbHandle, filename: seq<byte>) returns (r: Result<()>)
    modifies h
    ensures Step(r, h.State()) == SendFilenameSpec(old(h.State()), filename)
  {
    var (name, ext) := NameAndExt(filename);
    if |name| > 8 || |ext| > 3 {
      return Err(FileNameTooLong(filename));
    }
    if NUL in filename {
      return Err(FileNameCString(filename));
    }
    var withNul := filename + [NUL];
    var sent :- SendCommand(h, Op.Opcode(Op.FileChksum), |withNul| % 0x1_0000_0000);
    var ready :- WaitReady(h);
    var t :- SendPiecemealData(h, withNul + seq(Padding(|withNul|), _ => NUL));
    return Ok(());
  }

  /** `send_params_and_receive_reply`: the checksum goes in the opcode slot,
      the size in the argument; the answer is whether the code is 0. */
  function SendParamsSpec(w: Wire, chksum: u32, size: u32): (s: Step<bool>)
    ensures var c := CommandCodeSpec(w, chksum, size);
            s.wire == c.wire && (s.res.Ok? <==> c.res.Ok?) &&
            (s.res == Ok(true) <==> c.res == Ok(0)) && (c.res.Err? ==> s.res == Err(c.res.error))
  {
    var sc := SendCommandSpec(w, chksum, size);
    match sc.res
    case Err(e) => Step(Err(e), sc.wire)
    case Ok(_) =>
      var rr := ReceiveReplySpec(sc.wire, 8);
      match rr.res
      case Err(e) => Step(Err(e), rr.wire)
      case Ok(reply) =>
        if |reply| < 8 then Step(Err(Panic(IndexOutOfRange)), rr.wire)
        else Step(Ok(NumFromArrI32(reply[4..8]) == 0), rr.wire)
  }

  method SendParamsAndReceiveReply(h: UsbHandle, chksum: u32, size: u32) returns (r: Result<bool>)
    modifies h
    ensures Step(r, h.State()) == SendParamsSpec(old(h.State()), chksum, size)
  {
    var sent :- SendCommand(h, chksum, size);
    var reply :- ReceiveReply(h, 8);
    if |reply| < 8 {
      return Err(Panic(IndexOutOfRange));
    }
    return Ok(NumFromArrI32(reply[4..8]) == 0);
  }

  /** `file_checksum_cmp`. */
  function FileChecksumCmpSpec(w: Wire, filename: seq<byte>, chksum: u32, size: u32): Step<bool>
  {
    var f := SendFilenameSpec(w, filename);
    match f.res
    case Err(e) => Step(Err(e), f.wire)
    case Ok(_) => SendParamsSpec(f.wire, chksum, size)
  }

  method FileChecksumCmp(h: UsbHandle, filename: seq<byte>, chksum: u32, size: u32) returns (r: Result<bool>)
    modifies h
    ensures Step(r, h.State()) == FileChecksumCmpSpec(old(h.State()), filename, chksum, size)
  {
    var sent :- SendFilename(h, filename);
    r := SendParamsAndReceiveReply(h, chksum, size);
  }

  // ---------------------------------------------------------------------
  // Whole-device dump

  /** Reading one block over the link. */
  type BlockReader = (Wire, u32) -> Step<BlockSpare>

  /** `read_block_spare` as a reader. */
  function BlockRead(cfg: Config): BlockReader
  {
    (w: Wire, blockNum: u32) => ReadBlockSpareSpec(w, cfg, blockNum)
  }

  /** The reads of blocks `next`..`num`-1 in order, as a list, stopping at
      the first failed read. */
  function ReadAll(read: BlockReader, w: Wire, next: nat, num: u32): (s: Step<seq<BlockSpare>>)
    requires next <= num
    ensures s.res.Ok? ==> |s.res.value| == num - next
    decreases num - next
  {
    if next == num then Step(Ok([]), w)
    else
      var r := read(w, next);
      match r.res
      case Err(e) => Step(Err(e), r.wire)
      case Ok(bs) =>
        var rest := ReadAll(read, r.wire, next + 1, num);
        match rest.res
        case Err(e) => Step(Err(e), rest.wire)
        case Ok(l) => Step(Ok([bs] + l), rest.wire)
  }

  function Blocks(l: seq<BlockSpare>): seq<byte>
  {
    if |l| == 0 then [] else l[0].0 + Blocks(l[1..])
  }

  function Spares(l: seq<BlockSpare>): seq<byte>
  {
    if |l| == 0 then [] else l[0].1 + Spares(l[1..])
  }

  /** The remaining iterations of the dump loop, from block `next`, with
      `nand` and `spare` collected so far. */
  function DumpBlocks(read: BlockReader, w: Wire, next: nat, num: u32, nand: seq<byte>, spare: seq<byte>): Step<BlockSpare>
    requires next <= num
    decreases num - next
  {
    if next == num then Step(Ok((nand, spare)), w)
    else
      var r := read(w, next);
      match r.res
      case Err(e) => Step(Err(e), r.wire)
      case Ok(bs) => DumpBlocks(read, r.wire, next + 1, num, nand + bs.0, spare + bs.1)
  }

  /** `dump_nand_and_spare`. */
  function DumpNandAndSpareSpec(w: Wire, cfg: Config): Step<BlockSpare>
  {
    var g := GetNumBlocksSpec(w);
    match g.res
    case Err(e) => Step(Err(e), g.wire)
    case Ok(num) => DumpBlocks(BlockRead(cfg), g.wire, 0, num, [], [])
  }

  /** The dump is the per-block reads in block order: on success its two
      outputs are the in-order concatenations of the blocks and spares read,
      and it fails, with the same error and link state, exactly when one of
      those reads fails. */
  lemma {:induction false} DumpIsReadsInOrder(read: BlockReader, w: Wire, next: nat, num: u32, nand: seq<byte>, spare: seq<byte>)
    requires next <= num
    ensures var d := DumpBlocks(read, w, next, num, nand, spare);
            var a := ReadAll(read, w, next, num);
            d.wire == a.wire &&
            (d.res.Ok? <==> a.res.Ok?) &&
            (a.res.Ok? ==> d.res.value == (nand + Blocks(a.res.value), spare + Spares(a.res.value))) &&
            (a.res.Err? ==> d.res == Err(a.res.error))
    decreases num - next
  {
    if next == num {
      assert nand + Blocks([]) == nand && spare + Spares([]) == spare;
    } else {
      var r := read(w, next);
      if r.res.Ok? {
        var bs := r.res.value;
        DumpIsReadsInOrder(read, r.wire, next + 1, num, nand + bs.0, spare + bs.1);
        var rest := ReadAll(read, r.wire, next + 1, num);
        if rest.res.Ok? {
          var l := [bs] + rest.res.value;
          assert l[1..] == rest.res.value;
          assert nand + bs.0 + Blocks(rest.res.value) == nand + Blocks(l);
          assert spare + bs.1 + Spares(rest.res.value) == spare + Spares(l);
        }
      }
    }
  }

  /** Every successful read gives at most `maxBlock` block bytes and
      1..`maxSpare` spare bytes. */
  ghost predicate ReaderBounded(read: BlockReader, maxBlock: nat, maxSpare: nat)
  {
    forall w: Wire, n: u32 :: read(w, n).res.Ok? ==>
      |read(w, n).res.value.0| <= maxBlock && 1 <= |read(w, n).res.value.1| <= maxSpare
  }

  /** A whole-device dump holds one block and one spare per block. */
  lemma DumpSizes(w: Wire, cfg: Config)
    ensures var g := GetNumBlocksSpec(w);
            var d := DumpNandAndSpareSpec(w, cfg);
            d.res.Ok? ==> (g.res.Ok? &&
                           |d.res.value.0| <= g.res.value * cfg.blockSize &&
                           g.res.value <= |d.res.value.1| <= g.res.value * cfg.spareSize)
  {
    var g := GetNumBlocksSpec(w);
    if g.res.Ok? {
      var read := BlockRead(cfg);
      assert ReaderBounded(read, cfg.blockSize, cfg.spareSize) by {
        forall w': Wire, n: u32 ensures read(w', n).res.Ok? ==>
          |read(w', n).res.value.0| <= cfg.blockSize && 1 <= |read(w', n).res.value.1| <= cfg.spareSize
        {
          assert read(w', n) == ReadRetriesSpec(w', cfg, n, ATTEMPTS);
        }
      }
      DumpIsReadsInOrder(read, g.wire, 0, g.res.value, [], []);
      var a := ReadAll(read, g.wire, 0, g.res.value);
      if a.res.Ok? {
        ReadAllSizes(read, cfg.blockSize, cfg.spareSize, g.wire, 0, g.res.value);
        assert [] + Blocks(a.res.value) == Blocks(a.res.value);
        assert [] + Spares(a.res.value) == Spares(a.res.value);
      }
    }
  }

  lemma {:induction false} ReadAllSizes(read: BlockReader, maxBlock: nat, maxSpare: nat, w: Wire, next: nat, num: u32)
    requires next <= num && ReaderBounded(read, maxBlock, maxSpare)
    ensures var a := ReadAll(read, w, next, num);
            a.res.Ok? ==> (|Blocks(a.res.value)| <= (num - next) * maxBlock &&
                           num - next <= |Spares(a.res.value)| <= (num - next) * maxSpare)
    decreases num - next
  {
    if next < num {
      var r := read(w, next);
      if r.res.Ok? {
        ReadAllSizes(read, maxBlock, maxSpare, r.wire, next + 1, num);
        var rest := ReadAll(read, r.wire, next + 1, num);
        if rest.res.Ok? {
          var l := [r.res.value] + rest.res.value;
          assert l[1..] == rest.res.value;
          assert |Blocks(l)| == |r.res.value.0| + |Blocks(rest.res.value)|;
          assert |Spares(l)| == |r.res.value.1| + |Spares(rest.res.value)|;
          MulSucc(num - next, maxBlock);
          MulSucc(num - next, maxSpare);
        }
      }
    }
  }

  method DumpNandAndSpare(h: UsbHandle, cfg: Config) returns (r: Result<BlockSpare>)
    modifies h
    ensures Step(r, h.State()) == DumpNandAndSpareSpec(old(h.State()), cfg)
  {
    var numBlocks :- GetNumBlocksCmd(h);
    ghost var start := h.State();
    var nand: seq<byte> := [];
    var spare: seq<byte> := [];
    var blockNum: u32 := 0;
    while blockNum < numBlocks
      invariant blockNum <= numBlocks
      invariant DumpBlocks(BlockRead(cfg), h.State(), blockNum, numBlocks, nand, spare) ==
                DumpBlocks(BlockRead(cfg), start, 0, numBlocks, [], [])
    {
      var dumped :- ReadBlockSpare(h, cfg, blockNum);
      nand := nand + dumped.0;
      spare := spare + dumped.1;
      blockNum := blockNum + 1;
    }
    return Ok((nand, spare));
  }

  /** `read_single_block`. */
  method ReadSingleBlock(h: UsbHandle, cfg: Config, blockNum: u32) returns (r: Result<BlockSpare>)
    modifies h
    ensures Step(r, h.State()) == ReadBlockSpareSpec(old(h.State()), cfg, blockNum)
  {
    r := ReadBlockSpare(h, cfg, blockNum);
  }

  /** `write_single_block`. */
  method WriteSingleBlock(h: UsbHandle, cfg: Config, block: seq<byte>, spare: seq<byte>, blockNum: u32) returns (r: Result<()>)
    modifies h
    ensures Step(r, h.State()) == WriteBlockSpareSpec(old(h.State()), cfg, block, spare, blockNum)
  {
    r := WriteBlockSpare(h, cfg, block, spare, blockNum);
  }
}
