/** The public face of the crate (lib.rs): a `BBPlayer` owns one opened USB
    handle and an `is_initialised` flag. `Init` runs the start-up sequence
    and sets the flag; every other public operation answers `NoConsole`
    without touching the link until it is set; `Close` clears it again.
    The filesystem table (the `fs` module) is not part of this model: each
    of its calls is logged as a `Delegate` entry and its answer, and its
    effect on the three `current_fs` fields, are parameters. */
module Session {
  import opened Bytes
  import opened Errors
  import Op = Opcodes
  import opened Transport
  import opened PlayerComms
  import opened Commands

  // ---------------------------------------------------------------------
  // The SetTime layout

  datatype Weekday = Mon | Tue | Wed | Thu | Fri | Sat | Sun

  /** chrono's `Weekday as u8`: Monday is 0. */
  function WeekdayNumber(d: Weekday): (n: byte)
    ensures n < 7
    ensures n == 0 <==> d == Mon
    ensures n == 6 <==> d == Sun
  {
    match d
    case Mon => 0 case Tue => 1 case Wed => 2 case Thu => 3
    case Fri => 4 case Sat => 5 case Sun => 6
  }

  /** The calendar fields `SetTime` reads from a chrono date-time. */
  datatype DateTime = DateTime(year: i32, month: nat, day: nat, weekday: Weekday,
                               hour: nat, minute: nat, second: nat)

  /** The ranges chrono guarantees for its fields. */
  predicate InRange(when: DateTime)
  {
    1 <= when.month <= 12 && 1 <= when.day <= 31 &&
    when.hour < 24 && when.minute < 60 && when.second < 61
  }

  /** Rust's `year % 100` on an `i32`: the remainder takes the sign of the
      year. */
  function YearRem(year: int): (r: int)
    ensures -100 < r < 100 && (year - r) % 100 == 0
    ensures year >= 0 ==> 0 <= r
    ensures year < 0 ==> r <= 0
  {
    if year >= 0 then year % 100 else -((-year) % 100)
  }

  /** Rust's `as u8`: keep the low eight bits of the two's-complement value. */
  function AsU8(x: int): (b: byte)
    ensures (x - b) % 0x100 == 0
    ensures 0 <= x < 0x100 ==> b == x
  {
    x % 0x100
  }

  /** The eight bytes `SetTime` hands to `set_time`: two-digit year, month,
      day, weekday, a zero, hour, minute, second. */
  function TimeData(when: DateTime): (r: seq<byte>)
    ensures |r| == 8 && r[4] == 0 && r[3] == WeekdayNumber(when.weekday)
  {
    [AsU8(YearRem(when.year)), AsU8(when.month), AsU8(when.day), WeekdayNumber(when.weekday),
     0, AsU8(when.hour), AsU8(when.minute), AsU8(when.second)]
  }

  /** For a date-time in chrono's ranges no field is truncated, and a year
      from 0 on is sent as its last two decimal digits. */
  lemma TimeDataLayout(when: DateTime)
    requires InRange(when) && when.year >= 0
    ensures TimeData(when) == [when.year % 100, when.month, when.day, WeekdayNumber(when.weekday),
                               0, when.hour, when.minute, when.second]
  {
  }

  /** A year before 0 has a non-positive remainder, which `as u8` wraps: the
      byte is 0 or 256 minus the last two digits of its magnitude, so at
      least 157. */
  lemma NegativeYearWraps(when: DateTime)
    requires when.year < 0
    ensures var r := (-(when.year as int)) % 100;
            TimeData(when)[0] == if r == 0 then 0 else 0x100 - r
    ensures TimeData(when)[0] == 0 || TimeData(when)[0] >= 157
  {
  }

  /** The argument of the `SetTime` command packs year, month, day and
      weekday, most significant first. */
  lemma SetTimeArgument(when: DateTime)
    ensures var t := TimeData(when);
            NumFromArrU32(t[..4]) == t[0] * 0x100_0000 + t[1] * 0x1_0000 + t[2] * 0x100 + WeekdayNumber(when.weekday)
  {
    var t := TimeData(when);
    BeDigits(t[0], t[1], t[2], t[3]);
  }

  // ---------------------------------------------------------------------
  // The Init sequence

  /** "temp.tmp" in ASCII: the scratch file `Init` removes. */
  const TEMP_TMP: seq<byte> := [0x74, 0x65, 0x6D, 0x70, 0x2E, 0x74, 0x6D, 0x70]

  /** `set_seqno(1)`, the first command of `Init`. */
  function SetSeqNoOne(w: Wire): Step<()>
  {
    CommandIgnoringReplySpec(w, Op.SetSeqNo, 1)
  }

  /** The `Init` sequence over given command stages: `seqNo`, `numBlocks`,
      the filesystem table's `get_current_fs` (answering `currentFs`;
      `false` is `FS`), `initFs`, then `delete_file_and_update("temp.tmp")`
      (answering `deleted`), stopping at the first failure. */
  function InitSteps(seqNo: Wire -> Step<()>, numBlocks: Wire -> Step<u32>, initFs: Wire -> Step<()>,
                     w: Wire, currentFs: Result<bool>, deleted: Result<()>): Step<()>
  {
    var a := seqNo(w);
    if a.res.Err? then a
    else
      var b := numBlocks(a.wire);
      if b.res.Err? then Step(Err(b.res.error), b.wire)
      else
        var c := Delegated(b.wire, CurrentFs, currentFs);
        if c.res.Err? then Step(Err(c.res.error), c.wire)
        else if !c.res.value then Step(Err(FS), c.wire)
        else
          var d := initFs(c.wire);
          if d.res.Err? then d
          else Delegated(d.wire, FsCall.DeleteFile(TEMP_TMP), deleted)
  }

  /** How many filesystem-table calls the sequence makes: none when one of
      the first two commands fails, two when `initFs` is reached and
      succeeds, one otherwise. */
  function InitStepsFsCalls(seqNo: Wire -> Step<()>, numBlocks: Wire -> Step<u32>, initFs: Wire -> Step<()>,
                            w: Wire, currentFs: Result<bool>): (n: nat)
    ensures n <= 2
  {
    var a := seqNo(w);
    if a.res.Err? then 0
    else
      var b := numBlocks(a.wire);
      if b.res.Err? then 0
      else
        var c := Delegated(b.wire, CurrentFs, currentFs);
        if c.res.Err? || !c.res.value then 1
        else if initFs(c.wire).res.Err? then 1
        else 2
  }

  /** The sequence succeeds exactly when every stage does, the check
      answering true; the answer false after the first two commands is
      `FS`; when the filesystem table is called twice, the deletion is the
      last step and its answer the result; without a call to the table the
      result is the error of one of the first two commands. */
  lemma InitStepsSequence(seqNo: Wire -> Step<()>, numBlocks: Wire -> Step<u32>, initFs: Wire -> Step<()>,
                          w: Wire, currentFs: Result<bool>, deleted: Result<()>)
    ensures var a := seqNo(w);
            var b := numBlocks(a.wire);
            var c := b.wire.(log := b.wire.log + [Delegate(CurrentFs)]);
            var s := InitSteps(seqNo, numBlocks, initFs, w, currentFs, deleted);
            s.res.Ok? <==> a.res.Ok? && b.res.Ok? && currentFs == Ok(true) && initFs(c).res.Ok? && deleted.Ok?
    ensures var a := seqNo(w);
            var b := numBlocks(a.wire);
            var c := b.wire.(log := b.wire.log + [Delegate(CurrentFs)]);
            a.res.Ok? && b.res.Ok? && currentFs == Ok(false) ==> InitSteps(seqNo, numBlocks, initFs, w, currentFs, deleted) == Step(Err(FS), c)
    ensures var s := InitSteps(seqNo, numBlocks, initFs, w, currentFs, deleted);
            InitStepsFsCalls(seqNo, numBlocks, initFs, w, currentFs) == 2 ==>
              s.res == deleted && |s.wire.log| > 0 && s.wire.log[|s.wire.log| - 1] == Delegate(FsCall.DeleteFile(TEMP_TMP))
    ensures var a := seqNo(w);
            var b := numBlocks(a.wire);
            var s := InitSteps(seqNo, numBlocks, initFs, w, currentFs, deleted);
            InitStepsFsCalls(seqNo, numBlocks, initFs, w, currentFs) == 0 ==>
              s.res.Err? && (s.res == a.res || s.res.error == b.res.error)
  {
  }

  /** `Init` over the link. */
  function InitSpec(w: Wire, currentFs: Result<bool>, deleted: Result<()>): Step<()>
  {
    InitSteps(SetSeqNoOne, GetNumBlocksSpec, InitFSSpec, w, currentFs, deleted)
  }

  /** How many filesystem-table calls `Init` makes. */
  function InitFsCalls(w: Wire, currentFs: Result<bool>): (n: nat)
    ensures n <= 2
  {
    InitStepsFsCalls(SetSeqNoOne, GetNumBlocksSpec, InitFSSpec, w, currentFs)
  }

  /** `Init` stage by stage, with the number of filesystem-table calls at
      each exit. */
  lemma InitSpecSteps(w: Wire, currentFs: Result<bool>, deleted: Result<()>)
    ensures var a := SetSeqNoOne(w);
            var b := GetNumBlocksSpec(a.wire);
            var c := Delegated(b.wire, CurrentFs, currentFs);
            var d := InitFSSpec(c.wire);
            var s := InitSpec(w, currentFs, deleted);
            var n := InitFsCalls(w, currentFs);
            if a.res.Err? then s == a && n == 0
            else if b.res.Err? then s == Step(Err(b.res.error), b.wire) && n == 0
            else if c.res.Err? then s == Step(Err(c.res.error), c.wire) && n == 1
            else if !c.res.value then s == Step(Err(FS), c.wire) && n == 1
            else if d.res.Err? then s == d && n == 1
            else s == Delegated(d.wire, FsCall.DeleteFile(TEMP_TMP), deleted) && n == 2
  {
  }

  /** Without a call to the filesystem table, `Init` fails with an error of
      the link or a short reply. */
  lemma InitErrorsBeforeFs(w: Wire, currentFs: Result<bool>, deleted: Result<()>)
    ensures var s := InitSpec(w, currentFs, deleted);
            InitFsCalls(w, currentFs) == 0 ==>
              s.res.Err? && (LinkError(s.res.error) || s.res.error == Panic(IndexOutOfRange))
  {
    var a := SetSeqNoOne(w);
    IgnoredReplyErrors(w, Op.SetSeqNo, 1);
    InitStepsSequence(SetSeqNoOne, GetNumBlocksSpec, InitFSSpec, w, currentFs, deleted);
    if a.res.Ok? {
      GetNumBlocksErrors(a.wire);
    }
  }

  /** The three `current_fs` fields, which only the filesystem table sets. */
  datatype FsBlock = FsBlock(bytes: seq<byte>)
  datatype FsState = FsState(index: u32, block: Option<FsBlock>, spare: seq<byte>)

  /** The `current_fs` fields after `Init`, given what the filesystem table
      leaves in them after each of its calls. */
  function InitFsAfter(calls: nat, before: FsState, afterCurrent: FsState, afterDelete: FsState): (f: FsState)
    ensures calls == 0 ==> f == before
  {
    if calls == 0 then before else if calls == 1 then afterCurrent else afterDelete
  }

  /** The traffic of `Init`: the five steps, stopping at the first failure,
      and how many of them were calls to the filesystem table (each of
      which leaves the `current_fs` fields as the table sets them). */
  method InitLink(h: UsbHandle, currentFs: Result<bool>, deleted: Result<()>) returns (r: Result<()>, calls: nat)
    modifies h
    ensures Step(r, h.State()) == InitSpec(old(h.State()), currentFs, deleted)
    ensures calls == InitFsCalls(old(h.State()), currentFs) && calls <= 2
  {
    InitSpecSteps(h.State(), currentFs, deleted);
    calls := 0;
    r := SetSeqNo(h, 1);
    if r.Err? {
      return;
    }
    var blocks := GetNumBlocksCmd(h);
    if blocks.Err? {
      return Err(blocks.error), 0;
    }
    var current := h.CallFs(CurrentFs, currentFs);
    calls := 1;
    if current.Err? {
      return Err(current.error), 1;
    }
    if !current.value {
      return Err(FS), 1;
    }
    r := InitFs(h);
    if r.Err? {
      return;
    }
    r := h.CallFs(FsCall.DeleteFile(TEMP_TMP), deleted);
    calls := 2;
  }

  // ---------------------------------------------------------------------
  // The player

  class BBPlayer {
    const handle: UsbHandle
    /** The sizes of the `constants` module. */
    const cfg: Config
    var currentFsIndex: u32
    var currentFsBlock: Option<FsBlock>
    var currentFsSpare: seq<byte>
    var isInitialised: bool

    function Fs(): FsState
      reads this
    {
      FsState(currentFsIndex, currentFsBlock, currentFsSpare)
    }

    /** `new`, on a handle that has been opened: nothing is set up yet.
        Opening the device is not modelled. */
    constructor (handle: UsbHandle, cfg: Config)
      ensures this.handle == handle && this.cfg == cfg
      ensures !isInitialised
      ensures currentFsIndex == 0 && currentFsBlock == None && currentFsSpare == []
    {
      this.handle := handle;
      this.cfg := cfg;
      currentFsIndex := 0;
      currentFsBlock := None;
      currentFsSpare := [];
      isInitialised := false;
    }

    /** `Init`: the flag is set only when every step succeeds and is left
        as it was otherwise. */
    method Init(currentFs: Result<bool>, afterCurrent: FsState, deleted: Result<()>, afterDelete: FsState)
      returns (r: Result<()>)
      modifies this, handle
      ensures Step(r, handle.State()) == InitSpec(old(handle.State()), currentFs, deleted)
      ensures isInitialised == (r.Ok? || old(isInitialised))
      ensures Fs() == InitFsAfter(InitFsCalls(old(handle.State()), currentFs), old(Fs()), afterCurrent, afterDelete)
    {
      ghost var before := Fs();
      var calls;
      r, calls := InitLink(handle, currentFs, deleted);
      assert Fs() == before;
      if calls >= 1 {
        currentFsIndex, currentFsBlock, currentFsSpare := afterCurrent.index, afterCurrent.block, afterCurrent.spare;
      }
      if calls == 2 {
        currentFsIndex, currentFsBlock, currentFsSpare := afterDelete.index, afterDelete.block, afterDelete.spare;
      }
      assert Fs() == InitFsAfter(calls, before, afterCurrent, afterDelete);
      if r.Ok? {
        isInitialised := true;
      }
    }

    method GetBBID() returns (r: Result<u32>)
      modifies handle
      ensures !isInitialised ==> r == Err(NoConsole) && handle.State() == old(handle.State())
      ensures isInitialised ==> Step(r, handle.State()) == GetBBIDSpec(old(handle.State()))
    {
      if !isInitialised {
        return Err(NoConsole);
      }
      r := GetBbid(handle);
    }

    method SetLED(ledval: u32) returns (r: Result<()>)
      modifies handle
      ensures !isInitialised ==> r == Err(NoConsole) && handle.State() == old(handle.State())
      ensures isInitialised ==> Step(r, handle.State()) == CommandIgnoringReplySpec(old(handle.State()), Op.SetLED, ledval)
    {
      if !isInitialised {
        return Err(NoConsole);
      }
      r := SetLed(handle, ledval);
    }

    /** `SetTime`: the layout of `TimeData` goes to `set_time`. */
    method SetTime(when: DateTime) returns (r: Result<()>)
      modifies handle
      ensures !isInitialised ==> r == Err(NoConsole) && handle.State() == old(handle.State())
      ensures isInitialised ==> Step(r, handle.State()) == SetTimeSpec(old(handle.State()), TimeData(when))
    {
      if !isInitialised {
        return Err(NoConsole);
      }
      var timedata := TimeData(when);
      r := SetTimeCmd(handle, timedata);
    }

    method ListFileBlocks(filename: seq<byte>, answer: Result<Option<seq<u16>>>) returns (r: Result<Option<seq<u16>>>)
      modifies handle
      ensures !isInitialised ==> r == Err(NoConsole) && handle.State() == old(handle.State())
      ensures isInitialised ==> Step(r, handle.State()) == Delegated(old(handle.State()), FsCall.ListFileBlocks(filename), answer)
    {
      if !isInitialised {
        return Err(NoConsole);
      }
      r := handle.CallFs(FsCall.ListFileBlocks(filename), answer);
    }

    method ListFiles(answer: Result<seq<(seq<byte>, u32)>>) returns (r: Result<seq<(seq<byte>, u32)>>)
      modifies handle
      ensures !isInitialised ==> r == Err(NoConsole) && handle.State() == old(handle.State())
      ensures isInitialised ==> Step(r, handle.State()) == Delegated(old(handle.State()), FsCall.ListFiles, answer)
    {
      if !isInitialised {
        return Err(NoConsole);
      }
      r := handle.CallFs(FsCall.ListFiles, answer);
    }

    method DumpCurrentFS(answer: Result<seq<byte>>) returns (r: Result<seq<byte>>)
      modifies handle
      ensures !isInitialised ==> r == Err(NoConsole) && handle.State() == old(handle.State())
      ensures isInitialised ==> Step(r, handle.State()) == Delegated(old(handle.State()), DumpCurrentFs, answer)
    {
      if !isInitialised {
        return Err(NoConsole);
      }
      r := handle.CallFs(DumpCurrentFs, answer);
    }

    method DumpNAND() returns (r: Result<BlockSpare>)
      modifies handle
      ensures !isInitialised ==> r == Err(NoConsole) && handle.State() == old(handle.State())
      ensures isInitialised ==> Step(r, handle.State()) == DumpNandAndSpareSpec(old(handle.State()), cfg)
    {
      if !isInitialised {
        return Err(NoConsole);
      }
      r := DumpNandAndSpare(handle, cfg);
    }

    method ReadSingleBlock(blockNum: u32) returns (r: Result<BlockSpare>)
      modifies handle
      ensures !isInitialised ==> r == Err(NoConsole) && handle.State() == old(handle.State())
      ensures isInitialised ==> Step(r, handle.State()) == ReadBlockSpareSpec(old(handle.State()), cfg, blockNum)
    {
      if !isInitialised {
        return Err(NoConsole);
      }
      r := Commands.ReadSingleBlock(handle, cfg, blockNum);
    }

    method WriteSingleBlock(block: seq<byte>, spare: seq<byte>, blockNum: u32) returns (r: Result<()>)
      modifies handle
      ensures !isInitialised ==> r == Err(NoConsole) && handle.State() == old(handle.State())
      ensures isInitialised ==> Step(r, handle.State()) == WriteBlockSpareSpec(old(handle.State()), cfg, block, spare, blockNum)
    {
      if !isInitialised {
        return Err(NoConsole);
      }
      r := Commands.WriteSingleBlock(handle, cfg, block, spare, blockNum);
    }

    method ReadFile(filename: seq<byte>, answer: Result<Option<seq<byte>>>) returns (r: Result<Option<seq<byte>>>)
      modifies handle
      ensures !isInitialised ==> r == Err(NoConsole) && handle.State() == old(handle.State())
      ensures isInitialised ==> Step(r, handle.State()) == Delegated(old(handle.State()), FsCall.ReadFile(filename), answer)
    {
      if !isInitialised {
        return Err(NoConsole);
      }
      r := handle.CallFs(FsCall.ReadFile(filename), answer);
    }

    /** `WriteFile` may change the `current_fs` fields (to `after`). */
    method WriteFile(data: seq<byte>, filename: seq<byte>, answer: Result<()>, after: FsState) returns (r: Result<()>)
      modifies this, handle
      ensures !old(isInitialised) ==> r == Err(NoConsole) && handle.State() == old(handle.State()) && Fs() == old(Fs())
      ensures old(isInitialised) ==> Step(r, handle.State()) == Delegated(old(handle.State()), FsCall.WriteFile(filename, data), answer) &&
                                     Fs() == after
      ensures isInitialised == old(isInitialised)
    {
      if !isInitialised {
        return Err(NoConsole);
      }
      r := handle.CallFs(FsCall.WriteFile(filename, data), answer);
      currentFsIndex, currentFsBlock, currentFsSpare := after.index, after.block, after.spare;
    }

    /** `DeleteFile` may change the `current_fs` fields (to `after`). */
    method DeleteFile(filename: seq<byte>, answer: Result<()>, after: FsState) returns (r: Result<()>)
      modifies this, handle
      ensures !old(isInitialised) ==> r == Err(NoConsole) && handle.State() == old(handle.State()) && Fs() == old(Fs())
      ensures old(isInitialised) ==> Step(r, handle.State()) == Delegated(old(handle.State()), FsCall.DeleteFile(filename), answer) &&
                                     Fs() == after
      ensures isInitialised == old(isInitialised)
    {
      if !isInitialised {
        return Err(NoConsole);
      }
      r := handle.CallFs(FsCall.DeleteFile(filename), answer);
      currentFsIndex, currentFsBlock, currentFsSpare := after.index, after.block, after.spare;
    }

    method GetStats(answer: Result<(nat, nat, nat, u32)>) returns (r: Result<(nat, nat, nat, u32)>)
      modifies handle
      ensures !isInitialised ==> r == Err(NoConsole) && handle.State() == old(handle.State())
      ensures isInitialised ==> Step(r, handle.State()) == Delegated(old(handle.State()), FsCall.GetStats, answer)
    {
      if !isInitialised {
        return Err(NoConsole);
      }
      r := handle.CallFs(FsCall.GetStats, answer);
    }

    /** `Close`: on success the interface is released and the flag cleared;
        a failed release is reported and leaves the flag set. */
    method Close() returns (r: Result<()>)
      modifies this, handle
      ensures !old(isInitialised) ==> r == Err(NoConsole) && handle.State() == old(handle.State()) && !isInitialised
      ensures old(isInitialised) ==> Step(r, handle.State()) == Transport.Close(old(handle.State())) &&
                                     isInitialised == r.Err?
      ensures Fs() == old(Fs())
    {
      if !isInitialised {
        return Err(NoConsole);
      }
      r := handle.CloseConnection();
      if r.Err? {
        return r;
      }
      isInitialised := false;
    }

    /** `drop`, called explicitly: releases the interface only when
        initialised; a failed release keeps the flag set. */
    method Drop()
      modifies this, handle
      ensures !old(isInitialised) ==> handle.State() == old(handle.State()) && !isInitialised
      ensures old(isInitialised) ==> handle.State() == Transport.Close(old(handle.State())).wire &&
                                     isInitialised == Transport.Close(old(handle.State())).res.Err?
      ensures Fs() == old(Fs())
    {
      if isInitialised {
        var r := handle.CloseConnection();
        if r.Err? {
          return;
        }
        isInitialised := false;
      }
    }
  }
}
