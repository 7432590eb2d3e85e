/** The link-level byte formats of player_comms.rs that do not touch the
    link: the `TransferCommand` tags, the piecemeal encoding used for short
    host-to-device payloads, its device-to-host counterpart, and the frames
    of a chunked bulk send. */
module Framing {
  import opened Bytes
  import opened Errors

  // `enum TransferCommand`
  const READY: byte := 0x15
  const PIECEMEAL_CHUNK_RECV: byte := 0x1C
  const PIECEMEAL_CHUNK_SEND: byte := 0x40
  const ACK: byte := 0x44
  const SEND_CHUNK: byte := 0x63
  /** The tag of a reply-length header (a literal in `receive_data_length`). */
  const LENGTH_TAG: byte := 0x1B

  const READY_SIGNAL: seq<byte> := [READY, 0x00, 0x00, 0x00]
  const PIECEMEAL_DATA_CHUNK_SIZE: nat := 3
  const PACKET_SIZE: nat := 0x80
  const SEND_CHUNK_SIZE: nat := 0x100

  /** The largest payload of a chunked-send frame. */
  const MAX_CHUNK: nat := SEND_CHUNK_SIZE - 2

  // ---------------------------------------------------------------------
  // Piecemeal groups

  /** `data` cut into groups of three bytes (the last one possibly shorter),
      each group preceded by the tag `base + length`. The host sends with
      base 0x40; the device answers with base 0x1C. */
  function Groups(base: byte, data: seq<byte>): seq<byte>
    requires base <= 0xFC
    decreases |data|
  {
    if |data| == 0 then []
    else
      var k := Min(3, |data|);
      [base + k] + data[..k] + Groups(base, data[k..])
  }

  /** An encoding of N bytes has N + ⌈N/3⌉ bytes: one tag per group. */
  lemma {:induction false} GroupsLength(base: byte, data: seq<byte>)
    requires base <= 0xFC
    ensures |Groups(base, data)| == |data| + (|data| + 2) / 3
    decreases |data|
  {
    if data != [] {
      GroupsLength(base, data[Min(3, |data|)..]);
    }
  }

  /** The bytes of `encode_piecemeal_data`. */
  function EncodePiecemeal(data: seq<byte>): seq<byte>
  {
    Groups(PIECEMEAL_CHUNK_SEND, data)
  }

  /** Where `data` continues at `pos` with a tag, a group and the rest,
      those are at the expected positions. */
  lemma SliceParts(data: seq<byte>, pos: nat, t: byte, c: seq<byte>, r: seq<byte>)
    requires pos <= |data| && data[pos..] == [t] + c + r
    ensures pos + 1 + |c| <= |data| && data[pos] == t
    ensures data[pos + 1..pos + 1 + |c|] == c && data[pos + 1 + |c|..] == r
  {
    var s := data[pos..];
    assert s[0] == t;
    assert s[1..1 + |c|] == c;
    assert data[pos + 1..pos + 1 + |c|] == s[1..1 + |c|];
    assert s[1 + |c|..] == r;
    assert data[pos + 1 + |c|..] == s[1 + |c|..];
  }

  /** Appending a concatenation one piece at a time. */
  lemma AppendAssoc(a: seq<byte>, b: seq<byte>, c: seq<byte>)
    ensures a + b + c == a + (b + c)
  {
  }

  /** One group taken off the front of the bytes still to encode. */
  lemma GroupsAt(base: byte, data: seq<byte>, i: nat)
    requires base <= 0xFC && i < |data|
    ensures var k := Min(3, |data| - i);
            Groups(base, data[i..]) == [base + k] + data[i..i + k] + Groups(base, data[i + k..])
  {
    var k := Min(3, |data| - i);
    assert data[i..][..k] == data[i..i + k];
    assert data[i..][k..] == data[i + k..];
  }

  /** Encoding distributes over a concatenation whose first part is made
      of whole groups. */
  lemma {:induction false} GroupsAppend(base: byte, a: seq<byte>, b: seq<byte>)
    requires base <= 0xFC && |a| % 3 == 0
    ensures Groups(base, a + b) == Groups(base, a) + Groups(base, b)
    decreases |a|
  {
    if |a| == 0 {
      assert a + b == b;
    } else {
      var ab := a + b;
      assert ab[..3] == a[..3];
      assert ab[3..] == a[3..] + b;
      GroupsAppend(base, a[3..], b);
      AppendAssoc([base + 3] + a[..3], Groups(base, a[3..]), Groups(base, b));
    }
  }

  /** The encoding of a prefix that ends on a group boundary grows by one
      tagged group as the prefix takes in the next chunk. */
  lemma GroupsExtend(base: byte, data: seq<byte>, i: nat)
    requires base <= 0xFC && i < |data| && i % 3 == 0
    ensures var k := Min(3, |data| - i);
            Groups(base, data[..i + k]) == Groups(base, data[..i]) + [base + k] + data[i..i + k]
  {
    var k := Min(3, |data| - i);
    var chunk := data[i..i + k];
    assert data[..i + k] == data[..i] + chunk;
    GroupsAppend(base, data[..i], chunk);
    assert chunk[..k] == chunk && |chunk[k..]| == 0;
  }

  /** `encode_piecemeal_data`: one pass over `data.chunks(3)`, pushing a tag
      and extending by the chunk. */
  method EncodePiecemealData(data: seq<byte>) returns (rv: seq<byte>)
    ensures rv == EncodePiecemeal(data)
  {
    rv := [];
    var i := 0;
    while i < |data|
      invariant 0 <= i <= |data| && (i % 3 == 0 || i == |data|)
      invariant rv == Groups(PIECEMEAL_CHUNK_SEND, data[..i])
    {
      var k := Min(PIECEMEAL_DATA_CHUNK_SIZE, |data| - i);
      var tag: byte := PIECEMEAL_CHUNK_SEND + k;
      var chunk := data[i..i + k];
      GroupsExtend(PIECEMEAL_CHUNK_SEND, data, i);
      rv := rv + [tag] + chunk;
      i := i + k;
    }
    assert data[..i] == data;
  }

  /** A piecemeal stream read group by group: the tags (`base` + 1 .. `base` + 3)
      removed, or `None` if a tag is out of range, a group is cut short, or
      a group other than the last is shorter than three bytes. */
  function Ungroup(base: byte, s: seq<byte>): (r: Option<seq<byte>>)
    requires base <= 0xFC
    decreases |s|
  {
    if |s| == 0 then Some([])
    else if s[0] <= base || s[0] > base + 3 || |s| < 1 + (s[0] - base) then None
    else
      var k := s[0] - base;
      match Ungroup(base, s[1 + k..])
      case None => None
      case Some(rest) => if k < 3 && rest != [] then None else Some(s[1..1 + k] + rest)
  }

  /** Taking the tags out of an encoding gives the input back: every tag is
      `base` plus its group's length, every group but the last has three
      bytes, and nothing else is inserted. */
  lemma {:induction false} UngroupGroups(base: byte, data: seq<byte>)
    requires base <= 0xFC
    ensures Ungroup(base, Groups(base, data)) == Some(data)
    decreases |data|
  {
    if data != [] {
      var k := Min(3, |data|);
      var g := Groups(base, data);
      assert g[0] == base + k;
      assert g[1 + k..] == Groups(base, data[k..]);
      assert g[1..1 + k] == data[..k];
      UngroupGroups(base, data[k..]);
      assert data[..k] + data[k..] == data;
    }
  }

  /** The first `g` groups of full length take up the first 4g bytes of an
      encoding; what follows encodes the input from byte 3g. */
  lemma {:induction false} GroupsSkip(base: byte, data: seq<byte>, g: nat)
    requires base <= 0xFC && 3 * g <= |data|
    ensures 4 * g <= |Groups(base, data)| && Groups(base, data)[4 * g..] == Groups(base, data[3 * g..])
    decreases g
  {
    if g == 0 {
      assert data[0..] == data;
    } else {
      GroupsSkip(base, data, g - 1);
      var i := 3 * (g - 1);
      GroupsAt(base, data, i);
      SliceParts(Groups(base, data), 4 * (g - 1), base + 3, data[i..i + 3], Groups(base, data[i + 3..]));
    }
  }

  /** Group `g` of `encode_piecemeal_data` starts at byte 4g with a tag in
      0x41..0x43 equal to 0x40 plus the group's length, and carries input
      bytes 3g onwards. */
  lemma EncodeTags(data: seq<byte>, g: nat)
    requires 3 * g < |data|
    ensures var e := EncodePiecemeal(data);
            var k := Min(3, |data| - 3 * g);
            4 * g + 1 + k <= |e| &&
            0x41 <= e[4 * g] <= 0x43 && e[4 * g] - 0x40 == k &&
            e[4 * g + 1..4 * g + 1 + k] == data[3 * g..3 * g + k]
  {
    GroupsSkip(PIECEMEAL_CHUNK_SEND, data, g);
    GroupsAt(PIECEMEAL_CHUNK_SEND, data, 3 * g);
    var k := Min(3, |data| - 3 * g);
    SliceParts(EncodePiecemeal(data), 4 * g, 0x40 + k, data[3 * g..3 * g + k], Groups(PIECEMEAL_CHUNK_SEND, data[3 * g + k..]));
  }

  // ---------------------------------------------------------------------
  // Piecemeal decoding

  /** The loop of `decode_piecemeal_data` from iterator position `pos` with
      `buf` decoded so far: read a tag while fewer than `expected` bytes are
      decoded; tags 0x1D..0x1F copy the next 1..3 bytes, any other tag is an
      `Io` error, running out inside a group is `InvalidParam`; at the end the
      source asserts that exactly `expected` bytes were produced. */
  function DecodeFrom(data: seq<byte>, pos: nat, buf: seq<byte>, expected: nat): (r: Result<seq<byte>>)
    requires pos <= |data|
    ensures r.Ok? ==> |r.value| == expected
    ensures r.Err? ==> r.error == Usb(Io) || r.error == Usb(InvalidParam) || r.error == Panic(LengthMismatch)
    decreases |data| - pos
  {
    if |buf| < expected && pos < |data| then
      var tu := data[pos];
      if 0x1D <= tu <= 0x1F then
        var k := tu - PIECEMEAL_CHUNK_RECV;
        if pos + 1 + k > |data| then Err(Usb(InvalidParam))
        else DecodeFrom(data, pos + 1 + k, buf + data[pos + 1..pos + 1 + k], expected)
      else Err(Usb(Io))
    else if |buf| == expected then Ok(buf)
    else Err(Panic(LengthMismatch))
  }

  /** The result of `decode_piecemeal_data(data, expected_len)`. */
  function DecodePiecemeal(data: seq<byte>, expected: nat): Result<seq<byte>>
  {
    DecodeFrom(data, 0, [], expected)
  }

  /** `decode_piecemeal_data`: an iterator over `data`, an outer loop per tag
      and an inner loop pushing one byte per step. */
  method DecodePiecemealData(data: seq<byte>, expected: nat) returns (r: Result<seq<byte>>)
    ensures r == DecodePiecemeal(data, expected)
  {
    var buf: seq<byte> := [];
    var pos := 0;
    while |buf| < expected && pos < |data|
      invariant pos <= |data|
      invariant DecodeFrom(data, pos, buf, expected) == DecodePiecemeal(data, expected)
      decreases |data| - pos
    {
      var tu := data[pos];
      pos := pos + 1;
      if 0x1D <= tu <= 0x1F {
        ghost var start, buf0 := pos, buf;
        var j := PIECEMEAL_CHUNK_RECV;
        while j < tu
          invariant PIECEMEAL_CHUNK_RECV <= j <= tu
          invariant pos == start + (j - PIECEMEAL_CHUNK_RECV) <= |data|
          invariant buf == buf0 + data[start..pos]
        {
          if pos >= |data| {
            return Err(Usb(InvalidParam));
          }
          buf := buf + [data[pos]];
          pos := pos + 1;
          j := j + 1;
        }
      } else {
        return Err(Usb(Io));
      }
    }
    if |buf| != expected {
      return Err(Panic(LengthMismatch));
    }
    return Ok(buf);
  }

  /** Decoding a device stream grouped with base 0x1C, with `expected` equal to
      the payload length, gives the payload back whatever follows it. */
  lemma DecodeGroups(x: seq<byte>, junk: seq<byte>)
    ensures DecodePiecemeal(Groups(PIECEMEAL_CHUNK_RECV, x) + junk, |x|) == Ok(x)
  {
    var data := Groups(PIECEMEAL_CHUNK_RECV, x) + junk;
    assert data[0..] == data;
    SkipGroups(data, 0, [], x, junk, |x|);
    assert [] + x == x;
  }

  /** One well-formed group `c` read by the decoding loop, which then goes
      on at `next`. */
  lemma DecodeStep(data: seq<byte>, pos: nat, buf: seq<byte>, expected: nat, c: seq<byte>, next: nat)
    requires next == pos + 1 + |c| && next <= |data| && |buf| < expected && 1 <= |c| <= 3
    requires data[pos] == PIECEMEAL_CHUNK_RECV + |c| && data[pos + 1..next] == c
    ensures DecodeFrom(data, pos, buf, expected) == DecodeFrom(data, next, buf + c, expected)
  {
  }

  /** The first group of a device stream at `pos`: its tag, its bytes, and
      the groups after it, which start at `next`. */
  lemma ReceivedGroupAt(data: seq<byte>, pos: nat, x: seq<byte>, tail: seq<byte>) returns (k: nat, next: nat)
    requires pos <= |data| && data[pos..] == Groups(PIECEMEAL_CHUNK_RECV, x) + tail && |x| > 0
    ensures k == Min(3, |x|) && next == pos + 1 + k && next <= |data|
    ensures data[pos] == PIECEMEAL_CHUNK_RECV + k
    ensures data[pos + 1..next] == x[..k]
    ensures data[next..] == Groups(PIECEMEAL_CHUNK_RECV, x[k..]) + tail
  {
    k := Min(3, |x|);
    next := pos + 1 + k;
    var rest := Groups(PIECEMEAL_CHUNK_RECV, x[k..]);
    AppendAssoc([PIECEMEAL_CHUNK_RECV + k] + x[..k], rest, tail);
    SliceParts(data, pos, PIECEMEAL_CHUNK_RECV + k, x[..k], rest + tail);
  }

  /** Decoding passes over the first group of a device stream. */
  lemma SkipGroup(data: seq<byte>, pos: nat, buf: seq<byte>, x: seq<byte>, tail: seq<byte>, expected: nat) returns (k: nat, next: nat)
    requires pos <= |data| && data[pos..] == Groups(PIECEMEAL_CHUNK_RECV, x) + tail && |x| > 0
    requires |buf| + |x| <= expected
    ensures k == Min(3, |x|) && next == pos + 1 + k && next <= |data|
    ensures data[next..] == Groups(PIECEMEAL_CHUNK_RECV, x[k..]) + tail
    ensures DecodeFrom(data, pos, buf, expected) == DecodeFrom(data, next, buf + x[..k], expected)
  {
    k, next := ReceivedGroupAt(data, pos, x, tail);
    DecodeStep(data, pos, buf, expected, x[..k], next);
  }

  /** While no more than the data of some well-formed groups is expected,
      decoding passes over those groups and goes on after them. */
  lemma {:induction false} SkipGroups(data: seq<byte>, pos: nat, buf: seq<byte>, x: seq<byte>, tail: seq<byte>, expected: nat)
    requires pos <= |data| && data[pos..] == Groups(PIECEMEAL_CHUNK_RECV, x) + tail
    requires |buf| + |x| <= expected
    ensures |tail| <= |data|
    ensures DecodeFrom(data, pos, buf, expected) == DecodeFrom(data, |data| - |tail|, buf + x, expected)
    decreases |x|
  {
    if |x| == 0 {
      assert buf + x == buf;
      assert |data| - |tail| == pos by {
        assert |data[pos..]| == |tail|;
      }
    } else {
      var k, next := SkipGroup(data, pos, buf, x, tail, expected);
      var buf' := buf + x[..k];
      assert buf' + x[k..] == buf + x by {
        AppendAssoc(buf, x[..k], x[k..]);
        assert x[..k] + x[k..] == x;
      }
      SkipGroups(data, next, buf', x[k..], tail, expected);
    }
  }

  /** Bytes encoded for sending do not decode as a reply: the host's tags
      (0x41..0x43) are outside the device's range (0x1D..0x1F). */
  lemma EncodeIsNotAReply(x: seq<byte>)
    requires x != []
    ensures DecodePiecemeal(EncodePiecemeal(x), |x|) == Err(Usb(Io))
  {
    var e := EncodePiecemeal(x);
    assert e[0] == PIECEMEAL_CHUNK_SEND + Min(3, |x|);
  }

  /** A tag outside 0x1D..0x1F where a group should start is an `Io` error. */
  lemma {:induction false} DecodeBadTag(x: seq<byte>, t: byte, junk: seq<byte>, expected: nat)
    requires |x| < expected
    requires t < 0x1D || t > 0x1F
    ensures DecodePiecemeal(Groups(PIECEMEAL_CHUNK_RECV, x) + [t] + junk, expected) == Err(Usb(Io))
  {
    var data := Groups(PIECEMEAL_CHUNK_RECV, x) + [t] + junk;
    assert data[0..] == Groups(PIECEMEAL_CHUNK_RECV, x) + ([t] + junk);
    SkipGroups(data, 0, [], x, [t] + junk, expected);
    assert data[|data| - |[t] + junk|] == t;
  }

  /** Input that ends inside a group is an `InvalidParam` error. */
  lemma {:induction false} DecodeCutShort(x: seq<byte>, t: byte, part: seq<byte>, expected: nat)
    requires |x| < expected
    requires 0x1D <= t <= 0x1F && |part| < t - PIECEMEAL_CHUNK_RECV
    ensures DecodePiecemeal(Groups(PIECEMEAL_CHUNK_RECV, x) + [t] + part, expected) == Err(Usb(InvalidParam))
  {
    var data := Groups(PIECEMEAL_CHUNK_RECV, x) + [t] + part;
    assert data[0..] == Groups(PIECEMEAL_CHUNK_RECV, x) + ([t] + part);
    SkipGroups(data, 0, [], x, [t] + part, expected);
    assert data[|data| - |[t] + part|] == t;
  }

  // ---------------------------------------------------------------------
  // Chunked bulk frames

  /** The frames `send_chunked_data` sends: `data.chunks(254)`, each as
      `[0x63, len] ++ chunk`. */
  function ChunkFrames(data: seq<byte>): (r: seq<seq<byte>>)
    decreases |data|
  {
    if |data| == 0 then []
    else
      var k := Min(MAX_CHUNK, |data|);
      [[SEND_CHUNK, k] + data[..k]] + ChunkFrames(data[k..])
  }

  /** The chunks carried by a list of frames, in order. */
  function Payloads(frames: seq<seq<byte>>): seq<byte>
  {
    if |frames| == 0 then [] else (if |frames[0]| < 2 then [] else frames[0][2..]) + Payloads(frames[1..])
  }

  /** N bytes become ⌈N/254⌉ frames, each of the form `[0x63, len] ++ chunk`
      with 1 ≤ len ≤ 254, and the chunks put together give the input. */
  lemma ChunkFramesShape(data: seq<byte>)
    ensures var f := ChunkFrames(data);
            |f| == (|data| + MAX_CHUNK - 1) / MAX_CHUNK &&
            (forall i | 0 <= i < |f| ::
               |f[i]| >= 2 && f[i][0] == SEND_CHUNK && 1 <= f[i][1] <= MAX_CHUNK && |f[i]| == 2 + f[i][1] as int) &&
            Payloads(f) == data
  {
    ChunkFramesCount(data);
    ChunkFramesForm(data);
    ChunkFramesPayloads(data);
  }

  /** Taking one chunk off leaves one frame fewer. */
  lemma CeilStep(n: nat)
    requires n >= 1
    ensures (n + MAX_CHUNK - 1) / MAX_CHUNK == (n - Min(MAX_CHUNK, n) + MAX_CHUNK - 1) / MAX_CHUNK + 1
  {
    if n > MAX_CHUNK {
      var m := n - MAX_CHUNK;
      assert n + MAX_CHUNK - 1 == (m + MAX_CHUNK - 1) + MAX_CHUNK;
    }
  }

  /** N bytes become ⌈N/254⌉ frames. */
  lemma {:induction false} ChunkFramesCount(data: seq<byte>)
    ensures |ChunkFrames(data)| == (|data| + MAX_CHUNK - 1) / MAX_CHUNK
    decreases |data|
  {
    if |data| > 0 {
      var k := Min(MAX_CHUNK, |data|);
      ChunkFramesCount(data[k..]);
      CeilStep(|data|);
    }
  }

  /** Every frame is `[0x63, len] ++ chunk` with 1 ≤ len ≤ 254. */
  lemma {:induction false} ChunkFramesForm(data: seq<byte>)
    ensures var f := ChunkFrames(data);
            forall i | 0 <= i < |f| ::
              |f[i]| >= 2 && f[i][0] == SEND_CHUNK && 1 <= f[i][1] <= MAX_CHUNK && |f[i]| == 2 + f[i][1] as int
    decreases |data|
  {
    if |data| > 0 {
      var k := Min(MAX_CHUNK, |data|);
      ChunkFramesForm(data[k..]);
      var f := ChunkFrames(data);
      assert f[1..] == ChunkFrames(data[k..]);
    }
  }

  /** The chunks put together give the input. */
  lemma {:induction false} ChunkFramesPayloads(data: seq<byte>)
    ensures Payloads(ChunkFrames(data)) == data
    decreases |data|
  {
    if |data| > 0 {
      var k := Min(MAX_CHUNK, |data|);
      ChunkFramesPayloads(data[k..]);
      var f := ChunkFrames(data);
      assert f[1..] == ChunkFrames(data[k..]);
      assert f[0][2..] == data[..k];
      assert data[..k] + data[k..] == data;
    }
  }
}
