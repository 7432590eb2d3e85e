/** The 8.3 filename rules of `send_filename` (commands.rs): the name is the
    text before the first '.', the extension the piece after it; the name is
    sent NUL-terminated and zero-padded to a multiple of four bytes. A
    filename is modelled as its UTF-8 bytes, which is what `str::len` and
    `str::split('.')` work on. */
module FileNames {
  import opened Bytes
  import opened Errors

  const DOT: byte := 0x2E
  const NUL: byte := 0

  /** `s.split(sep)`: the pieces between separators, at least one. */
  function Split(s: seq<byte>, sep: byte): (r: seq<seq<byte>>)
    ensures |r| >= 1
    decreases |s|
  {
    if |s| == 0 then [[]]
    else if s[0] == sep then [[]] + Split(s[1..], sep)
    else
      var rest := Split(s[1..], sep);
      [[s[0]] + rest[0]] + rest[1..]
  }

  /** Putting the pieces back together with the separator between them. */
  function Join(pieces: seq<seq<byte>>, sep: byte): seq<byte>
  {
    if |pieces| == 0 then []
    else if |pieces| == 1 then pieces[0]
    else pieces[0] + [sep] + Join(pieces[1..], sep)
  }

  /** The first piece is everything up to the first separator; if there is
      one, the other pieces are the split of what follows it. */
  lemma {:induction false} SplitFirst(s: seq<byte>, sep: byte)
    ensures var r := Split(s, sep);
            var k := |r[0]|;
            k <= |s| && r[0] == s[..k] && sep !in r[0] &&
            (k < |s| ==> s[k] == sep && r[1..] == Split(s[k + 1..], sep)) &&
            (k == |s| ==> |r| == 1)
    decreases |s|
  {
    if s != [] && s[0] != sep {
      SplitFirst(s[1..], sep);
      var rest := Split(s[1..], sep);
      var k := |rest[0]|;
      assert s[..k + 1] == [s[0]] + s[1..][..k];
      assert sep !in [s[0]] + rest[0];
      if k < |s[1..]| {
        assert s[1..][k + 1..] == s[k + 2..];
      }
    } else if s != [] {
      assert s[1..] == s[0 + 1..];
    }
  }

  /** Splitting loses nothing: joining the pieces gives the input back. */
  lemma {:induction false} SplitJoin(s: seq<byte>, sep: byte)
    ensures Join(Split(s, sep), sep) == s
    decreases |s|
  {
    var r := Split(s, sep);
    SplitFirst(s, sep);
    var k := |r[0]|;
    if k < |s| {
      SplitJoin(s[k + 1..], sep);
      assert |r| > 1 by {
        assert r[1..] == Split(s[k + 1..], sep);
      }
      assert Join(r, sep) == r[0] + [sep] + Join(r[1..], sep);
      assert s == s[..k] + [s[k]] + s[k + 1..];
    } else {
      assert s[..k] == s;
    }
  }

  /** No piece contains the separator. */
  lemma {:induction false} SplitPiecesClean(s: seq<byte>, sep: byte)
    ensures forall i | 0 <= i < |Split(s, sep)| :: sep !in Split(s, sep)[i]
    decreases |s|
  {
    var r := Split(s, sep);
    SplitFirst(s, sep);
    var k := |r[0]|;
    if k < |s| {
      SplitPiecesClean(s[k + 1..], sep);
      forall i | 0 <= i < |r| ensures sep !in r[i] {
        if i > 0 {
          assert r[i] == r[1..][i - 1];
        }
      }
    }
  }

  /** `(name, ext)`: the first piece, and the second one or empty. */
  function NameAndExt(filename: seq<byte>): (seq<byte>, seq<byte>)
  {
    var split := Split(filename, DOT);
    if |split| > 1 then (split[0], split[1]) else (split[0], [])
  }

  /** The name is the text before the first dot (all of it if there is
      none); the extension is the text between the first dot and the next
      dot or the end. */
  lemma NameAndExtMeaning(filename: seq<byte>)
    ensures var (name, ext) := NameAndExt(filename);
            var k := |name|;
            k <= |filename| && name == filename[..k] && DOT !in name &&
            (k == |filename| ==> ext == []) &&
            (k < |filename| ==>
               filename[k] == DOT && k + 1 + |ext| <= |filename| &&
               ext == filename[k + 1..k + 1 + |ext|] && DOT !in ext &&
               (k + 1 + |ext| < |filename| ==> filename[k + 1 + |ext|] == DOT))
  {
    SplitFirst(filename, DOT);
    var r := Split(filename, DOT);
    var k := |r[0]|;
    if k < |filename| {
      var rest := filename[k + 1..];
      SplitFirst(rest, DOT);
      assert r[1] == Split(rest, DOT)[0];
      var j := |r[1]|;
      assert rest[..j] == filename[k + 1..k + 1 + j];
      if k + 1 + j < |filename| {
        assert filename[k + 1 + j] == rest[j];
      }
    }
  }

  /** The checks `send_filename` makes before any transfer: the 8.3 length
      limits first, then the NUL check of `CString::new`. */
  function FileNameError(filename: seq<byte>): (r: Option<Error>)
    ensures r.Some? ==> r.value == FileNameTooLong(filename) || r.value == FileNameCString(filename)
  {
    var (name, ext) := NameAndExt(filename);
    if |name| > 8 || |ext| > 3 then Some(FileNameTooLong(filename))
    else if NUL in filename then Some(FileNameCString(filename))
    else None
  }

  /** A filename is accepted exactly when its name has at most 8 bytes, its
      extension at most 3, and it has no NUL byte; the length error wins. */
  lemma FileNameErrorCases(filename: seq<byte>)
    ensures var (name, ext) := NameAndExt(filename);
            (FileNameError(filename).None? <==> |name| <= 8 && |ext| <= 3 && NUL !in filename) &&
            (FileNameError(filename) == Some(FileNameTooLong(filename)) <==> |name| > 8 || |ext| > 3)
  {
  }

  /** The number of zero bytes that pad `n` bytes to a multiple of four. */
  function Padding(n: nat): (p: nat)
    ensures p < 4 && (n + p) % 4 == 0
  {
    (4 - n % 4) % 4
  }

  /** The bytes sent after the `FileChksum` command: the name, its NUL, and
      fewer than four zero bytes, for a length divisible by four. */
  function FileNamePayload(filename: seq<byte>): (r: seq<byte>)
    ensures |r| % 4 == 0 && |filename| + 1 <= |r| < |filename| + 5
    ensures r[..|filename|] == filename
    ensures forall i | |filename| <= i < |r| :: r[i] == NUL
  {
    var withNul := filename + [NUL];
    withNul + seq(Padding(|withNul|), _ => NUL)
  }

  /** When `s[k]` is the first separator, the first piece is `s[..k]` and
      the rest is the split of what follows. */
  lemma SplitAtFirst(s: seq<byte>, sep: byte, k: nat)
    requires k < |s| && s[k] == sep && sep !in s[..k]
    ensures Split(s, sep)[0] == s[..k] && Split(s, sep)[1..] == Split(s[k + 1..], sep)
  {
    SplitFirst(s, sep);
    var r := Split(s, sep);
    var k' := |r[0]|;
    assert forall i | 0 <= i < k :: s[i] != sep by {
      forall i | 0 <= i < k ensures s[i] != sep {
        assert s[..k][i] == s[i];
      }
    }
    assert k <= k';
  }

  /** Without a separator there is one piece. */
  lemma SplitNone(s: seq<byte>, sep: byte)
    requires sep !in s
    ensures Split(s, sep) == [s]
  {
    SplitFirst(s, sep);
    assert |Split(s, sep)[0]| == |s| ==> s[..|s|] == s;
  }

  /** A name, a dot, an extension, and then nothing or another dot: the
      name and extension are what `send_filename` checks. */
  lemma NameAndExtOf(name: seq<byte>, ext: seq<byte>, rest: seq<byte>)
    requires DOT !in name && DOT !in ext && (|rest| == 0 || rest[0] == DOT)
    ensures NameAndExt(name + [DOT] + ext + rest) == (name, ext)
  {
    var f := name + [DOT] + ext + rest;
    assert f[..|name|] == name;
    SplitAtFirst(f, DOT, |name|);
    var g := f[|name| + 1..];
    assert g == ext + rest;
    if |rest| == 0 {
      assert g == ext;
      SplitNone(g, DOT);
    } else {
      assert g[..|ext|] == ext;
      SplitAtFirst(g, DOT, |ext|);
    }
  }

  /** Only the first two pieces are checked: whatever follows a second dot,
      however long, does not make a filename too long. */
  lemma LaterPiecesUnchecked(name: seq<byte>, ext: seq<byte>, later: seq<byte>)
    requires DOT !in name && DOT !in ext && |name| <= 8 && |ext| <= 3
    requires NUL !in name + [DOT] + ext + [DOT] + later
    ensures FileNameError(name + [DOT] + ext + [DOT] + later) == None
  {
    NameAndExtOf(name, ext, [DOT] + later);
    assert name + [DOT] + ext + ([DOT] + later) == name + [DOT] + ext + [DOT] + later;
  }

  /** "AUTOEXEC.CFG" in ASCII. */
  const AUTOEXEC_CFG: seq<byte> := [0x41, 0x55, 0x54, 0x4F, 0x45, 0x58, 0x45, 0x43, DOT, 0x43, 0x46, 0x47]
  /** "AUTOEXECUTE.CFG" in ASCII. */
  const AUTOEXECUTE_CFG: seq<byte> := [0x41, 0x55, 0x54, 0x4F, 0x45, 0x58, 0x45, 0x43, 0x55, 0x54, 0x45, DOT, 0x43, 0x46, 0x47]

  /** "AUTOEXEC.CFG" is a valid 8.3 name: name "AUTOEXEC", extension "CFG". */
  lemma AutoexecAccepted()
    ensures NameAndExt(AUTOEXEC_CFG) == (AUTOEXEC_CFG[..8], AUTOEXEC_CFG[9..])
    ensures FileNameError(AUTOEXEC_CFG) == None
  {
    var f := AUTOEXEC_CFG;
    assert f == f[..8] + [DOT] + f[9..] + [];
    NameAndExtOf(f[..8], f[9..], []);
  }

  /** "AUTOEXECUTE.CFG" has an 11-byte name and is refused. */
  lemma AutoexecuteRejected()
    ensures NameAndExt(AUTOEXECUTE_CFG).0 == AUTOEXECUTE_CFG[..11]
    ensures FileNameError(AUTOEXECUTE_CFG) == Some(FileNameTooLong(AUTOEXECUTE_CFG))
  {
    SplitAtFirst(AUTOEXECUTE_CFG, DOT, 11);
  }
}
