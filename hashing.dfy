/** The content hasher: sha256File (main.go:22-45), which streams a file
    through a 64 KiB buffer into a SHA-256 accumulator and renders the
    digest as lowercase hex. */
module Hashing {
  import opened Types

  /** BufferSize (main.go:20). */
  const BufferSize: nat := 64 * 1024

  /** A SHA-256 digest is 32 bytes long. */
  type Digest = d: seq<Byte> | |d| == 32 witness seq(32, _ => 0)

  /** SHA-256 (FIPS 180-4) is not modelled: it is some function of all the
      bytes written to the accumulator, passed in as a parameter. */
  type Sha256 = seq<Byte> -> Digest

  // ---------------------------------------------------------------------
  // Lowercase hex rendering, fmt.Sprintf("%x", digest) (main.go:44)
  // ---------------------------------------------------------------------

  predicate IsLowerHex(c: char)
  {
    '0' <= c <= '9' || 'a' <= c <= 'f'
  }

  /** The lowercase hex digit for a nibble. */
  function HexDigit(v: int): (c: char)
    requires 0 <= v < 16
    ensures IsLowerHex(c)
  {
    if v < 10 then ('0' as int + v) as char else ('a' as int + v - 10) as char
  }

  /** The nibble a lowercase hex digit stands for. */
  function NibbleOf(c: char): (r: Option<int>)
    ensures r.Some? <==> IsLowerHex(c)
    ensures r.Some? ==> 0 <= r.value < 16
  {
    if '0' <= c <= '9' then Some(c as int - '0' as int)
    else if 'a' <= c <= 'f' then Some(c as int - 'a' as int + 10)
    else None
  }

  /** Two lowercase hex digits per byte, high nibble first. */
  function Hex(d: seq<Byte>): (s: string)
    ensures |s| == 2 * |d|
    ensures forall i :: 0 <= i < |s| ==> IsLowerHex(s[i])
  {
    if d == [] then []
    else [HexDigit(d[0] as int / 16), HexDigit(d[0] as int % 16)] + Hex(d[1..])
  }

  /** Reads a lowercase hex string back into bytes; the inverse of Hex. */
  function Unhex(s: string): (r: Option<seq<Byte>>)
    ensures r.Some? ==> 2 * |r.value| == |s|
  {
    if s == [] then Some([])
    else if |s| < 2 then None
    else
      match (NibbleOf(s[0]), NibbleOf(s[1]), Unhex(s[2..]))
      case (Some(hi), Some(lo), Some(rest)) => Some([(hi * 16 + lo) as Byte] + rest)
      case _ => None
  }

  lemma {:induction false} UnhexHex(d: seq<Byte>)
    ensures Unhex(Hex(d)) == Some(d)
  {
    if d != [] {
      var s := Hex(d);
      var hi, lo := d[0] as int / 16, d[0] as int % 16;
      assert s == [HexDigit(hi), HexDigit(lo)] + Hex(d[1..]);
      assert s[2..] == Hex(d[1..]);
      UnhexHex(d[1..]);
      assert NibbleOf(s[0]) == Some(hi);
      assert NibbleOf(s[1]) == Some(lo);
      assert (hi * 16 + lo) as Byte == d[0];
      assert [d[0]] + d[1..] == d;
    }
  }

  /** Hex rendering loses nothing: different digests give different strings. */
  lemma HexInjective(a: seq<Byte>, b: seq<Byte>)
    ensures Hex(a) == Hex(b) <==> a == b
  {
    UnhexHex(a);
    UnhexHex(b);
  }

  /** The fingerprint of some content: the hex of its SHA-256 digest. */
  function Fingerprint(sum: Sha256, content: seq<Byte>): (h: string)
    ensures |h| == 64
    ensures forall i :: 0 <= i < |h| ==> IsLowerHex(h[i])
  {
    Hex(sum(content))
  }

  /** Two contents get the same fingerprint exactly when their digests agree. */
  lemma FingerprintDeterminedByDigest(sum: Sha256, a: seq<Byte>, b: seq<Byte>)
    ensures Fingerprint(sum, a) == Fingerprint(sum, b) <==> sum(a) == sum(b)
  {
    HexInjective(sum(a), sum(b));
  }

  // ---------------------------------------------------------------------
  // os.File.Read on a regular file, with injected short reads and faults
  // ---------------------------------------------------------------------

  /** How one call of Read behaves: it delivers at most `n` bytes (a short
      read; at least one byte is always delivered before end of file), or it
      fails with an error other than io.EOF. */
  datatype ReadStep = Deliver(n: nat) | Fault

  /** How opening and reading one file behave. Read calls beyond the
      script deliver a full buffer. */
  datatype IoScript = IoScript(openFails: bool, steps: seq<ReadStep>)

  const Clean := IoScript(false, [])

  datatype ReadStatus = ReadOk | Eof | ReadError

  datatype ReadResult = ReadResult(n: nat, status: ReadStatus)

  /** What one Read into a BufferSize buffer returns at `offset`, when the
      next injected behaviour is the head of `script`. */
  function ReadCall(content: seq<Byte>, offset: nat, script: seq<ReadStep>): (r: ReadResult)
    requires offset <= |content|
    ensures r.status == ReadOk <==> offset < |content| && FirstOr(script, Deliver(BufferSize)).Deliver?
    ensures r.status == ReadOk ==> 1 <= r.n <= BufferSize && offset + r.n <= |content|
    ensures r.status != ReadOk ==> r.n == 0
    ensures r.status == Eof ==> offset == |content|
    ensures r.status == ReadError <==> FirstOr(script, Deliver(BufferSize)).Fault?
  {
    match FirstOr(script, Deliver(BufferSize))
    case Fault => ReadResult(0, ReadError)
    case Deliver(k) =>
      if offset == |content| then ReadResult(0, Eof)
      else
        var avail := if |content| - offset < BufferSize then |content| - offset else BufferSize;
        ReadResult(if k == 0 then 1 else if k < avail then k else avail, ReadOk)
  }

  /** The chunks the read loop (main.go:31-42) feeds to the accumulator,
      starting at `offset`, or None when a read fails before end of file. */
  function Chunks(content: seq<Byte>, offset: nat, script: seq<ReadStep>): Option<seq<seq<Byte>>>
    requires offset <= |content|
    decreases |content| - offset
  {
    var r := ReadCall(content, offset, script);
    match r.status
    case ReadError => None
    case Eof => Some([])
    case ReadOk =>
      match Chunks(content, offset + r.n, Rest(script))
      case None => None
      case Some(rest) => Some([content[offset..offset + r.n]] + rest)
  }

  function Concat(cs: seq<seq<Byte>>): seq<Byte>
  {
    if cs == [] then [] else cs[0] + Concat(cs[1..])
  }

  /** A read loop that reaches end of file has fed the accumulator the rest
      of the file exactly, in chunks of one to BufferSize bytes. */
  lemma {:induction false} ChunksCover(content: seq<Byte>, offset: nat, script: seq<ReadStep>)
    requires offset <= |content|
    requires Chunks(content, offset, script).Some?
    ensures Concat(Chunks(content, offset, script).value) == content[offset..]
    ensures forall c :: c in Chunks(content, offset, script).value ==> 1 <= |c| <= BufferSize
    decreases |content| - offset
  {
    var r := ReadCall(content, offset, script);
    if r.status == ReadOk {
      var next := offset + r.n;
      ChunksCover(content, next, Rest(script));
      var rest := Chunks(content, next, Rest(script)).value;
      var chunk := content[offset..next];
      assert Chunks(content, offset, script).value == [chunk] + rest;
      assert ([chunk] + rest)[0] == chunk && ([chunk] + rest)[1..] == rest;
      assert content[offset..] == chunk + content[next..];
    }
  }

  /** Without an injected fault every read succeeds and the loop reaches end of file. */
  lemma {:induction false} NoFaultReachesEof(content: seq<Byte>, offset: nat, script: seq<ReadStep>)
    requires offset <= |content|
    requires forall k :: 0 <= k < |script| ==> script[k].Deliver?
    ensures Chunks(content, offset, script).Some?
    decreases |content| - offset
  {
    var r := ReadCall(content, offset, script);
    if r.status == ReadOk {
      NoFaultReachesEof(content, offset + r.n, Rest(script));
    }
  }

  /** A fault injected into the script fails the whole hash when the file
      is long enough for the loop to reach it. */
  lemma {:induction false} FaultBeforeEofFails(content: seq<Byte>, offset: nat, script: seq<ReadStep>, k: nat)
    requires offset <= |content|
    requires k < |script| && script[k].Fault?
    requires offset + k * BufferSize <= |content|
    requires forall j :: 0 <= j < k ==> script[j].Deliver?
    ensures Chunks(content, offset, script).None?
    decreases k
  {
    if k > 0 {
      var r := ReadCall(content, offset, script);
      assert r.status == ReadOk;
      FaultBeforeEofFails(content, offset + r.n, Rest(script), k - 1);
    }
  }

  /** The outcome of sha256File on `path`: an open error when the path is
      not a regular file or opening fails, a read error when a read fails,
      otherwise the fingerprint of the bytes fed to the accumulator. */
  function HashFile(sum: Sha256, fs: Fs, path: Path, io: IoScript): (r: Result<string>)
    ensures r.Ok? <==> !io.openFails && path in fs && fs[path].Regular?
                       && Chunks(fs[path].content, 0, io.steps).Some?
    ensures r.Ok? ==> r.value == Fingerprint(sum, fs[path].content)
    ensures r.Err? && path in fs && fs[path].Regular? && !io.openFails ==> r.error == ReadFailed
  {
    if io.openFails || path !in fs || !fs[path].Regular? then Err(OpenFailed)
    else
      var content := fs[path].content;
      match Chunks(content, 0, io.steps)
      case None => Err(ReadFailed)
      case Some(cs) =>
        ChunksCover(content, 0, io.steps);
        Ok(Fingerprint(sum, Concat(cs)))
  }

  /** An open regular file: its bytes, the read offset, and the injected
      behaviour of the Read calls still to come. */
  class OsFile {
    const content: seq<Byte>
    var offset: nat
    var script: seq<ReadStep>

    constructor Open(content: seq<Byte>, script: seq<ReadStep>)
      ensures this.content == content && offset == 0 && this.script == script
    {
      this.content := content;
      offset := 0;
      this.script := script;
    }

    method Read(buf: array<Byte>) returns (n: nat, status: ReadStatus)
      requires offset <= |content| && buf.Length == BufferSize
      modifies this, buf
      ensures ReadResult(n, status) == ReadCall(content, old(offset), old(script))
      ensures offset == old(offset) + n <= |content| && script == Rest(old(script))
      ensures buf[..n] == content[old(offset)..offset]
    {
      var r := ReadCall(content, offset, script);
      n, status := r.n, r.status;
      forall k | 0 <= k < n {
        buf[k] := content[offset + k];
      }
      offset := offset + n;
      script := Rest(script);
    }
  }

  /** The SHA-256 accumulator: everything written so far, and the digest of it. */
  class Hasher {
    const sum: Sha256
    var written: seq<Byte>

    constructor (sum: Sha256)
      ensures this.sum == sum && written == []
    {
      this.sum := sum;
      written := [];
    }

    method Write(chunk: seq<Byte>)
      modifies this
      ensures written == old(written) + chunk
    {
      written := written + chunk;
    }

    function Sum(): Digest
      reads this
    {
      sum(written)
    }
  }

  /** sha256File (main.go:22-45). */
  method Sha256File(sum: Sha256, fs: Fs, path: Path, io: IoScript) returns (r: Result<string>)
    ensures r == HashFile(sum, fs, path, io)
  {
    if io.openFails || path !in fs || !fs[path].Regular? {
      return Err(OpenFailed);
    }
    var file := new OsFile.Open(fs[path].content, io.steps);
    var hasher := new Hasher(sum);
    var buf := new Byte[BufferSize];
    while true
      invariant file.content == fs[path].content && file.offset <= |file.content|
      invariant hasher.sum == sum && hasher.written == file.content[..file.offset]
      invariant Chunks(file.content, 0, io.steps).Some? == Chunks(file.content, file.offset, file.script).Some?
      decreases |file.content| - file.offset
    {
      ghost var before := file.offset;
      var n, status := file.Read(buf);
      if n > 0 {
        hasher.Write(buf[..n]);
      }
      assert file.content[..file.offset] == file.content[..before] + file.content[before..file.offset];
      if status == Eof {
        break;
      }
      if status == ReadError {
        return Err(ReadFailed);
      }
    }
    assert hasher.written == fs[path].content;
    r := Ok(Hex(hasher.Sum()));
  }
}
