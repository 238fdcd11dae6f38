/**
 The clamd INSTREAM upload of `ClamAvScanner.ensure_clean` (modules/documents/infrastructure/safety.py:105-118):
 a command, then chunks prefixed with their length as four big-endian bytes, then a zero length (clamd(8),
 COMMANDS, INSTREAM).
 */
module Instream {
  import opened Common

  const COMMAND: Bytes := [122, 73, 78, 83, 84, 82, 69, 65, 77, 0]    // zINSTREAM and a NUL
  const MAX_CHUNK: nat := 1024 * 1024

  /** The `width` low bytes of n, most significant first. */
  function BigEndian(n: nat, width: nat): (r: Bytes)
    ensures |r| == width
  {
    if width == 0 then [] else BigEndian(n / 256, width - 1) + [(n % 256) as Byte]
  }

  function FromBigEndian(bytes: Bytes): nat {
    if bytes == [] then 0
    else 256 * FromBigEndian(bytes[..|bytes| - 1]) + bytes[|bytes| - 1] as int
  }

  /** How many numbers `width` bytes can hold. */
  function Capacity(width: nat): nat {
    if width == 0 then 1 else 256 * Capacity(width - 1)
  }

  lemma {:induction false} BigEndianRoundTrip(n: nat, width: nat)
    requires n < Capacity(width)
    ensures FromBigEndian(BigEndian(n, width)) == n
  {
    if width > 0 {
      BigEndianRoundTrip(n / 256, width - 1);
      assert BigEndian(n, width)[..width - 1] == BigEndian(n / 256, width - 1);
    }
  }

  const WIDTH: nat := 4

  /** A length is sent most significant byte first. */
  lemma PrefixIsNetworkOrder(n: nat)
    ensures var p := Prefix(n);
      p[3] as int == n % 256 && p[2] as int == n / 256 % 256
      && p[1] as int == n / 256 / 256 % 256 && p[0] as int == n / 256 / 256 / 256 % 256
  {
    assert BigEndian(n, 4) == BigEndian(n / 256, 3) + [(n % 256) as Byte];
    assert BigEndian(n / 256, 3) == BigEndian(n / 256 / 256, 2) + [(n / 256 % 256) as Byte];
    assert BigEndian(n / 256 / 256, 2) == BigEndian(n / 256 / 256 / 256, 1) + [(n / 256 / 256 % 256) as Byte];
    assert BigEndian(n / 256 / 256 / 256, 1) == [] + [(n / 256 / 256 / 256 % 256) as Byte];
  }

  /** `struct.pack("!I", n)` */
  function Prefix(n: nat): (r: Bytes)
    ensures |r| == 4
  {
    BigEndian(n, WIDTH)
  }

  function Length(prefix: Bytes): nat {
    FromBigEndian(prefix)
  }

  lemma PrefixRoundTrip(n: nat)
    requires n <= MAX_CHUNK
    ensures Length(Prefix(n)) == n
  {
    assert Capacity(2) == 65536;
    assert Capacity(4) == 256 * (256 * Capacity(2));
    BigEndianRoundTrip(n, WIDTH);
  }

  /** Where the read that starts at a position of the file ends. */
  function ReadTo(file: Bytes, pos: nat, chunk: nat): (next: nat)
    requires pos < |file| && chunk >= 1
    ensures pos < next <= |file| && next - pos <= chunk
  {
    if |file| - pos <= chunk then |file| else pos + chunk
  }

  function Frame(part: Bytes): (r: Bytes)
    ensures |r| == 4 + |part|
  {
    Prefix(|part|) + part
  }

  /** The frames of the file from a position on. */
  function Frames(file: Bytes, pos: nat, chunk: nat): Bytes
    requires pos <= |file| && 1 <= chunk <= MAX_CHUNK
    decreases |file| - pos
  {
    if pos == |file| then []
    else Frame(file[pos..ReadTo(file, pos, chunk)]) + Frames(file, ReadTo(file, pos, chunk), chunk)
  }

  function Encode(file: Bytes, chunk: nat): Bytes
    requires 1 <= chunk <= MAX_CHUNK
  {
    COMMAND + Frames(file, 0, chunk) + Prefix(0)
  }

  lemma Regroup(a: Bytes, b: Bytes, c: Bytes)
    ensures a + (b + c) == a + b + c
  {
  }

  /** The write loop, over the whole file. */
  method StreamFrames(file: Bytes, chunk: nat) returns (frames: Bytes)
    requires 1 <= chunk <= MAX_CHUNK
    ensures frames == Frames(file, 0, chunk)
  {
    frames := [];
    var pos := 0;
    while pos < |file|
      invariant 0 <= pos <= |file|
      invariant frames + Frames(file, pos, chunk) == Frames(file, 0, chunk)
    {
      var next := ReadTo(file, pos, chunk);
      var part := file[pos..next];
      Regroup(frames, Frame(part), Frames(file, next, chunk));
      frames := frames + Frame(part);
      pos := next;
    }
  }

  /** Everything written to the connection, in order. */
  method StreamFile(file: Bytes, chunk: nat) returns (wire: Bytes)
    requires 1 <= chunk <= MAX_CHUNK
    ensures wire == Encode(file, chunk)
  {
    var frames := StreamFrames(file, chunk);
    wire := COMMAND + frames + Prefix(0);
  }

  /** A reader of the protocol: the payload and what follows the terminator, or None for a broken stream. */
  function DecodeFrames(wire: Bytes): Option<(Bytes, Bytes)>
    decreases |wire|
  {
    if |wire| < 4 then None
    else
      var n := Length(wire[..4]);
      if n == 0 then Some(([], wire[4..]))
      else if |wire| < 4 + n then None
      else
        var rest := DecodeFrames(wire[4 + n..]);
        if rest.None? then None else Some((wire[4..4 + n] + rest.value.0, rest.value.1))
  }

  function Decode(wire: Bytes): Option<(Bytes, Bytes)> {
    if COMMAND <= wire then DecodeFrames(wire[|COMMAND|..]) else None
  }

  lemma ReadTerminator(rest: Bytes)
    ensures DecodeFrames(Prefix(0) + rest) == Some(([], rest))
  {
    PrefixRoundTrip(0);
    var wire := Prefix(0) + rest;
    assert wire[..4] == Prefix(0) && wire[4..] == rest;
  }

  lemma ReadFrame(part: Bytes, tail: Bytes)
    requires 0 < |part| <= MAX_CHUNK && DecodeFrames(tail).Some?
    ensures DecodeFrames(Frame(part) + tail) == Some((part + DecodeFrames(tail).value.0, DecodeFrames(tail).value.1))
  {
    PrefixRoundTrip(|part|);
    var wire := Frame(part) + tail;
    assert wire[..4] == Prefix(|part|);
    assert wire[4..4 + |part|] == part;
    assert wire[4 + |part|..] == tail;
  }

  lemma {:induction false} FramesDecode(file: Bytes, pos: nat, chunk: nat, end: Bytes, rest: Bytes)
    requires pos <= |file| && 1 <= chunk <= MAX_CHUNK
    requires DecodeFrames(end) == Some(([], rest))
    ensures DecodeFrames(Frames(file, pos, chunk) + end) == Some((file[pos..], rest))
    decreases |file| - pos
  {
    if pos == |file| {
      assert [] + end == end && file[pos..] == [];
    } else {
      var next := ReadTo(file, pos, chunk);
      FramesDecode(file, next, chunk, end, rest);
      ReadFrame(file[pos..next], Frames(file, next, chunk) + end);
      Regroup(Frame(file[pos..next]), Frames(file, next, chunk), end);
      assert file[pos..next] + file[next..] == file[pos..];
    }
  }

  /** The reads of the file from a position on. */
  function Parts(file: Bytes, pos: nat, chunk: nat): seq<Bytes>
    requires pos <= |file| && 1 <= chunk <= MAX_CHUNK
    decreases |file| - pos
  {
    if pos == |file| then []
    else [file[pos..ReadTo(file, pos, chunk)]] + Parts(file, ReadTo(file, pos, chunk), chunk)
  }

  function Framed(parts: seq<Bytes>): Bytes {
    if parts == [] then [] else Frame(parts[0]) + Framed(parts[1..])
  }

  function Joined(parts: seq<Bytes>): Bytes {
    if parts == [] then [] else parts[0] + Joined(parts[1..])
  }

  /** The frames are those of consecutive parts of the file. */
  lemma {:induction false} FramesCarryTheParts(file: Bytes, pos: nat, chunk: nat)
    requires pos <= |file| && 1 <= chunk <= MAX_CHUNK
    ensures Frames(file, pos, chunk) == Framed(Parts(file, pos, chunk))
    ensures Joined(Parts(file, pos, chunk)) == file[pos..]
    decreases |file| - pos
  {
    if pos == |file| {
      assert file[pos..] == [];
    } else {
      var next := ReadTo(file, pos, chunk);
      FramesCarryTheParts(file, next, chunk);
      assert Parts(file, pos, chunk)[1..] == Parts(file, next, chunk);
      assert file[pos..next] + file[next..] == file[pos..];
    }
  }

  /** A length of zero is never sent before the terminator, and every frame but the last is a full chunk. */
  lemma {:induction false} NoFrameIsEmpty(file: Bytes, pos: nat, chunk: nat, i: nat)
    requires pos <= |file| && 1 <= chunk <= MAX_CHUNK && i < |Parts(file, pos, chunk)|
    ensures var part := Parts(file, pos, chunk)[i];
      && 0 < |part| <= chunk
      && Length(Prefix(|part|)) == |part|
      && (i < |Parts(file, pos, chunk)| - 1 ==> |part| == chunk)
    decreases |file| - pos
  {
    var next := ReadTo(file, pos, chunk);
    if i == 0 {
      PrefixRoundTrip(next - pos);
      if next == |file| { assert Parts(file, next, chunk) == []; }
    } else {
      NoFrameIsEmpty(file, next, chunk, i - 1);
    }
  }

  /**
   Round trip: the scanner reads exactly the file's bytes, for every file and chunk size, and stops exactly
   at the end of the upload whatever is sent after it.
   */
  lemma DecodeInvertsEncode(file: Bytes, chunk: nat, rest: Bytes)
    requires 1 <= chunk <= MAX_CHUNK
    ensures Decode(Encode(file, chunk) + rest) == Some((file, rest))
  {
    ReadTerminator(rest);
    FramesDecode(file, 0, chunk, Prefix(0) + rest, rest);
    var wire := Encode(file, chunk) + rest;
    assert wire[..|COMMAND|] == COMMAND;
    assert wire[|COMMAND|..] == Frames(file, 0, chunk) + (Prefix(0) + rest);
  }

  /** Different files never look alike on the wire, even in chunks of different sizes. */
  lemma EncodingsAreUnambiguous(file: Bytes, chunk: nat, rest: Bytes, other: Bytes, otherChunk: nat, otherRest: Bytes)
    requires 1 <= chunk <= MAX_CHUNK && 1 <= otherChunk <= MAX_CHUNK
    requires Encode(file, chunk) + rest == Encode(other, otherChunk) + otherRest
    ensures file == other && rest == otherRest
  {
    DecodeInvertsEncode(file, chunk, rest);
    DecodeInvertsEncode(other, otherChunk, otherRest);
  }

  lemma {:induction false} FramesLength(file: Bytes, pos: nat, chunk: nat)
    requires pos <= |file| && 1 <= chunk <= MAX_CHUNK
    ensures |Frames(file, pos, chunk)| == |file| - pos + 4 * CeilDiv(|file| - pos, chunk)
    decreases |file| - pos
  {
    if pos < |file| { FramesLength(file, ReadTo(file, pos, chunk), chunk); }
  }

  /** The stream begins with the command word and a NUL and ends with a length of zero. */
  lemma WireEnds(file: Bytes, chunk: nat)
    requires 1 <= chunk <= MAX_CHUNK
    ensures var wire, word := Encode(file, chunk), "zINSTREAM";
      && |wire| >= 14
      && (forall i :: 0 <= i < 9 ==> wire[i] as int == word[i] as int) && wire[9] == 0
      && wire[|wire| - 4..] == [0, 0, 0, 0]
  {
    var wire, word := Encode(file, chunk), "zINSTREAM";
    assert forall i :: 0 <= i < 9 ==> COMMAND[i] as int == word[i] as int;
    PrefixIsNetworkOrder(0);
    assert Prefix(0) == [0, 0, 0, 0];
    assert wire[|wire| - 4..] == Prefix(0);
  }

  /** The upload is 10 bytes of command, the file, and four bytes for each chunk and for the terminator. */
  lemma WireLength(file: Bytes, chunk: nat)
    requires 1 <= chunk <= MAX_CHUNK
    ensures |Encode(file, chunk)| == 10 + |file| + 4 * (CeilDiv(|file|, chunk) + 1)
  {
    FramesLength(file, 0, chunk);
  }
}
