/** The decompression detour for saves: drain the reader, inflate into a growing buffer, check the CRC,
    and only then write. */
module SaveLoad {
  import opened Wrappers

  newtype byte = x: int | 0 <= x < 0x100
  newtype uint32 = x: int | 0 <= x < 0x1_0000_0000
  newtype uint64 = x: int | 0 <= x < 0x1_0000_0000_0000_0000

  const READ_CHUNK: uint32 := 0x10_0000
  const WRITE_CHUNK: uint64 := 0x80_0000
  const MIN_CAPACITY: uint64 := 0x10_0000
  const CEILING: uint64 := 0x100_0000_0000

  function Min(a: nat, b: nat): nat {
    if a < b then a else b
  }

  // ---- the reader ----------------------------------------------------------------------------

  /** One call's answer: the count it returns, which may be more than was asked for, and the bytes it
      puts in the buffer, of which no more land than were asked for. */
  datatype Answer = Answer(claimed: uint32, bytes: seq<byte>)

  /** The buffer after bytes landed at a position. */
  function Landed(buffer: seq<byte>, at: nat, bytes: seq<byte>, want: nat): (r: seq<byte>)
    requires at + want <= |buffer|
    ensures |r| == |buffer|
  {
    var n := Min(|bytes|, want);
    buffer[..at] + bytes[..n] + buffer[at + n..]
  }

  class Reader {
    /** The answers still to come; after them every call returns 0. */
    var answers: seq<Answer>

    constructor (answers: seq<Answer>)
      ensures this.answers == answers
    {
      this.answers := answers;
    }

    method Read(dst: array<byte>, at: nat, want: uint32) returns (n: uint32)
      requires at + want as nat <= dst.Length
      modifies this, dst
      ensures old(answers) == [] ==> n == 0 && answers == [] && dst[..] == old(dst[..])
      ensures old(answers) != [] ==>
                && n == old(answers)[0].claimed && answers == old(answers)[1..]
                && dst[..] == Landed(old(dst[..]), at, old(answers)[0].bytes, want as nat)
    {
      if answers == [] { return 0; }
      var a := answers[0];
      answers := answers[1..];
      var m := Min(|a.bytes|, want as nat);
      forall k | 0 <= k < m { dst[at + k] := a.bytes[k]; }
      n := a.claimed;
    }
  }

  /** The whole drain: the input, unless a call returned 0, and the answers left over. */
  function DrainFrom(answers: seq<Answer>, buffer: seq<byte>, got: nat): (Option<seq<byte>>, seq<Answer>)
    requires got <= |buffer|
    decreases |buffer| - got
  {
    if got == |buffer| then (Some(buffer), answers)
    else if answers == [] then (None, answers)
    else
      var want := Min(|buffer| - got, READ_CHUNK as nat);
      var buffer' := Landed(buffer, got, answers[0].bytes, want);
      if answers[0].claimed == 0 then (None, answers[1..])
      else DrainFrom(answers[1..], buffer', got + Min(answers[0].claimed as nat, want))
  }

  function Zeroes(n: nat): seq<byte> {
    seq(n, _ => 0)
  }

  function Drain(answers: seq<Answer>, size: nat): (Option<seq<byte>>, seq<Answer>) {
    DrainFrom(answers, Zeroes(size), 0)
  }

  method DrainReader(reader: Reader, out: array<byte>) returns (ok: bool)
    requires out[..] == Zeroes(out.Length) && out.Length < 0x1_0000_0000
    modifies reader, out
    ensures var (input, rest) := Drain(old(reader.answers), out.Length);
            ok == input.Some? && reader.answers == rest && (ok ==> out[..] == input.value)
  {
    hide Landed;
    var compressedSize := out.Length as uint32;
    var got: uint32 := 0;
    while got < compressedSize
      invariant got <= compressedSize
      invariant Drain(old(reader.answers), out.Length) == DrainFrom(reader.answers, out[..], got as nat)
    {
      var want := if compressedSize - got < READ_CHUNK then compressedSize - got else READ_CHUNK;
      var n := reader.Read(out, got as nat, want);
      if n == 0 { return false; }
      got := got + if n > want then want else n;
    }
    return true;
  }

  /** The bytes a row of calls delivers while room bytes are wanted: each no more than was asked for. */
  function Delivered(answers: seq<Answer>, room: nat): (n: nat)
    ensures n <= room
  {
    if answers == [] then 0
    else
      var n := Min(answers[0].claimed as nat, Min(room, 0x10_0000));
      n + Delivered(answers[1..], room - n)
  }

  /** A drain that succeeds took the first k answers: they deliver exactly the bytes wanted, and fewer would
      not have done. */
  lemma {:induction false} DrainTakesExactly(answers: seq<Answer>, buffer: seq<byte>, got: nat) returns (k: nat)
    requires got <= |buffer| && DrainFrom(answers, buffer, got).0.Some?
    ensures k <= |answers| && DrainFrom(answers, buffer, got).1 == answers[k..]
    ensures Delivered(answers[..k], |buffer| - got) == |buffer| - got
    ensures forall j :: 0 <= j < k ==> Delivered(answers[..j], |buffer| - got) < |buffer| - got
    decreases |buffer| - got
  {
    hide Landed;
    if got == |buffer| {
      k := 0;
    } else {
      var want := Min(|buffer| - got, READ_CHUNK as nat);
      var n := Min(answers[0].claimed as nat, want);
      var k' := DrainTakesExactly(answers[1..], Landed(buffer, got, answers[0].bytes, want), got + n);
      k := k' + 1;
      forall j | 0 <= j <= k'
        ensures Delivered(answers[..j + 1], |buffer| - got) == n + Delivered(answers[1..][..j], |buffer| - got - n)
      {
        assert answers[..j + 1][1..] == answers[1..][..j];
      }
      forall j | 0 <= j < k ensures Delivered(answers[..j], |buffer| - got) < |buffer| - got {
        if j > 0 { assert Delivered(answers[1..][..j - 1], |buffer| - got - n) < |buffer| - got - n; }
      }
    }
  }

  /** A reader that hands out a stream: each call delivers at least one byte, the next ones, and as many
      as it claims or was asked for. */
  ghost predicate Serves(answers: seq<Answer>, stream: seq<byte>, got: nat)
    requires got <= |stream|
    decreases |stream| - got
  {
    got == |stream| ||
    (&& answers != [] && answers[0].claimed > 0
     && var n := Min(answers[0].claimed as nat, Min(|stream| - got, 0x10_0000));
     && n <= |answers[0].bytes| && answers[0].bytes[..n] == stream[got..got + n]
     && Serves(answers[1..], stream, got + n))
  }

  /** One more piece of the stream has landed. */
  lemma LandedPiece(buffer: seq<byte>, stream: seq<byte>, got: nat, bytes: seq<byte>, want: nat, n: nat)
    requires got + want <= |buffer| == |stream| && buffer[..got] == stream[..got]
    requires n <= want && n <= |bytes| && bytes[..n] == stream[got..got + n]
    ensures Landed(buffer, got, bytes, want)[..got + n] == stream[..got + n]
  {
    var landed := Landed(buffer, got, bytes, want);
    assert landed[..got + n] == buffer[..got] + bytes[..n];
    assert stream[..got + n] == stream[..got] + stream[got..got + n];
  }

  lemma {:induction false} ServedDrain(answers: seq<Answer>, stream: seq<byte>, buffer: seq<byte>, got: nat)
    requires got <= |stream| == |buffer| && buffer[..got] == stream[..got] && Serves(answers, stream, got)
    ensures DrainFrom(answers, buffer, got).0 == Some(stream)
    decreases |stream| - got
  {
    hide Landed;
    if got == |stream| {
      assert buffer[..got] == buffer && stream[..got] == stream;
    } else {
      var want := Min(|stream| - got, READ_CHUNK as nat);
      var n := Min(answers[0].claimed as nat, want);
      var buffer' := Landed(buffer, got, answers[0].bytes, want);
      LandedPiece(buffer, stream, got, answers[0].bytes, want, n);
      ServedDrain(answers[1..], stream, buffer', got + n);
    }
  }

  // ---- the libraries -------------------------------------------------------------------------

  datatype Inflated = Success(output: seq<byte>) | InsufficientSpace | BadData | ShortOutput

  /** What the detour calls: inflating into a buffer of a capacity, the checksum, and whether memory for
      a buffer or for the decompressor can be had. */
  datatype Libraries = Libraries(inflate: (seq<byte>, nat) -> Inflated, crc: seq<byte> -> uint32,
                                 canAllocate: nat -> bool, hasDecompressor: bool)

  /** Inflating with doubled capacity until there is space, up to the first capacity over the ceiling. */
  function Grow(lib: Libraries, input: seq<byte>, cap: nat): Option<seq<byte>>
    requires cap > 0
    decreases 2 * CEILING as nat - cap
  {
    if !lib.canAllocate(cap) then None
    else
      match lib.inflate(input, cap)
      case InsufficientSpace => if cap > CEILING as nat then None else Grow(lib, input, 2 * cap)
      case Success(output) => Some(output)
      case _ => None
  }

  function FirstCapacity(size: nat): nat {
    if 4 * size < MIN_CAPACITY as nat then MIN_CAPACITY as nat else 4 * size
  }

  method Inflate(lib: Libraries, input: seq<byte>) returns (output: Option<seq<byte>>)
    requires |input| < 0x1_0000_0000
    ensures output == Grow(lib, input, FirstCapacity(|input|))
  {
    var cap: uint64 := |input| as uint64 * 4;
    if cap < MIN_CAPACITY { cap := MIN_CAPACITY; }
    while true
      invariant 0 < cap <= 2 * CEILING
      invariant Grow(lib, input, FirstCapacity(|input|)) == Grow(lib, input, cap as nat)
      decreases 2 * CEILING - cap
    {
      if !lib.canAllocate(cap as nat) { return None; }
      var rc := lib.inflate(input, cap as nat);
      if rc.InsufficientSpace? {
        if cap > CEILING { return None; }
        cap := cap * 2;
        continue;
      }
      return if rc.Success? then Some(rc.output) else None;
    }
  }

  // ---- the writer ----------------------------------------------------------------------------

  class Writer {
    var calls: seq<seq<byte>>

    constructor ()
      ensures calls == []
    {
      calls := [];
    }

    method Write(chunk: seq<byte>)
      modifies this
      ensures calls == old(calls) + [chunk]
    {
      calls := calls + [chunk];
    }
  }

  function Chunks(data: seq<byte>): seq<seq<byte>> {
    if data == [] then []
    else
      var n := Min(|data|, WRITE_CHUNK as nat);
      [data[..n]] + Chunks(data[n..])
  }

  function Flatten(chunks: seq<seq<byte>>): seq<byte> {
    if chunks == [] then [] else chunks[0] + Flatten(chunks[1..])
  }

  /** The chunks hold the data and nothing else; each but the last is of 8 MiB, and the last of one byte to 8 MiB. */
  lemma {:induction false} ChunksHoldData(data: seq<byte>)
    ensures Flatten(Chunks(data)) == data
    ensures forall c :: c in Chunks(data) ==> 1 <= |c| <= 0x80_0000
    ensures forall j :: 0 <= j < |Chunks(data)| - 1 ==> |Chunks(data)[j]| == 0x80_0000
    decreases |data|
  {
    if data != [] {
      var n := Min(|data|, WRITE_CHUNK as nat);
      ChunksHoldData(data[n..]);
      assert Chunks(data)[1..] == Chunks(data[n..]);
      assert data == data[..n] + data[n..];
    }
  }

  method WriteAll(writer: Writer, out: seq<byte>)
    requires |out| < 0x1_0000_0000_0000_0000
    modifies writer
    ensures writer.calls == old(writer.calls) + Chunks(out)
  {
    var off: uint64 := 0;
    while off < |out| as uint64
      invariant off as nat <= |out|
      invariant writer.calls + Chunks(out[off..]) == old(writer.calls) + Chunks(out)
    {
      var remaining := |out| as uint64 - off;
      var n := if remaining > WRITE_CHUNK then WRITE_CHUNK else remaining;
      ghost var left := out[off..];
      assert left[..n] == out[off..off + n] && left[n..] == out[off + n..];
      writer.Write(out[off..off + n]);
      off := off + n;
    }
  }

  // ---- the detour ----------------------------------------------------------------------------

  /** What a call with something to read hands to the writer, if it succeeds. */
  function Outcome(lib: Libraries, answers: seq<Answer>, size: nat, expectedCrc: uint32): Option<seq<byte>> {
    if !lib.canAllocate(size) || !lib.hasDecompressor then None
    else
      match Drain(answers, size).0
      case None => None
      case Some(input) =>
        match Grow(lib, input, FirstCapacity(size))
        case None => None
        case Some(output) => if lib.crc(output) == expectedCrc then Some(output) else None
  }

  /** The library fills no more than it is given. */
  ghost predicate Sane(lib: Libraries) {
    forall input, cap: nat :: lib.inflate(input, cap).Success? ==> |lib.inflate(input, cap).output| <= cap
  }

  lemma {:induction false} GrownFits(lib: Libraries, input: seq<byte>, cap: nat)
    requires Sane(lib) && 0 < cap <= 2 * CEILING as nat
    ensures Grow(lib, input, cap).Some? ==> |Grow(lib, input, cap).value| <= 2 * CEILING as nat
    decreases 2 * CEILING as nat - cap
  {
    if lib.canAllocate(cap) && lib.inflate(input, cap).InsufficientSpace? && cap <= CEILING as nat {
      GrownFits(lib, input, 2 * cap);
    }
  }

  /** Returns 1 and writes the whole output, or returns 0 and writes nothing. */
  method Decompress(lib: Libraries, reader: Reader?, writer: Writer?, compressedSize: uint32, expectedCrc: uint32)
      returns (r: nat)
    requires Sane(lib)
    modifies reader, writer
    ensures reader == null || writer == null ==>
              r == 0 && (reader != null ==> unchanged(reader)) && (writer != null ==> unchanged(writer))
    ensures reader != null && writer != null && compressedSize == 0 ==>
              r == (if expectedCrc == 0 then 1 else 0) && unchanged(reader) && unchanged(writer)
    ensures reader != null && writer != null && compressedSize > 0 ==>
              var o := Outcome(lib, old(reader.answers), compressedSize as nat, expectedCrc);
              && r == (if o.Some? then 1 else 0)
              && writer.calls == old(writer.calls) + (if o.Some? then Chunks(o.value) else [])
              && reader.answers == if lib.canAllocate(compressedSize as nat)
                                   then Drain(old(reader.answers), compressedSize as nat).1 else old(reader.answers)
  {
    hide Drain, Grow, Chunks;
    if reader == null || writer == null { return 0; }
    if compressedSize == 0 { return if expectedCrc == 0 then 1 else 0; }
    if !lib.canAllocate(compressedSize as nat) { return 0; }
    var input := new byte[compressedSize](_ => 0);
    assert input[..] == Zeroes(compressedSize as nat);
    var drained := DrainReader(reader, input);
    if !drained { return 0; }
    if !lib.hasDecompressor { return 0; }
    var out := Inflate(lib, input[..]);
    if out.None? { return 0; }
    if lib.crc(out.value) != expectedCrc { return 0; }
    GrownFits(lib, input[..], FirstCapacity(compressedSize as nat));
    WriteAll(writer, out.value);
    return 1;
  }

  // ---- what it comes to ----------------------------------------------------------------------

  /** The bytes a reader owns up to before it first returns 0, a call's answer counting for no more than
      the chunk asked for. */
  function Offered(answers: seq<Answer>): nat {
    if answers == [] || answers[0].claimed == 0 then 0
    else Min(answers[0].claimed as nat, 0x10_0000) + Offered(answers[1..])
  }

  /** The drain succeeds exactly when that is enough. */
  lemma {:induction false} DrainIsExact(answers: seq<Answer>, buffer: seq<byte>, got: nat)
    requires got <= |buffer|
    ensures DrainFrom(answers, buffer, got).0.Some? <==> got + Offered(answers) >= |buffer|
    decreases |buffer| - got
  {
    if got < |buffer| && answers != [] && answers[0].claimed > 0 {
      var want := Min(|buffer| - got, READ_CHUNK as nat);
      DrainIsExact(answers[1..], Landed(buffer, got, answers[0].bytes, want),
                   got + Min(answers[0].claimed as nat, want));
    }
  }

  /** The k-th doubling of a capacity. */
  function Doubled(cap: nat, k: nat): (r: nat)
    ensures r >= cap
  {
    if k == 0 then cap else 2 * Doubled(cap, k - 1)
  }

  /** The k-th doubling is tried and gives the output: memory was there each time, and every capacity before
      was too small and not over 1 TiB. */
  ghost predicate InflatesAt(lib: Libraries, input: seq<byte>, cap: nat, k: nat, output: seq<byte>) {
    && (forall j :: 0 <= j <= k ==> lib.canAllocate(Doubled(cap, j)))
    && (forall j :: 0 <= j < k ==>
         lib.inflate(input, Doubled(cap, j)) == InsufficientSpace && Doubled(cap, j) <= 0x100_0000_0000)
    && lib.inflate(input, Doubled(cap, k)) == Success(output)
  }

  lemma {:induction false} DoubledFrom(cap: nat, k: nat)
    ensures Doubled(2 * cap, k) == Doubled(cap, k + 1)
  {
    if k > 0 { DoubledFrom(cap, k - 1); }
  }

  lemma InflatesLater(lib: Libraries, input: seq<byte>, cap: nat, k: nat, output: seq<byte>)
    ensures InflatesAt(lib, input, cap, k + 1, output) <==>
            && lib.canAllocate(cap) && lib.inflate(input, cap) == InsufficientSpace && cap <= 0x100_0000_0000
            && InflatesAt(lib, input, 2 * cap, k, output)
  {
    forall j: nat ensures Doubled(2 * cap, j) == Doubled(cap, j + 1) { DoubledFrom(cap, j); }
    if InflatesAt(lib, input, cap, k + 1, output) {
      assert lib.canAllocate(Doubled(cap, 0));
      forall j | 0 <= j <= k ensures lib.canAllocate(Doubled(2 * cap, j)) {
        assert lib.canAllocate(Doubled(cap, j + 1));
      }
    }
    if InflatesAt(lib, input, 2 * cap, k, output) && lib.canAllocate(cap)
       && lib.inflate(input, cap) == InsufficientSpace && cap <= 0x100_0000_0000 {
      forall j | 0 <= j <= k + 1 ensures lib.canAllocate(Doubled(cap, j)) {
        if j > 0 { assert lib.canAllocate(Doubled(2 * cap, j - 1)); }
      }
      forall j | 0 <= j < k + 1
        ensures lib.inflate(input, Doubled(cap, j)) == InsufficientSpace && Doubled(cap, j) <= 0x100_0000_0000
      {
        if j > 0 { assert lib.inflate(input, Doubled(2 * cap, j - 1)) == InsufficientSpace; }
      }
    }
  }

  lemma {:induction false} GrowIsExact(lib: Libraries, input: seq<byte>, cap: nat, output: seq<byte>)
    requires cap > 0
    ensures Grow(lib, input, cap) == Some(output) <==> exists k: nat :: InflatesAt(lib, input, cap, k, output)
    decreases 2 * CEILING as nat - cap
  {
    hide InflatesAt;
    FirstTry(lib, input, cap, output);
    forall k: nat ensures InflatesAt(lib, input, cap, k + 1, output) <==>
            && lib.canAllocate(cap) && lib.inflate(input, cap) == InsufficientSpace && cap <= 0x100_0000_0000
            && InflatesAt(lib, input, 2 * cap, k, output)
    {
      InflatesLater(lib, input, cap, k, output);
    }
    if lib.canAllocate(cap) && lib.inflate(input, cap) == InsufficientSpace && cap <= CEILING as nat {
      GrowIsExact(lib, input, 2 * cap, output);
      if k: nat :| InflatesAt(lib, input, 2 * cap, k, output) { assert InflatesAt(lib, input, cap, k + 1, output); }
    }
    if k: nat :| k > 0 && InflatesAt(lib, input, cap, k, output) {
      assert InflatesAt(lib, input, cap, (k - 1) + 1, output);
      assert InflatesAt(lib, input, 2 * cap, k - 1, output);
      assert Grow(lib, input, 2 * cap) == Some(output);
      assert Grow(lib, input, cap) == Some(output);
    }
  }

  lemma FirstTry(lib: Libraries, input: seq<byte>, cap: nat, output: seq<byte>)
    ensures InflatesAt(lib, input, cap, 0, output) <==>
            lib.canAllocate(cap) && lib.inflate(input, cap) == Success(output)
  {
    assert InflatesAt(lib, input, cap, 0, output) ==> lib.canAllocate(Doubled(cap, 0));
  }

  /** What a call writes, exactly: the reader owns up to enough bytes before it returns 0, the input inflates
      in some capacity tried, and the checksum is the expected one. Anything else writes nothing. */
  lemma OutcomeExactly(lib: Libraries, answers: seq<Answer>, size: nat, expectedCrc: uint32, output: seq<byte>)
    ensures Outcome(lib, answers, size, expectedCrc) == Some(output) <==>
            && lib.canAllocate(size) && lib.hasDecompressor && Offered(answers) >= size
            && Drain(answers, size).0.Some?
            && var first := if size < 0x4_0000 then 0x10_0000 else 4 * size;
            && (exists k: nat :: InflatesAt(lib, Drain(answers, size).0.value, first, k, output))
            && lib.crc(output) == expectedCrc
  {
    hide Grow, InflatesAt, DrainFrom;
    DrainIsExact(answers, Zeroes(size), 0);
    if Drain(answers, size).0.Some? {
      GrowIsExact(lib, Drain(answers, size).0.value, FirstCapacity(size), output);
    }
  }

  /** The last capacity that is tried. */
  function LastCapacity(cap: nat): (last: nat)
    requires cap > 0
    ensures cap <= 2 * CEILING as nat ==> CEILING as nat < last <= 2 * CEILING as nat
    decreases 2 * CEILING as nat - cap
  {
    if cap > CEILING as nat then cap else LastCapacity(2 * cap)
  }

  /** Inflating an input whose text is given: it takes as much space as the text. */
  ghost predicate Holds(lib: Libraries, input: seq<byte>, text: seq<byte>) {
    forall cap: nat :: lib.inflate(input, cap) == if |text| <= cap then Success(text) else InsufficientSpace
  }

  lemma {:induction false} GrowFindsText(lib: Libraries, input: seq<byte>, text: seq<byte>, cap: nat)
    requires 0 < cap <= 2 * CEILING as nat && Holds(lib, input, text) && forall n: nat :: lib.canAllocate(n)
    ensures Grow(lib, input, cap) == if |text| <= LastCapacity(cap) then Some(text) else None
    decreases 2 * CEILING as nat - cap
  {
    if lib.inflate(input, cap).InsufficientSpace? && cap <= CEILING as nat {
      GrowFindsText(lib, input, text, 2 * cap);
    } else if lib.inflate(input, cap).Success? {
      LastIsNoLess(cap);
    }
  }

  lemma {:induction false} LastIsNoLess(cap: nat)
    requires cap > 0
    ensures LastCapacity(cap) >= cap
    decreases 2 * CEILING as nat - cap
  {
    if cap <= CEILING as nat { LastIsNoLess(2 * cap); }
  }

  /** However a reader cuts its stream up, the detour writes the stream's text exactly when that fits the
      last capacity tried and its checksum is the expected one, and nothing otherwise. A text of up to
      1 TiB always fits, one over 2 TiB never. */
  lemma ServedOutcome(lib: Libraries, answers: seq<Answer>, stream: seq<byte>, text: seq<byte>, expectedCrc: uint32)
    requires 0 < |stream| < 0x1_0000_0000 && Serves(answers, stream, 0) && Holds(lib, stream, text)
    requires lib.hasDecompressor && forall n: nat :: lib.canAllocate(n)
    ensures Outcome(lib, answers, |stream|, expectedCrc) ==
            if |text| <= LastCapacity(FirstCapacity(|stream|)) && lib.crc(text) == expectedCrc then Some(text) else None
    ensures 0x100_0000_0000 < LastCapacity(FirstCapacity(|stream|)) <= 0x200_0000_0000
  {
    hide Grow, DrainFrom, Serves;
    ServedDrain(answers, stream, Zeroes(|stream|), 0);
    GrowFindsText(lib, stream, text, FirstCapacity(|stream|));
  }
}
