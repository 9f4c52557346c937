/** The version 1 binary log: little-endian codecs, the header, entries, and the buffered writer. */
module BinaryLog {
  import opened Words

  type Byte = x: nat | x < 256
  type Bytes = seq<Byte>

  datatype Result<+T> = Ok(value: T) | Error(reason: string)

  // ----- Little-endian integers -----

  function EncodeLe(value: nat, width: nat): (bytes: Bytes)
    ensures |bytes| == width
  {
    if width == 0 then [] else [value % 256] + EncodeLe(value / 256, width - 1)
  }

  function DecodeLe(bytes: Bytes): nat {
    if bytes == [] then 0 else bytes[0] + 256 * DecodeLe(bytes[1..])
  }

  lemma Pow2Bytes(width: nat)
    ensures Pow2(8 * (width + 1)) == 256 * Pow2(8 * width)
  {
    Pow2By4(8 * width);
    Pow2By4(8 * width + 4);
  }

  /** Decoding undoes encoding, for every value that fits the width. */
  lemma {:induction false} DecodeUndoesEncode(value: nat, width: nat)
    requires value < Pow2(8 * width)
    ensures DecodeLe(EncodeLe(value, width)) == value
  {
    if width > 0 {
      Pow2Bytes(width - 1);
      DecodeUndoesEncode(value / 256, width - 1);
      assert EncodeLe(value, width)[1..] == EncodeLe(value / 256, width - 1);
    }
  }

  /** Encoding undoes decoding, for every byte string, and decoded values fit. */
  lemma {:induction false} EncodeUndoesDecode(bytes: Bytes)
    ensures EncodeLe(DecodeLe(bytes), |bytes|) == bytes
    ensures DecodeLe(bytes) < Pow2(8 * |bytes|)
  {
    if bytes != [] {
      Pow2Bytes(|bytes| - 1);
      EncodeUndoesDecode(bytes[1..]);
      DivModUnique(DecodeLe(bytes), 256, DecodeLe(bytes[1..]), bytes[0]);
    }
  }

  function ShiftRight(value: nat, n: nat): nat {
    QuotientIsNat(value, Pow2(n));
    value / Pow2(n)
  }

  lemma QuotientIsNat(x: nat, d: nat)
    requires d > 0
    ensures x / d >= 0
  {
  }

  /** (value >> 8i) & 0xff */
  function ByteAt(value: nat, i: nat): nat { And(ShiftRight(value, 8 * i), 255) }

  lemma LowByte(x: nat)
    ensures ByteAt(x, 0) == x % 256
  {
    assert Pow2(8) == 256 && ShiftRight(x, 0) == x;
    MaskIsMod(x, 8);
  }

  lemma NextByte(value: nat, i: nat)
    requires i > 0
    ensures ByteAt(value, i) == ByteAt(value / 256, i - 1)
  {
    Pow2Bytes(i - 1);
    DivDiv(value, 256, Pow2(8 * (i - 1)));
  }

  /** Byte i of an encoding is what the source's shift and mask pick out. */
  lemma {:induction false} EncodedByte(value: nat, width: nat, i: nat)
    requires i < width
    ensures EncodeLe(value, width)[i] == ByteAt(value, i)
  {
    hide ByteAt;
    if i == 0 {
      LowByte(value);
    } else {
      EncodedByte(value / 256, width - 1, i - 1);
      NextByte(value, i);
    }
  }

  lemma DivDiv(x: nat, a: nat, b: nat)
    requires a > 0 && b > 0
    ensures x / a / b == x / (a * b)
  {
    var q, r, s := x / a / b, x / a % b, x % a;
    assert x / a == b * q + r;
    assert x == a * (b * q + r) + s;
    assert a * (b * q + r) == (a * b) * q + a * r;
    assert a * r + s < a * b by {
      Multiple(a, b - r);
      assert a * (b - r) == a * b - a * r;
    }
    DivModUnique(x, a * b, q, a * r + s);
  }

  /** OR-ing in a shifted byte above the bits already decoded adds it. */
  lemma {:induction false} OrAbove(low: nat, high: nat, n: nat)
    requires low < Pow2(n)
    ensures Or(low, high * Pow2(n)) == low + high * Pow2(n)
  {
    if n > 0 {
      var shifted := high * Pow2(n - 1);
      assert high * Pow2(n) == 2 * shifted;
      OrAbove(low / 2, high, n - 1);
      OrEven(low, shifted);
    }
  }

  /** encode_le: writes the bytes of value into output[at..]. */
  method WriteLe(value: nat, width: nat, output: array<Byte>, at: nat)
    requires at + width <= output.Length
    modifies output
    ensures output[at..at + width] == EncodeLe(value, width)
    ensures output[..at] == old(output[..at]) && output[at + width..] == old(output[at + width..])
  {
    hide ByteAt, EncodeLe;
    ghost var bytes := EncodeLe(value, width);
    for i := 0 to width
      invariant forall j :: 0 <= j < i ==> output[at + j] == bytes[j]
      invariant forall j :: 0 <= j < at || at + i <= j < output.Length ==> output[j] == old(output[j])
    {
      EncodedByte(value, width, i);
      output[at + i] := ByteAt(value, i);
    }
  }

  /** decode_le: accumulates the bytes with OR and shift. */
  method ReadLe(input: Bytes) returns (value: nat)
    ensures value == DecodeLe(input)
  {
    hide Or, Pow2, DecodeLe, EncodeLe;
    value := 0;
    Nothing();
    for i := 0 to |input|
      invariant value == DecodeLe(input[..i]) < Pow2(8 * i)
    {
      OrAbove(value, input[i], 8 * i);
      value := Or(value, input[i] * Pow2(8 * i));
      DecodeSnoc(input[..i], input[i]);
      assert input[..i + 1] == input[..i] + [input[i]];
      EncodeUndoesDecode(input[..i + 1]);
    }
    assert input[..|input|] == input;
  }

  lemma Nothing()
    ensures DecodeLe([]) == 0 && Pow2(8 * 0) == 1
  {
  }

  lemma {:induction false} DecodeSnoc(bytes: Bytes, b: Byte)
    ensures DecodeLe(bytes + [b]) == DecodeLe(bytes) + b * Pow2(8 * |bytes|)
  {
    if bytes == [] {
      assert [] + [b] == [b];
    } else {
      assert (bytes + [b])[1..] == bytes[1..] + [b];
      DecodeSnoc(bytes[1..], b);
      Pow2Bytes(|bytes| - 1);
      assert 256 * (b * Pow2(8 * (|bytes| - 1))) == b * Pow2(8 * |bytes|);
    }
  }

  // ----- Header and entries -----

  const LOG_MAGIC: Bytes := [78, 76, 76, 79, 71, 0, 13, 10]
  const LOG_VERSION: nat := 1
  const HEADER_SIZE: nat := 16
  const ENTRY_SIZE: nat := 36

  datatype LogEntry = LogEntry(sequence: U32, tx: U64, rx: U64, start: U64, finish: U64)

  function HeaderBytes(): (bytes: Bytes)
    ensures |bytes| == HEADER_SIZE
  {
    LOG_MAGIC + EncodeLe(LOG_VERSION, 2) + EncodeLe(HEADER_SIZE, 2) + EncodeLe(ENTRY_SIZE, 4)
  }

  function EntryBytes(e: LogEntry): (bytes: Bytes)
    ensures |bytes| == ENTRY_SIZE
  {
    EncodeLe(e.sequence, 4) + EncodeLe(e.tx, 8) + EncodeLe(e.rx, 8) + EncodeLe(e.start, 8) + EncodeLe(e.finish, 8)
  }

  method EncodeLogEntry(e: LogEntry) returns (bytes: array<Byte>)
    ensures fresh(bytes) && bytes[..] == EntryBytes(e)
  {
    hide EncodeLe;
    bytes := new Byte[ENTRY_SIZE](_ => 0);
    WriteLe(e.sequence, 4, bytes, 0);
    ghost var first := bytes[..4];
    WriteLe(e.tx, 8, bytes, 4);
    assert bytes[..12] == bytes[..4] + bytes[4..12];
    WriteLe(e.rx, 8, bytes, 12);
    assert bytes[..20] == bytes[..12] + bytes[12..20];
    WriteLe(e.start, 8, bytes, 20);
    assert bytes[..28] == bytes[..20] + bytes[20..28];
    WriteLe(e.finish, 8, bytes, 28);
    assert bytes[..] == bytes[..28] + bytes[28..36];
  }

  lemma DecodedFits(bytes: Bytes, width: nat)
    requires |bytes| == width && (width == 4 || width == 8)
    ensures width == 4 ==> DecodeLe(bytes) < TWO_TO_32
    ensures width == 8 ==> DecodeLe(bytes) < TWO_TO_64
  {
    EncodeUndoesDecode(bytes);
    Pow2OfWord();
    Pow2Of4Bytes();
  }

  lemma Pow2Of4Bytes()
    ensures 0x1_0000 == Pow2(16) && Pow2(32) == TWO_TO_32
  {
    Pow2By16(0);
    Pow2By16(16);
  }

  function DecodeU32(bytes: Bytes): U32
    requires |bytes| == 4
  {
    DecodedFits(bytes, 4);
    DecodeLe(bytes)
  }

  function DecodeU64(bytes: Bytes): U64
    requires |bytes| == 8
  {
    DecodedFits(bytes, 8);
    DecodeLe(bytes)
  }

  function DecodeLogEntry(bytes: Bytes): Result<LogEntry> {
    if |bytes| != ENTRY_SIZE then Error("truncated log entry")
    else Ok(LogEntry(DecodeU32(bytes[..4]), DecodeU64(bytes[4..12]), DecodeU64(bytes[12..20]),
                     DecodeU64(bytes[20..28]), DecodeU64(bytes[28..])))
  }

  /** Entries and their 36-byte encodings determine each other. */
  lemma EntryRoundTrip(e: LogEntry)
    ensures DecodeLogEntry(EntryBytes(e)) == Ok(e)
  {
    hide EncodeLe, DecodeLe, Pow2;
    var bytes := EntryBytes(e);
    Pow2Of4Bytes();
    Pow2OfWord();
    DecodeUndoesEncode(e.sequence, 4);
    DecodeUndoesEncode(e.tx, 8);
    DecodeUndoesEncode(e.rx, 8);
    DecodeUndoesEncode(e.start, 8);
    DecodeUndoesEncode(e.finish, 8);
    assert bytes[..4] == EncodeLe(e.sequence, 4);
    assert bytes[4..12] == EncodeLe(e.tx, 8);
    assert bytes[12..20] == EncodeLe(e.rx, 8);
    assert bytes[20..28] == EncodeLe(e.start, 8);
    assert bytes[28..] == EncodeLe(e.finish, 8);
  }

  lemma EntryBytesRoundTrip(bytes: Bytes)
    requires |bytes| == ENTRY_SIZE
    ensures EntryBytes(DecodeLogEntry(bytes).value) == bytes
  {
    hide EncodeLe, DecodeLe, Pow2;
    EncodeUndoesDecode(bytes[..4]);
    EncodeUndoesDecode(bytes[4..12]);
    EncodeUndoesDecode(bytes[12..20]);
    EncodeUndoesDecode(bytes[20..28]);
    EncodeUndoesDecode(bytes[28..]);
    assert bytes == bytes[..4] + bytes[4..12] + bytes[12..20] + bytes[20..28] + bytes[28..];
  }

  function ValidateLogHeader(bytes: Bytes): Result<()> {
    if |bytes| < HEADER_SIZE then Error("truncated log header")
    else if bytes[..8] != LOG_MAGIC then Error("invalid log magic")
    else if DecodeLe(bytes[8..10]) != LOG_VERSION then Error("unsupported log version")
    else if DecodeLe(bytes[10..12]) != HEADER_SIZE || DecodeLe(bytes[12..16]) != ENTRY_SIZE
    then Error("unsupported log layout")
    else Ok(())
  }

  /** The validator accepts exactly the header the writer produces. */
  lemma HeaderAcceptedExactly(bytes: Bytes)
    ensures ValidateLogHeader(bytes).Ok? <==> HeaderBytes() <= bytes
  {
    HeaderFields();
    if ValidateLogHeader(bytes).Ok? {
      EncodeUndoesDecode(bytes[8..10]);
      EncodeUndoesDecode(bytes[10..12]);
      EncodeUndoesDecode(bytes[12..16]);
      assert bytes[..16] == bytes[..8] + bytes[8..10] + bytes[10..12] + bytes[12..16];
    }
    if HeaderBytes() <= bytes {
      assert bytes[..16] == HeaderBytes();
      assert bytes[..8] == HeaderBytes()[..8] && bytes[8..10] == HeaderBytes()[8..10];
      assert bytes[10..12] == HeaderBytes()[10..12] && bytes[12..16] == HeaderBytes()[12..16];
    }
  }

  lemma HeaderFields()
    ensures var h := HeaderBytes();
            h[..8] == LOG_MAGIC && DecodeLe(h[8..10]) == LOG_VERSION &&
            DecodeLe(h[10..12]) == HEADER_SIZE && DecodeLe(h[12..16]) == ENTRY_SIZE
  {
    hide EncodeLe, DecodeLe, Pow2;
    var h := HeaderBytes();
    Pow2Of4Bytes();
    DecodeUndoesEncode(LOG_VERSION, 2);
    DecodeUndoesEncode(HEADER_SIZE, 2);
    DecodeUndoesEncode(ENTRY_SIZE, 4);
    var version, header, entry := EncodeLe(LOG_VERSION, 2), EncodeLe(HEADER_SIZE, 2), EncodeLe(ENTRY_SIZE, 4);
    assert h == LOG_MAGIC + version + header + entry;
    assert h[8..10] == version && h[10..12] == header && h[12..16] == entry;
  }

  // ----- The buffered writer -----

  const BUFFER_CAPACITY: nat := 64 * 1024
  /** How many entries the buffer holds before it flushes itself. */
  const BUFFERED_ENTRIES: nat := 1820

  function EntriesBytes(es: seq<LogEntry>): (bytes: Bytes)
    ensures |bytes| == ENTRY_SIZE * |es|
  {
    if es == [] then [] else EntriesBytes(es[..|es| - 1]) + EntryBytes(es[|es| - 1])
  }

  lemma EntriesAfter(es: seq<LogEntry>, e: LogEntry)
    ensures EntriesBytes(es + [e]) == EntriesBytes(es) + EntryBytes(e)
  {
    assert (es + [e])[..|es|] == es;
  }

  lemma {:induction false} EntriesJoin(a: seq<LogEntry>, b: seq<LogEntry>)
    ensures EntriesBytes(a + b) == EntriesBytes(a) + EntriesBytes(b)
  {
    hide EntryBytes;
    if b == [] {
      assert a + b == a;
    } else {
      EntriesJoin(a, b[..|b| - 1]);
      assert a + b == (a + b[..|b| - 1]) + [b[|b| - 1]];
      EntriesAfter(a + b[..|b| - 1], b[|b| - 1]);
    }
  }

  class BinaryLogger {
    var file: Bytes
    var buffer: Bytes
    ghost var logged: seq<LogEntry>
    ghost var flushed: nat

    /** The file holds the header and the flushed entries, the buffer the rest. */
    ghost predicate Valid()
      reads this
    {
      && flushed <= |logged| <= flushed + BUFFERED_ENTRIES
      && file == HeaderBytes() + EntriesBytes(logged[..flushed])
      && buffer == EntriesBytes(logged[flushed..])
    }

    constructor ()
      ensures Valid() && logged == [] && flushed == 0
    {
      file := HeaderBytes();
      buffer := [];
      logged, flushed := [], 0;
    }

    method Flush()
      requires Valid()
      modifies this
      ensures Valid() && logged == old(logged) && flushed == |logged|
    {
      hide EntryBytes, HeaderBytes;
      if buffer != [] {
        file := file + buffer;
        buffer := [];
      }
      EntriesJoin(logged[..flushed], logged[flushed..]);
      assert logged[..flushed] + logged[flushed..] == logged;
      flushed := |logged|;
      assert logged[..flushed] == logged;
    }

    method Log(e: LogEntry)
      requires Valid()
      modifies this
      ensures Valid() && logged == old(logged) + [e]
      ensures flushed == if |old(logged)| - old(flushed) == BUFFERED_ENTRIES then |old(logged)| else old(flushed)
    {
      hide EntryBytes, HeaderBytes;
      var bytes := EncodeLogEntry(e);
      if |buffer| + bytes.Length > BUFFER_CAPACITY { Flush(); }
      EntriesAfter(logged[flushed..], e);
      buffer := buffer + bytes[..];
      assert (logged + [e])[..flushed] == logged[..flushed];
      assert (logged + [e])[flushed..] == logged[flushed..] + [e];
      logged := logged + [e];
    }
  }
}
