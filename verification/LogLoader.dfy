/** The log loader, version 1 and legacy, and what survives truncation. */
module LogLoader {
  import opened Words
  import opened BinaryLog

  const LEGACY_SIZE: nat := 28
  const TWO_TO_63: int := 0x8000_0000_0000_0000

  datatype Latency = Absent | Recorded(ns: int)

  datatype Record = Record(sequence: U32, tx: U64, rx: U64, start: U64, finish: U64, latency: Latency, version: nat)

  function RecordOf(e: LogEntry): Record {
    Record(e.sequence, e.tx, e.rx, e.start, e.finish, Absent, LOG_VERSION)
  }

  function RecordsOf(es: seq<LogEntry>): (rs: seq<Record>)
    ensures |rs| == |es|
  {
    seq(|es|, k requires 0 <= k < |es| => RecordOf(es[k]))
  }

  function Chunk(payload: Bytes, k: nat): (chunk: Bytes)
    requires ENTRY_SIZE * k + ENTRY_SIZE <= |payload|
    ensures |chunk| == ENTRY_SIZE
  {
    payload[ENTRY_SIZE * k..ENTRY_SIZE * k + ENTRY_SIZE]
  }

  function VersionedRecord(chunk: Bytes): Record
    requires |chunk| == ENTRY_SIZE
  {
    RecordOf(DecodeLogEntry(chunk).value)
  }

  function VersionedRecords(payload: Bytes): seq<Record>
    requires |payload| % ENTRY_SIZE == 0
  {
    seq(|payload| / ENTRY_SIZE, k requires 0 <= k < |payload| / ENTRY_SIZE => VersionedRecord(Chunk(payload, k)))
  }

  // ----- Legacy records -----

  datatype LegacyEntry = LegacyEntry(sequence: U32, tx: U64, rx: U64, latency: int) {
    predicate Fits() { -TWO_TO_63 <= latency < TWO_TO_63 }
  }

  /** Two's complement, both ways. */
  function ToUnsigned(x: int): U64
    requires -TWO_TO_63 <= x < TWO_TO_63
  {
    if x < 0 then x + TWO_TO_64 else x
  }

  function ToSigned(x: U64): int { if x >= TWO_TO_63 then x - TWO_TO_64 else x }

  function LegacyBytes(e: LegacyEntry): (bytes: Bytes)
    requires e.Fits()
    ensures |bytes| == LEGACY_SIZE
  {
    EncodeLe(e.sequence, 4) + EncodeLe(e.tx, 8) + EncodeLe(e.rx, 8) + EncodeLe(ToUnsigned(e.latency), 8)
  }

  function LegacyRecordOf(e: LegacyEntry): Record {
    Record(e.sequence, e.tx, e.rx, e.rx, e.rx, Recorded(e.latency), 0)
  }

  function LegacyChunk(raw: Bytes, k: nat): (chunk: Bytes)
    requires LEGACY_SIZE * k + LEGACY_SIZE <= |raw|
    ensures |chunk| == LEGACY_SIZE
  {
    raw[LEGACY_SIZE * k..LEGACY_SIZE * k + LEGACY_SIZE]
  }

  function LegacyRecord(chunk: Bytes): Record
    requires |chunk| == LEGACY_SIZE
  {
    LegacyRecordOf(LegacyEntry(DecodeU32(chunk[..4]), DecodeU64(chunk[4..12]), DecodeU64(chunk[12..20]),
                               ToSigned(DecodeU64(chunk[20..28]))))
  }

  function LegacyRecords(raw: Bytes): seq<Record>
    requires |raw| % LEGACY_SIZE == 0
  {
    seq(|raw| / LEGACY_SIZE, k requires 0 <= k < |raw| / LEGACY_SIZE => LegacyRecord(LegacyChunk(raw, k)))
  }

  // ----- The loader -----

  function Load(raw: Bytes): Result<seq<Record>> {
    if raw == [] then Ok([])
    else if LOG_MAGIC <= raw then LoadVersioned(raw)
    else if |raw| % LEGACY_SIZE != 0 then Error("unrecognized or truncated legacy binary log")
    else Ok(LegacyRecords(raw))
  }

  function LoadVersioned(raw: Bytes): Result<seq<Record>>
    requires LOG_MAGIC <= raw
  {
    if |raw| < HEADER_SIZE then Error("truncated binary log header")
    else
      var version, headerSize, entrySize := DecodeLe(raw[8..10]), DecodeLe(raw[10..12]), DecodeLe(raw[12..16]);
      if version != LOG_VERSION then Error("unsupported binary log version")
      else if headerSize < HEADER_SIZE || headerSize > |raw| then Error("invalid binary log header size")
      else if entrySize != ENTRY_SIZE then Error("unsupported binary log entry size")
      else if |raw[headerSize..]| % ENTRY_SIZE != 0 then Error("truncated versioned binary log record")
      else Ok(VersionedRecords(raw[headerSize..]))
  }

  method LoadBinaryFile(raw: Bytes) returns (r: Result<seq<Record>>)
    ensures r == Load(raw)
  {
    if raw == [] { return Ok([]); }
    var records := [];
    if LOG_MAGIC <= raw {
      if |raw| < HEADER_SIZE { return Error("truncated binary log header"); }
      var version := ReadLe(raw[8..10]);
      var headerSize := ReadLe(raw[10..12]);
      var entrySize := ReadLe(raw[12..16]);
      if version != LOG_VERSION { return Error("unsupported binary log version"); }
      if headerSize < HEADER_SIZE || headerSize > |raw| { return Error("invalid binary log header size"); }
      if entrySize != ENTRY_SIZE { return Error("unsupported binary log entry size"); }
      var payload := raw[headerSize..];
      if |payload| % ENTRY_SIZE != 0 { return Error("truncated versioned binary log record"); }
      for k := 0 to |payload| / ENTRY_SIZE
        invariant |records| == k
        invariant forall j :: 0 <= j < k ==> records[j] == VersionedRecords(payload)[j]
      {
        records := records + [VersionedRecord(Chunk(payload, k))];
      }
      assert records == VersionedRecords(payload);
    } else {
      if |raw| % LEGACY_SIZE != 0 { return Error("unrecognized or truncated legacy binary log"); }
      for k := 0 to |raw| / LEGACY_SIZE
        invariant |records| == k
        invariant forall j :: 0 <= j < k ==> records[j] == LegacyRecords(raw)[j]
      {
        records := records + [LegacyRecord(LegacyChunk(raw, k))];
      }
      assert records == LegacyRecords(raw);
    }
    return Ok(records);
  }

  // ----- What the writer wrote can be read -----

  function LogBytes(es: seq<LogEntry>): Bytes { HeaderBytes() + EntriesBytes(es) }

  lemma {:induction false} ChunkOfEntries(es: seq<LogEntry>, k: nat)
    requires k < |es|
    ensures Chunk(EntriesBytes(es), k) == EntryBytes(es[k])
  {
    hide EntryBytes;
    var n := |es| - 1;
    if k < n {
      ChunkOfEntries(es[..n], k);
    }
  }

  lemma RecordsOfEntries(es: seq<LogEntry>)
    ensures VersionedRecords(EntriesBytes(es)) == RecordsOf(es)
  {
    hide EntryBytes, EntriesBytes, DecodeLogEntry;
    forall k | 0 <= k < |es|
      ensures VersionedRecords(EntriesBytes(es))[k] == RecordOf(es[k])
    {
      ChunkOfEntries(es, k);
      EntryRoundTrip(es[k]);
    }
  }

  /** The first whole entries of a log are the log of its first entries. */
  lemma EntriesPrefix(es: seq<LogEntry>, k: nat)
    requires k <= |es|
    ensures EntriesBytes(es)[..ENTRY_SIZE * k] == EntriesBytes(es[..k])
  {
    hide EntryBytes, EntriesBytes;
    EntriesJoin(es[..k], es[k..]);
    assert es[..k] + es[k..] == es;
  }

  /** Whether n bytes of a log end at an entry boundary, or are no bytes at all. */
  predicate CleanCut(n: nat) { n == 0 || (n >= HEADER_SIZE && (n - HEADER_SIZE) % ENTRY_SIZE == 0) }

  /** Every prefix of a version 1 log is rejected, or decodes to a prefix of its entries; it is
      accepted exactly when it is empty or ends at an entry boundary. */
  lemma TruncationIsSafe(es: seq<LogEntry>, n: nat)
    requires n <= |LogBytes(es)|
    ensures var r := Load(LogBytes(es)[..n]);
            && (r.Ok? <==> CleanCut(n))
            && (n == 0 ==> r == Ok([]))
            && (CleanCut(n) && n > 0 ==>
                  (n - HEADER_SIZE) / ENTRY_SIZE <= |es| &&
                  r == Ok(RecordsOf(es[..(n - HEADER_SIZE) / ENTRY_SIZE])))
  {
    hide HeaderBytes, EntriesBytes, VersionedRecords, DecodeLe, LegacyRecords;
    var whole, raw := LogBytes(es), LogBytes(es)[..n];
    var header := HeaderBytes();
    HeaderFields();
    assert whole[..16] == header;
    if n >= HEADER_SIZE {
      assert raw[..8] == header[..8] && raw[8..10] == header[8..10];
      assert raw[10..12] == header[10..12] && raw[12..16] == header[12..16];
      var payload := raw[16..];
      assert payload == EntriesBytes(es)[..n - 16];
      if (n - HEADER_SIZE) % ENTRY_SIZE == 0 {
        var k := (n - HEADER_SIZE) / ENTRY_SIZE;
        EntriesPrefix(es, k);
        RecordsOfEntries(es[..k]);
      }
    } else if n >= 8 {
      assert raw[..8] == header[..8];
    }
  }

  // ----- Truncating any file -----

  function HeaderLength(raw: Bytes): nat
    requires |raw| >= HEADER_SIZE
  {
    DecodeLe(raw[10..12])
  }

  /** Where a file may be cut unnoticed: at nothing, or between two records. */
  predicate CleanCutOf(raw: Bytes, n: nat) {
    n == 0 ||
    if LOG_MAGIC <= raw then
      |raw| >= HEADER_SIZE && n >= HeaderLength(raw) && (n - HeaderLength(raw)) % ENTRY_SIZE == 0
    else n % LEGACY_SIZE == 0
  }

  lemma VersionedPrefix(payload: Bytes, m: nat)
    requires |payload| % ENTRY_SIZE == 0 && m % ENTRY_SIZE == 0 && m <= |payload|
    ensures VersionedRecords(payload[..m]) <= VersionedRecords(payload)
  {
    hide VersionedRecord;
    forall k | 0 <= k < m / ENTRY_SIZE
      ensures Chunk(payload[..m], k) == Chunk(payload, k)
    {
    }
  }

  lemma LegacyPrefix(raw: Bytes, m: nat)
    requires |raw| % LEGACY_SIZE == 0 && m % LEGACY_SIZE == 0 && m <= |raw|
    ensures LegacyRecords(raw[..m]) <= LegacyRecords(raw)
  {
    hide LegacyRecord;
    forall k | 0 <= k < m / LEGACY_SIZE
      ensures LegacyChunk(raw[..m], k) == LegacyChunk(raw, k)
    {
    }
  }

  lemma MagicSurvives(raw: Bytes, n: nat)
    requires n <= |raw|
    ensures LOG_MAGIC <= raw[..n] <==> LOG_MAGIC <= raw && n >= 8
  {
    if n >= 8 { assert raw[..n][..8] == raw[..8]; }
  }

  lemma TruncatedVersioned(raw: Bytes, n: nat)
    requires LOG_MAGIC <= raw && LoadVersioned(raw).Ok? && 8 <= n <= |raw|
    ensures LOG_MAGIC <= raw[..n]
    ensures var r := LoadVersioned(raw[..n]);
            (r.Ok? <==> CleanCutOf(raw, n)) && (r.Ok? ==> r.value <= LoadVersioned(raw).value)
  {
    hide VersionedRecords, DecodeLe, LOG_MAGIC;
    MagicSurvives(raw, n);
    var h, cut := HeaderLength(raw), raw[..n];
    if n >= HEADER_SIZE {
      assert cut[8..10] == raw[8..10] && cut[10..12] == raw[10..12] && cut[12..16] == raw[12..16];
      if n >= h && (n - h) % ENTRY_SIZE == 0 {
        assert cut[h..] == raw[h..][..n - h];
        VersionedPrefix(raw[h..], n - h);
      }
    }
  }

  /** Truncation is safe for every file the loader accepts, whichever its format and header: every
      prefix is rejected, or loads to a prefix of the records, and it is accepted exactly when it is
      empty or ends between two records. */
  lemma TruncationOfAnyFile(raw: Bytes, n: nat)
    requires Load(raw).Ok? && n <= |raw|
    ensures var r := Load(raw[..n]);
            (r.Ok? <==> CleanCutOf(raw, n)) && (r.Ok? ==> r.value <= Load(raw).value)
  {
    hide VersionedRecords, LegacyRecords, DecodeLe, LOG_MAGIC;
    MagicSurvives(raw, n);
    if LOG_MAGIC <= raw {
      HeadersAreLong(raw);
      if n >= 8 { TruncatedVersioned(raw, n); }
    } else if n % LEGACY_SIZE == 0 {
      LegacyPrefix(raw, n);
    }
  }

  lemma HeadersAreLong(raw: Bytes)
    requires Load(raw).Ok? && LOG_MAGIC <= raw
    ensures |raw| >= HEADER_SIZE && HeaderLength(raw) >= HEADER_SIZE
  {
  }

  /** Loading an untouched log returns every entry that was written. */
  lemma LogRoundTrip(es: seq<LogEntry>)
    ensures Load(LogBytes(es)) == Ok(RecordsOf(es))
  {
    var n := |LogBytes(es)|;
    TruncationIsSafe(es, n);
    assert LogBytes(es)[..n] == LogBytes(es) && es[..|es|] == es;
  }

  // ----- Legacy logs -----

  type LegacyLog = es: seq<LegacyEntry> | forall e :: e in es ==> e.Fits()

  function LegacyLogBytes(es: LegacyLog): (bytes: Bytes)
    ensures |bytes| == LEGACY_SIZE * |es|
  {
    if es == [] then [] else LegacyLogBytes(es[..|es| - 1]) + LegacyBytes(es[|es| - 1])
  }

  lemma LegacyRoundTrip(e: LegacyEntry)
    requires e.Fits()
    ensures LegacyRecord(LegacyBytes(e)) == LegacyRecordOf(e)
  {
    hide EncodeLe, DecodeLe, Pow2;
    var bytes := LegacyBytes(e);
    Pow2Of4Bytes();
    Pow2OfWord();
    DecodeUndoesEncode(e.sequence, 4);
    DecodeUndoesEncode(e.tx, 8);
    DecodeUndoesEncode(e.rx, 8);
    DecodeUndoesEncode(ToUnsigned(e.latency), 8);
    assert bytes[..4] == EncodeLe(e.sequence, 4);
    assert bytes[4..12] == EncodeLe(e.tx, 8);
    assert bytes[12..20] == EncodeLe(e.rx, 8);
    assert bytes[20..] == EncodeLe(ToUnsigned(e.latency), 8);
    assert bytes[20..28] == bytes[20..];
  }

  lemma {:induction false} LegacyChunkOf(es: LegacyLog, k: nat)
    requires k < |es|
    ensures LegacyChunk(LegacyLogBytes(es), k) == LegacyBytes(es[k])
  {
    hide LegacyBytes;
    var n := |es| - 1;
    if k < n { LegacyChunkOf(es[..n], k); }
  }

  function LegacyRecordsOf(es: LegacyLog): (rs: seq<Record>)
    ensures |rs| == |es|
  {
    seq(|es|, k requires 0 <= k < |es| => LegacyRecordOf(es[k]))
  }

  lemma LegacyRecordsOfLog(es: LegacyLog)
    ensures LegacyRecords(LegacyLogBytes(es)) == LegacyRecordsOf(es)
  {
    hide LegacyBytes, LegacyRecord, LegacyLogBytes, LegacyRecordOf;
    forall k | 0 <= k < |es|
      ensures LegacyRecords(LegacyLogBytes(es))[k] == LegacyRecordOf(es[k])
    {
      LegacyChunkOf(es, k);
      LegacyRoundTrip(es[k]);
    }
  }

  /** A legacy log is read back, except when its first record happens to begin with the version 1
      magic: then, and only then, the loader takes it for something else. */
  lemma LegacyReadBackExactly(es: LegacyLog)
    requires es != []
    ensures Load(LegacyLogBytes(es)) == Ok(LegacyRecordsOf(es)) <==> !(LOG_MAGIC <= LegacyLogBytes(es))
  {
    hide LegacyRecords, LoadVersioned, LegacyLogBytes, LOG_MAGIC;
    var raw := LegacyLogBytes(es);
    if LOG_MAGIC <= raw {
      VersionOne(raw);
      assert LegacyRecordsOf(es)[0].version == 0;
    } else {
      LegacyRecordsOfLog(es);
    }
  }

  /** A legacy entry whose bytes begin with the version 1 magic. */
  const MASQUERADE: LegacyEntry := LegacyEntry(0x4F4C_4C4E, 0x0A0D_0047, 0, 0)

  lemma MasqueradeIsMisread()
    ensures var es: LegacyLog := [MASQUERADE]; Load(LegacyLogBytes(es)) != Ok(LegacyRecordsOf(es))
  {
    var es: LegacyLog := [MASQUERADE];
    MasqueradeBytes();
    assert LegacyLogBytes(es) == [] + LegacyBytes(MASQUERADE);
    LegacyReadBackExactly(es);
  }

  lemma DecodeOne(b: Byte, rest: Bytes)
    ensures DecodeLe([b] + rest) == b + 256 * DecodeLe(rest)
  {
    assert ([b] + rest)[1..] == rest;
  }

  lemma DecodeFour(a: Byte, b: Byte, c: Byte, d: Byte, rest: Bytes)
    ensures DecodeLe([a, b, c, d] + rest) == a + 256 * (b + 256 * (c + 256 * (d + 256 * DecodeLe(rest))))
  {
    hide DecodeLe;
    DecodeOne(d, rest);
    DecodeOne(c, [d] + rest);
    DecodeOne(b, [c] + ([d] + rest));
    DecodeOne(a, [b] + ([c] + ([d] + rest)));
    assert [a, b, c, d] + rest == [a] + ([b] + ([c] + ([d] + rest)));
  }

  lemma MasqueradeBytes()
    ensures LOG_MAGIC <= LegacyBytes(MASQUERADE)
  {
    hide EncodeLe, DecodeLe;
    var low: Bytes, zeros: Bytes := [78, 76, 76, 79], [0, 0, 0, 0];
    var high: Bytes := [71, 0, 13, 10] + zeros;
    DecodeFour(78, 76, 76, 79, []);
    DecodeFour(0, 0, 0, 0, []);
    DecodeFour(71, 0, 13, 10, zeros);
    Nothing();
    assert low + [] == low && zeros + [] == zeros;
    EncodeUndoesDecode(low);
    EncodeUndoesDecode(high);
    assert LOG_MAGIC == low + high[..4];
  }

  /** Whatever a file with the magic is taken for, its records are version 1. */
  lemma VersionOne(raw: Bytes)
    requires LOG_MAGIC <= raw
    ensures LoadVersioned(raw).Ok? ==> forall r :: r in LoadVersioned(raw).value ==> r.version == LOG_VERSION
  {
  }

  // ----- The writer and the loader together -----

  datatype Op = LogIt(e: LogEntry) | FlushIt

  function Entries(ops: seq<Op>): seq<LogEntry> {
    if ops == [] then []
    else Entries(ops[..|ops| - 1]) + (if ops[|ops| - 1].LogIt? then [ops[|ops| - 1].e] else [])
  }

  /** How many entries have reached the file: all at a flush, and all before the one that would not
      fit once 1,820 are buffered. */
  function Durable(ops: seq<Op>): (n: nat)
    ensures n <= |Entries(ops)| <= n + BUFFERED_ENTRIES
  {
    if ops == [] then 0
    else
      var past := ops[..|ops| - 1];
      if ops[|ops| - 1].FlushIt? || |Entries(past)| - Durable(past) == BUFFERED_ENTRIES
      then |Entries(past)| else Durable(past)
  }

  /** Once flushed, an entry stays in the file. */
  lemma {:induction false} FlushedStaysDurable(before: seq<Op>, after: seq<Op>)
    ensures |Entries(before)| <= Durable(before + [FlushIt] + after)
    decreases |after|
  {
    var ops := before + [FlushIt] + after;
    if after == [] {
      assert ops[..|ops| - 1] == before;
    } else {
      assert ops[..|ops| - 1] == before + [FlushIt] + after[..|after| - 1];
      FlushedStaysDurable(before, after[..|after| - 1]);
    }
  }

  function Logs(es: seq<LogEntry>): seq<Op> { seq(|es|, i requires 0 <= i < |es| => LogIt(es[i])) }

  /** After a flush, n more entries leave the file as it is until 1,820 wait in the buffer and one more
      comes: all full buffers before the newest entry are in the file. */
  lemma {:induction false} FullBuffersAreDurable(before: seq<Op>, es: seq<LogEntry>)
    ensures var ops := before + [FlushIt] + Logs(es);
            && Entries(ops) == Entries(before) + es
            && Durable(ops) == |Entries(before)| + (if es == [] then 0 else 1820 * ((|es| - 1) / 1820))
  {
    var ops := before + [FlushIt] + Logs(es);
    if es == [] {
      assert ops[..|ops| - 1] == before;
      assert Entries(before) + [] == Entries(before) + es;
    } else {
      var past := es[..|es| - 1];
      assert ops[..|ops| - 1] == before + [FlushIt] + Logs(past);
      assert (Entries(before) + past) + [es[|es| - 1]] == Entries(before) + es;
      FullBuffersAreDurable(before, past);
    }
  }

  /** After any sequence of log and flush calls, the file loads to exactly the entries logged before
      the last flush or automatic flush. */
  method WriteThenLoad(ops: seq<Op>) returns (r: Result<seq<Record>>)
    ensures r == Ok(RecordsOf(Entries(ops)[..Durable(ops)]))
  {
    hide HeaderBytes, EntriesBytes, Load;
    var logger := new BinaryLogger();
    for i := 0 to |ops|
      invariant logger.Valid() && fresh(logger)
      invariant logger.logged == Entries(ops[..i]) && logger.flushed == Durable(ops[..i])
    {
      assert ops[..i + 1][..i] == ops[..i];
      if ops[i].LogIt? { logger.Log(ops[i].e); } else { logger.Flush(); }
    }
    assert ops[..|ops|] == ops;
    LogRoundTrip(logger.logged[..logger.flushed]);
    r := LoadBinaryFile(logger.file);
  }
}
