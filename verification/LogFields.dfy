/** Where in a log file each field of a record lies, and which files are read. */
module LogFields {
  import opened Words
  import opened BinaryLog
  import opened LogLoader

  // ----- What the writer writes -----

  /** The header, byte by byte: magic, version 1, header size 16, entry size 36. */
  lemma HeaderInFull()
    ensures HeaderBytes() == [78, 76, 76, 79, 71, 0, 13, 10, 1, 0, 16, 0, 36, 0, 0, 0]
  {
    var one: Bytes, sixteen: Bytes, size: Bytes := [1, 0], [16, 0], [36, 0, 0, 0];
    TwoBytes(1, 0);
    TwoBytes(16, 0);
    DecodeFour(36, 0, 0, 0, []);
    Nothing();
    assert size + [] == size;
    EncodeUndoesDecode(one);
    EncodeUndoesDecode(sixteen);
    EncodeUndoesDecode(size);
  }

  lemma TwoBytes(a: Byte, b: Byte)
    ensures DecodeLe([a, b]) == a + 256 * b
  {
    DecodeOne(b, []);
    DecodeOne(a, [b]);
    assert [b] + [] == [b] && [a] + [b] == [a, b];
  }

  lemma Decoded(value: U64, width: nat)
    requires width == 8 || (width == 4 && value < TWO_TO_32)
    ensures DecodeLe(EncodeLe(value, width)) == value
  {
    Pow2Of4Bytes();
    Pow2OfWord();
    DecodeUndoesEncode(value, width);
  }

  /** An entry's fields lie one after another: sequence, transmit, receive, start, finish. */
  lemma EntryLayout(e: LogEntry)
    ensures var bytes := EntryBytes(e);
            && DecodeLe(bytes[0..4]) == e.sequence && DecodeLe(bytes[4..12]) == e.tx
            && DecodeLe(bytes[12..20]) == e.rx && DecodeLe(bytes[20..28]) == e.start
            && DecodeLe(bytes[28..36]) == e.finish
  {
    hide EncodeLe, DecodeLe, Pow2;
    var bytes := EntryBytes(e);
    Decoded(e.sequence, 4);
    Decoded(e.tx, 8);
    Decoded(e.rx, 8);
    Decoded(e.start, 8);
    Decoded(e.finish, 8);
    assert bytes[0..4] == EncodeLe(e.sequence, 4) && bytes[4..12] == EncodeLe(e.tx, 8);
    assert bytes[12..20] == EncodeLe(e.rx, 8) && bytes[20..28] == EncodeLe(e.start, 8);
    assert bytes[28..] == EncodeLe(e.finish, 8);
    assert bytes[28..36] == bytes[28..];
  }

  /** A legacy record: sequence, transmit, receive, and a signed latency in two's complement. */
  lemma LegacyLayout(e: LegacyEntry)
    requires e.Fits()
    ensures var bytes := LegacyBytes(e);
            && DecodeLe(bytes[0..4]) == e.sequence && DecodeLe(bytes[4..12]) == e.tx
            && DecodeLe(bytes[12..20]) == e.rx
            && DecodeLe(bytes[20..28]) == if e.latency < 0 then e.latency + 0x1_0000_0000_0000_0000 else e.latency
  {
    hide EncodeLe, DecodeLe, Pow2;
    var bytes := LegacyBytes(e);
    Decoded(e.sequence, 4);
    Decoded(e.tx, 8);
    Decoded(e.rx, 8);
    Decoded(ToUnsigned(e.latency), 8);
    assert bytes[0..4] == EncodeLe(e.sequence, 4) && bytes[4..12] == EncodeLe(e.tx, 8);
    assert bytes[12..20] == EncodeLe(e.rx, 8) && bytes[20..] == EncodeLe(ToUnsigned(e.latency), 8);
    assert bytes[20..28] == bytes[20..];
  }

  // ----- Which files are read, and how -----

  function HeaderSizeOf(raw: Bytes): nat
    requires |raw| >= 16
  {
    var low: nat, high: nat := raw[10], raw[11];
    low + 256 * high
  }

  /** A file with the magic is read exactly when its header gives version 1, entries of 36 bytes, and a
      header of at least 16 bytes that it holds, followed by whole entries. */
  lemma VersionedAccepted(raw: Bytes)
    requires [78, 76, 76, 79, 71, 0, 13, 10] <= raw
    ensures Load(raw).Ok? <==>
              && |raw| >= 16 && raw[8..10] == [1, 0] && raw[12..16] == [36, 0, 0, 0]
              && var header := HeaderSizeOf(raw); 16 <= header <= |raw| && (|raw| - header) % 36 == 0
  {
    hide VersionedRecords, DecodeLe;
    if |raw| >= 16 {
      TwoBytes(raw[8], raw[9]);
      TwoBytes(raw[10], raw[11]);
      assert raw[8..10] == [raw[8], raw[9]] && raw[10..12] == [raw[10], raw[11]];
      assert raw[12..16] == [raw[12], raw[13], raw[14], raw[15]] + [];
      DecodeFour(raw[12], raw[13], raw[14], raw[15], []);
      Nothing();
    }
  }

  /** A file without the magic is read exactly when it holds whole legacy records. */
  lemma LegacyAccepted(raw: Bytes)
    requires !([78, 76, 76, 79, 71, 0, 13, 10] <= raw)
    ensures Load(raw).Ok? <==> |raw| % 28 == 0
  {
  }

  lemma Slice(s: Bytes, at: nat, length: nat, i: nat, j: nat)
    requires i <= j <= length && at + length <= |s|
    ensures s[at..at + length][i..j] == s[at + i..at + j]
  {
    var part := s[at..at + length];
    assert forall k :: 0 <= k < j - i ==> part[i..j][k] == part[i + k] == s[at + (i + k)] == s[at + i..at + j][k];
  }

  /** The k-th record of a version 1 file, from the bytes where it lies. */
  lemma VersionedFields(raw: Bytes, k: nat)
    requires [78, 76, 76, 79, 71, 0, 13, 10] <= raw && Load(raw).Ok? && k < |Load(raw).value|
    ensures |raw| >= 16
    ensures var at := HeaderSizeOf(raw) + 36 * k;
            && at + 36 <= |raw|
            && var r := Load(raw).value[k];
               && r.sequence == DecodeLe(raw[at..at + 4]) && r.tx == DecodeLe(raw[at + 4..at + 12])
               && r.rx == DecodeLe(raw[at + 12..at + 20]) && r.start == DecodeLe(raw[at + 20..at + 28])
               && r.finish == DecodeLe(raw[at + 28..at + 36]) && r.latency.Absent? && r.version == 1
    ensures |Load(raw).value| == (|raw| - HeaderSizeOf(raw)) / 36
  {
    hide DecodeLe;
    VersionedAccepted(raw);
    TwoBytes(raw[10], raw[11]);
    assert raw[10..12] == [raw[10], raw[11]];
    var h := HeaderSizeOf(raw);
    var at := h + 36 * k;
    var chunk := Chunk(raw[h..], k);
    assert chunk == raw[at..at + 36];
    Slice(raw, at, 36, 0, 4);
    Slice(raw, at, 36, 4, 12);
    Slice(raw, at, 36, 12, 20);
    Slice(raw, at, 36, 20, 28);
    Slice(raw, at, 36, 28, 36);
    assert chunk[..4] == chunk[0..4] && chunk[28..] == chunk[28..36];
  }

  /** The k-th record of a legacy file: processing is taken to start and finish at reception. */
  lemma LegacyFields(raw: Bytes, k: nat)
    requires raw != [] && !([78, 76, 76, 79, 71, 0, 13, 10] <= raw) && Load(raw).Ok? && k < |Load(raw).value|
    ensures |Load(raw).value| == |raw| / 28 && 28 * k + 28 <= |raw|
    ensures var at := 28 * k;
            var r := Load(raw).value[k];
            && r.sequence == DecodeLe(raw[at..at + 4]) && r.tx == DecodeLe(raw[at + 4..at + 12])
            && r.rx == r.start == r.finish == DecodeLe(raw[at + 12..at + 20]) && r.version == 0
            && var latency := DecodeLe(raw[at + 20..at + 28]);
               r.latency ==
                 Recorded(if latency < 0x8000_0000_0000_0000 then latency else latency - 0x1_0000_0000_0000_0000)
  {
    hide DecodeLe;
    var at, chunk := 28 * k, LegacyChunk(raw, k);
    assert chunk == raw[at..at + 28];
    Slice(raw, at, 28, 0, 4);
    Slice(raw, at, 28, 4, 12);
    Slice(raw, at, 28, 12, 20);
    Slice(raw, at, 28, 20, 28);
    assert chunk[..4] == chunk[0..4];
  }

  // ----- Round trips, field by field -----

  /** Every field of every entry comes back from the file. */
  lemma LoadedFields(es: seq<LogEntry>, k: nat)
    requires k < |es|
    ensures var r := Load(LogBytes(es));
            && r.Ok? && |r.value| == |es|
            && var back := r.value[k];
               && back.sequence == es[k].sequence && back.tx == es[k].tx && back.rx == es[k].rx
               && back.start == es[k].start && back.finish == es[k].finish
               && back.latency.Absent? && back.version == 1
  {
    hide LogBytes, Load;
    LogRoundTrip(es);
  }

  /** And of every legacy entry, unless the file begins with the magic. */
  lemma LoadedLegacyFields(es: LegacyLog, k: nat)
    requires k < |es| && !([78, 76, 76, 79, 71, 0, 13, 10] <= LegacyLogBytes(es))
    ensures var r := Load(LegacyLogBytes(es));
            && r.Ok? && |r.value| == |es|
            && var back := r.value[k];
               && back.sequence == es[k].sequence && back.tx == es[k].tx
               && back.rx == back.start == back.finish == es[k].rx
               && back.latency == Recorded(es[k].latency) && back.version == 0
  {
    hide LegacyLogBytes, Load;
    LegacyReadBackExactly(es);
  }
}
