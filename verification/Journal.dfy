/** A journal on its way from the cache to the engine: the packet that carries it and what the engine makes of it. */
module Journals {
  import opened Options
  import opened Records
  import opened Bytes
  import opened Memorias
  import opened Store
  import FileSystems
  import Wire

  /** The process number of a memory. */
  const MEMORY := 3

  // ---------- Strings as bytes ----------

  /** A C string: one byte per character, and none of them NUL. */
  predicate IsCString(s: string) { forall i :: 0 <= i < |s| ==> 0 < s[i] as int < 256 }

  function ToBytes(s: string): (bytes: seq<Byte>)
    requires IsCString(s)
    ensures |bytes| == |s| && 0 !in bytes
  {
    seq(|s|, i requires 0 <= i < |s| => s[i] as int)
  }

  function FromBytes(bytes: seq<Byte>): (s: string)
    ensures |s| == |bytes|
  {
    seq(|bytes|, i requires 0 <= i < |bytes| => bytes[i] as char)
  }

  lemma BytesRoundTrip(s: string)
    requires IsCString(s)
    ensures FromBytes(ToBytes(s)) == s
  {
  }

  /** A length that an int holds, with the NUL. */
  predicate Short(s: string) { 2 * (|s| + 1) < Pow(4) }

  // ---------- The request ----------

  /** What the C variables of a row can hold: a C string, a uint16_t, a C string and a long long. */
  predicate RowOk(d: Dirty)
  {
    && IsCString(d.table) && Short(d.table) && IsCString(d.record.value) && Short(d.record.value)
    && d.record.key < KEYS && 2 * d.record.ts < Pow(8)
  }

  predicate RowsOk(dirty: seq<Dirty>) { forall i :: 0 <= i < |dirty| ==> RowOk(dirty[i]) }

  function ToInsert(d: Dirty): Wire.Insert
    requires RowOk(d)
  {
    Wire.Insert(ToBytes(d.table), d.record.key, ToBytes(d.record.value), d.record.ts)
  }

  /** list_add_multi_lists: the multi-insert that carries the dirty records. */
  function Request(dirty: seq<Dirty>): (m: Wire.Message)
    requires RowsOk(dirty)
    ensures m.MultiInsertIn? && |m.inserts| == |dirty|
  {
    Wire.MultiInsertIn(seq(|dirty|, i requires 0 <= i < |dirty| => ToInsert(dirty[i])))
  }

  lemma Powers()
    ensures Pow(2) == KEYS && Pow(1) == 256
  {
  }

  lemma RequestFits(dirty: seq<Dirty>)
    requires RowsOk(dirty) && 8 * |dirty| < Pow(4)
    ensures Wire.Sendable(Request(dirty)) && Wire.SmallFields(Request(dirty))
  {
    hide Pow, ToBytes;
    var m := Request(dirty);
    Powers();
    forall i | 0 <= i < |dirty| ensures RowFits(Wire.Schema(Wire.MULTIINSERT_IN), Wire.Rows(m)[i]) { RowFitsSchema(dirty, i); }
    Wire.CountOf(m);
    Wire.InsertCount(m);
    SmallSizes(dirty);
  }

  lemma RowFitsSchema(dirty: seq<Dirty>, i: nat)
    requires RowsOk(dirty) && i < |dirty|
    ensures RowFits(Wire.Schema(Wire.MULTIINSERT_IN), Wire.Rows(Request(dirty))[i])
  {
    hide Pow, ToBytes;
    Powers();
    assert RowOk(dirty[i]);
    assert Wire.Rows(Request(dirty))[i] == Wire.InsertRow(ToInsert(dirty[i]));
  }

  lemma SmallSizes(dirty: seq<Dirty>)
    requires RowsOk(dirty) && Wire.Sendable(Request(dirty))
    ensures forall i :: 0 <= i < |Wire.Sizes(Request(dirty))| ==> 2 * Wire.Sizes(Request(dirty))[i] < Pow(4)
  {
    hide ToBytes, RowsSizes, Pow;
    var m := Request(dirty);
    Wire.CountOf(m);
    Wire.InsertCount(m);
    forall i | 0 <= i < |dirty| ensures SmallRow(RowSizes(Wire.Schema(Wire.MULTIINSERT_IN), Wire.Rows(m)[i])) {
      assert RowOk(dirty[i]);
      assert Wire.Rows(m)[i] == Wire.InsertRow(ToInsert(dirty[i]));
      RowFitsSchema(dirty, i);
      SmallRowSizes(dirty[i]);
    }
    SmallRows(Wire.Schema(Wire.MULTIINSERT_IN), Wire.Rows(m));
  }

  predicate SmallRow(sizes: seq<nat>) { forall i :: 0 <= i < |sizes| ==> 2 * sizes[i] < Pow(4) }

  lemma SmallRowSizes(d: Dirty)
    requires RowOk(d) && RowFits(Wire.Schema(Wire.MULTIINSERT_IN), Wire.InsertRow(ToInsert(d)))
    ensures SmallRow(RowSizes(Wire.Schema(Wire.MULTIINSERT_IN), Wire.InsertRow(ToInsert(d))))
  {
    hide ToBytes, Fits;
    var schema, row := Wire.Schema(Wire.MULTIINSERT_IN), Wire.InsertRow(ToInsert(d));
    assert RowSizes(schema, row) == [|d.table| + 1, 2, |d.record.value| + 1, 8] by { FourSizes(schema, row); }
    assert Pow(4) == 0x1_0000_0000;
  }

  lemma FourSizes(schema: seq<Kind>, row: seq<Field>)
    requires |schema| == 4 && RowFits(schema, row)
    ensures RowSizes(schema, row) ==
            [FieldSize(schema[0], row[0]), FieldSize(schema[1], row[1]), FieldSize(schema[2], row[2]), FieldSize(schema[3], row[3])]
  {
    hide FieldSize, Fits;
    assert RowSizes(schema[4..], row[4..]) == [];
    assert schema[3..][1..] == schema[4..] && row[3..][1..] == row[4..];
    assert schema[2..][1..] == schema[3..] && row[2..][1..] == row[3..];
    assert schema[1..][1..] == schema[2..] && row[1..][1..] == row[2..];
    assert RowSizes(schema[3..], row[3..]) == [FieldSize(schema[3], row[3])];
    assert RowSizes(schema[2..], row[2..]) == [FieldSize(schema[2], row[2])] + RowSizes(schema[3..], row[3..]);
    assert RowSizes(schema[1..], row[1..]) == [FieldSize(schema[1], row[1])] + RowSizes(schema[2..], row[2..]);
  }

  lemma {:induction false} SmallRows(schema: seq<Kind>, rows: seq<seq<Field>>)
    requires RowsFit(schema, rows) && forall i :: 0 <= i < |rows| ==> SmallRow(RowSizes(schema, rows[i]))
    ensures SmallRow(RowsSizes(schema, rows))
    decreases |rows|
  {
    hide RowSizes, Pow, RowFits;
    if rows != [] {
      SmallRows(schema, rows[1..]);
      assert SmallRow(RowSizes(schema, rows[0]));
    }
  }

  // ---------- What the engine makes of it ----------

  /** An insert as the engine reads it; a timestamp that is negative is the clock's. */
  function ToRow(i: Wire.Insert): FileSystems.Row
  {
    FileSystems.Row(FromBytes(i.table), Record(if i.timestamp >= 0 then i.timestamp else 0, if i.key >= 0 then i.key else 0, FromBytes(i.value)))
  }

  function ToRows(inserts: seq<Wire.Insert>): (rows: seq<FileSystems.Row>)
    ensures |rows| == |inserts|
  {
    seq(|inserts|, i requires 0 <= i < |inserts| => ToRow(inserts[i]))
  }

  /** The rows that the engine receives; none if the packet cannot be read. */
  function ReceivedRows(dirty: seq<Dirty>): Option<seq<FileSystems.Row>>
    requires RowsOk(dirty) && 8 * |dirty| < Pow(4)
  {
    RequestFits(dirty);
    match Wire.Arrives(Request(dirty), MEMORY, true)
    case Some(MultiInsertIn(inserts)) => Some(ToRows(inserts))
    case _ => None
  }

  /** The dirty records in the engine's terms. */
  function RowsToSend(dirty: seq<Dirty>): (rows: seq<FileSystems.Row>)
    ensures |rows| == |dirty|
  {
    seq(|dirty|, i requires 0 <= i < |dirty| => FileSystems.Row(dirty[i].table, dirty[i].record))
  }

  /** What process_multiinsert answers: 0 if every row is taken, otherwise -1; nothing without a request. */
  function EngineReply(dirty: seq<Dirty>, tables: Tables, maxValue: nat): Option<int>
    requires RowsOk(dirty) && 8 * |dirty| < Pow(4)
  {
    match ReceivedRows(dirty)
    case None => None
    case Some(rows) => Some(if forall i :: 0 <= i < |rows| ==> FileSystems.Takes(rows[i], tables, maxValue) then 0 else -1)
  }

  /** What the engine receives, by the number of records. */
  lemma ReceivedByCount(dirty: seq<Dirty>)
    requires RowsOk(dirty) && 8 * |dirty| < Pow(4)
    ensures |dirty| <= 31 ==> ReceivedRows(dirty) == Some(RowsToSend(dirty))
    ensures |dirty| % 64 >= 32 ==> ReceivedRows(dirty) == None
    ensures |dirty| % 64 == 0 ==> ReceivedRows(dirty) == Some([])
    ensures var k := |dirty| % 64;
            |dirty| >= 64 && 1 <= k <= 31 && |dirty[k].table| < 255 && ReceivedRows(dirty).Some? ==>
              |ReceivedRows(dirty).value| == k && ReceivedRows(dirty).value[0].table == ""
  {
    hide Pow, RowOk, ToBytes, ToInsert, Wire.Arrives, Wire.Sendable, Wire.SmallFields, RowsToSend;
    RequestFits(dirty);
    Wire.MultiInsertArrival(Request(dirty), MEMORY, true);
    RequestBack(dirty);
    if |dirty| >= 64 && 1 <= |dirty| % 64 <= 31 { TableBytes(dirty, |dirty| % 64); }
  }

  lemma TableBytes(dirty: seq<Dirty>, k: nat)
    requires RowsOk(dirty) && k < |dirty|
    ensures |Request(dirty).inserts[k].table| == |dirty[k].table|
  {
    hide Pow, ToBytes;
    assert RowOk(dirty[k]);
  }

  lemma RequestBack(dirty: seq<Dirty>)
    requires RowsOk(dirty)
    ensures ToRows(Request(dirty).inserts) == RowsToSend(dirty)
  {
    hide Pow, ToBytes, FromBytes;
    forall i | 0 <= i < |dirty| ensures ToRow(Request(dirty).inserts[i]) == RowsToSend(dirty)[i] {
      assert RowOk(dirty[i]);
      BytesRoundTrip(dirty[i].table);
      BytesRoundTrip(dirty[i].record.value);
    }
  }

  /**
    Which journals are acknowledged: those of at most 31 records, which are stored in full, and those of a multiple of 64,
    of which nothing is stored. The engine's tables have names, and the names are of ordinary length.
   */
  lemma AcknowledgedIff(dirty: seq<Dirty>, tables: Tables, maxValue: nat)
    requires RowsOk(dirty) && 8 * |dirty| < Pow(4) && "" !in tables
    requires forall i :: 0 <= i < |dirty| ==> dirty[i].table in tables && |dirty[i].record.value| <= maxValue && |dirty[i].table| < 255
    ensures EngineReply(dirty, tables, maxValue) == Some(0) <==> |dirty| <= 31 || |dirty| % 64 == 0
    ensures EngineReply(dirty, tables, maxValue) == Some(0) && ReceivedRows(dirty) != Some(RowsToSend(dirty)) <==>
            |dirty| >= 64 && |dirty| % 64 == 0
  {
    hide Pow, RowOk, ReceivedRows;
    ReceivedByCount(dirty);
    var k := |dirty| % 64;
    if |dirty| >= 64 && 1 <= k <= 31 && ReceivedRows(dirty).Some? {
      assert !FileSystems.Takes(ReceivedRows(dirty).value[0], tables, maxValue);
    }
  }
}
