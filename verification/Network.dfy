/** The buffers behind messages and packets: what the serializer and the network code write and read. */
module Network {
  import opened Options
  import opened Bytes
  import opened Wire

  // ---------- One more field, one more row ----------

  lemma {:induction false} RowSnoc(schema: seq<Kind>, row: seq<Field>, k: nat)
    requires RowFits(schema, row) && k < |schema|
    ensures RowFits(schema[..k], row[..k]) && RowFits(schema[..k + 1], row[..k + 1])
    ensures RowBytes(schema[..k + 1], row[..k + 1]) == RowBytes(schema[..k], row[..k]) + FieldBytes(schema[k], row[k])
    ensures RowSizes(schema[..k + 1], row[..k + 1]) == RowSizes(schema[..k], row[..k]) + [FieldSize(schema[k], row[k])]
    decreases k
  {
    hide FieldBytes, FieldSize;
    if k > 0 {
      RowSnoc(schema[1..], row[1..], k - 1);
      assert schema[..k][1..] == schema[1..][..k - 1] && schema[..k + 1][1..] == schema[1..][..k];
      assert row[..k][1..] == row[1..][..k - 1] && row[..k + 1][1..] == row[1..][..k];
    }
  }

  lemma {:induction false} RowsSnoc(schema: seq<Kind>, rows: seq<seq<Field>>, k: nat)
    requires RowsFit(schema, rows) && k < |rows|
    ensures RowsFit(schema, rows[..k]) && RowsFit(schema, rows[..k + 1])
    ensures RowsBytes(schema, rows[..k + 1]) == RowsBytes(schema, rows[..k]) + RowBytes(schema, rows[k])
    ensures RowsSizes(schema, rows[..k + 1]) == RowsSizes(schema, rows[..k]) + RowSizes(schema, rows[k])
    decreases k
  {
    hide RowBytes, RowSizes, RowFits;
    if k > 0 {
      RowsSnoc(schema, rows[1..], k - 1);
      assert rows[..k][1..] == rows[1..][..k - 1] && rows[..k + 1][1..] == rows[1..][..k];
    } else {
      assert rows[..1][1..] == [] && rows[..1][0] == rows[0];
    }
  }

  lemma {:induction false} RowSizesPositive(schema: seq<Kind>, row: seq<Field>, k: nat)
    requires RowFits(schema, row) && k <= |schema|
    ensures RowFits(schema[..k], row[..k]) && |RowBytes(schema[..k], row[..k])| <= |RowBytes(schema, row)|
    decreases |schema| - k
  {
    if k == |schema| {
      assert schema[..k] == schema && row[..k] == row;
    } else {
      RowSnoc(schema, row, k);
      RowSizesPositive(schema, row, k + 1);
    }
  }

  lemma {:induction false} RowsBytesGrow(schema: seq<Kind>, rows: seq<seq<Field>>, k: nat)
    requires RowsFit(schema, rows) && k <= |rows|
    ensures RowsFit(schema, rows[..k]) && |RowsBytes(schema, rows[..k])| <= |RowsBytes(schema, rows)|
    decreases |rows| - k
  {
    hide RowBytes, RowFits;
    if k == |rows| {
      assert rows[..k] == rows;
    } else {
      RowsSnoc(schema, rows, k);
      RowsBytesGrow(schema, rows, k + 1);
    }
  }

  // ---------- Writing ----------

  /** memcpy into a buffer. */
  method Memcpy(to: array<Byte>, offset: nat, bytes: seq<Byte>)
    requires offset + |bytes| <= to.Length
    modifies to
    ensures to[..offset] == old(to[..offset]) && to[offset..offset + |bytes|] == bytes
    ensures to[offset + |bytes|..] == old(to[offset + |bytes|..])
  {
    for i := 0 to |bytes|
      invariant to[..offset] == old(to[..offset]) && to[offset..offset + i] == bytes[..i]
      invariant to[offset + |bytes|..] == old(to[offset + |bytes|..])
    {
      to[offset + i] := bytes[i];
    }
  }

  lemma Extended(to: seq<Byte>, a: nat, b: nat, done: seq<Byte>, bytes: seq<Byte>)
    requires a <= b <= |to| && to[..a] == done && to[a..b] == bytes
    ensures to[..b] == done + bytes
  {
    assert to[..b] == to[..a] + to[a..b];
  }

  /** The fields of one row, one after the other. */
  method WriteRow(to: array<Byte>, start: nat, schema: seq<Kind>, row: seq<Field>) returns (offset: nat)
    requires RowFits(schema, row) && start + |RowBytes(schema, row)| <= to.Length
    modifies to
    ensures offset == start + |RowBytes(schema, row)|
    ensures to[..offset] == old(to[..start]) + RowBytes(schema, row)
  {
    hide FieldBytes, Fits;
    offset := start;
    ghost var before := to[..start];
    RowSizesPositive(schema, row, 0);
    for k := 0 to |schema|
      invariant RowFits(schema[..k], row[..k])
      invariant offset == start + |RowBytes(schema[..k], row[..k])| && offset <= to.Length
      invariant to[..offset] == before + RowBytes(schema[..k], row[..k])
    {
      RowSnoc(schema, row, k);
      RowSizesPositive(schema, row, k + 1);
      var bytes := FieldBytes(schema[k], row[k]);
      ghost var done := to[..offset];
      Memcpy(to, offset, bytes);
      Extended(to[..], offset, offset + |bytes|, done, bytes);
      offset := offset + |bytes|;
    }
    assert schema[..|schema|] == schema && row[..|row|] == row;
  }

  /** serialize_content into a buffer of the declared size. */
  method SerializeContent(to: array<Byte>, m: Message)
    requires Sendable(m) && to.Length == Sum(Sizes(m))
    modifies to
    ensures to[..] == Content(m)
  {
    hide RowBytes, RowFits, RowsSizes, Rows, Schema;
    ContentRoundTrip(m);
    var schema, rows := Schema(Op(m)), Rows(m);
    var offset := 0;
    for i := 0 to |rows|
      invariant RowsFit(schema, rows[..i])
      invariant offset == |RowsBytes(schema, rows[..i])| && offset <= to.Length
      invariant to[..offset] == RowsBytes(schema, rows[..i])
    {
      RowsSnoc(schema, rows, i);
      RowsBytesGrow(schema, rows, i + 1);
      offset := WriteRow(to, offset, schema, rows[i]);
    }
    assert rows[..|rows|] == rows;
    assert to[..] == to[..offset];
  }

  /** elements_*_info: the size of every element, in order. */
  method ElementsInfo(m: Message) returns (sizes: seq<nat>)
    requires Sendable(m)
    ensures sizes == Sizes(m) && Sum(sizes) == |Content(m)|
  {
    hide RowBytes, RowsBytes, RowFits, Rows, Schema;
    ContentRoundTrip(m);
    var schema, rows := Schema(Op(m)), Rows(m);
    sizes := [];
    for i := 0 to |rows|
      invariant RowsFit(schema, rows[..i]) && sizes == RowsSizes(schema, rows[..i])
    {
      RowsSnoc(schema, rows, i);
      sizes := sizes + RowSizes(schema, rows[i]);
    }
    assert rows[..|rows|] == rows;
  }

  // ---------- Reading ----------

  /** What has been read, followed by what the rest gives. */
  function Followed(rows: seq<seq<Field>>, rest: Option<seq<seq<Field>>>): Option<seq<seq<Field>>>
  {
    if rest.None? then None else Some(rows + rest.value)
  }

  lemma ReadOneMore(schema: seq<Kind>, content: seq<Byte>, sizes: seq<nat>, rows: seq<seq<Field>>, row: seq<Field>)
    requires schema != [] && |sizes| >= |schema| && ReadRow(schema, content, sizes[..|schema|]) == Some(row)
    requires Sum(sizes[..|schema|]) <= |content|
    ensures Followed(rows, ReadRows(schema, content, sizes)) ==
            Followed(rows + [row], ReadRows(schema, content[Sum(sizes[..|schema|])..], sizes[|schema|..]))
  {
    hide Sum, ReadRow;
    var rest := ReadRows(schema, content[Sum(sizes[..|schema|])..], sizes[|schema|..]);
    if rest.Some? { assert rows + ([row] + rest.value) == rows + [row] + rest.value; }
  }

  /** Row by row, with an offset that advances by the declared sizes. */
  method ReadAllRows(schema: seq<Kind>, content: seq<Byte>, sizes: seq<nat>) returns (r: Option<seq<seq<Field>>>)
    requires schema != []
    ensures r == ReadRows(schema, content, sizes)
  {
    hide ReadRow, Sum;
    var rows, i, offset := [], 0, 0;
    ghost var whole := ReadRows(schema, content, sizes);
    ghost var left, more := content, sizes;
    assert whole.Some? ==> rows + whole.value == whole.value;
    while i < |sizes|
      invariant i <= |sizes| && offset <= |content| && left == content[offset..] && more == sizes[i..]
      invariant whole == Followed(rows, ReadRows(schema, left, more))
    {
      if i + |schema| > |sizes| { return None; }
      var declared := sizes[i..i + |schema|];
      assert more[..|schema|] == declared;
      var row := ReadRow(schema, content[offset..], declared);
      var size := Sum(declared);
      if row.None? || offset + size > |content| { return None; }
      ReadOneMore(schema, left, more, rows, row.value);
      rows := rows + [row.value];
      left, more := left[size..], more[|schema|..];
      offset, i := offset + size, i + |schema|;
    }
    assert rows + [] == rows;
    r := Some(rows);
  }

  /** deserialize_content. */
  method DeserializeContent(op: Operation, content: seq<Byte>, sizes: seq<nat>) returns (m: Option<Message>)
    ensures m == Deserialize(op, content, sizes)
  {
    hide FromRows, ReadRows, Schema;
    if Schema(op) == [] { return None; }
    var rows := ReadAllRows(Schema(op), content, sizes);
    m := if rows.None? then None else FromRows(op, rows.value);
  }

  // ---------- Packets ----------

  /** The length of the content: the sum of the sizes. */
  method ContentLength(sizes: seq<nat>) returns (length: nat)
    ensures length == Sum(sizes)
  {
    length := 0;
    assert sizes[..|sizes|] == sizes;
    for i := 0 to |sizes|
      invariant length == Sum(sizes[..i])
    {
      SumSnoc(sizes, i);
      length := length + sizes[i];
    }
  }

  /** send2: the bytes that it hands to the socket. */
  method Send2(p: Packet) returns (wrapper: array<Byte>)
    requires |p.content| == Sum(p.sizes)
    ensures fresh(wrapper) && wrapper[..] == Sent(p)
  {
    hide LittleEndian, SizesBytes, Sum, Header, Flag;
    var contentLength := ContentLength(p.sizes);
    wrapper := new Byte[13 + 4 * |p.sizes| + 1 + contentLength];
    var header, sizes, flag := Header(p), SizesBytes(p.sizes), [Flag(p.success)];
    var offset := Append(wrapper, 0, header, []);
    offset := Append(wrapper, offset, sizes, header);
    offset := Append(wrapper, offset, flag, header + sizes);
    offset := Append(wrapper, offset, p.content, header + sizes + flag);
    Grouped(header, sizes, flag, p.content);
    assert wrapper[..] == wrapper[..offset];
  }

  lemma Grouped<T>(a: seq<T>, b: seq<T>, c: seq<T>, d: seq<T>)
    ensures a + b + c + d == a + (b + (c + d))
  {
  }

  /** A memcpy at the end of what has been written, and the offset after it. */
  method Append(to: array<Byte>, offset: nat, bytes: seq<Byte>, ghost done: seq<Byte>) returns (next: nat)
    requires offset + |bytes| <= to.Length && to[..offset] == done
    modifies to
    ensures next == offset + |bytes| && to[..next] == done + bytes
  {
    Memcpy(to, offset, bytes);
    next := offset + |bytes|;
    Extended(to[..], offset, next, done, bytes);
  }

  lemma {:induction false} SumSnoc(sizes: seq<nat>, i: nat)
    requires i < |sizes|
    ensures Sum(sizes[..i + 1]) == Sum(sizes[..i]) + sizes[i]
  {
    SumConcat(sizes[..i], [sizes[i]]);
    assert sizes[..i + 1] == sizes[..i] + [sizes[i]];
    assert Sum([sizes[i]]) == sizes[i] + Sum([sizes[i]][1..]);
  }
}
