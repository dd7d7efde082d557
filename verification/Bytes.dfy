/** Numbers and strings as the bytes that a little-endian machine copies to and from a buffer. */
module Bytes {
  import opened Options

  type Byte = b: int | 0 <= b < 256

  /** 256 to the power of a width. */
  function Pow(width: nat): (p: nat)
    ensures p >= 1
  {
    if width == 0 then 1 else 256 * Pow(width - 1)
  }

  function LittleEndian(x: nat, width: nat): (bytes: seq<Byte>)
    ensures |bytes| == width
  {
    if width == 0 then [] else [x % 256] + LittleEndian(x / 256, width - 1)
  }

  function FromLittleEndian(bytes: seq<Byte>): nat
  {
    if bytes == [] then 0 else bytes[0] + 256 * FromLittleEndian(bytes[1..])
  }

  lemma {:induction false} LittleEndianRoundTrip(x: nat, width: nat)
    requires x < Pow(width)
    ensures FromLittleEndian(LittleEndian(x, width)) == x
    decreases width
  {
    if width > 0 {
      LittleEndianRoundTrip(x / 256, width - 1);
      assert LittleEndian(x, width)[1..] == LittleEndian(x / 256, width - 1);
    }
  }

  // ---------- Fields ----------

  /** A field of a message: a string, or a number of some width in bytes. */
  datatype Kind = Str | Num(width: nat, signed: bool)

  datatype Field = Text(text: seq<Byte>) | Number(value: int)

  /** What a variable of the kind can hold. A C string has no NUL inside. */
  predicate Fits(kind: Kind, field: Field)
  {
    match kind
    case Str => field.Text? && 0 !in field.text
    case Num(width, signed) =>
      && field.Number?
      && if signed then 0 - Pow(width) <= 2 * field.value < Pow(width) else 0 <= field.value < Pow(width)
  }

  /** Two's complement. */
  function Unsigned(value: int, width: nat): int { if value < 0 then value + Pow(width) else value }

  function Signed(x: nat, width: nat): int { if 2 * x < Pow(width) then x else x - Pow(width) }

  function FieldBytes(kind: Kind, field: Field): seq<Byte>
    requires Fits(kind, field)
  {
    match kind
    case Str => field.text + [0]
    case Num(width, _) => LittleEndian(Unsigned(field.value, width), width)
  }

  /** The size that a message declares for a field: strlen and the NUL, or sizeof. */
  function FieldSize(kind: Kind, field: Field): nat
    requires Fits(kind, field)
  {
    match kind
    case Str => |field.text| + 1
    case Num(width, _) => width
  }

  /** A C string: the bytes before the first NUL; none if there is no NUL. */
  function CString(bytes: seq<Byte>): Option<seq<Byte>>
  {
    if bytes == [] then None
    else if bytes[0] == 0 then Some([])
    else match CString(bytes[1..])
         case None => None
         case Some(rest) => Some([bytes[0]] + rest)
  }

  lemma {:induction false} CStringRoundTrip(text: seq<Byte>)
    requires 0 !in text
    ensures CString(text + [0]) == Some(text)
  {
    if text != [] {
      CStringRoundTrip(text[1..]);
      assert (text + [0])[1..] == text[1..] + [0];
      assert text == [text[0]] + text[1..];
    }
  }

  /** Reads a field at the start of the bytes: a string of the declared size, or a number of its own width. */
  function ReadField(kind: Kind, bytes: seq<Byte>, size: nat): Option<Field>
  {
    match kind
    case Str =>
      if |bytes| < size then None else
        (match CString(bytes[..size])
         case None => None
         case Some(text) => Some(Text(text)))
    case Num(width, signed) =>
      if |bytes| < width then None else
        var x := FromLittleEndian(bytes[..width]);
        Some(Number(if signed then Signed(x, width) else x))
  }

  lemma FieldRoundTrip(kind: Kind, field: Field, rest: seq<Byte>)
    requires Fits(kind, field)
    ensures |FieldBytes(kind, field)| == FieldSize(kind, field)
    ensures ReadField(kind, FieldBytes(kind, field) + rest, FieldSize(kind, field)) == Some(field)
  {
    var bytes := FieldBytes(kind, field);
    assert (bytes + rest)[..FieldSize(kind, field)] == bytes;
    match kind
    case Str => CStringRoundTrip(field.text);
    case Num(width, signed) => LittleEndianRoundTrip(Unsigned(field.value, width), width);
  }

  // ---------- Rows ----------

  /** A row has one field of each kind. */
  predicate RowFits(schema: seq<Kind>, row: seq<Field>)
  {
    |row| == |schema| && forall i :: 0 <= i < |schema| ==> Fits(schema[i], row[i])
  }

  function RowBytes(schema: seq<Kind>, row: seq<Field>): seq<Byte>
    requires RowFits(schema, row)
  {
    if schema == [] then [] else FieldBytes(schema[0], row[0]) + RowBytes(schema[1..], row[1..])
  }

  function RowSizes(schema: seq<Kind>, row: seq<Field>): (sizes: seq<nat>)
    requires RowFits(schema, row)
    ensures |sizes| == |schema|
  {
    if schema == [] then [] else [FieldSize(schema[0], row[0])] + RowSizes(schema[1..], row[1..])
  }

  function Sum(sizes: seq<nat>): nat { if sizes == [] then 0 else sizes[0] + Sum(sizes[1..]) }

  function ReadRow(schema: seq<Kind>, bytes: seq<Byte>, sizes: seq<nat>): (row: Option<seq<Field>>)
    requires |sizes| == |schema|
    ensures row.Some? ==> |row.value| == |schema|
  {
    if schema == [] then Some([])
    else match ReadField(schema[0], bytes, sizes[0])
         case None => None
         case Some(field) =>
           if |bytes| < sizes[0] then None else
             match ReadRow(schema[1..], bytes[sizes[0]..], sizes[1..])
             case None => None
             case Some(fields) => Some([field] + fields)
  }

  lemma {:induction false} RowRoundTrip(schema: seq<Kind>, row: seq<Field>, rest: seq<Byte>)
    requires RowFits(schema, row)
    ensures |RowBytes(schema, row)| == Sum(RowSizes(schema, row))
    ensures ReadRow(schema, RowBytes(schema, row) + rest, RowSizes(schema, row)) == Some(row)
  {
    hide FieldBytes, ReadField, FieldSize, ReadRow, Sum, Fits;
    if schema == [] {
      assert RowBytes(schema, row) + rest == rest && row == [];
      ReadNoFields(rest);
    } else {
      var first, others := FieldBytes(schema[0], row[0]), RowBytes(schema[1..], row[1..]);
      var size, sizes := FieldSize(schema[0], row[0]), RowSizes(schema[1..], row[1..]);
      FieldRoundTrip(schema[0], row[0], others + rest);
      RowRoundTrip(schema[1..], row[1..], rest);
      assert RowBytes(schema, row) + rest == first + (others + rest);
      ReadFirstField(schema, first, others + rest, size, sizes, row[0]);
      assert row == [row[0]] + row[1..];
    }
  }

  lemma ReadNoFields(rest: seq<Byte>)
    ensures ReadRow([], rest, []) == Some([]) && Sum([]) == 0
  {
  }

  /** Reading the first of several fields. */
  lemma ReadFirstField(schema: seq<Kind>, first: seq<Byte>, others: seq<Byte>, size: nat, sizes: seq<nat>, field: Field)
    requires schema != [] && |sizes| + 1 == |schema| && |first| == size && ReadField(schema[0], first + others, size) == Some(field)
    ensures Sum([size] + sizes) == size + Sum(sizes)
    ensures ReadRow(schema, first + others, [size] + sizes) ==
            match ReadRow(schema[1..], others, sizes) case None => None case Some(fields) => Some([field] + fields)
  {
    hide ReadField;
    assert ([size] + sizes)[1..] == sizes;
    assert (first + others)[size..] == others;
  }

  predicate RowsFit(schema: seq<Kind>, rows: seq<seq<Field>>) { forall i :: 0 <= i < |rows| ==> RowFits(schema, rows[i]) }

  function RowsBytes(schema: seq<Kind>, rows: seq<seq<Field>>): seq<Byte>
    requires RowsFit(schema, rows)
    decreases |rows|
  {
    if rows == [] then [] else RowBytes(schema, rows[0]) + RowsBytes(schema, rows[1..])
  }

  function RowsSizes(schema: seq<Kind>, rows: seq<seq<Field>>): (sizes: seq<nat>)
    requires RowsFit(schema, rows)
    ensures |sizes| == |rows| * |schema|
    decreases |rows|
  {
    if rows == [] then [] else RowSizes(schema, rows[0]) + RowsSizes(schema, rows[1..])
  }

  /** Reads as many rows as the sizes tell; the last one must be complete. */
  function ReadRows(schema: seq<Kind>, bytes: seq<Byte>, sizes: seq<nat>): (rows: Option<seq<seq<Field>>>)
    requires schema != []
    ensures rows.Some? ==> |rows.value| * |schema| == |sizes| && forall i :: 0 <= i < |rows.value| ==> |rows.value[i]| == |schema|
    decreases |sizes|
  {
    if sizes == [] then Some([])
    else if |sizes| < |schema| then None
    else
      var size := Sum(sizes[..|schema|]);
      match ReadRow(schema, bytes, sizes[..|schema|])
      case None => None
      case Some(row) =>
        if |bytes| < size then None else
          match ReadRows(schema, bytes[size..], sizes[|schema|..])
          case None => None
          case Some(rows) => Some([row] + rows)
  }

  lemma {:induction false} SumConcat(a: seq<nat>, b: seq<nat>)
    ensures Sum(a + b) == Sum(a) + Sum(b)
    decreases |a|
  {
    if a == [] { assert a + b == b; } else {
      SumConcat(a[1..], b);
      assert (a + b)[1..] == a[1..] + b;
    }
  }

  lemma {:induction false} RowsRoundTrip(schema: seq<Kind>, rows: seq<seq<Field>>)
    requires schema != [] && RowsFit(schema, rows)
    ensures |RowsBytes(schema, rows)| == Sum(RowsSizes(schema, rows))
    ensures ReadRows(schema, RowsBytes(schema, rows), RowsSizes(schema, rows)) == Some(rows)
    decreases |rows|
  {
    hide RowBytes, ReadRow, RowSizes, RowFits, ReadRows, Sum;
    if rows == [] {
      ReadNothing(schema);
    } else {
      var first, others := RowBytes(schema, rows[0]), RowsBytes(schema, rows[1..]);
      var sizes, more := RowSizes(schema, rows[0]), RowsSizes(schema, rows[1..]);
      RowRoundTrip(schema, rows[0], others);
      RowsRoundTrip(schema, rows[1..]);
      SumConcat(sizes, more);
      ReadFirstRow(schema, first, others, sizes, more, rows[0]);
      assert rows == [rows[0]] + rows[1..];
    }
  }

  lemma ReadNothing(schema: seq<Kind>)
    requires schema != []
    ensures ReadRows(schema, [], []) == Some([]) && Sum([]) == 0
  {
  }

  /** Reading the first of several rows. */
  lemma ReadFirstRow(schema: seq<Kind>, first: seq<Byte>, others: seq<Byte>, sizes: seq<nat>, more: seq<nat>, row: seq<Field>)
    requires schema != [] && |sizes| == |schema| && |first| == Sum(sizes) && ReadRow(schema, first + others, sizes) == Some(row)
    ensures ReadRows(schema, first + others, sizes + more) ==
            match ReadRows(schema, others, more) case None => None case Some(rows) => Some([row] + rows)
  {
    hide ReadRow, Sum;
    assert (sizes + more)[..|schema|] == sizes && (sizes + more)[|schema|..] == more;
    assert (first + others)[|first|..] == others;
  }
}
