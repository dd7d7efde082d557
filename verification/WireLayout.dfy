/** The bytes of every message, written out field by field. */
module WireLayout {
  import opened Options
  import opened Bytes
  import opened Wire

  /** A string with its NUL. */
  function CStr(text: CText): seq<Byte> { text + [0] }

  /** A number as so many bytes, the lowest first: its residue. */
  function Le(x: int, width: nat): seq<Byte> { LittleEndian(x % Pow(width), width) }

  function InsertLayout(i: Insert): seq<Byte> { CStr(i.table) + Le(i.key, 2) + CStr(i.value) + Le(i.timestamp, 8) }

  function MetadataLayout(t: Metadata): seq<Byte>
  {
    CStr(t.table) + Le(t.consistency, 1) + Le(t.partitions, 4) + Le(t.compactionTime, 8)
  }

  function PeerLayout(p: Peer): seq<Byte>
  {
    Le(p.id, 4) + CStr(p.ip) + Le(p.port, 4) + (if p.alive then [1] else [0]) + Le(p.timestamp, 8)
  }

  function Joined(parts: seq<seq<Byte>>): seq<Byte> { if parts == [] then [] else parts[0] + Joined(parts[1..]) }

  function Layout(m: Message): seq<Byte>
  {
    match m
    case SelectIn(table, key) => CStr(table) + Le(key, 2)
    case SelectOut(table, timestamp, key, value) => CStr(table) + Le(timestamp, 8) + Le(key, 4) + CStr(value)
    case InsertIn(i) => InsertLayout(i)
    case MultiInsertIn(inserts) => Joined(seq(|inserts|, i requires 0 <= i < |inserts| => InsertLayout(inserts[i])))
    case CreateIn(t) => MetadataLayout(t)
    case DescribeIn(None) => []
    case DescribeIn(Some(table)) => CStr(table)
    case DescribeOut(ts) => Joined(seq(|ts|, i requires 0 <= i < |ts| => MetadataLayout(ts[i])))
    case DropIn(table) => CStr(table)
    case GossipIn(ps) => Joined(seq(|ps|, i requires 0 <= i < |ps| => PeerLayout(ps[i])))
    case GossipOut(ps) => Joined(seq(|ps|, i requires 0 <= i < |ps| => PeerLayout(ps[i])))
    case Status(_, result) => Le(result, 4)
  }

  // ---------- Rows ----------

  /** The bytes of each field. */
  function Parts(schema: seq<Kind>, row: seq<Field>): seq<seq<Byte>>
    requires |schema| == |row|
  {
    seq(|row|, i requires 0 <= i < |row| =>
      match (schema[i], row[i])
      case (_, Text(text)) => CStr(text)
      case (Num(width, _), Number(x)) => Le(x, width)
      case (Str, Number(_)) => [])
  }

  lemma FieldPart(kind: Kind, field: Field)
    requires Fits(kind, field)
    ensures FieldBytes(kind, field) == if kind.Str? then CStr(field.text) else Le(field.value, kind.width)
  {
    if kind.Num? { Residue(field.value, Pow(kind.width)); }
  }

  /** Two's complement is the residue. */
  lemma Residue(x: int, p: nat)
    requires 0 - p <= x < p && p > 0
    ensures x % p == if x < 0 then x + p else x
  {
    if x < 0 { Unique(x, p, -1, x + p); } else { Unique(x, p, 0, x); }
  }

  lemma Unique(x: int, p: nat, q: int, r: nat)
    requires x == q * p + r && r < p
    ensures x % p == r
  {
    var e := x / p;
    assert x == e * p + x % p;
    if e > q { Multiple(e - q, p); }
    if e < q { Multiple(q - e, p); }
  }

  lemma Multiple(d: nat, p: nat)
    requires d >= 1
    ensures d * p >= p
  {
  }

  lemma {:induction false} RowIsJoined(schema: seq<Kind>, row: seq<Field>)
    requires RowFits(schema, row)
    ensures RowBytes(schema, row) == Joined(Parts(schema, row))
    decreases |row|
  {
    hide FieldBytes, Fits, LittleEndian, Pow;
    if row != [] {
      RowIsJoined(schema[1..], row[1..]);
      FieldPart(schema[0], row[0]);
      FitsKind(schema[0], row[0]);
      assert Parts(schema, row)[1..] == Parts(schema[1..], row[1..]);
    }
  }

  lemma FitsKind(kind: Kind, field: Field)
    requires Fits(kind, field)
    ensures kind.Str? <==> field.Text?
  {
  }

  lemma {:induction false} RowsAreJoined(schema: seq<Kind>, rows: seq<seq<Field>>, parts: seq<seq<Byte>>)
    requires RowsFit(schema, rows) && |parts| == |rows| && forall i :: 0 <= i < |rows| ==> RowBytes(schema, rows[i]) == parts[i]
    ensures RowsBytes(schema, rows) == Joined(parts)
    decreases |rows|
  {
    hide RowBytes, RowFits;
    if rows != [] { RowsAreJoined(schema, rows[1..], parts[1..]); }
  }

  // ---------- Joining a few parts ----------

  lemma JoinFirst(first: seq<Byte>, others: seq<seq<Byte>>)
    ensures Joined([first] + others) == first + Joined(others)
  {
    assert ([first] + others)[1..] == others;
  }

  lemma JoinTwo(a: seq<Byte>, b: seq<Byte>)
    ensures Joined([a]) == a && Joined([a, b]) == a + b
  {
    assert [a] == [a] + [] && [a, b] == [a] + [b] && [b] == [b] + [];
    JoinFirst(a, []);
    JoinFirst(b, []);
    JoinFirst(a, [b]);
  }

  lemma JoinFour(a: seq<Byte>, b: seq<Byte>, c: seq<Byte>, d: seq<Byte>)
    ensures Joined([a, b, c, d]) == a + b + c + d
  {
    assert [a, b, c, d] == [a] + [b, c, d] && [b, c, d] == [b] + [c, d];
    JoinFirst(a, [b, c, d]);
    JoinFirst(b, [c, d]);
    JoinTwo(c, d);
  }

  lemma JoinFive(a: seq<Byte>, b: seq<Byte>, c: seq<Byte>, d: seq<Byte>, e: seq<Byte>)
    ensures Joined([a, b, c, d, e]) == a + b + c + d + e
  {
    assert [a, b, c, d, e] == [a] + [b, c, d, e];
    JoinFirst(a, [b, c, d, e]);
    JoinFour(b, c, d, e);
  }

  // ---------- Messages ----------

  lemma InsertParts(i: Insert)
    requires RowFits(Schema(INSERT_IN), InsertRow(i))
    ensures RowBytes(Schema(INSERT_IN), InsertRow(i)) == InsertLayout(i)
  {
    hide Joined, RowBytes, Le, Fits;
    var schema, row := Schema(INSERT_IN), InsertRow(i);
    RowIsJoined(schema, row);
    assert Parts(schema, row) == [CStr(i.table), Le(i.key, 2), CStr(i.value), Le(i.timestamp, 8)];
    JoinFour(CStr(i.table), Le(i.key, 2), CStr(i.value), Le(i.timestamp, 8));
  }

  lemma MetadataParts(t: Metadata)
    requires RowFits(Schema(CREATE_IN), MetadataRow(t))
    ensures RowBytes(Schema(CREATE_IN), MetadataRow(t)) == MetadataLayout(t)
  {
    hide Joined, RowBytes, Le, Fits;
    var schema, row := Schema(CREATE_IN), MetadataRow(t);
    RowIsJoined(schema, row);
    assert Parts(schema, row) == [CStr(t.table), Le(t.consistency, 1), Le(t.partitions, 4), Le(t.compactionTime, 8)];
    JoinFour(CStr(t.table), Le(t.consistency, 1), Le(t.partitions, 4), Le(t.compactionTime, 8));
  }

  lemma OneByte(b: bool)
    ensures Le(if b then 1 else 0, 1) == if b then [1] else [0]
  {
    assert Pow(1) == 256;
  }

  lemma PeerParts(p: Peer)
    requires RowFits(Schema(GOSSIP_IN), PeerRow(p))
    ensures RowBytes(Schema(GOSSIP_IN), PeerRow(p)) == PeerLayout(p)
  {
    hide Joined, RowBytes, Le, Fits;
    var schema, row, flag := Schema(GOSSIP_IN), PeerRow(p), if p.alive then [1] else [0];
    RowIsJoined(schema, row);
    OneByte(p.alive);
    assert Parts(schema, row) == [Le(p.id, 4), CStr(p.ip), Le(p.port, 4), flag, Le(p.timestamp, 8)];
    JoinFive(Le(p.id, 4), CStr(p.ip), Le(p.port, 4), flag, Le(p.timestamp, 8));
  }

  /** The layout of a list's elements. */
  lemma ListLayout(m: Message)
    requires Sendable(m) && (m.MultiInsertIn? || m.DescribeOut? || m.GossipIn? || m.GossipOut?)
    ensures Content(m) == Layout(m)
  {
    hide Joined, RowBytes, RowsBytes, RowFits, InsertLayout, MetadataLayout, PeerLayout, InsertRow, MetadataRow, PeerRow, RowSizes;
    var schema, rows := Schema(Op(m)), Rows(m);
    var parts :=
      match m
      case MultiInsertIn(inserts) => seq(|inserts|, i requires 0 <= i < |inserts| => InsertLayout(inserts[i]))
      case DescribeOut(ts) => seq(|ts|, i requires 0 <= i < |ts| => MetadataLayout(ts[i]))
      case GossipIn(ps) => seq(|ps|, i requires 0 <= i < |ps| => PeerLayout(ps[i]))
      case GossipOut(ps) => seq(|ps|, i requires 0 <= i < |ps| => PeerLayout(ps[i]));
    forall i | 0 <= i < |rows| ensures RowBytes(schema, rows[i]) == parts[i] {
      assert RowFits(schema, rows[i]);
      match m
      case MultiInsertIn(inserts) => InsertParts(inserts[i]);
      case DescribeOut(ts) => MetadataParts(ts[i]);
      case GossipIn(ps) => PeerParts(ps[i]);
      case GossipOut(ps) => PeerParts(ps[i]);
    }
    RowsAreJoined(schema, rows, parts);
  }

  lemma OneRowLayout(m: Message, part: seq<Byte>)
    requires Sendable(m) && |Rows(m)| == 1 && RowBytes(Schema(Op(m)), Rows(m)[0]) == part
    ensures Content(m) == part
  {
    hide RowBytes, Joined, Rows, Schema, RowFits;
    RowsAreJoined(Schema(Op(m)), Rows(m), [part]);
    JoinTwo(part, []);
  }

  /** Messages of one row. */
  lemma RowLayout(m: Message)
    requires Sendable(m) && !(m.MultiInsertIn? || m.DescribeOut? || m.GossipIn? || m.GossipOut? || m == DescribeIn(None))
    ensures |Rows(m)| == 1 && RowBytes(Schema(Op(m)), Rows(m)[0]) == Layout(m)
  {
    hide RowBytes, Joined, Le, Fits, CStr, InsertLayout, MetadataLayout, PeerLayout, InsertRow, MetadataRow, PeerRow;
    var schema, row := Schema(Op(m)), Rows(m)[0];
    assert RowFits(schema, row);
    RowIsJoined(schema, row);
    match m
    case SelectIn(table, key) =>
      assert Parts(schema, row) == [CStr(table), Le(key, 2)];
      JoinTwo(CStr(table), Le(key, 2));
    case SelectOut(table, timestamp, key, value) =>
      assert Parts(schema, row) == [CStr(table), Le(timestamp, 8), Le(key, 4), CStr(value)];
      JoinFour(CStr(table), Le(timestamp, 8), Le(key, 4), CStr(value));
    case InsertIn(i) => InsertParts(i);
    case CreateIn(t) => MetadataParts(t);
    case DescribeIn(Some(table)) =>
      assert Parts(schema, row) == [CStr(table)];
      JoinTwo(CStr(table), []);
    case DropIn(table) =>
      assert Parts(schema, row) == [CStr(table)];
      JoinTwo(CStr(table), []);
    case Status(_, result) =>
      assert Parts(schema, row) == [Le(result, 4)];
      JoinTwo(Le(result, 4), []);
  }

  /** What serialize_content writes for each message: its fields in this order, with these widths. */
  lemma ContentIsLayout(m: Message)
    requires Sendable(m)
    ensures Content(m) == Layout(m)
  {
    hide Content, Layout, RowBytes, RowFits;
    if m.MultiInsertIn? || m.DescribeOut? || m.GossipIn? || m.GossipOut? {
      ListLayout(m);
    } else if m == DescribeIn(None) {
      NoContent();
    } else {
      RowLayout(m);
      OneRowLayout(m, Layout(m));
    }
  }

  lemma NoContent()
    ensures Sendable(DescribeIn(None)) && Content(DescribeIn(None)) == Layout(DescribeIn(None))
  {
    hide RowBytes, RowSizes, Fits, Joined, InsertLayout, MetadataLayout, PeerLayout, Schema;
  }
}
