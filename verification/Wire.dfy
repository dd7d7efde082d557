/** Messages between the processes: their fields, their serialization and the packets that carry them. */
module Wire {
  import opened Options
  import opened Bytes

  type CText = seq<Byte>

  datatype Insert = Insert(table: CText, key: int, value: CText, timestamp: int)

  datatype Metadata = Metadata(table: CText, consistency: int, partitions: int, compactionTime: int)

  datatype Peer = Peer(id: int, ip: CText, port: int, alive: bool, timestamp: int)

  datatype Operation =
    | HANDSHAKE_IN | HANDSHAKE_OUT | SELECT_IN | SELECT_OUT | INSERT_IN | INSERT_OUT | CREATE_IN | CREATE_OUT
    | DESCRIBE_IN | DESCRIBE_OUT | DROP_IN | DROP_OUT | JOURNAL_IN | JOURNAL_OUT | GOSSIP_IN | GOSSIP_OUT
    | VALUE_IN | VALUE_OUT | MULTIINSERT_IN | MULTIINSERT_OUT

  /** The operations that carry a content. JOURNAL_IN, VALUE_IN and the handshakes carry none. */
  datatype Message =
    | SelectIn(table: CText, key: int)
    | SelectOut(table: CText, timestamp: int, recordKey: int, value: CText)
    | InsertIn(insert: Insert)
    | MultiInsertIn(inserts: seq<Insert>)
    | CreateIn(metadata: Metadata)
    | DescribeIn(name: Option<CText>)
    | DescribeOut(tables: seq<Metadata>)
    | DropIn(table: CText)
    | GossipIn(memories: seq<Peer>)
    | GossipOut(memories: seq<Peer>)
    | Status(operation: Operation, result: int)

  predicate IsStatus(op: Operation)
  {
    op.INSERT_OUT? || op.MULTIINSERT_OUT? || op.CREATE_OUT? || op.DROP_OUT? || op.JOURNAL_OUT? || op.VALUE_OUT?
  }

  function Op(m: Message): Operation
  {
    match m
    case SelectIn(_, _) => SELECT_IN
    case SelectOut(_, _, _, _) => SELECT_OUT
    case InsertIn(_) => INSERT_IN
    case MultiInsertIn(_) => MULTIINSERT_IN
    case CreateIn(_) => CREATE_IN
    case DescribeIn(_) => DESCRIBE_IN
    case DescribeOut(_) => DESCRIBE_OUT
    case DropIn(_) => DROP_IN
    case GossipIn(_) => GOSSIP_IN
    case GossipOut(_) => GOSSIP_OUT
    case Status(op, _) => op
  }

  const UINT16 := Num(2, false)
  const INT := Num(4, true)
  const LONG := Num(8, true)
  const BOOL := Num(1, false)
  const CONSISTENCY := Num(1, false)

  /** The fields of one row, in the order of the wire; empty if the operation has no content. */
  function Schema(op: Operation): seq<Kind>
  {
    match op
    case SELECT_IN => [Str, UINT16]
    case SELECT_OUT => [Str, LONG, INT, Str]
    case INSERT_IN => [Str, UINT16, Str, LONG]
    case MULTIINSERT_IN => [Str, UINT16, Str, LONG]
    case CREATE_IN => [Str, CONSISTENCY, INT, LONG]
    case DESCRIBE_IN => [Str]
    case DESCRIBE_OUT => [Str, CONSISTENCY, INT, LONG]
    case DROP_IN => [Str]
    case GOSSIP_IN => [INT, Str, INT, BOOL, LONG]
    case GOSSIP_OUT => [INT, Str, INT, BOOL, LONG]
    case _ => if IsStatus(op) then [INT] else []
  }

  // ---------- Rows of a message ----------

  function InsertRow(i: Insert): seq<Field> { [Text(i.table), Number(i.key), Text(i.value), Number(i.timestamp)] }

  function MetadataRow(t: Metadata): seq<Field>
  {
    [Text(t.table), Number(t.consistency), Number(t.partitions), Number(t.compactionTime)]
  }

  function PeerRow(p: Peer): seq<Field>
  {
    [Number(p.id), Text(p.ip), Number(p.port), Number(if p.alive then 1 else 0), Number(p.timestamp)]
  }

  function Rows(m: Message): seq<seq<Field>>
  {
    match m
    case SelectIn(table, key) => [[Text(table), Number(key)]]
    case SelectOut(table, timestamp, key, value) => [[Text(table), Number(timestamp), Number(key), Text(value)]]
    case InsertIn(i) => [InsertRow(i)]
    case MultiInsertIn(inserts) => seq(|inserts|, i requires 0 <= i < |inserts| => InsertRow(inserts[i]))
    case CreateIn(t) => [MetadataRow(t)]
    case DescribeIn(None) => []
    case DescribeIn(Some(table)) => [[Text(table)]]
    case DescribeOut(ts) => seq(|ts|, i requires 0 <= i < |ts| => MetadataRow(ts[i]))
    case DropIn(table) => [[Text(table)]]
    case GossipIn(ps) => seq(|ps|, i requires 0 <= i < |ps| => PeerRow(ps[i]))
    case GossipOut(ps) => seq(|ps|, i requires 0 <= i < |ps| => PeerRow(ps[i]))
    case Status(_, result) => [[Number(result)]]
  }

  /** Field i of a row as a string. */
  function T(row: seq<Field>, i: nat): CText { if i < |row| && row[i].Text? then row[i].text else [] }

  /** Field i of a row as a number. */
  function N(row: seq<Field>, i: nat): int { if i < |row| && row[i].Number? then row[i].value else 0 }

  function ToInsert(row: seq<Field>): Insert { Insert(T(row, 0), N(row, 1), T(row, 2), N(row, 3)) }

  function ToMetadata(row: seq<Field>): Metadata { Metadata(T(row, 0), N(row, 1), N(row, 2), N(row, 3)) }

  function ToPeer(row: seq<Field>): Peer { Peer(N(row, 0), T(row, 1), N(row, 2), N(row, 3) != 0, N(row, 4)) }

  /** The message of an operation from its rows. Operations with one row read the first. */
  function FromRows(op: Operation, rows: seq<seq<Field>>): Option<Message>
  {
    if op.MULTIINSERT_IN? then Some(MultiInsertIn(seq(|rows|, i requires 0 <= i < |rows| => ToInsert(rows[i]))))
    else if op.DESCRIBE_OUT? then Some(DescribeOut(seq(|rows|, i requires 0 <= i < |rows| => ToMetadata(rows[i]))))
    else if op.GOSSIP_IN? then Some(GossipIn(seq(|rows|, i requires 0 <= i < |rows| => ToPeer(rows[i]))))
    else if op.GOSSIP_OUT? then Some(GossipOut(seq(|rows|, i requires 0 <= i < |rows| => ToPeer(rows[i]))))
    else if op.DESCRIBE_IN? then Some(DescribeIn(if rows == [] then None else Some(T(rows[0], 0))))
    else if rows == [] then None
    else FromRow(op, rows[0])
  }

  function FromRow(op: Operation, row: seq<Field>): Option<Message>
  {
    if op.SELECT_IN? then Some(SelectIn(T(row, 0), N(row, 1)))
    else if op.SELECT_OUT? then Some(SelectOut(T(row, 0), N(row, 1), N(row, 2), T(row, 3)))
    else if op.INSERT_IN? then Some(InsertIn(ToInsert(row)))
    else if op.CREATE_IN? then Some(CreateIn(ToMetadata(row)))
    else if op.DROP_IN? then Some(DropIn(T(row, 0)))
    else if IsStatus(op) then Some(Status(op, N(row, 0)))
    else None
  }

  lemma RowsOfMessage(m: Message)
    requires m.Status? ==> IsStatus(m.operation)
    ensures Schema(Op(m)) != []
    ensures FromRows(Op(m), Rows(m)) == Some(m)
  {
    hide FromRow, ToInsert, ToMetadata, ToPeer, PeerRow, InsertRow, MetadataRow;
    match m
    case MultiInsertIn(inserts) => InsertsBack(inserts);
    case DescribeOut(tables) => TablesBack(tables);
    case GossipIn(memories) => PeersBack(memories);
    case GossipOut(memories) => PeersBack(memories);
    case DescribeIn(_) =>
    case _ => RowOfMessage(m);
  }

  lemma InsertsBack(inserts: seq<Insert>)
    ensures FromRows(MULTIINSERT_IN, Rows(MultiInsertIn(inserts))) == Some(MultiInsertIn(inserts))
  {
    assert FromRows(MULTIINSERT_IN, Rows(MultiInsertIn(inserts))).value.inserts == inserts;
  }

  lemma TablesBack(tables: seq<Metadata>)
    ensures FromRows(DESCRIBE_OUT, Rows(DescribeOut(tables))) == Some(DescribeOut(tables))
  {
    assert FromRows(DESCRIBE_OUT, Rows(DescribeOut(tables))).value.tables == tables;
  }

  lemma PeersBack(memories: seq<Peer>)
    ensures FromRows(GOSSIP_IN, Rows(GossipIn(memories))) == Some(GossipIn(memories))
    ensures FromRows(GOSSIP_OUT, Rows(GossipOut(memories))) == Some(GossipOut(memories))
  {
    assert FromRows(GOSSIP_IN, Rows(GossipIn(memories))).value.memories == memories;
    assert FromRows(GOSSIP_OUT, Rows(GossipOut(memories))).value.memories == memories;
  }

  lemma RowOfMessage(m: Message)
    requires !m.MultiInsertIn? && !m.DescribeOut? && !m.GossipIn? && !m.GossipOut? && !m.DescribeIn?
    requires m.Status? ==> IsStatus(m.operation)
    ensures |Rows(m)| == 1 && FromRow(Op(m), Rows(m)[0]) == Some(m)
  {
  }

  // ---------- Serialization ----------

  /** Every field holds what its C variable can hold. */
  predicate Sendable(m: Message)
  {
    (m.Status? ==> IsStatus(m.operation)) && RowsFit(Schema(Op(m)), Rows(m))
  }

  /** The sizes that elements_*_info declares. */
  function Sizes(m: Message): seq<nat>
    requires Sendable(m)
  {
    RowsSizes(Schema(Op(m)), Rows(m))
  }

  function Content(m: Message): seq<Byte>
    requires Sendable(m)
  {
    RowsBytes(Schema(Op(m)), Rows(m))
  }

  /** deserialize_content. */
  function Deserialize(op: Operation, content: seq<Byte>, sizes: seq<nat>): Option<Message>
  {
    if Schema(op) == [] then None
    else match ReadRows(Schema(op), content, sizes)
         case None => None
         case Some(rows) => FromRows(op, rows)
  }

  /** Serialization writes exactly the declared sizes, and deserialization returns the message. */
  lemma ContentRoundTrip(m: Message)
    requires Sendable(m)
    ensures |Content(m)| == Sum(Sizes(m)) && Deserialize(Op(m), Content(m), Sizes(m)) == Some(m)
  {
    hide RowsBytes, RowsSizes, ReadRows, FromRows, Schema, Rows, RowsFit;
    RowsOfMessage(m);
    RowsRoundTrip(Schema(Op(m)), Rows(m));
  }

  // ---------- Packets ----------

  datatype Packet = Packet(process: nat, operation: nat, keepAlive: bool, sizes: seq<nat>, success: bool, content: seq<Byte>)

  /** A packet that build_packet makes: small enumerations, sizes that are ints and add up to the content. */
  predicate PacketOk(p: Packet)
  {
    && p.process < 128 && p.operation < 128 && 2 * |p.sizes| < Pow(4) && |p.content| == Sum(p.sizes)
    && forall i :: 0 <= i < |p.sizes| ==> 2 * p.sizes[i] < Pow(4)
  }

  function Flag(b: bool): Byte { if b then 1 else 0 }

  function SizesBytes(sizes: seq<nat>): (bytes: seq<Byte>)
    ensures |bytes| == 4 * |sizes|
  {
    if sizes == [] then [] else LittleEndian(sizes[0], 4) + SizesBytes(sizes[1..])
  }

  function Header(p: Packet): (bytes: seq<Byte>)
    ensures |bytes| == 13
  {
    LittleEndian(p.process, 4) + LittleEndian(p.operation, 4) + [Flag(p.keepAlive)] + LittleEndian(|p.sizes|, 4)
  }

  /** What send2 puts on the socket. */
  function Sent(p: Packet): seq<Byte>
  {
    Header(p) + (SizesBytes(p.sizes) + ([Flag(p.success)] + p.content))
  }

  function ReadSizes(bytes: seq<Byte>, n: nat): (sizes: seq<nat>)
    requires |bytes| >= 4 * n
    ensures |sizes| == n
    decreases n
  {
    if n == 0 then [] else [FromLittleEndian(bytes[..4])] + ReadSizes(bytes[4..], n - 1)
  }

  /** What recv2 makes of the bytes on a socket: one byte each of process, operation and element count, as signed chars. */
  function Received(stream: seq<Byte>): (r: Option<(Packet, seq<Byte>)>)
  {
    if |stream| < 13 then None else
      var process := Signed(stream[0], 1);
      var operation := Signed(stream[4], 1);
      var elements := Signed(stream[9], 1);
      if process < 0 || operation < 0 || elements < 0 || |stream| < 13 + 4 * elements + 1 then None else
        var sizes := ReadSizes(stream[13..], elements);
        var body := stream[13 + 4 * elements + 1..];
        if |body| < Sum(sizes) then None else
          Some((Packet(process, operation, stream[8] != 0, sizes, stream[13 + 4 * elements] != 0, body[..Sum(sizes)]), body[Sum(sizes)..]))
  }

  lemma {:induction false} SizesRoundTrip(sizes: seq<nat>, rest: seq<Byte>)
    requires forall i :: 0 <= i < |sizes| ==> sizes[i] < Pow(4)
    ensures ReadSizes(SizesBytes(sizes) + rest, |sizes|) == sizes
    decreases |sizes|
  {
    hide LittleEndian, FromLittleEndian, ReadSizes, Pow;
    if sizes == [] {
      NoSizes(SizesBytes(sizes) + rest);
    } else {
      var first, others := LittleEndian(sizes[0], 4), SizesBytes(sizes[1..]);
      LittleEndianRoundTrip(sizes[0], 4);
      SizesRoundTrip(sizes[1..], rest);
      assert SizesBytes(sizes) + rest == first + (others + rest);
      ReadFirstSize(first, others + rest, |sizes| - 1);
    }
  }

  lemma NoSizes(bytes: seq<Byte>)
    ensures ReadSizes(bytes, 0) == []
  {
  }

  lemma ReadFirstSize(first: seq<Byte>, others: seq<Byte>, n: nat)
    requires |first| == 4 && |others| >= 4 * n
    ensures ReadSizes(first + others, n + 1) == [FromLittleEndian(first)] + ReadSizes(others, n)
  {
    hide FromLittleEndian;
    assert (first + others)[4..] == others;
    assert (first + others)[..4] == first;
  }

  lemma FirstByte(x: nat)
    ensures LittleEndian(x, 4)[0] == x % 256
  {
  }

  /** The bytes of a sent packet that recv2 looks at. */
  lemma SentHeader(p: Packet, rest: seq<Byte>)
    ensures var stream := Sent(p) + rest;
            && |stream| >= 13 && stream[0] == p.process % 256 && stream[4] == p.operation % 256
            && stream[8] == Flag(p.keepAlive) && stream[9] == |p.sizes| % 256
            && stream[13..] == SizesBytes(p.sizes) + ([Flag(p.success)] + (p.content + rest))
  {
    hide LittleEndian, SizesBytes;
    FirstByte(p.process);
    FirstByte(p.operation);
    FirstByte(|p.sizes|);
    var stream := Sent(p) + rest;
    var a, b, c, d := LittleEndian(p.process, 4), LittleEndian(p.operation, 4), [Flag(p.keepAlive)], LittleEndian(|p.sizes|, 4);
    assert Header(p) == a + b + c + d;
    assert Header(p)[0] == a[0] && Header(p)[4] == b[0] && Header(p)[8] == c[0] && Header(p)[9] == d[0];
  }

  /** recv2 recovers what send2 sent exactly if the packet has at most 127 elements. */
  lemma PacketRoundTrip(p: Packet, rest: seq<Byte>)
    requires PacketOk(p)
    ensures Received(Sent(p) + rest) == Some((p, rest)) <==> |p.sizes| <= 127
  {
    hide Received, Sent, Sum, PacketOk, Pow;
    if |p.sizes| <= 127 {
      SmallPacketRoundTrip(p, rest);
    } else {
      FewerArrive(p, rest);
    }
  }

  lemma SmallPacketRoundTrip(p: Packet, rest: seq<Byte>)
    requires PacketOk(p) && |p.sizes| <= 127
    ensures Received(Sent(p) + rest) == Some((p, rest))
  {
    hide LittleEndian, SizesBytes, ReadSizes, Sent, Sum, Pow, Signed, Flag;
    var stream, n := Sent(p) + rest, 4 * |p.sizes|;
    SentHeader(p, rest);
    SmallChar(p.process);
    SmallChar(p.operation);
    SmallChar(|p.sizes|);
    FlagIsSet(p.keepAlive);
    FlagIsSet(p.success);
    var sizes, tail := SizesBytes(p.sizes), [Flag(p.success)] + (p.content + rest);
    SizesRoundTrip(p.sizes, tail);
    AfterSizes(stream, sizes, Flag(p.success), p.content + rest, n);
    assert (p.content + rest)[..|p.content|] == p.content && (p.content + rest)[|p.content|..] == rest;
  }

  lemma AfterSizes(stream: seq<Byte>, sizes: seq<Byte>, flag: Byte, body: seq<Byte>, n: nat)
    requires |stream| >= 13 && stream[13..] == sizes + ([flag] + body) && |sizes| == n
    ensures |stream| >= 13 + n + 1 && stream[13 + n] == flag && stream[13 + n + 1..] == body
  {
    assert stream[13 + n] == stream[13..][n];
    assert stream[13 + n + 1..] == stream[13..][n + 1..];
  }

  /** Small numbers survive a signed char. */
  lemma SmallChar(x: nat)
    requires x < 128
    ensures x % 256 == x && Signed(x, 1) == x
  {
    assert Pow(1) == 256;
  }

  lemma FlagIsSet(b: bool)
    ensures Flag(b) != 0 <==> b
  {
  }

  /** A packet of too many elements arrives, if at all, with fewer. */
  lemma FewerArrive(p: Packet, rest: seq<Byte>)
    requires |p.sizes| > 127
    ensures Received(Sent(p) + rest).Some? ==> |Received(Sent(p) + rest).value.0.sizes| < |p.sizes|
    ensures Received(Sent(p) + rest).Some? && p.operation < 128 ==> Received(Sent(p) + rest).value.0.operation == p.operation
  {
    hide LittleEndian, SizesBytes, ReadSizes, Sent, Sum;
    SentHeader(p, rest);
  }

  // ---------- Operation codes ----------

  function OpNumber(op: Operation): (n: nat)
    ensures n < 20
  {
    match op
    case HANDSHAKE_IN => 0 case HANDSHAKE_OUT => 1 case SELECT_IN => 2 case SELECT_OUT => 3 case INSERT_IN => 4
    case INSERT_OUT => 5 case CREATE_IN => 6 case CREATE_OUT => 7 case DESCRIBE_IN => 8 case DESCRIBE_OUT => 9
    case DROP_IN => 10 case DROP_OUT => 11 case JOURNAL_IN => 12 case JOURNAL_OUT => 13 case GOSSIP_IN => 14
    case GOSSIP_OUT => 15 case VALUE_IN => 16 case VALUE_OUT => 17 case MULTIINSERT_IN => 18 case MULTIINSERT_OUT => 19
  }

  /** The enumeration of operations, in order. */
  const OPERATIONS := [
    HANDSHAKE_IN, HANDSHAKE_OUT, SELECT_IN, SELECT_OUT, INSERT_IN, INSERT_OUT, CREATE_IN, CREATE_OUT,
    DESCRIBE_IN, DESCRIBE_OUT, DROP_IN, DROP_OUT, JOURNAL_IN, JOURNAL_OUT, GOSSIP_IN, GOSSIP_OUT,
    VALUE_IN, VALUE_OUT, MULTIINSERT_IN, MULTIINSERT_OUT]

  /** The operation that a received code stands for. */
  function OperationOf(n: nat): Option<Operation> { if n < |OPERATIONS| then Some(OPERATIONS[n]) else None }

  /** Codes and operations correspond one to one. */
  lemma CodeRoundTrip(op: Operation, n: nat)
    ensures OperationOf(OpNumber(op)) == Some(op)
    ensures OperationOf(n).Some? <==> n < 20
    ensures OperationOf(n).Some? ==> OpNumber(OperationOf(n).value) == n
  {
  }

  /** The operation that answers a request; none for an operation that is itself an answer. */
  function AnswerTo(op: Operation): Option<Operation>
  {
    match op
    case HANDSHAKE_IN => Some(HANDSHAKE_OUT) case SELECT_IN => Some(SELECT_OUT) case INSERT_IN => Some(INSERT_OUT)
    case CREATE_IN => Some(CREATE_OUT) case DESCRIBE_IN => Some(DESCRIBE_OUT) case DROP_IN => Some(DROP_OUT)
    case JOURNAL_IN => Some(JOURNAL_OUT) case GOSSIP_IN => Some(GOSSIP_OUT) case VALUE_IN => Some(VALUE_OUT)
    case MULTIINSERT_IN => Some(MULTIINSERT_OUT)
    case _ => None
  }

  /** The server's rule for the code of an answer, that of the request plus one, is right for every request. */
  lemma AnswerCode(op: Operation)
    ensures AnswerTo(op).Some? <==> OpNumber(op) % 2 == 0
    ensures AnswerTo(op).Some? ==> OperationOf(OpNumber(op) + 1) == AnswerTo(op)
  {
  }

  // ---------- A message through the network ----------

  /** The message that arrives when m is packed, sent, received and deserialized by the code in the received header. */
  function Arrives(m: Message, process: nat, keepAlive: bool): Option<Message>
    requires Sendable(m)
  {
    match Received(Sent(Packet(process, OpNumber(Op(m)), keepAlive, Sizes(m), true, Content(m))))
    case None => None
    case Some((packet, _)) => Unpacked(packet)
  }

  function Unpacked(packet: Packet): Option<Message>
  {
    match OperationOf(packet.operation)
    case None => None
    case Some(op) => Deserialize(op, packet.content, packet.sizes)
  }

  lemma UnpackedAs(packet: Packet, op: Operation)
    requires packet.operation == OpNumber(op)
    ensures Unpacked(packet) == Deserialize(op, packet.content, packet.sizes)
  {
    hide Deserialize;
    CodeRoundTrip(op, packet.operation);
  }

  /** The number of elements of whatever arrives. */
  lemma DeserializedCount(op: Operation, content: seq<Byte>, sizes: seq<nat>)
    requires Deserialize(op, content, sizes).Some? && (op.MULTIINSERT_IN? || op.GOSSIP_IN? || op.GOSSIP_OUT? || op.DESCRIBE_OUT?)
    ensures var m := Deserialize(op, content, sizes).value; |sizes| == |Rows(m)| * |Schema(op)|
  {
    hide ReadRows;
    var rows := ReadRows(Schema(op), content, sizes).value;
    assert |Rows(Deserialize(op, content, sizes).value)| == |rows|;
  }

  /** The number of elements and their sizes are ints. */
  predicate SmallFields(m: Message)
    requires Sendable(m)
  {
    2 * |Sizes(m)| < Pow(4) && forall i :: 0 <= i < |Sizes(m)| ==> 2 * Sizes(m)[i] < Pow(4)
  }

  /** A message gets through exactly if it has at most 127 elements. */
  lemma MessageArrives(m: Message, process: nat, keepAlive: bool)
    requires Sendable(m) && SmallFields(m) && process < 128
    ensures Arrives(m, process, keepAlive) == Some(m) <==> |Sizes(m)| <= 127
  {
    hide Rows, Schema, RowsFit, RowsSizes, RowsBytes, Deserialize, Sent, Received, Unpacked, OpNumber;
    var p := Packet(process, OpNumber(Op(m)), keepAlive, Sizes(m), true, Content(m));
    ContentRoundTrip(m);
    UnpackedAs(p, Op(m));
    PacketRoundTrip(p, []);
    assert Sent(p) + [] == Sent(p);
    if |Sizes(m)| > 127 {
      FewerArrive(p, []);
      ManyElements(m);
      if Arrives(m, process, keepAlive) == Some(m) {
        var packet := Received(Sent(p)).value.0;
        UnpackedAs(packet, Op(m));
        DeserializedCount(Op(m), packet.content, packet.sizes);
        CountOf(m);
      }
    }
  }

  lemma CountOf(m: Message)
    requires Sendable(m)
    ensures |Sizes(m)| == |Rows(m)| * |Schema(Op(m))|
  {
    hide Rows, Schema;
  }

  /** Only the lists can have many elements. */
  lemma ManyElements(m: Message)
    requires Sendable(m) && |Sizes(m)| > 127
    ensures var op := Op(m); op.MULTIINSERT_IN? || op.GOSSIP_IN? || op.GOSSIP_OUT? || op.DESCRIBE_OUT?
  {
  }

  /** A journal's request gets through exactly if it has at most 31 records; a gossip message, at most 25 memories. */
  lemma ListLimits(m: Message, process: nat, keepAlive: bool)
    requires Sendable(m) && SmallFields(m) && process < 128
    ensures m.MultiInsertIn? ==> (Arrives(m, process, keepAlive) == Some(m) <==> |m.inserts| <= 31)
    ensures m.GossipIn? || m.GossipOut? ==> (Arrives(m, process, keepAlive) == Some(m) <==> |m.memories| <= 25)
    ensures m.DescribeOut? ==> (Arrives(m, process, keepAlive) == Some(m) <==> |m.tables| <= 31)
  {
    hide Arrives, RowsSizes, RowsFit;
    MessageArrives(m, process, keepAlive);
    CountOf(m);
  }

  // ---------- Counts that wrap around ----------

  /** From 128 to 255 elements, and again in every further 256, the count is negative: no packet is recovered. */
  lemma NegativeCount(p: Packet, rest: seq<Byte>)
    requires |p.sizes| % 256 >= 128
    ensures Received(Sent(p) + rest) == None
  {
    hide LittleEndian, SizesBytes, ReadSizes, Sent, Sum;
    SentHeader(p, rest);
  }

  /** At every multiple of 256 elements the count is zero: a packet without content is recovered. */
  lemma ZeroCount(p: Packet, rest: seq<Byte>)
    requires PacketOk(p) && |p.sizes| % 256 == 0
    ensures Received(Sent(p) + rest).Some?
    ensures var packet := Received(Sent(p) + rest).value.0; packet.operation == p.operation && packet.sizes == [] && packet.content == []
  {
    hide LittleEndian, SizesBytes, ReadSizes, Sent;
    SentHeader(p, rest);
    assert ReadSizes((Sent(p) + rest)[13..], 0) == [];
  }

  lemma {:induction false} SizesConcat(a: seq<nat>, b: seq<nat>)
    ensures SizesBytes(a + b) == SizesBytes(a) + SizesBytes(b)
    decreases |a|
  {
    hide LittleEndian;
    if a == [] {
      assert a + b == b;
    } else {
      assert (a + b)[1..] == a[1..] + b;
      SizesConcat(a[1..], b);
    }
  }

  lemma SecondByte(x: nat)
    ensures LittleEndian(x, 4)[1] == (x / 256) % 256
  {
    assert LittleEndian(x, 4)[1] == LittleEndian(x / 256, 3)[0];
  }

  /** Otherwise the first sizes are recovered, and what follows them is taken for the content. */
  lemma PartialCount(p: Packet, rest: seq<Byte>, c: nat)
    requires PacketOk(p) && c == |p.sizes| % 256 < 128 && 0 < c < |p.sizes|
    ensures Received(Sent(p) + rest).Some? ==>
              var packet := Received(Sent(p) + rest).value.0;
              && packet.operation == p.operation && packet.sizes == p.sizes[..c] && |packet.content| == Sum(p.sizes[..c])
              && (packet.content != [] ==> packet.content[0] == (p.sizes[c] / 256) % 256)
  {
    hide LittleEndian, SizesBytes, ReadSizes, Sent, Sum, PacketOk, Pow;
    var stream := Sent(p) + rest;
    SentHeader(p, rest);
    var tail := [Flag(p.success)] + (p.content + rest);
    PartialSizes(p, c, tail);
    assert stream[13..] == SizesBytes(p.sizes) + tail;
    assert stream[13 + 4 * c + 1..] == stream[13..][4 * c + 1..];
    SmallOperation(p);
  }

  lemma SmallOperation(p: Packet)
    requires PacketOk(p)
    ensures Pow(1) == 256 && Signed(p.operation % 256, 1) == p.operation
  {
    hide Sum;
    SmallChar(p.operation);
  }

  lemma PartialSizes(p: Packet, c: nat, tail: seq<Byte>)
    requires PacketOk(p) && 0 < c < |p.sizes|
    ensures |SizesBytes(p.sizes) + tail| > 4 * c + 1 && ReadSizes(SizesBytes(p.sizes) + tail, c) == p.sizes[..c]
    ensures (SizesBytes(p.sizes) + tail)[4 * c + 1..][0] == (p.sizes[c] / 256) % 256
  {
    hide LittleEndian, SizesBytes, ReadSizes, Sum;
    var a, b := p.sizes[..c], p.sizes[c..];
    assert p.sizes == a + b;
    SizesConcat(a, b);
    SizesRoundTrip(a, SizesBytes(b) + tail);
    assert SizesBytes(p.sizes) + tail == SizesBytes(a) + (SizesBytes(b) + tail);
    SecondByte(p.sizes[c]);
    FirstSize(b);
    assert (SizesBytes(a) + (SizesBytes(b) + tail))[4 * c + 1] == SizesBytes(b)[1];
  }

  lemma FirstSize(sizes: seq<nat>)
    requires sizes != []
    ensures |SizesBytes(sizes)| >= 4 && SizesBytes(sizes)[1] == LittleEndian(sizes[0], 4)[1]
  {
    hide LittleEndian;
  }

  /** The size of the first field of row k. */
  lemma {:induction false} SizeAt(schema: seq<Kind>, rows: seq<seq<Field>>, k: nat)
    requires schema != [] && RowsFit(schema, rows) && k < |rows|
    ensures k * |schema| < |RowsSizes(schema, rows)| && RowsSizes(schema, rows)[k * |schema|] == FieldSize(schema[0], rows[k][0])
    decreases k
  {
    hide FieldSize, Fits, RowSizes, RowFits;
    var sizes, more := RowSizes(schema, rows[0]), RowsSizes(schema, rows[1..]);
    assert RowsSizes(schema, rows) == sizes + more;
    if k == 0 {
      FirstRowSize(schema, rows[0]);
    } else {
      SizeAt(schema, rows[1..], k - 1);
      var at := (k - 1) * |schema|;
      assert k * |schema| == |schema| + at;
      assert (sizes + more)[|schema| + at] == more[at];
    }
  }

  lemma FirstRowSize(schema: seq<Kind>, row: seq<Field>)
    requires schema != [] && RowFits(schema, row)
    ensures RowSizes(schema, row)[0] == FieldSize(schema[0], row[0])
  {
  }

  /** A content that begins with a NUL yields a first row whose table has no name. */
  lemma NamelessRow(content: seq<Byte>, sizes: seq<nat>)
    requires content != [] && content[0] == 0 && sizes != [] && sizes[0] >= 1
    ensures Deserialize(MULTIINSERT_IN, content, sizes).Some? ==>
              var m := Deserialize(MULTIINSERT_IN, content, sizes).value;
              m.MultiInsertIn? && |sizes| == 4 * |m.inserts| && m.inserts != [] && m.inserts[0].table == []
  {
    hide CString, FromLittleEndian;
    var schema := Schema(MULTIINSERT_IN);
    if Deserialize(MULTIINSERT_IN, content, sizes).Some? {
      DeserializedCount(MULTIINSERT_IN, content, sizes);
      var rows := ReadRows(schema, content, sizes).value;
      assert rows[0] == ReadRow(schema, content, sizes[..4]).value;
      assert rows[0][0] == ReadField(Str, content, sizes[..4][0]).value;
      EmptyCString(content[..sizes[0]]);
    }
  }

  lemma EmptyCString(bytes: seq<Byte>)
    requires bytes != [] && bytes[0] == 0
    ensures CString(bytes) == Some([])
  {
  }

  /**
    What arrives of a multi-insert, by the number n of its records: all of it up to 31; nothing that can be read if n modulo
    64 is 32 or more; an empty one if n is a multiple of 64; otherwise, if anything, n modulo 64 records the first of
    which is for a table without a name.
   */
  lemma MultiInsertArrival(m: Message, process: nat, keepAlive: bool)
    requires m.MultiInsertIn? && Sendable(m) && SmallFields(m) && process < 128
    ensures |m.inserts| <= 31 ==> Arrives(m, process, keepAlive) == Some(m)
    ensures |m.inserts| % 64 >= 32 ==> Arrives(m, process, keepAlive) == None
    ensures |m.inserts| % 64 == 0 ==> Arrives(m, process, keepAlive) == Some(MultiInsertIn([]))
    ensures var k := |m.inserts| % 64;
            |m.inserts| >= 64 && 1 <= k <= 31 && |m.inserts[k].table| < 255 && Arrives(m, process, keepAlive).Some? ==>
              var m' := Arrives(m, process, keepAlive).value;
              m'.MultiInsertIn? && |m'.inserts| == k && m'.inserts[0].table == []
  {
    hide RowsSizes, RowsBytes, RowsFit, Sent, Received, Deserialize, Rows, Unpacked, OpNumber;
    var p := Packet(process, OpNumber(Op(m)), keepAlive, Sizes(m), true, Content(m));
    var n, k := |m.inserts|, |m.inserts| % 64;
    ContentRoundTrip(m);
    CountOf(m);
    InsertCount(m);
    assert Sent(p) + [] == Sent(p);
    WrapCount(n);
    if n <= 31 {
      ListLimits(m, process, keepAlive);
    } else if k >= 32 {
      NegativeCount(p, []);
    } else if k == 0 {
      ZeroCount(p, []);
      UnpackedAs(Received(Sent(p)).value.0, MULTIINSERT_IN);
      NoRows();
    } else {
      PartialCount(p, [], 4 * k);
      if |m.inserts[k].table| < 255 && Received(Sent(p)).Some? {
        UnpackedAs(Received(Sent(p)).value.0, MULTIINSERT_IN);
        NamelessArrival(m, p, k);
      }
    }
  }

  lemma WrapCount(n: nat)
    ensures (4 * n) % 256 == 4 * (n % 64)
  {
    var q, r := n / 64, n % 64;
    assert n == 64 * q + r;
    Remainder(q, 4 * r);
  }

  lemma Remainder(q: nat, x: nat)
    requires x < 256
    ensures (256 * q + x) % 256 == x
  {
    assert (256 * q + x) / 256 == q;
  }

  lemma InsertCount(m: Message)
    requires m.MultiInsertIn?
    ensures |Rows(m)| == |m.inserts| && |Schema(Op(m))| == 4
  {
  }

  lemma NoRows()
    ensures Deserialize(MULTIINSERT_IN, [], []) == Some(MultiInsertIn([]))
  {
    assert ReadRows(Schema(MULTIINSERT_IN), [], []) == Some([]);
    assert FromRows(MULTIINSERT_IN, []).value.inserts == [];
  }

  lemma NamelessArrival(m: Message, p: Packet, k: nat)
    requires m.MultiInsertIn? && Sendable(m) && p.sizes == Sizes(m) && 1 <= k <= 31 && 4 * k < |p.sizes| && k < |m.inserts|
    requires |m.inserts[k].table| < 255 && Received(Sent(p)).Some?
    requires var packet := Received(Sent(p)).value.0;
             && packet.sizes == p.sizes[..4 * k] && |packet.content| == Sum(p.sizes[..4 * k])
             && (packet.content != [] ==> packet.content[0] == (p.sizes[4 * k] / 256) % 256)
    ensures var packet := Received(Sent(p)).value.0;
            Deserialize(MULTIINSERT_IN, packet.content, packet.sizes).Some? ==>
              var m' := Deserialize(MULTIINSERT_IN, packet.content, packet.sizes).value;
              m'.MultiInsertIn? && |m'.inserts| == k && m'.inserts[0].table == []
  {
    hide RowsSizes, RowsBytes, RowsFit, Sent, Received, Deserialize, Sum;
    var packet := Received(Sent(p)).value.0;
    InsertCount(m);
    TableSize(m, 0);
    TableSize(m, k);
    PositiveSum(packet.sizes);
    NamelessRow(packet.content, packet.sizes);
  }

  lemma PositiveSum(sizes: seq<nat>)
    requires sizes != [] && sizes[0] >= 1
    ensures Sum(sizes) >= 1
  {
  }

  lemma TableSize(m: Message, k: nat)
    requires m.MultiInsertIn? && Sendable(m) && k < |m.inserts|
    ensures 4 * k < |Sizes(m)| && Sizes(m)[4 * k] == |m.inserts[k].table| + 1
  {
    hide RowsSizes;
    InsertCount(m);
    SizeAt(Schema(Op(m)), Rows(m), k);
  }
}
