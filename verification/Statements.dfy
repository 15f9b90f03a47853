/**
  Running a prepared statement: values bound by position, rows fetched one at a time, and what the
  server's statements therefore do to and get from the tables.
 */
module Statements {
  import opened Wrappers
  import opened Wire
  import opened Tables
  import C = Connections
  import Q = Query

  /** A value handed to the wrapper; None for a NaN. */
  datatype Value = Text(text: bytes) | Integer(n: int) | Real(r: Option<real>)

  datatype Cell = TextCell(text: Key) | IntegerCell(n: int) | RealCell(r: real) | Null

  type Columns = map<string, Cell>

  /** What SQLite keeps of a bound value: text up to its first NUL byte, a NaN as NULL. */
  function Bind(v: Value): Cell {
    match v
    case Text(t) => TextCell(KeyOf(t))
    case Integer(n) => IntegerCell(n)
    case Real(r) => if r.Some? then RealCell(r.value) else Null
  }

  // ---------------------------------------------------------------- inserting

  /** The binding loop: parameters are numbered from one. */
  method BindAll(values: seq<Value>) returns (bound: map<nat, Cell>)
    ensures forall k: nat :: k in bound <==> 1 <= k <= |values|
    ensures forall k | 0 <= k < |values| :: bound[k + 1] == Bind(values[k])
  {
    bound := map[];
    var index := 1;
    for i := 0 to |values|
      invariant index == i + 1
      invariant forall k: nat :: k in bound <==> 1 <= k <= i
      invariant forall k | 0 <= k < i :: bound[k + 1] == Bind(values[k])
    {
      bound := bound[index := Bind(values[i])];
      index := index + 1;
    }
  }

  /** The row that a parsed INSERT stores: the k-th named column takes the k-th parameter. */
  function Stored(columns: seq<string>, bound: map<nat, Cell>): Columns
    requires forall k: nat | 1 <= k <= |columns| :: k in bound
  {
    if columns == [] then map[]
    else
      var n := |columns| - 1;
      Stored(columns[..n], bound)[columns[n] := bound[n + 1]]
  }

  predicate Distinct(names: seq<string>) {
    forall i, j | 0 <= i < j < |names| :: names[i] != names[j]
  }

  /** Every named column receives its own value and no other column is set. */
  lemma {:induction false} StoredAt(columns: seq<string>, bound: map<nat, Cell>)
    requires Distinct(columns)
    requires forall k: nat | 1 <= k <= |columns| :: k in bound
    ensures forall k | 0 <= k < |columns| ::
              columns[k] in Stored(columns, bound) && Stored(columns, bound)[columns[k]] == bound[k + 1]
    ensures Stored(columns, bound).Keys == set c | c in columns
  {
    if columns != [] {
      var n := |columns| - 1;
      StoredAt(columns[..n], bound);
      assert columns == columns[..n] + [columns[n]];
    }
  }

  /**
    insertOne from end to end: the text it renders is read back as an INSERT into that table with one
    parameter for each column, and the row stored gives each named column its own bound value.
   */
  method InsertOne(table: string, names: seq<string>, values: seq<Value>) returns (row: Option<Columns>)
    requires |names| == |values| && Distinct(names)
    requires Q.Ident(table) && forall n | n in names :: Q.Ident(n)
    ensures row.None? <==> names == []
    ensures row.Some? ==> row.value.Keys == set c | c in names
    ensures row.Some? ==> forall k | 0 <= k < |names| :: row.value[names[k]] == Bind(values[k])
  {
    var query := Q.RenderInsert(table, names);
    if query.None? { return None; }
    Q.InsertRoundTrip(table, names);
    var statement := Q.ParseInsert(query.value).value;
    assert statement == Q.Insert(table, names, |values|);
    var bound := BindAll(values);
    StoredAt(statement.columns, bound);
    return Some(Stored(statement.columns, bound));
  }

  // ---------------------------------------------------------------- selecting

  /** `=` is never true of NULL. */
  predicate Equals(row: Columns, column: string, bound: Cell) {
    column in row && row[column] == bound && bound != Null
  }

  function Matching(rows: seq<Columns>, column: string, bound: Cell): seq<Columns> {
    if rows == [] then []
    else
      var n := |rows| - 1;
      Matching(rows[..n], column, bound) + if Equals(rows[n], column, bound) then [rows[n]] else []
  }

  function CellOf(row: Columns, column: string): Cell {
    if column in row then row[column] else Null
  }

  function Project(row: Columns, columns: seq<string>): seq<Cell> {
    seq(|columns|, i requires 0 <= i < |columns| => CellOf(row, columns[i]))
  }

  function ProjectAll(rows: seq<Columns>, columns: seq<string>): seq<seq<Cell>> {
    seq(|rows|, i requires 0 <= i < |rows| => Project(rows[i], columns))
  }

  /** What selectMany returns of a scan: its rows in order, up to the row limit. */
  function Fetched(scan: seq<Columns>, columns: seq<string>, rowCount: nat): seq<seq<Cell>> {
    var all := ProjectAll(scan, columns);
    if rowCount < |all| then all[..rowCount] else all
  }

  /** What selectMany returns, cell by cell. */
  lemma FetchedAt(scan: seq<Columns>, columns: seq<string>, rowCount: nat, i: nat, j: nat)
    requires i < rowCount && i < |scan| && j < |columns|
    ensures var rows := Fetched(scan, columns, rowCount);
            && |rows| == (if rowCount < |scan| then rowCount else |scan|)
            && |rows[i]| == |columns|
            && rows[i][j] == if columns[j] in scan[i] then scan[i][columns[j]] else Null
  {
  }

  /** One fetched row: the cells of the columns asked for, in the order asked for. */
  method ReadRow(from: Columns, columns: seq<string>) returns (row: seq<Cell>)
    ensures row == Project(from, columns)
  {
    row := [];
    for i := 0 to |columns|
      invariant |row| == i
      invariant forall j | 0 <= j < i :: row[j] == CellOf(from, columns[j])
    {
      row := row + [CellOf(from, columns[i])];
    }
  }

  /** The row loop with its countdown. */
  method SelectMany(scan: seq<Columns>, columns: seq<string>, limit: nat) returns (rows: seq<seq<Cell>>)
    ensures rows == Fetched(scan, columns, limit)
    ensures |rows| == if limit < |scan| then limit else |scan|
    ensures forall i, j | 0 <= i < |rows| && 0 <= j < |columns| ::
              |rows[i]| == |columns| && rows[i][j] == if columns[j] in scan[i] then scan[i][columns[j]] else Null
  {
    rows := [];
    var rowCount := limit;
    var at := 0;
    while rowCount != 0 && at < |scan|
      invariant at <= |scan| && rowCount >= 0 && rowCount + at == limit
      invariant |rows| == at
      invariant forall j | 0 <= j < at :: rows[j] == Project(scan[j], columns)
      decreases rowCount
    {
      var row := ReadRow(scan[at], columns);
      rows := rows + [row];
      rowCount := rowCount - 1;
      at := at + 1;
    }
  }

  /** selectOne: the first row of a scan limited to one, or an empty row. */
  method SelectOne(scan: seq<Columns>, columns: seq<string>) returns (row: seq<Cell>)
    ensures forall n: nat | n >= 1 ::
              row == if Fetched(scan, columns, n) == [] then [] else Fetched(scan, columns, n)[0]
    ensures scan == [] ==> row == []
    ensures scan != [] ==>
              && |row| == |columns|
              && forall j | 0 <= j < |columns| ::
                   row[j] == if columns[j] in scan[0] then scan[0][columns[j]] else Null
  {
    var rows := SelectMany(scan, columns, 1);
    row := [];
    if rows != [] { row := rows[0]; }
  }

  /** Over one unchanged scan a smaller limit fetches a prefix of what a larger one does. */
  lemma FetchedPrefix(scan: seq<Columns>, columns: seq<string>, n: nat, m: nat)
    requires n <= m
    ensures Fetched(scan, columns, n) <= Fetched(scan, columns, m)
    ensures |Fetched(scan, columns, n)| == if n < |scan| then n else |scan|
  {
  }

  // ---------------------------------------------------------------- the server's statements

  function ClientColumns(c: Client): Columns {
    map["id" := IntegerCell(c.id), "uuid" := TextCell(c.key)]
  }

  function PacketColumns(r: Row): Columns {
    map["client_id" := IntegerCell(r.clientId), "timestamp" := IntegerCell(r.sample.timestamp),
        "x" := RealCell(r.sample.x), "y" := RealCell(r.sample.y)]
  }

  function ClientsTable(clients: seq<Client>): seq<Columns> {
    seq(|clients|, i requires 0 <= i < |clients| => ClientColumns(clients[i]))
  }

  function PacketsTable(packets: seq<Row>): seq<Columns> {
    seq(|packets|, i requires 0 <= i < |packets| => PacketColumns(packets[i]))
  }

  function SampleCells(s: Sample): seq<Cell> {
    [IntegerCell(s.timestamp), RealCell(s.x), RealCell(s.y)]
  }

  lemma {:induction false} MatchingConcat(a: seq<Columns>, b: seq<Columns>, column: string, bound: Cell)
    ensures Matching(a + b, column, bound) == Matching(a, column, bound) + Matching(b, column, bound)
    decreases |b|
  {
    if b == [] {
      assert a + b == a;
    } else {
      var n := |b| - 1;
      assert (a + b)[..|a + b| - 1] == a + b[..n];
      MatchingConcat(a, b[..n], column, bound);
    }
  }

  lemma MatchingOne(row: Columns, column: string, bound: Cell)
    ensures Matching([row], column, bound) == if Equals(row, column, bound) then [row] else []
  {
    assert [row][..0] == [];
  }

  lemma ClientEquals(c: Client, key: Key)
    ensures Equals(ClientColumns(c), "uuid", TextCell(key)) <==> c.key == key
  {
  }

  lemma {:induction false} FirstClient(clients: seq<Client>, column: string, key: Key)
    requires column == "uuid"
    ensures var rows := Matching(ClientsTable(clients), column, TextCell(key));
            && (rows == [] <==> Find(clients, key).None?)
            && (rows != [] ==> rows[0] == ClientColumns(Client(Find(clients, key).value, key)))
    decreases |clients|
  {
    if clients != [] {
      var row, rest := ClientColumns(clients[0]), ClientsTable(clients[1..]);
      assert ClientsTable(clients) == [row] + rest;
      MatchingConcat([row], rest, column, TextCell(key));
      MatchingOne(row, column, TextCell(key));
      ClientEquals(clients[0], key);
      if clients[0].key != key { FirstClient(clients[1..], column, key); }
    }
  }

  /** Looking a client up by the uuid as it is bound finds the id that the tables hold for its key. */
  lemma ClientLookup(clients: seq<Client>, uuid: bytes)
    ensures var rows := Matching(ClientsTable(clients), "uuid", Bind(Text(uuid)));
            var found := Find(clients, KeyOf(uuid));
            && (rows == [] <==> found.None?)
            && (rows != [] ==> Project(rows[0], ["id"]) == [IntegerCell(found.value)])
  {
    FirstClient(clients, "uuid", KeyOf(uuid));
  }

  lemma PacketEquals(r: Row, id: int)
    ensures Equals(PacketColumns(r), "client_id", IntegerCell(id)) <==> r.clientId == id
    ensures Project(PacketColumns(r), ["timestamp", "x", "y"]) == SampleCells(r.sample)
  {
  }

  /** Selecting packets by client id fetches exactly the samples that the tables hold for it. */
  lemma {:induction false} PacketLookup(packets: seq<Row>, id: int)
    ensures var rows := Matching(PacketsTable(packets), "client_id", Bind(Integer(id)));
            && |rows| == |SamplesOf(packets, id)|
            && forall i | 0 <= i < |rows| ::
                 Project(rows[i], ["timestamp", "x", "y"]) == SampleCells(SamplesOf(packets, id)[i])
  {
    hide PacketColumns, Equals, Project, SampleCells;
    if packets != [] {
      var n := |packets| - 1;
      PacketLookup(packets[..n], id);
      PacketEquals(packets[n], id);
      assert PacketsTable(packets)[..n] == PacketsTable(packets[..n]);
    }
  }

  const PACKET_COLUMNS := ["client_id", "timestamp", "x", "y"]

  function PacketValues(id: int, p: C.Payload): seq<Value> {
    [Integer(id), Integer(p.timestamp), Real(p.x), Real(p.y)]
  }

  lemma PacketColumnsAre(row: Columns, id: int, p: C.Payload)
    requires row.Keys == set c | c in PACKET_COLUMNS
    requires row["client_id"] == IntegerCell(id) && row["timestamp"] == IntegerCell(p.timestamp)
    requires row["x"] == Bind(Real(p.x)) && row["y"] == Bind(Real(p.y))
    ensures (exists c :: c in row && row[c] == Null) <==> !p.Storable()
    ensures p.Storable() ==> row == PacketColumns(Row(id, p.Sample()))
  {
    assert "x" in row && "y" in row;
  }

  /** The columns of a packet INSERT take the payload's values, and one is NULL exactly for a NaN. */
  method InsertPacketRow(id: int, p: C.Payload) returns (row: Columns)
    ensures (exists c :: c in row && row[c] == Null) <==> !p.Storable()
    ensures p.Storable() ==> row == PacketColumns(Row(id, p.Sample()))
    ensures p.Storable() ==>
              row == map["client_id" := IntegerCell(id), "timestamp" := IntegerCell(p.timestamp),
                         "x" := RealCell(p.x.value), "y" := RealCell(p.y.value)]
  {
    var stored := InsertOne("packets", PACKET_COLUMNS, PacketValues(id, p));
    row := stored.value;
    assert row[PACKET_COLUMNS[0]] == IntegerCell(id);
    assert row[PACKET_COLUMNS[1]] == IntegerCell(p.timestamp);
    assert row[PACKET_COLUMNS[2]] == Bind(Real(p.x));
    assert row[PACKET_COLUMNS[3]] == Bind(Real(p.y));
    PacketColumnsAre(row, id, p);
  }

  /** The client INSERT stores, under "uuid" and nothing else, the key that the save goes by. */
  method InsertClientRow(p: C.Payload) returns (row: Columns)
    ensures row == map["uuid" := TextCell(p.Key())]
  {
    var names := ["uuid"];
    var stored := InsertOne("clients", names, [Text(p.uuid)]);
    row := stored.value;
    assert row[names[0]] == TextCell(KeyOf(p.uuid));
    assert row.Keys == {"uuid"};
  }

  /** And the client SELECT by the payload's uuid finds the id stored for that key. */
  lemma PayloadLookup(clients: seq<Client>, p: C.Payload)
    ensures var rows := Matching(ClientsTable(clients), "uuid", Bind(Text(p.uuid)));
            var found := Find(clients, p.Key());
            && (rows == [] <==> found.None?)
            && (rows != [] ==> Project(rows[0], ["id"]) == [IntegerCell(found.value)])
  {
    ClientLookup(clients, p.uuid);
  }

  /** Payloads with uuids free of NUL bytes go by one key only if their uuids are equal. */
  lemma PayloadKeys(p: C.Payload, q: C.Payload)
    requires 0 !in p.uuid && 0 !in q.uuid
    ensures p.Key() == p.uuid
    ensures p.Key() == q.Key() <==> p.uuid == q.uuid
  {
    KeyOfIdempotent(p.uuid);
    NulFreeKeys(p.uuid, q.uuid);
  }

  /** What a save stores of a payload is its own timestamp and coordinates. */
  lemma PayloadSample(p: C.Payload)
    ensures p.Storable() <==> p.x != None && p.y != None
    ensures p.Storable() ==> Some(p.Sample().x) == p.x && Some(p.Sample().y) == p.y
                             && p.Sample().timestamp == p.timestamp
  {
  }

  /** A selection keeps exactly the rows whose column holds the bound value, and a NULL matches nothing. */
  lemma {:induction false} MatchingIff(rows: seq<Columns>, column: string, bound: Cell, row: Columns)
    ensures row in Matching(rows, column, bound) <==>
            row in rows && column in row && row[column] == bound && bound != Null
  {
    if rows != [] {
      var n := |rows| - 1;
      MatchingIff(rows[..n], column, bound, row);
      assert rows == rows[..n] + [rows[n]];
    }
  }
}
