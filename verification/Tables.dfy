/**
  The server's two tables as the schema declares them: client ids and uuids are unique, every column
  is NOT NULL, and rows are only ever appended. Row order in a sequence is insertion order.
 */
module Tables {
  import opened Wrappers
  import opened Wire

  type Key = bytes

  /** Text is bound up to its first NUL byte, so this is what identifies a client in the store. */
  function KeyOf(uuid: bytes): Key {
    if uuid == [] || uuid[0] == 0 then [] else [uuid[0]] + KeyOf(uuid[1..])
  }

  lemma {:induction false} KeyOfIdempotent(uuid: bytes)
    ensures KeyOf(KeyOf(uuid)) == KeyOf(uuid)
    ensures KeyOf(uuid) <= uuid && 0 !in KeyOf(uuid)
    ensures KeyOf(uuid) == uuid <==> 0 !in uuid
    ensures |KeyOf(uuid)| < |uuid| ==> uuid[|KeyOf(uuid)|] == 0
  {
    if uuid != [] && uuid[0] != 0 {
      KeyOfIdempotent(uuid[1..]);
      assert uuid == [uuid[0]] + uuid[1..];
    }
  }

  /** Uuids without NUL bytes are told apart by their keys, and by nothing less than their keys. */
  lemma NulFreeKeys(a: bytes, b: bytes)
    requires 0 !in a && 0 !in b
    ensures KeyOf(a) == KeyOf(b) <==> a == b
  {
    KeyOfIdempotent(a);
    KeyOfIdempotent(b);
  }

  /** Uuids that differ only after a NUL byte are one client to the store. */
  lemma {:induction false} NulHidesTheRest(a: bytes, b: bytes, c: bytes)
    ensures KeyOf(a + [0] + b) == KeyOf(a + [0] + c)
    decreases |a|
  {
    if a == [] {
      assert (a + [0] + b)[0] == 0 && (a + [0] + c)[0] == 0;
    } else if a[0] != 0 {
      assert (a + [0] + b)[1..] == a[1..] + [0] + b && (a + [0] + c)[1..] == a[1..] + [0] + c;
      NulHidesTheRest(a[1..], b, c);
    }
  }

  datatype Sample = Sample(timestamp: int64, x: real, y: real)
  datatype Client = Client(id: int, key: Key)
  datatype Row = Row(clientId: int, sample: Sample)
  datatype Database = Database(clients: seq<Client>, packets: seq<Row>)

  // ---------------------------------------------------------------- queries

  /** The id of the first client row with a key. */
  function Find(clients: seq<Client>, key: Key): Option<int> {
    if clients == [] then None
    else if clients[0].key == key then Some(clients[0].id)
    else Find(clients[1..], key)
  }

  predicate HasId(clients: seq<Client>, id: int) {
    exists c | c in clients :: c.id == id
  }

  /** The samples stored under a client id, in row order. */
  function SamplesOf(packets: seq<Row>, id: int): seq<Sample> {
    if packets == [] then []
    else
      var last := packets[|packets| - 1];
      SamplesOf(packets[..|packets| - 1], id) + if last.clientId == id then [last.sample] else []
  }

  /** What the store holds for a key: the samples of the client with that key, if there is one. */
  function Content(db: Database, key: Key): multiset<Sample> {
    match Find(db.clients, key)
    case None => multiset{}
    case Some(id) => multiset(SamplesOf(db.packets, id))
  }

  // ---------------------------------------------------------------- what the schema enforces

  predicate Unique(clients: seq<Client>) {
    forall i, j | 0 <= i < j < |clients| :: clients[i].id != clients[j].id && clients[i].key != clients[j].key
  }

  /** Every packet names a client that exists. */
  predicate Referential(db: Database) {
    forall r | r in db.packets :: HasId(db.clients, r.clientId)
  }

  predicate Consistent(db: Database) {
    Unique(db.clients) && Referential(db)
  }

  /** Rows already stored stay where they are. */
  predicate Grows(db: Database, db': Database) {
    db.clients <= db'.clients && db.packets <= db'.packets
  }

  // ---------------------------------------------------------------- laws

  lemma {:induction false} FindSome(clients: seq<Client>, key: Key)
    ensures Find(clients, key).Some? <==> exists c | c in clients :: c.key == key
    ensures Find(clients, key).Some? ==> Client(Find(clients, key).value, key) in clients
  {
    if clients != [] {
      FindSome(clients[1..], key);
      if Find(clients, key).None? {
        forall c | c in clients ensures c.key != key {
          if c != clients[0] { assert c in clients[1..]; }
        }
      }
    }
  }

  /** With unique rows, finding a key and holding the row are the same thing. */
  lemma FindUnique(clients: seq<Client>, i: nat)
    requires Unique(clients) && i < |clients|
    ensures Find(clients, clients[i].key) == Some(clients[i].id)
  {
    FindSome(clients, clients[i].key);
    var found := Client(Find(clients, clients[i].key).value, clients[i].key);
    var j :| 0 <= j < |clients| && clients[j] == found;
    assert j == i;
  }

  /** The id found for a key is the id in the one row that has the key. */
  lemma FindIff(clients: seq<Client>, id: int, key: Key)
    requires Unique(clients)
    ensures Find(clients, key) == Some(id) <==> Client(id, key) in clients
  {
    FindSome(clients, key);
    if Client(id, key) in clients {
      var i :| 0 <= i < |clients| && clients[i] == Client(id, key);
      FindUnique(clients, i);
    }
  }

  lemma {:induction false} FindAppend(clients: seq<Client>, c: Client, key: Key)
    ensures Find(clients + [c], key) ==
            if Find(clients, key).Some? then Find(clients, key) else if c.key == key then Some(c.id) else None
  {
    if clients != [] {
      assert (clients + [c])[1..] == clients[1..] + [c];
      FindAppend(clients[1..], c, key);
    } else {
      assert (clients + [c])[1..] == [];
    }
  }

  lemma {:induction false} FindGrows(clients: seq<Client>, more: seq<Client>, key: Key)
    requires clients <= more && Find(clients, key).Some?
    ensures Find(more, key) == Find(clients, key)
  {
    if clients[0].key != key {
      assert clients[1..] <= more[1..];
      FindGrows(clients[1..], more[1..], key);
    }
  }

  lemma SamplesAppend(packets: seq<Row>, r: Row, id: int)
    ensures SamplesOf(packets + [r], id) == SamplesOf(packets, id) + if r.clientId == id then [r.sample] else []
  {
    assert (packets + [r])[..|packets|] == packets;
  }

  lemma {:induction false} NoOrphans(packets: seq<Row>, id: int)
    requires forall r | r in packets :: r.clientId != id
    ensures SamplesOf(packets, id) == []
  {
    if packets != [] {
      assert packets[|packets| - 1] in packets;
      NoOrphans(packets[..|packets| - 1], id);
    }
  }

  /**
    A new client row brings no samples with it: its id is fresh and no stored packet can already name
    it, so what the store holds for any key is unchanged.
   */
  lemma NewClientHoldsNothing(db: Database, c: Client, key: Key)
    requires Consistent(db) && !HasId(db.clients, c.id) && Find(db.clients, c.key).None?
    ensures Content(db.(clients := db.clients + [c]), key) == Content(db, key)
    ensures Consistent(db.(clients := db.clients + [c]))
  {
    FindAppend(db.clients, c, key);
    FindSome(db.clients, c.key);
    NoOrphans(db.packets, c.id);
    var clients := db.clients + [c];
    forall i, j | 0 <= i < j < |clients|
      ensures clients[i].id != clients[j].id && clients[i].key != clients[j].key
    {
      assert clients[i] in db.clients;
    }
    forall r | r in db.packets ensures HasId(clients, r.clientId) {
      assert HasId(db.clients, r.clientId);
      var owner :| owner in db.clients && owner.id == r.clientId;
      assert owner in clients;
    }
  }

  lemma NoPacketsHoldNothing(db: Database, key: Key)
    requires db.packets == []
    ensures Content(db, key) == multiset{}
  {
  }

  /** What is held for a key are the samples of the packets whose client has that key. */
  lemma {:induction false} ContentIff(db: Database, key: Key, s: Sample)
    requires Consistent(db)
    ensures s in Content(db, key) <==>
            exists r, c :: r in db.packets && c in db.clients && c.key == key && r.clientId == c.id && r.sample == s
  {
    FindSome(db.clients, key);
    forall c | c in db.clients && c.key == key ensures Find(db.clients, key) == Some(c.id) {
      FindIff(db.clients, c.id, key);
    }
    if Find(db.clients, key).Some? {
      SamplesIff(db.packets, Find(db.clients, key).value, s);
      var c := Client(Find(db.clients, key).value, key);
      assert c in db.clients;
      if s in Content(db, key) {
        var r :| r in db.packets && r.clientId == c.id && r.sample == s;
      }
    }
  }

  lemma {:induction false} SamplesIff(packets: seq<Row>, id: int, s: Sample)
    ensures s in SamplesOf(packets, id) <==> exists r :: r in packets && r.clientId == id && r.sample == s
  {
    if packets != [] {
      var rest, last := packets[..|packets| - 1], packets[|packets| - 1];
      SamplesIff(rest, id, s);
      assert packets == rest + [last];
      if last.clientId == id && last.sample == s { assert last in packets; }
    }
  }

  /** A packet row stored under a key's own id adds exactly its sample to that key and to no other. */
  lemma NewPacketAdds(db: Database, owner: Key, sample: Sample, key: Key)
    requires Consistent(db) && Find(db.clients, owner).Some?
    ensures var db' := db.(packets := db.packets + [Row(Find(db.clients, owner).value, sample)]);
            && Consistent(db')
            && Content(db', key) == Content(db, key) + if key == owner then multiset{sample} else multiset{}
  {
    var id := Find(db.clients, owner).value;
    var r := Row(id, sample);
    FindSome(db.clients, owner);
    assert HasId(db.clients, id) by { assert Client(id, owner) in db.clients; }
    if Find(db.clients, key).Some? {
      FindSome(db.clients, key);
      SamplesAppend(db.packets, r, Find(db.clients, key).value);
    }
    forall q | q in db.packets + [r] ensures HasId(db.clients, q.clientId) {
      if q != r { assert q in db.packets; }
    }
  }
}
