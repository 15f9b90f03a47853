/**
  The SQL text that the database wrapper builds, read back. For identifier names the text is
  unambiguous: it parses to the statement that was meant and to no other.
 */
module Query {
  import opened Wrappers
  import opened Wire

  datatype Comparison = Lesser | Greater | Equal
  datatype Order = Asc | Desc
  datatype Where = Where(column: string, comparison: Comparison)
  datatype OrderBy = OrderBy(column: string, order: Order)
  datatype Select = Select(columns: seq<string>, table: string, where: Option<Where>, order: Option<OrderBy>)
  /** An INSERT with a number of positional parameters. */
  datatype Insert = Insert(table: string, columns: seq<string>, marks: nat)

  // ---------------------------------------------------------------- text

  function Join(names: seq<string>): string {
    if names == [] then ""
    else if |names| == 1 then names[0]
    else names[0] + (", " + Join(names[1..]))
  }

  function Marks(n: nat): seq<string> {
    seq(n, _ => "?")
  }

  function Sign(c: Comparison): string {
    match c
    case Lesser => "<"
    case Greater => ">"
    case Equal => "="
  }

  function Word(o: Order): string {
    match o
    case Asc => "ASC"
    case Desc => "DESC"
  }

  function WhereText(w: Option<Where>): string {
    if w.None? then "" else " WHERE " + (w.value.column + (" " + (Sign(w.value.comparison) + " ?")))
  }

  function OrderText(o: Option<OrderBy>): string {
    if o.None? then "" else " ORDER BY " + (o.value.column + (" " + Word(o.value.order)))
  }

  function SelectText(q: Select): string {
    "SELECT " + (Join(q.columns) + (" FROM " + (q.table + (WhereText(q.where) + (OrderText(q.order) + ";")))))
  }

  function InsertText(table: string, columns: seq<string>): string {
    "INSERT INTO " + (table + ("(" + (Join(columns) + (") VALUES(" + (Join(Marks(|columns|)) + ");")))))
  }

  lemma Nest3(a: string, b: string, c: string, d: string)
    ensures a + ((b + c) + d) == a + (b + (c + d))
    ensures (a + b) + (c + d) == a + (b + (c + d))
  {
    ConcatAssociates(b, c, d);
    ConcatAssociates(a, b, c + d);
  }

  lemma {:induction false} JoinNext(names: seq<string>, i: nat)
    requires i < |names|
    ensures Join(names[..i + 1]) == if i == 0 then names[0] else (Join(names[..i]) + ", ") + names[i]
    decreases i
  {
    if i == 1 {
      ConcatAssociates(names[0], ", ", names[1]);
      assert names[..2][1..] == [names[1]];
    } else if i > 1 {
      assert names[..i + 1][1..] == names[1..][..i] && names[..i][1..] == names[1..][..i - 1];
      JoinNext(names[1..], i - 1);
      var head, sep, last, mid := names[0], ", ", names[i], Join(names[1..][..i - 1]);
      ConcatAssociates(sep, mid + sep, last);
      ConcatAssociates(sep, mid, sep);
      ConcatAssociates(head, sep + (mid + sep), last);
      Nest3(head, sep, mid, sep);
      ConcatAssociates(head, sep + mid, sep);
    }
  }

  /** The separator loop over a list of column names. */
  method AppendNames(query: string, names: seq<string>) returns (out: string)
    ensures out == query + Join(names)
  {
    out := query;
    var first := true;
    for i := 0 to |names|
      invariant first == (i == 0)
      invariant out == query + Join(names[..i])
    {
      JoinNext(names, i);
      ConcatAssociates(query, Join(names[..i]), ", ");
      ConcatAssociates(query, Join(names[..i]) + ", ", names[i]);
      if first {
        first := false;
      } else {
        out := out + ", ";
      }
      out := out + names[i];
    }
    assert names[..|names|] == names;
  }

  method AppendWhere(query: string, w: Option<Where>) returns (out: string)
    ensures out == query + WhereText(w)
  {
    out := query;
    if w.Some? {
      out := out + (" WHERE " + w.value.column + " ");
      out := out + Sign(w.value.comparison);
      out := out + " ?";
      NestWhere(query, " WHERE ", w.value.column, " ", Sign(w.value.comparison), " ?");
    }
  }

  lemma NestWhere(q: string, a: string, c: string, b: string, s: string, m: string)
    ensures ((q + ((a + c) + b)) + s) + m == q + (a + (c + (b + (s + m))))
  {
    ConcatAssociates(q + ((a + c) + b), s, m);
    NestOrder(q, a, c, b, s + m);
  }

  lemma NestOrder(q: string, a: string, c: string, b: string, w: string)
    ensures (q + ((a + c) + b)) + w == q + (a + (c + (b + w)))
  {
    ConcatAssociates(q, (a + c) + b, w);
    ConcatAssociates(a + c, b, w);
    ConcatAssociates(a, c, b + w);
  }

  method AppendOrder(query: string, o: Option<OrderBy>) returns (out: string)
    ensures out == query + OrderText(o)
  {
    out := query;
    if o.Some? {
      out := out + (" ORDER BY " + o.value.column + " ");
      if o.value.order.Asc? { out := out + "ASC"; } else { out := out + "DESC"; }
      NestOrder(query, " ORDER BY ", o.value.column, " ", Word(o.value.order));
    }
  }

  /** The text of a SELECT; an empty table name or column list throws. */
  method RenderSelect(q: Select) returns (query: Option<string>)
    ensures query == if q.table == "" || q.columns == [] then None else Some(SelectText(q))
  {
    if q.table == "" || q.columns == [] { return None; }
    var text := AppendNames("SELECT ", q.columns);
    text := text + (" FROM " + q.table);
    text := AppendWhere(text, q.where);
    text := AppendOrder(text, q.order);
    text := text + ";";
    NestSelect("SELECT ", Join(q.columns), " FROM ", q.table, WhereText(q.where), OrderText(q.order), ";");
    return Some(text);
  }

  lemma NestSelect(a: string, j: string, f: string, t: string, w: string, o: string, e: string)
    ensures ((((a + j) + (f + t)) + w) + o) + e == a + (j + (f + (t + (w + (o + e)))))
  {
    ConcatAssociates(((a + j) + (f + t)) + w, o, e);
    ConcatAssociates((a + j) + (f + t), w, o + e);
    ConcatAssociates(a + j, f + t, w + (o + e));
    ConcatAssociates(f, t, w + (o + e));
    ConcatAssociates(a, j, f + (t + (w + (o + e))));
  }

  method AppendMarks(query: string, n: nat) returns (out: string)
    ensures out == query + Join(Marks(n))
  {
    out := query;
    ghost var marks := Marks(n);
    for i := 0 to n
      invariant out == query + Join(marks[..i])
    {
      JoinNext(marks, i);
      ConcatAssociates(query, Join(marks[..i]), ", ");
      ConcatAssociates(query, Join(marks[..i]) + ", ", marks[i]);
      if i > 0 { out := out + ", "; }
      out := out + "?";
    }
    assert marks[..n] == marks;
  }

  method RenderInsert(table: string, columns: seq<string>) returns (query: Option<string>)
    ensures query == if table == "" || columns == [] then None else Some(InsertText(table, columns))
  {
    if table == "" || columns == [] { return None; }
    var text := AppendNames("INSERT INTO " + table + "(", columns);
    text := text + ") VALUES(";
    text := AppendMarks(text, |columns|);
    text := text + ");";
    NestInsert("INSERT INTO ", table, "(", Join(columns), ") VALUES(", Join(Marks(|columns|)), ");");
    return Some(text);
  }

  lemma NestInsert(a: string, t: string, b: string, j: string, v: string, m: string, e: string)
    ensures (((((a + t) + b) + j) + v) + m) + e == a + (t + (b + (j + (v + (m + e)))))
  {
    ConcatAssociates((((a + t) + b) + j) + v, m, e);
    ConcatAssociates(((a + t) + b) + j, v, m + e);
    ConcatAssociates((a + t) + b, j, v + (m + e));
    ConcatAssociates(a + t, b, j + (v + (m + e)));
    ConcatAssociates(a, t, b + (j + (v + (m + e))));
  }

  // ---------------------------------------------------------------- reading it back

  predicate IdentChar(c: char) {
    'a' <= c <= 'z' || 'A' <= c <= 'Z' || '0' <= c <= '9' || c == '_'
  }

  predicate Ident(s: string) {
    s != [] && forall c | c in s :: IdentChar(c)
  }

  /** The length of the identifier at the front of `s`. */
  function IdentEnd(s: string): (n: nat)
    ensures n <= |s|
  {
    if s == [] || !IdentChar(s[0]) then 0 else 1 + IdentEnd(s[1..])
  }

  function TakeIdent(s: string): (r: Option<(string, string)>)
    ensures r.Some? ==> |r.value.1| < |s|
  {
    var n := IdentEnd(s);
    if n == 0 then None else Some((s[..n], s[n..]))
  }

  function After(s: string, text: string): (r: Option<string>)
    ensures r.Some? ==> |r.value| + |text| == |s|
  {
    if text <= s then Some(s[|text|..]) else None
  }

  function TakeNames(s: string): Option<(seq<string>, string)>
    decreases |s|
  {
    var id :- TakeIdent(s);
    match After(id.1, ", ")
    case None => Some(([id.0], id.1))
    case Some(rest) =>
      var more :- TakeNames(rest);
      Some(([id.0] + more.0, more.1))
  }

  function TakeMarks(s: string): Option<(nat, string)>
    decreases |s|
  {
    var s1 :- After(s, "?");
    match After(s1, ", ")
    case None => Some((1, s1))
    case Some(rest) =>
      var more :- TakeMarks(rest);
      Some((1 + more.0, more.1))
  }

  function TakeSign(s: string): Option<(Comparison, string)> {
    if s == [] then None
    else match s[0]
      case '<' => Some((Lesser, s[1..]))
      case '>' => Some((Greater, s[1..]))
      case '=' => Some((Equal, s[1..]))
      case _ => None
  }

  function TakeWord(s: string): Option<(Order, string)> {
    match After(s, "ASC")
    case Some(rest) => Some((Asc, rest))
    case None =>
      var rest :- After(s, "DESC");
      Some((Desc, rest))
  }

  function TakeWhere(s: string): Option<(Option<Where>, string)> {
    match After(s, " WHERE ")
    case None => Some((None, s))
    case Some(s1) =>
      var id :- TakeIdent(s1);
      var s2 :- After(id.1, " ");
      var sign :- TakeSign(s2);
      var s3 :- After(sign.1, " ?");
      Some((Some(Where(id.0, sign.0)), s3))
  }

  function TakeOrder(s: string): Option<(Option<OrderBy>, string)> {
    match After(s, " ORDER BY ")
    case None => Some((None, s))
    case Some(s1) =>
      var id :- TakeIdent(s1);
      var s2 :- After(id.1, " ");
      var word :- TakeWord(s2);
      Some((Some(OrderBy(id.0, word.0)), word.1))
  }

  function ParseSelect(s: string): Option<Select> {
    var s1 :- After(s, "SELECT ");
    var names :- TakeNames(s1);
    var s2 :- After(names.1, " FROM ");
    var table :- TakeIdent(s2);
    var where :- TakeWhere(table.1);
    var order :- TakeOrder(where.1);
    if order.1 == ";" then Some(Select(names.0, table.0, where.0, order.0)) else None
  }

  function ParseInsert(s: string): Option<Insert> {
    var s1 :- After(s, "INSERT INTO ");
    var table :- TakeIdent(s1);
    var s2 :- After(table.1, "(");
    var names :- TakeNames(s2);
    var s3 :- After(names.1, ") VALUES(");
    var marks :- TakeMarks(s3);
    if marks.1 == ");" then Some(Insert(table.0, names.0, marks.0)) else None
  }

  // ---------------------------------------------------------------- the round trips

  /** Text that cannot be read as the continuation of an identifier. */
  predicate Breaks(tail: string) {
    tail != [] && !IdentChar(tail[0])
  }

  lemma {:induction false} IdentRoundTrip(name: string, tail: string)
    requires (forall c | c in name :: IdentChar(c)) && Breaks(tail)
    ensures IdentEnd(name + tail) == |name|
    ensures name != [] ==> TakeIdent(name + tail) == Some((name, tail))
  {
    if name == [] {
      assert name + tail == tail;
    } else {
      assert (name + tail)[1..] == name[1..] + tail;
      IdentRoundTrip(name[1..], tail);
      assert (name + tail)[..|name|] == name && (name + tail)[|name|..] == tail;
    }
  }

  lemma AfterRoundTrip(text: string, tail: string)
    ensures After(text + tail, text) == Some(tail)
  {
  }

  /** Text that differs at one place does not come after. */
  lemma NotAfter(s: string, text: string, i: nat)
    requires i < |text| && (i < |s| ==> s[i] != text[i])
    ensures After(s, text).None?
  {
  }

  lemma LastName(name: string, tail: string)
    requires Ident(name) && Breaks(tail) && tail[0] != ','
    ensures TakeNames(name + tail) == Some(([name], tail))
  {
    IdentRoundTrip(name, tail);
    NotAfter(tail, ", ", 0);
  }

  lemma NextName(name: string, more: string)
    requires Ident(name) && TakeNames(more).Some?
    ensures TakeNames(name + (", " + more)) == Some(([name] + TakeNames(more).value.0, TakeNames(more).value.1))
  {
    IdentRoundTrip(name, ", " + more);
    AfterRoundTrip(", ", more);
  }

  lemma {:induction false} NamesRoundTrip(names: seq<string>, tail: string)
    requires names != [] && (forall n | n in names :: Ident(n))
    requires Breaks(tail) && tail[0] != ','
    ensures TakeNames(Join(names) + tail) == Some((names, tail))
    decreases |names|
  {
    assert names == [names[0]] + names[1..];
    if |names| == 1 {
      assert names == [names[0]];
      LastName(names[0], tail);
    } else {
      ConcatAssociates(names[0], ", " + Join(names[1..]), tail);
      ConcatAssociates(", ", Join(names[1..]), tail);
      NamesRoundTrip(names[1..], tail);
      NextName(names[0], Join(names[1..]) + tail);
    }
  }

  lemma {:induction false} MarksRoundTrip(n: nat, tail: string)
    requires n > 0 && tail != [] && tail[0] != ','
    ensures TakeMarks(Join(Marks(n)) + tail) == Some((n, tail))
    decreases n
  {
    if n == 1 {
      AfterRoundTrip("?", tail);
      NotAfter(tail, ", ", 0);
    } else {
      assert Marks(n)[1..] == Marks(n - 1);
      var more := Join(Marks(n - 1)) + tail;
      ConcatAssociates("?", ", " + Join(Marks(n - 1)), tail);
      ConcatAssociates(", ", Join(Marks(n - 1)), tail);
      AfterRoundTrip("?", ", " + more);
      AfterRoundTrip(", ", more);
      MarksRoundTrip(n - 1, tail);
    }
  }

  lemma SignRoundTrip(c: Comparison, tail: string)
    ensures TakeSign(Sign(c) + tail) == Some((c, tail))
  {
    assert (Sign(c) + tail)[1..] == tail;
  }

  lemma WordRoundTrip(o: Order, tail: string)
    ensures TakeWord(Word(o) + tail) == Some((o, tail))
  {
    AfterRoundTrip(Word(o), tail);
    if o.Desc? { NotAfter("DESC" + tail, "ASC", 0); }
  }

  lemma WhereTextRoundTrip(w: Where, tail: string)
    requires Ident(w.column)
    ensures TakeWhere(WhereText(Some(w)) + tail) == Some((Some(w), tail))
  {
    var s3 := " ?" + tail;
    var s2 := Sign(w.comparison) + s3;
    var s1 := w.column + (" " + s2);
    NestTail(" WHERE ", w.column, " ", Sign(w.comparison), " ?", tail);
    AfterRoundTrip(" WHERE ", s1);
    IdentRoundTrip(w.column, " " + s2);
    AfterRoundTrip(" ", s2);
    SignRoundTrip(w.comparison, s3);
    AfterRoundTrip(" ?", tail);
  }

  lemma NestTail(a: string, c: string, b: string, s: string, m: string, t: string)
    ensures (a + (c + (b + (s + m)))) + t == a + (c + (b + (s + (m + t))))
  {
    ConcatAssociates(a, c + (b + (s + m)), t);
    ConcatAssociates(c, b + (s + m), t);
    ConcatAssociates(b, s + m, t);
    ConcatAssociates(s, m, t);
  }

  lemma WhereRoundTrip(w: Option<Where>, tail: string)
    requires w.Some? ==> Ident(w.value.column)
    requires w.None? ==> After(tail, " WHERE ").None?
    ensures TakeWhere(WhereText(w) + tail) == Some((w, tail))
  {
    if w.None? {
      assert "" + tail == tail;
    } else {
      WhereTextRoundTrip(w.value, tail);
    }
  }

  lemma OrderTextRoundTrip(o: OrderBy, tail: string)
    requires Ident(o.column)
    ensures TakeOrder(OrderText(Some(o)) + tail) == Some((Some(o), tail))
    ensures After(OrderText(Some(o)) + tail, " WHERE ").None?
  {
    var s2 := Word(o.order) + tail;
    var s1 := o.column + (" " + s2);
    NestOrderTail(" ORDER BY ", o.column, " ", Word(o.order), tail);
    AfterRoundTrip(" ORDER BY ", s1);
    IdentRoundTrip(o.column, " " + s2);
    AfterRoundTrip(" ", s2);
    WordRoundTrip(o.order, tail);
    NotAfter(" ORDER BY " + s1, " WHERE ", 1);
  }

  lemma NestOrderTail(a: string, c: string, b: string, w: string, t: string)
    ensures (a + (c + (b + w))) + t == a + (c + (b + (w + t)))
  {
    ConcatAssociates(a, c + (b + w), t);
    ConcatAssociates(c, b + w, t);
    ConcatAssociates(b, w, t);
  }

  lemma OrderRoundTrip(o: Option<OrderBy>)
    requires o.Some? ==> Ident(o.value.column)
    ensures TakeOrder(OrderText(o) + ";") == Some((o, ";"))
    ensures After(OrderText(o) + ";", " WHERE ").None?
    ensures Breaks(OrderText(o) + ";")
  {
    if o.None? {
      assert "" + ";" == ";";
      NotAfter(";", " ORDER BY ", 0);
      NotAfter(";", " WHERE ", 0);
    } else {
      OrderTextRoundTrip(o.value, ";");
    }
  }

  lemma WhereBreaks(w: Option<Where>, tail: string)
    requires Breaks(tail)
    ensures Breaks(WhereText(w) + tail)
  {
  }

  /** The text of a SELECT over identifier names stands for that SELECT and no other. */
  lemma SelectRoundTrip(q: Select)
    requires q.columns != [] && (forall n | n in q.columns :: Ident(n)) && Ident(q.table)
    requires q.where.Some? ==> Ident(q.where.value.column)
    requires q.order.Some? ==> Ident(q.order.value.column)
    ensures ParseSelect(SelectText(q)) == Some(q)
  {
    var s4 := OrderText(q.order) + ";";
    var s3 := WhereText(q.where) + s4;
    var s2 := q.table + s3;
    var s1 := Join(q.columns) + (" FROM " + s2);
    OrderRoundTrip(q.order);
    WhereBreaks(q.where, s4);
    AfterRoundTrip("SELECT ", s1);
    NamesRoundTrip(q.columns, " FROM " + s2);
    AfterRoundTrip(" FROM ", s2);
    IdentRoundTrip(q.table, s3);
    WhereRoundTrip(q.where, s4);
  }

  /** The text of an INSERT names the table and the columns given, with one parameter for each column. */
  lemma InsertRoundTrip(table: string, columns: seq<string>)
    requires columns != [] && (forall n | n in columns :: Ident(n)) && Ident(table)
    ensures ParseInsert(InsertText(table, columns)) == Some(Insert(table, columns, |columns|))
  {
    var s4 := Join(Marks(|columns|)) + ");";
    var s3 := Join(columns) + (") VALUES(" + s4);
    var s2 := table + ("(" + s3);
    AfterRoundTrip("INSERT INTO ", s2);
    IdentRoundTrip(table, "(" + s3);
    AfterRoundTrip("(", s3);
    NamesRoundTrip(columns, ") VALUES(" + s4);
    AfterRoundTrip(") VALUES(", s4);
    MarksRoundTrip(|columns|, ");");
  }

  // ---------------------------------------------------------------- the texts themselves

  lemma JoinOfTwo(a: string, b: string)
    ensures Join([]) == "" && Join([a]) == a && Join([a, b]) == a + (", " + b)
  {
    assert [a, b][1..] == [b];
  }

  /** Each condition and each ordering, spelled out. */
  lemma ClauseTexts(c: string)
    ensures WhereText(Some(Where(c, Lesser))) == " WHERE " + (c + " < ?")
    ensures WhereText(Some(Where(c, Greater))) == " WHERE " + (c + " > ?")
    ensures WhereText(Some(Where(c, Equal))) == " WHERE " + (c + " = ?")
    ensures OrderText(Some(OrderBy(c, Asc))) == " ORDER BY " + (c + " ASC")
    ensures OrderText(Some(OrderBy(c, Desc))) == " ORDER BY " + (c + " DESC")
    ensures WhereText(None) == "" && OrderText(None) == ""
  {
    assert " " + ("<" + " ?") == " < ?" && " " + (">" + " ?") == " > ?" && " " + ("=" + " ?") == " = ?";
    assert " " + "ASC" == " ASC" && " " + "DESC" == " DESC";
  }

  /** And the text they go into. */
  lemma SelectTexts(a: string, b: string, t: string, w: Option<Where>, o: Option<OrderBy>)
    ensures SelectText(Select([a], t, w, o)) ==
            "SELECT " + (a + (" FROM " + (t + (WhereText(w) + (OrderText(o) + ";")))))
    ensures SelectText(Select([a, b], t, w, o)) ==
            "SELECT " + ((a + (", " + b)) + (" FROM " + (t + (WhereText(w) + (OrderText(o) + ";")))))
  {
    hide WhereText, OrderText, Join;
    JoinOfTwo(a, b);
  }

  lemma InsertTexts(a: string, b: string, t: string)
    ensures InsertText(t, [a]) == "INSERT INTO " + (t + ("(" + (a + ") VALUES(?);")))
    ensures InsertText(t, [a, b]) == "INSERT INTO " + (t + ("(" + ((a + (", " + b)) + ") VALUES(?, ?);")))
  {
    hide Join;
    JoinOfTwo(a, b);
    JoinOfTwo("?", "?");
    assert Marks(1) == ["?"] && Marks(2) == ["?", "?"];
    assert ") VALUES(" + ("?" + ");") == ") VALUES(?);";
    assert ") VALUES(" + (("?" + (", " + "?")) + ");") == ") VALUES(?, ?);";
  }
}
