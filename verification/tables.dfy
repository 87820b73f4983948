/** An owner-scoped table: rows keyed by an auto-increment id, each row
    carrying the `user_id` of its owner and its other columns.  Every
    mutation the handlers issue filters by `(user_id, id)`; the row count
    it reports is the number of rows matching that filter (0 or 1). */
module Tables {
  import opened Values
  import opened Fields

  datatype Row = Row(userId: int, cols: map<string, Value>)

  /** `autoInc` is the table's AUTO_INCREMENT counter: the id the next
      INSERT receives. */
  datatype Table = Table(rows: map<int, Row>, autoInc: int)

  /** A statement's reported row count and the table after it. */
  datatype Change = Change(count: nat, table: Table)

  /** The row `id` exists and belongs to `uid`: the `WHERE user_id=%s AND id=%s` filter matches. */
  predicate Owns(t: Table, uid: int, id: int) {
    id in t.rows && t.rows[id].userId == uid
  }

  /** Everything user `uid` can see or touch in the table. */
  function View(t: Table, uid: int): map<int, Row> {
    map id | id in t.rows && t.rows[id].userId == uid :: t.rows[id]
  }

  /** Ids are positive and below the AUTO_INCREMENT counter. */
  ghost predicate CounterAhead(t: Table) {
    && 1 <= t.autoInc
    && forall id :: id in t.rows ==> 1 <= id < t.autoInc
  }

  /** Every row's columns belong to the table's schema. */
  ghost predicate Conforms(t: Table, schema: seq<string>) {
    forall id, c :: id in t.rows && c in t.rows[id].cols ==> c in schema
  }

  ghost predicate TableOk(t: Table, schema: seq<string>) {
    CounterAhead(t) && Conforms(t, schema)
  }

  /** `t'` is `t` with one more row, owned by `uid`, at the counter's id. */
  ghost predicate InsertedBy(t: Table, t': Table, uid: int) {
    && t.autoInc in t'.rows
    && t'.rows[t.autoInc].userId == uid
    && t'.rows.Keys == t.rows.Keys + {t.autoInc}
    && (forall k :: k in t.rows && k != t.autoInc ==> t'.rows[k] == t.rows[k])
  }

  /** `SELECT ... WHERE user_id=%s AND id=%s`. */
  function FindOwned(t: Table, uid: int, id: int): (r: Option<Row>)
    ensures r.Some? <==> Owns(t, uid, id)
    ensures r.Some? ==> id in View(t, uid) && View(t, uid)[id] == r.value
    ensures r.Some? ==> r.value == t.rows[id]
  {
    if Owns(t, uid, id) then Some(t.rows[id]) else None
  }

  /** A lookup by `uid` depends only on what `uid` owns. */
  lemma FindOwnedSeesView(t: Table, t': Table, uid: int, id: int)
    requires View(t, uid) == View(t', uid)
    ensures FindOwned(t, uid, id) == FindOwned(t', uid, id)
  {
    assert Owns(t, uid, id) <==> id in View(t, uid);
    assert Owns(t', uid, id) <==> id in View(t', uid);
    if Owns(t, uid, id) {
      assert t.rows[id] == View(t, uid)[id] == t'.rows[id];
    }
  }

  /** `UPDATE t SET <fields> WHERE user_id=%s AND id=%s`. */
  function UpdateOwned(t: Table, uid: int, id: int, fields: seq<Field>): (r: Change)
    ensures r.count <= 1
    ensures r.count == 1 <==> Owns(t, uid, id)
    ensures r.table.rows.Keys == t.rows.Keys && r.table.autoInc == t.autoInc
    ensures forall k :: k in t.rows && k != id ==> r.table.rows[k] == t.rows[k]
    ensures Owns(t, uid, id) ==> r.table.rows[id] == Row(uid, Patch(t.rows[id].cols, fields))
    ensures r.count == 0 ==> r.table == t
  {
    if Owns(t, uid, id) then
      Change(1, t.(rows := t.rows[id := Row(uid, Patch(t.rows[id].cols, fields))]))
    else Change(0, t)
  }

  /** `DELETE FROM t WHERE user_id=%s AND id=%s`. */
  function DeleteOwned(t: Table, uid: int, id: int): (r: Change)
    ensures r.count <= 1
    ensures r.count == 1 <==> Owns(t, uid, id)
    ensures r.table.rows.Keys == t.rows.Keys - (if r.count == 1 then {id} else {})
    ensures forall k :: k in r.table.rows ==> r.table.rows[k] == t.rows[k]
    ensures r.table.autoInc == t.autoInc
  {
    if Owns(t, uid, id) then Change(1, t.(rows := t.rows - {id})) else Change(0, t)
  }

  /** `INSERT INTO t (user_id, ...) VALUES (...)`; the new id is the
      AUTO_INCREMENT counter. */
  function InsertOwned(t: Table, uid: int, cols: map<string, Value>): (r: (int, Table))
    ensures CounterAhead(t) ==> r.0 !in t.rows && CounterAhead(r.1)
    ensures r.1.rows.Keys == t.rows.Keys + {r.0}
    ensures r.1.rows[r.0] == Row(uid, cols)
    ensures r.0 == t.autoInc && InsertedBy(t, r.1, uid)
    ensures forall k :: k in t.rows && k != r.0 ==> r.1.rows[k] == t.rows[k]
  {
    var id := t.autoInc;
    (id, Table(t.rows[id := Row(uid, cols)], id + 1))
  }

  /** An insert whose columns belong to the schema keeps the table well formed. */
  lemma InsertKeepsTableOk(t: Table, uid: int, cols: map<string, Value>, schema: seq<string>)
    requires forall c :: c in cols ==> c in schema
    ensures TableOk(t, schema) ==> TableOk(InsertOwned(t, uid, cols).1, schema)
  {
  }

  /** An update by `uid` leaves every other user's rows exactly as they were. */
  lemma UpdateIsolated(t: Table, uid: int, id: int, fields: seq<Field>, u: int)
    requires u != uid
    ensures View(UpdateOwned(t, uid, id, fields).table, u) == View(t, u)
  {
    var t' := UpdateOwned(t, uid, id, fields).table;
    assert View(t', u).Keys == View(t, u).Keys;
  }

  /** A delete by `uid` leaves every other user's rows exactly as they were. */
  lemma DeleteIsolated(t: Table, uid: int, id: int, u: int)
    requires u != uid
    ensures View(DeleteOwned(t, uid, id).table, u) == View(t, u)
  {
    var t' := DeleteOwned(t, uid, id).table;
    assert View(t', u).Keys == View(t, u).Keys;
  }

  /** An insert by `uid` into a table whose counter is ahead of its ids
      leaves every other user's rows exactly as they were. */
  lemma InsertIsolated(t: Table, t': Table, uid: int, u: int)
    requires CounterAhead(t)
    requires InsertedBy(t, t', uid)
    requires u != uid
    ensures View(t', u) == View(t, u)
  {
    assert t.autoInc !in t.rows;
    forall k | k in t.rows
      ensures k in t'.rows && t'.rows[k] == t.rows[k]
    {
    }
    assert View(t', u).Keys == View(t, u).Keys;
  }
}
