/**
 * The `cards` table as the server sees it through its database client: rows
 * keyed by the unique `card_id` column, an insert that refuses an existing
 * key, and a single-row select filtered on id and `status = 'active'`.
 * Failures the database reports for reasons outside this model (network,
 * credentials, other constraints) arrive as the `fault` parameter.
 */
module CardStore {
  import opened Wrappers

  /** The status every card is created with; only such cards are readable. */
  const Active := "active"

  /** A row of `cards` (timestamps are not modelled). */
  datatype Card = Card(cardId: string, messageType: string, messageText: Option<string>, status: string)

  /** An error object returned by the client: a code and a human-readable message. */
  datatype DbError = DbError(code: string, message: string)

  /** Postgres' unique-violation code. */
  const UniqueViolation := "23505"

  /** The client's code for "`.single()` found no row". */
  const NoRows := "PGRST116"

  const DuplicateKey := DbError(UniqueViolation, "duplicate key value violates unique constraint on card_id")
  const NoRowsFound := DbError(NoRows, "JSON object requested, multiple (or no) rows returned")

  /** What a query resolves to: its data, or its error. */
  datatype Reply = Reply(data: Option<Card>, error: Option<DbError>)

  type Table = map<string, Card>

  /** Every row sits under its own `card_id`: the column's uniqueness constraint. */
  ghost predicate KeyedById(t: Table) {
    forall k :: k in t ==> t[k].cardId == k
  }

  /** The single-row insert that returns the new row: the reply, and the table afterwards. */
  function Insert(t: Table, rec: Card, fault: Option<DbError>): (out: (Reply, Table))
    ensures KeyedById(t) ==> KeyedById(out.1)
    ensures out.0.error.None? <==> fault.None? && rec.cardId !in t
    ensures out.0.error.None? ==> out.0.data == Some(rec) && out.1 == t[rec.cardId := rec]
    ensures out.0.error.Some? ==> out.1 == t
    ensures fault.Some? ==> out == (Reply(None, fault), t)
    ensures fault.None? && rec.cardId in t ==> out == (Reply(None, Some(DuplicateKey)), t)
    ensures forall k :: k in t ==> k in out.1 && out.1[k] == t[k]
  {
    if fault.Some? then (Reply(None, fault), t)
    else if rec.cardId in t then (Reply(None, Some(DuplicateKey)), t)
    else (Reply(Some(rec), None), t[rec.cardId := rec])
  }

  /** The single-row select of the row with exactly this id and status `active`. */
  function SelectActive(t: Table, id: string, fault: Option<DbError>): (reply: Reply)
    ensures reply.data.Some? ==> reply.error.None? && reply.data.value in t.Values
    ensures reply.data.Some? ==> reply.data.value.status == Active
    ensures KeyedById(t) && reply.data.Some? ==> reply.data.value.cardId == id
    ensures fault.Some? ==> reply == Reply(None, fault)
  {
    if fault.Some? then Reply(None, fault)
    else if id in t && t[id].status == Active then Reply(Some(t[id]), None)
    else Reply(None, Some(NoRowsFound))
  }

  /**
   * The select finds a row exactly when some row of the table has that id and
   * is active, and then it is that row; otherwise it reports no rows.
   */
  lemma SelectFindsActiveRow(t: Table, id: string, c: Card)
    requires KeyedById(t)
    ensures SelectActive(t, id, None).data.Some? <==> exists r :: r in t.Values && r.cardId == id && r.status == Active
    ensures c in t.Values && c.cardId == id && c.status == Active ==> SelectActive(t, id, None) == Reply(Some(c), None)
    ensures SelectActive(t, id, None).data.None? ==> SelectActive(t, id, None) == Reply(None, Some(NoRowsFound))
  {
    if r :| r in t.Values && r.cardId == id && r.status == Active {
      var k :| k in t && t[k] == r;
      assert k == id;
    }
    if c in t.Values && c.cardId == id {
      var k :| k in t && t[k] == c;
      assert k == id;
    }
  }
}
