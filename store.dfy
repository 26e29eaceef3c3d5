/**
 * The store writer `save_characters`: a sequential loop of upserts keyed by
 * `id` into the `characters` table, stopping at the first failed write.
 */
module Store {

  import opened Wrappers
  import opened Seqs
  import opened Assembler

  /** The table contents after a batch, and whether every write went through. */
  datatype SaveResult = SaveResult(rows: map<int, Row>, ok: bool)

  /**
   * What `save_characters` does to a table holding `rows`: skip `None`
   * entries, upsert each row the database accepts, stop at the first one it
   * rejects.  `accepts` is the database's verdict on a write.
   */
  function SaveAll(rows: map<int, Row>, batch: seq<Option<Row>>, accepts: Row -> bool): (r: SaveResult)
    ensures rows.Keys <= r.rows.Keys
    decreases |batch|
  {
    if batch == [] then SaveResult(rows, true)
    else match batch[0]
      case None => SaveAll(rows, batch[1..], accepts)
      case Some(row) =>
        if accepts(row) then SaveAll(rows[row.id := row], batch[1..], accepts)
        else SaveResult(rows, false)
  }

  /** The `characters` table, held by the database connection. */
  class CharacterTable {
    var rows: map<int, Row>
    /** Whether the database completes a write (constraints, encoding, connection). */
    const accepts: Row -> bool

    constructor (rows: map<int, Row>, accepts: Row -> bool)
      ensures this.rows == rows && this.accepts == accepts
    {
      this.rows := rows;
      this.accepts := accepts;
    }

    /**
     * `INSERT INTO characters VALUES (...) ON CONFLICT (id) DO UPDATE SET`
     * every non-key column: the row under `row.id` becomes `row`, whether it
     * was there or not; a rejected write changes nothing.
     */
    method Upsert(row: Row) returns (ok: bool)
      modifies this
      ensures ok == accepts(row)
      ensures rows == if ok then old(rows)[row.id := row] else old(rows)
    {
      ok := accepts(row);
      if ok {
        rows := rows[row.id := row];
      }
    }
  }

  /** `save_characters(conn, characters)`: `True` when every write went through. */
  method SaveCharacters(table: CharacterTable, characters: seq<Option<Row>>) returns (ok: bool)
    modifies table
    ensures table.rows == SaveAll(old(table.rows), characters, table.accepts).rows
    ensures ok == SaveAll(old(table.rows), characters, table.accepts).ok
  {
    var i := 0;
    while i < |characters|
      invariant 0 <= i <= |characters|
      invariant SaveAll(table.rows, characters[i..], table.accepts) == SaveAll(old(table.rows), characters, table.accepts)
    {
      assert characters[i..][1..] == characters[i + 1..];
      if characters[i].Some? {
        var written := table.Upsert(characters[i].value);
        if !written {
          return false;
        }
      }
      i := i + 1;
    }
    return true;
  }

  /** The last row in `batch` whose id is `id`. */
  function LastRow(batch: seq<Option<Row>>, id: int): Option<Row> {
    if batch == [] then None
    else
      var later := LastRow(batch[1..], id);
      if later.Some? then later
      else if batch[0].Some? && batch[0].value.id == id then batch[0]
      else None
  }

  /** `LastRow` finds the last entry with the id, and finds none only when no entry has it. */
  lemma {:induction false} LastRowSpec(batch: seq<Option<Row>>, id: int)
    ensures var r := LastRow(batch, id);
      r.Some? ==>
        && r.value.id == id
        && exists i | 0 <= i < |batch| ::
             && batch[i] == r
             && forall j | i < j < |batch| :: !(batch[j].Some? && batch[j].value.id == id)
    ensures LastRow(batch, id).None? ==> forall i | 0 <= i < |batch| :: !(batch[i].Some? && batch[i].value.id == id)
  {
    if batch != [] {
      var rest := batch[1..];
      LastRowSpec(rest, id);
      var later := LastRow(rest, id);
      if later.Some? {
        var i :| 0 <= i < |rest| && rest[i] == later
          && forall j | i < j < |rest| :: !(rest[j].Some? && rest[j].value.id == id);
        assert batch[i + 1] == later;
        assert forall j | i + 1 < j < |batch| :: batch[j] == rest[j - 1];
      } else {
        assert forall j | 0 < j < |batch| :: batch[j] == rest[j - 1];
      }
    }
  }

  /** The batch completes exactly when the database accepts every row in it. */
  lemma {:induction false} SaveOkIff(rows: map<int, Row>, batch: seq<Option<Row>>, accepts: Row -> bool)
    ensures SaveAll(rows, batch, accepts).ok <==>
      forall i | 0 <= i < |batch| && batch[i].Some? :: accepts(batch[i].value)
    decreases |batch|
  {
    if batch != [] {
      var next := if batch[0].Some? && accepts(batch[0].value) then rows[batch[0].value.id := batch[0].value] else rows;
      SaveOkIff(next, batch[1..], accepts);
      assert forall i | 1 <= i < |batch| :: batch[i] == batch[1..][i - 1];
    }
  }

  /**
   * After a batch that completes, each id in the batch holds the row of the
   * last record with that id; every other key is as before.
   */
  lemma {:induction false} SaveSuccess(rows: map<int, Row>, batch: seq<Option<Row>>, accepts: Row -> bool, id: int)
    requires SaveAll(rows, batch, accepts).ok
    ensures var after := SaveAll(rows, batch, accepts).rows;
      match LastRow(batch, id)
      case Some(row) => id in after && after[id] == row
      case None => (id in after <==> id in rows) && (id in rows ==> after[id] == rows[id])
    decreases |batch|
  {
    if batch != [] {
      match batch[0]
      case None =>
        SaveSuccess(rows, batch[1..], accepts, id);
      case Some(row) =>
        SaveSuccess(rows[row.id := row], batch[1..], accepts, id);
    }
  }

  /** The position of the first row in `batch` that the database rejects. */
  function FirstRejected(batch: seq<Option<Row>>, accepts: Row -> bool): (r: Option<nat>)
    ensures r.Some? ==> r.value < |batch| && batch[r.value].Some? && !accepts(batch[r.value].value)
    ensures forall j | 0 <= j < (if r.Some? then r.value else |batch|) && batch[j].Some? :: accepts(batch[j].value)
  {
    if batch == [] then None
    else if batch[0].Some? && !accepts(batch[0].value) then Some(0)
    else match FirstRejected(batch[1..], accepts)
      case None => None
      case Some(f) => Some(f + 1)
  }

  /**
   * A batch that fails stops at the first rejected row: everything before it
   * was written, nothing from it on was.
   */
  lemma {:induction false} SaveFailure(rows: map<int, Row>, batch: seq<Option<Row>>, accepts: Row -> bool)
    requires !SaveAll(rows, batch, accepts).ok
    ensures FirstRejected(batch, accepts).Some?
    ensures SaveAll(rows, batch[..FirstRejected(batch, accepts).value], accepts)
      == SaveResult(SaveAll(rows, batch, accepts).rows, true)
    decreases |batch|
  {
    var next := if batch[0].Some? then rows[batch[0].value.id := batch[0].value] else rows;
    if batch[0].Some? && !accepts(batch[0].value) {
      assert batch[..0] == [];
    } else {
      SaveFailure(next, batch[1..], accepts);
      var f := FirstRejected(batch[1..], accepts).value;
      assert FirstRejected(batch, accepts) == Some(f + 1);
      assert batch[..f + 1][1..] == batch[1..][..f];
    }
  }

  /** Every key of the table names the row stored under it. */
  ghost predicate KeyedById(rows: map<int, Row>) {
    forall id | id in rows :: rows[id].id == id
  }

  /** A batch keeps the table keyed by id: one row per id, under its own id. */
  lemma {:induction false} SaveKeepsKeys(rows: map<int, Row>, batch: seq<Option<Row>>, accepts: Row -> bool)
    requires KeyedById(rows)
    ensures KeyedById(SaveAll(rows, batch, accepts).rows)
    decreases |batch|
  {
    if batch != [] {
      match batch[0]
      case None =>
        SaveKeepsKeys(rows, batch[1..], accepts);
      case Some(row) =>
        if accepts(row) {
          SaveKeepsKeys(rows[row.id := row], batch[1..], accepts);
        }
    }
  }

  /** Every row in the table afterwards was there before or came from the batch. */
  lemma {:induction false} SavedRowsFromBatch(rows: map<int, Row>, batch: seq<Option<Row>>, accepts: Row -> bool)
    ensures var after := SaveAll(rows, batch, accepts).rows;
      forall id | id in after :: (id in rows && after[id] == rows[id]) || Some(after[id]) in batch
    decreases |batch|
  {
    if batch != [] {
      match batch[0]
      case None =>
        SavedRowsFromBatch(rows, batch[1..], accepts);
      case Some(row) =>
        if accepts(row) {
          SavedRowsFromBatch(rows[row.id := row], batch[1..], accepts);
        }
    }
  }

  predicate IsSome(entry: Option<Row>) {
    entry.Some?
  }

  /** Falsy entries are skipped: dropping them beforehand changes nothing. */
  lemma {:induction false} SaveSkipsNone(rows: map<int, Row>, batch: seq<Option<Row>>, accepts: Row -> bool)
    ensures SaveAll(rows, Filter(batch, IsSome), accepts) == SaveAll(rows, batch, accepts)
    decreases |batch|
  {
    if batch != [] {
      var next := if batch[0].Some? then rows[batch[0].value.id := batch[0].value] else rows;
      SaveSkipsNone(next, batch[1..], accepts);
      SaveSkipsNone(rows, batch[1..], accepts);
      if batch[0].Some? {
        assert ([batch[0]] + Filter(batch[1..], IsSome))[1..] == Filter(batch[1..], IsSome);
      }
    }
  }

  /** Saving the same batch again, once it has gone through, changes nothing. */
  lemma SaveIdempotent(rows: map<int, Row>, batch: seq<Option<Row>>, accepts: Row -> bool)
    requires SaveAll(rows, batch, accepts).ok
    ensures SaveAll(SaveAll(rows, batch, accepts).rows, batch, accepts) == SaveAll(rows, batch, accepts)
  {
    var once := SaveAll(rows, batch, accepts).rows;
    SaveOkIff(rows, batch, accepts);
    SaveOkIff(once, batch, accepts);
    var twice := SaveAll(once, batch, accepts).rows;
    forall id ensures (id in twice <==> id in once) && (id in once ==> twice[id] == once[id]) {
      SaveSuccess(rows, batch, accepts, id);
      SaveSuccess(once, batch, accepts, id);
    }
    assert twice == once;
  }

  /** Upserting two versions of one id leaves a single row holding the second. */
  lemma UpsertTwice(rows: map<int, Row>, first: Row, second: Row, accepts: Row -> bool)
    requires first.id == second.id && accepts(first) && accepts(second)
    ensures SaveAll(rows, [Some(first), Some(second)], accepts) == SaveResult(rows[second.id := second], true)
  {
    var batch := [Some(first), Some(second)];
    assert batch[1..] == [Some(second)] && batch[1..][1..] == [];
    assert SaveAll(rows, batch, accepts) == SaveAll(rows[first.id := first], [Some(second)], accepts);
    assert rows[first.id := first][second.id := second] == rows[second.id := second];
  }
}
