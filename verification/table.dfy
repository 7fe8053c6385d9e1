/**
 * The `tasks` table of chronos/storage.py (`id TEXT PRIMARY KEY, data BLOB NOT
 * NULL`) as a map from the `id` column to the `data` column, and what each
 * SQL statement the storage issues does to it. `medium` says whether the
 * database file accepts the statement at all; when it does not, aiosqlite
 * raises and the table is untouched.
 */
module Table {
  import opened Wrappers
  import opened Exceptions

  type Rows<V> = map<string, V>

  datatype Medium = Available | Unavailable

  /** `INSERT INTO tasks (id, data) VALUES (?, ?)`. */
  function Insert<V>(rows: Rows<V>, id: string, data: V, medium: Medium): (r: Result<Rows<V>>)
    ensures r.Ok? <==> medium.Available? && id !in rows
    ensures medium.Unavailable? ==> r == Err(StorageError(MediumUnavailable))
    ensures medium.Available? && id in rows ==> r == Err(StorageError(DuplicateId))
    ensures r.Ok? ==> r.value.Keys == rows.Keys + {id} && r.value[id] == data
    ensures r.Ok? ==> forall k :: k in rows ==> r.value[k] == rows[k]
  {
    if medium.Unavailable? then Err(StorageError(MediumUnavailable))
    else if id in rows then Err(StorageError(DuplicateId))
    else Ok(rows[id := data])
  }

  /** `SELECT data FROM tasks WHERE id = ?` followed by `fetchone()`. */
  function Select<V>(rows: Rows<V>, id: string, medium: Medium): (r: Result<Option<V>>)
    ensures r.Err? <==> medium.Unavailable?
    ensures r.Ok? ==> (r.value.None? <==> id !in rows)
    ensures r.Ok? && r.value.Some? ==> id in rows && r.value.value == rows[id]
  {
    if medium.Unavailable? then Err(StorageError(MediumUnavailable))
    else if id in rows then Ok(Some(rows[id]))
    else Ok(None)
  }

  /** `UPDATE tasks SET data = ? WHERE id = ?`: a missing id matches no row and is no error. */
  function Update<V>(rows: Rows<V>, id: string, data: V, medium: Medium): (r: Result<Rows<V>>)
    ensures r.Err? <==> medium.Unavailable?
    ensures r.Ok? ==> r.value.Keys == rows.Keys
    ensures r.Ok? && id in rows ==> r.value[id] == data
    ensures r.Ok? && id !in rows ==> r.value == rows
    ensures r.Ok? ==> forall k :: k in rows && k != id ==> r.value[k] == rows[k]
  {
    if medium.Unavailable? then Err(StorageError(MediumUnavailable))
    else if id in rows then Ok(rows[id := data])
    else Ok(rows)
  }

  /** `DELETE FROM tasks WHERE id = ?`: a missing id matches no row and is no error. */
  function Delete<V>(rows: Rows<V>, id: string, medium: Medium): (r: Result<Rows<V>>)
    ensures r.Err? <==> medium.Unavailable?
    ensures r.Ok? ==> r.value.Keys == rows.Keys - {id}
    ensures r.Ok? ==> forall k :: k in r.value ==> r.value[k] == rows[k]
  {
    if medium.Unavailable? then Err(StorageError(MediumUnavailable))
    else Ok(rows - {id})
  }

  /** A row just inserted is what a later `SELECT` on its id returns. */
  lemma SelectAfterInsert<V>(rows: Rows<V>, id: string, data: V, medium: Medium)
    requires Insert(rows, id, data, medium).Ok?
    ensures Select(Insert(rows, id, data, medium).value, id, Available) == Ok(Some(data))
  {
  }

  /** A row just updated is read back with its new data; an absent id stays absent. */
  lemma SelectAfterUpdate<V>(rows: Rows<V>, id: string, data: V, medium: Medium)
    requires Update(rows, id, data, medium).Ok?
    ensures Select(Update(rows, id, data, medium).value, id, Available) ==
      (if id in rows then Ok(Some(data)) else Ok(None))
  {
  }

  /** After a `DELETE` on an id, a `SELECT` on it finds no row. */
  lemma SelectAfterDelete<V>(rows: Rows<V>, id: string, medium: Medium)
    requires Delete(rows, id, medium).Ok?
    ensures Select(Delete(rows, id, medium).value, id, Available) == Ok(None)
  {
  }

  /**
   * `SELECT data FROM tasks` read through its cursor: every row exactly
   * once, in an order the table does not promise.
   */
  method ScanAll<V>(rows: Rows<V>) returns (cursor: seq<(string, V)>)
    ensures |cursor| == |rows|
    ensures forall i :: 0 <= i < |cursor| ==> cursor[i].0 in rows && rows[cursor[i].0] == cursor[i].1
    ensures forall i, j :: 0 <= i < j < |cursor| ==> cursor[i].0 != cursor[j].0
    ensures forall id :: id in rows ==> exists i :: 0 <= i < |cursor| && cursor[i].0 == id
  {
    cursor := [];
    var remaining := rows.Keys;
    while remaining != {}
      invariant remaining <= rows.Keys
      invariant |cursor| + |remaining| == |rows|
      invariant forall i :: 0 <= i < |cursor| ==> cursor[i].0 in rows && rows[cursor[i].0] == cursor[i].1
      invariant forall i :: 0 <= i < |cursor| ==> cursor[i].0 !in remaining
      invariant forall i, j :: 0 <= i < j < |cursor| ==> cursor[i].0 != cursor[j].0
      invariant forall id :: id in rows && id !in remaining ==>
        exists i :: 0 <= i < |cursor| && cursor[i].0 == id
      decreases remaining
    {
      var id :| id in remaining;
      ghost var before := cursor;
      cursor := cursor + [(id, rows[id])];
      remaining := remaining - {id};
      forall x | x in rows && x !in remaining ensures exists i :: 0 <= i < |cursor| && cursor[i].0 == x {
        if x == id {
          assert cursor[|before|].0 == x;
        } else {
          var i :| 0 <= i < |before| && before[i].0 == x;
          assert cursor[i].0 == x;
        }
      }
    }
  }
}
