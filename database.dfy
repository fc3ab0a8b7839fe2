/**
  The document table of training-run records kept by db.js: every row is a
  rowid and one JSON document. Selecting, ordering and paginating rows is
  stated here as pure functions; the table itself is a class whose methods
  update its rows in place.
*/
module Db {
  import opened JsonMergePatch

  /** Why an operation of the table failed. */
  datatype DbError =
    | RowMissing       // no row has the rowid: the read yields undefined and JSON.parse throws
    | HistoryNotArray  // the document has no `history` array to push onto: a TypeError

  datatype Result<T> = Ok(value: T) | Err(error: DbError)

  datatype Option<T> = None | Some(value: T)

  function Min(a: int, b: int): int { if a <= b then a else b }

  /** The largest element of a non-empty set of rowids. */
  function MaxKey(keys: set<int>): (m: int)
    requires keys != {}
    ensures m in keys
    ensures forall k :: k in keys ==> k <= m
  {
    MaxKeyExists(keys);
    var m :| m in keys && forall k :: k in keys ==> k <= m; m
  }

  lemma {:induction false} MaxKeyExists(keys: set<int>)
    requires keys != {}
    ensures exists m :: m in keys && forall k :: k in keys ==> k <= m
    decreases keys
  {
    if forall k :: k !in keys { assert false; }  // a non-empty set has an element
    var x :| x in keys;
    if keys - {x} != {} {
      MaxKeyExists(keys - {x});
      var y :| y in keys - {x} && forall k :: k in keys - {x} ==> k <= y;
      var m := if x <= y then y else x;
      forall k | k in keys ensures k <= m {
        if k != x { assert k in keys - {x}; }
      }
    } else {
      assert keys == {x};
    }
  }

  /** The rowids of `keys` as `ORDER BY oid DESC` lists them: each exactly once, strictly descending. */
  function RowidsDesc(keys: set<int>): (ids: seq<int>)
    ensures |ids| == |keys|
    ensures forall i :: 0 <= i < |ids| ==> ids[i] in keys
    ensures forall k {:trigger k in ids} :: k in keys ==> k in ids
    ensures forall i, j :: 0 <= i < j < |ids| ==> ids[i] > ids[j]
    decreases keys
  {
    if keys == {} then []
    else
      var m := MaxKey(keys);
      [m] + RowidsDesc(keys - {m})
  }

  /** A rowid larger than every other one is listed first. */
  lemma NewestFirst(keys: set<int>, id: int)
    requires forall k :: k in keys ==> k < id
    ensures RowidsDesc(keys + {id}) != [] && RowidsDesc(keys + {id})[0] == id
  {
  }

  /** The LIMIT and OFFSET clauses a query carries; None stands for a clause that is absent. */
  datatype Query = Query(limit: Option<int>, offset: Option<int>)

  /**
    How many of `n` leading rows an OFFSET clause skips: exactly `offset`
    when there are that many rows, all of them when there are fewer, and
    none for an absent clause or a negative offset, which SQLite reads as zero.
  */
  function Skipped(q: Query, n: nat): (skip: nat)
    ensures skip <= n
    ensures q.offset.None? || q.offset.value <= 0 ==> skip == 0
    ensures q.offset.Some? && 0 <= q.offset.value <= n ==> skip == q.offset.value
    ensures q.offset.Some? && q.offset.value >= n ==> skip == n
  {
    match q.offset
    case None => 0
    case Some(o) => if o <= 0 then 0 else Min(o, n)
  }

  /**
    The rows that the query returns from the ordered rows `s`: OFFSET skips
    leading rows first, then LIMIT bounds the count; a negative LIMIT is no
    bound at all, as in SQLite.
  */
  function Window<T>(s: seq<T>, q: Query): (r: seq<T>)
    ensures q == Query(None, None) ==> r == s
    ensures q.limit.Some? && q.limit.value >= 0 ==> |r| <= q.limit.value
    ensures Skipped(q, |s|) + |r| <= |s|
    ensures |r| == if q.limit.Some? && q.limit.value >= 0 then Min(q.limit.value, |s| - Skipped(q, |s|))
                   else |s| - Skipped(q, |s|)
    ensures forall i :: 0 <= i < |r| ==> r[i] == s[Skipped(q, |s|) + i]
  {
    var rest := s[Skipped(q, |s|)..];
    match q.limit
    case Some(l) => if 0 <= l < |rest| then rest[..l] else rest
    case None => rest
  }

  /**
    With a non-negative LIMIT and OFFSET the query returns the slice of the
    ordered rows from position `offset` (at most the end) to `offset + limit`
    (at most the end).
  */
  lemma WindowIsSlice<T>(s: seq<T>, limit: nat, offset: nat)
    ensures Window(s, Query(Some(limit), Some(offset)))
         == s[Min(offset, |s|)..Min(offset + limit, |s|)]
  {
  }

  /** The documents of `rows`, newest rowid first. */
  function Newest(rows: map<int, Json>): (docs: seq<Json>)
    ensures |docs| == |rows|
    ensures forall i :: 0 <= i < |docs| ==> RowidsDesc(rows.Keys)[i] in rows && docs[i] == rows[RowidsDesc(rows.Keys)[i]]
  {
    var ids := RowidsDesc(rows.Keys);
    seq(|ids|, i requires 0 <= i < |ids| => rows[ids[i]])
  }

  /** The merge patch that writes a freshly assigned rowid into its own document. */
  function IdPatch(id: int): (p: Json)
    ensures p.JObj? && IsFlat(p.fields)
    ensures p.fields.Keys == {"id"} && p.fields["id"] == JNum(id as real)
  {
    JObj(map["id" := JNum(id as real)])
  }

  /**
    What the insert stores: the document with its `id` member set to the
    rowid; a document that is not an object is replaced by `{id}`.
  */
  lemma StoredWithId(model: Json, id: int)
    ensures Get(MergePatch(model, IdPatch(id)), "id") == JNum(id as real)
    ensures MergePatch(model, IdPatch(id))
         == if model.JObj? then JObj(model.fields["id" := JNum(id as real)]) else IdPatch(id)
  {
  }

  /**
    When every rowid lies below `next` and `next - 1` is a rowid (or `next`
    is 1), `next` is SQLite's choice of rowid: one more than the largest
    rowid, or 1 for an empty table.
  */
  lemma NextRowidRule(rows: map<int, Json>, next: int)
    requires forall k :: k in rows ==> 1 <= k < next
    requires next == 1 || next - 1 in rows
    ensures rows == map[] <==> next == 1
    ensures rows != map[] ==> next == MaxKey(rows.Keys) + 1
  {
    if next == 1 {
      assert forall k :: k !in rows;
      assert rows == map[];
    } else {
      assert next - 1 in rows.Keys;
    }
  }

  /**
    The table after an insert of `model` under a rowid `id` larger than
    every rowid of `rows`: it has one more row, the new row holds `model`
    with `id` as its member `id` (a document that is not an object becomes
    `{id}`), and the new row is listed first.
  */
  lemma Inserted(rows: map<int, Json>, id: int, model: Json)
    requires forall k :: k in rows ==> k < id
    ensures var after := rows[id := MergePatch(model, IdPatch(id))];
      && |after| == |rows| + 1
      && Get(after[id], "id") == JNum(id as real)
      && after[id] == (if model.JObj? then JObj(model.fields["id" := JNum(id as real)]) else IdPatch(id))
      && RowidsDesc(after.Keys) != [] && RowidsDesc(after.Keys)[0] == id
  {
    var after := rows[id := MergePatch(model, IdPatch(id))];
    assert after.Keys == rows.Keys + {id};
    NewestFirst(rows.Keys, id);
    StoredWithId(model, id);
  }

  /**
    The document after `element` is pushed onto the end of its `history`
    array: the history gains exactly that event, every other member is kept.
  */
  function WithEvent(doc: Json, element: Json): (d: Json)
    requires Get(doc, "history").JArr?
    ensures Get(d, "history") == JArr(Get(doc, "history").items + [element])
    ensures forall k :: k != "history" ==> Get(d, k) == Get(doc, k)
    ensures Members(d).Keys == Members(doc).Keys
  {
    JObj(doc.fields["history" := JArr(doc.fields["history"].items + [element])])
  }

  /**
    Pushing an event and writing the whole document back has the same effect
    as merge-patching `{history: old history + [element]}` into it.
  */
  lemma WithEventIsPatch(doc: Json, element: Json)
    requires Get(doc, "history").JArr?
    ensures WithEvent(doc, element)
         == MergePatch(doc, JObj(map["history" := JArr(Get(doc, "history").items + [element])]))
  {
  }

  /** The table `models(model TEXT)`: each rowid holds one JSON document. */
  class Database {
    var rows: map<int, Json>
    var nextRowid: int

    /**
      Every rowid lies below nextRowid, and nextRowid is one more than the
      largest rowid, or 1 for an empty table: SQLite's rule for the rowid an
      insert without an explicit rowid receives.
    */
    ghost predicate Valid()
      reads this
    {
      && (forall k :: k in rows ==> 1 <= k < nextRowid)
      && (nextRowid == 1 || nextRowid - 1 in rows)
    }

    /** A freshly created, empty table. */
    constructor ()
      ensures Valid()
      ensures rows == map[] && nextRowid == 1
    {
      rows := map[];
      nextRowid := 1;
    }

    /**
      The table as a later start finds it: the rows stored on disk, and the
      rowid SQLite hands out next, one more than the largest stored rowid
      (1 when nothing is stored). Rowids are positive.
    */
    constructor Reopen(stored: map<int, Json>)
      requires forall k :: k in stored ==> 1 <= k
      ensures Valid()
      ensures rows == stored
      ensures nextRowid == if stored == map[] then 1 else MaxKey(stored.Keys) + 1
    {
      rows := stored;
      nextRowid := if stored == map[] then 1 else MaxKey(stored.Keys) + 1;
    }

    /**
      Stores `model` under a fresh rowid, one larger than every rowid in the
      table, then merge-patches `{id}` into the stored document.
    */
    method InsertModel(model: Json) returns (id: int)
      requires Valid()
      modifies this
      ensures Valid()
      ensures id == old(nextRowid) && nextRowid == id + 1
      ensures id !in old(rows) && forall k :: k in old(rows) ==> k < id
      ensures rows == old(rows)[id := MergePatch(model, IdPatch(id))]
    {
      id := nextRowid;
      rows := rows[id := model];
      nextRowid := nextRowid + 1;
      PatchModel(id, IdPatch(id));
    }

    /** The document stored under `id`, or RowMissing. */
    method GetModelById(id: int) returns (r: Result<Json>)
      ensures r.Ok? <==> id in rows
      ensures r.Ok? ==> r.value == rows[id]
      ensures r.Err? ==> r.error == RowMissing
    {
      if id in rows {
        r := Ok(rows[id]);
      } else {
        r := Err(RowMissing);
      }
    }

    /**
      All documents, newest first. A non-zero `limit` adds LIMIT; OFFSET is
      added only when `limit` and `offset` are both non-zero, so an offset
      without a limit is ignored.
    */
    method GetModels(limit: int, offset: int) returns (models: seq<Json>)
      ensures limit == 0 ==> models == Newest(rows)
      ensures limit != 0 ==> models == Window(Newest(rows), Query(Some(limit), if offset != 0 then Some(offset) else None))
      ensures limit > 0 ==> |models| <= limit
    {
      var query := Query(None, None);
      query := if limit != 0 then query.(limit := Some(limit)) else query;
      query := if limit != 0 && offset != 0 then query.(offset := Some(offset)) else query;
      models := Window(Newest(rows), query);
    }

    /** The top-level member `key` of the document under `id` (`$.key`), null when absent. */
    method GetModelAttr(id: int, key: string) returns (r: Result<Json>)
      ensures r.Ok? <==> id in rows
      ensures r.Ok? ==> r.value == Get(rows[id], key)
      ensures r.Ok? && key !in Members(rows[id]) ==> r.value == JNull
      ensures r.Err? ==> r.error == RowMissing
    {
      if id in rows {
        r := Ok(Get(rows[id], key));
      } else {
        r := Err(RowMissing);
      }
    }

    /** The `history` member of the document under `id` (`$.history`), null when absent. */
    method GetHistoryById(id: int) returns (r: Result<Json>)
      ensures r.Ok? <==> id in rows
      ensures r.Ok? ==> r.value == Get(rows[id], "history")
      ensures r.Err? ==> r.error == RowMissing
    {
      r := GetModelAttr(id, "history");
    }

    /**
      Reads the document under `id`, pushes `element` onto its `history`
      array and writes the whole document back. Fails, changing nothing, when
      there is no such row or its `history` is not an array.
    */
    method AppendHistory(id: int, element: Json) returns (r: Result<()>)
      requires Valid()
      modifies this
      ensures Valid() && nextRowid == old(nextRowid)
      ensures r.Ok? <==> id in old(rows) && Get(old(rows)[id], "history").JArr?
      ensures r.Err? ==> rows == old(rows)
      ensures r.Err? && id !in old(rows) ==> r.error == RowMissing
      ensures r.Err? && id in old(rows) ==> r.error == HistoryNotArray
      ensures r.Ok? ==> rows == old(rows)[id := WithEvent(old(rows)[id], element)]
    {
      if id !in rows {
        return Err(RowMissing);
      }
      var model := rows[id];
      if !Get(model, "history").JArr? {
        return Err(HistoryNotArray);
      }
      var history := model.fields["history"].items;
      history := history + [element];
      model := model.(fields := model.fields["history" := JArr(history)]);
      rows := rows[id := model];
      r := Ok(());
    }

    /**
      Replaces the document under `id` by its merge patch with `patch`; when
      no row has the rowid the update matches nothing and the table is
      unchanged.
    */
    method PatchModel(id: int, patch: Json)
      requires Valid()
      modifies this
      ensures Valid() && nextRowid == old(nextRowid)
      ensures id in old(rows) ==> rows == old(rows)[id := MergePatch(old(rows)[id], patch)]
      ensures id !in old(rows) ==> rows == old(rows)
    {
      if id in rows {
        rows := rows[id := MergePatch(rows[id], patch)];
      }
    }
  }
}
