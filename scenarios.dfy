/**
  A training run as the HTTP handlers drive the table: a record created with
  an empty history and no end time, events appended one by one, a stop
  request, and listings. Only the contracts of Db.Database and the lemmas
  about the table are used.
*/
module Scenarios {
  import opened JsonMergePatch
  import opened Db

  /**
    The record a new training run starts with, built from the request's
    model and optimizer names and configurations; the start timestamp is
    supplied by the caller.
  */
  function NewRun(modelName: Json, modelConfig: Json, optimizerName: Json, optimizerConfig: Json, start: real): Json
  {
    JObj(map[
      "model" := JObj(map["name" := modelName, "config" := modelConfig]),
      "optimizer" := JObj(map["name" := optimizerName, "config" := optimizerConfig]),
      "training_start" := JNum(start),
      "training_end" := JNull,
      "history" := JArr([])
    ])
  }

  /** A new run is stored under rowid 1 with its rowid as `id`, keeps its empty history, and is the only row listed. */
  method CreateRun(run: Json)
    requires run.JObj? && Get(run, "history") == JArr([])
  {
    var db := new Database();
    var before := db.rows;
    var id := db.InsertModel(run);
    Inserted(before, id, run);
    assert id == 1 && db.rows.Keys == {1};
    var got := db.GetModelById(id);
    assert got == Ok(JObj(run.fields["id" := JNum(1 as real)]));
    var h := db.GetHistoryById(id);
    assert h == Ok(JArr([]));
    var all := db.GetModels(0, 5);
    assert RowidsDesc({1}) == [1];
    assert all == [db.rows[1]];
  }

  /** The record server.js creates for a new run has an empty history. */
  lemma NewRunHistory(modelName: Json, modelConfig: Json, optimizerName: Json, optimizerConfig: Json, start: real)
    ensures NewRun(modelName, modelConfig, optimizerName, optimizerConfig, start).JObj?
    ensures Get(NewRun(modelName, modelConfig, optimizerName, optimizerConfig, start), "history") == JArr([])
    ensures Get(NewRun(modelName, modelConfig, optimizerName, optimizerConfig, start), "training_end") == JNull
  {
  }

  /** `POST /api/model`: the record built from a request is stored under rowid 1 of a fresh table. */
  method CreateFromRequest(modelName: Json, modelConfig: Json, optimizerName: Json, optimizerConfig: Json, start: real)
  {
    var run := NewRun(modelName, modelConfig, optimizerName, optimizerConfig, start);
    NewRunHistory(modelName, modelConfig, optimizerName, optimizerConfig, start);
    CreateRun(run);
  }

  /** A table reopened on a later start hands out the rowid after the largest stored one. */
  method InsertAfterRestart(doc: Json)
  {
    var stored := map[3 := JObj(map[]), 7 := JObj(map[])];
    var db := new Database.Reopen(stored);
    assert stored.Keys == {3, 7};
    var id := db.InsertModel(doc);
    assert id == 8;
  }

  /** Three rows come back newest first; a limit of one with an offset of one selects the middle one. */
  method ListNewestFirst(db: Database, a: int, b: int, c: int)
    requires db.rows.Keys == {a, b, c} && a < b < c
  {
    assert RowidsDesc({a, b, c}) == [c, b, a] by {
      var ids := RowidsDesc({a, b, c});
      assert a in ids && b in ids && c in ids;
    }
    var all := db.GetModels(0, 0);
    assert all == [db.rows[c], db.rows[b], db.rows[a]];
    var page := db.GetModels(1, 1);
    assert page == [db.rows[b]];
    var none := db.GetModels(2, 3);
    assert none == [];
  }

  /** Events appended one after another are read back in the order they were appended. */
  method HistoryInOrder(db: Database, id: int, e1: Json, e2: Json, e3: Json)
    requires db.Valid() && id in db.rows && Get(db.rows[id], "history") == JArr([])
    modifies db
  {
    var ok := db.AppendHistory(id, e1);
    assert Get(db.rows[id], "history") == JArr([e1]);
    ok := db.AppendHistory(id, e2);
    assert Get(db.rows[id], "history") == JArr([e1, e2]);
    ok := db.AppendHistory(id, e3);
    assert Get(db.rows[id], "history") == JArr([e1, e2, e3]);
    var h := db.GetHistoryById(id);
    assert h == Ok(JArr([e1, e2, e3]));
  }

  /** A stop request sets the stop flag, which then reads as true, and keeps the history. */
  method Stop(db: Database, id: int, now: real)
    requires db.Valid() && id in db.rows && db.rows[id].JObj?
    modifies db
  {
    var before := db.rows[id];
    var patch := map["stop_signal" := JBool(true), "training_end" := JNum(now)];
    assert IsFlat(patch);
    MergePatchFlat(before.fields, patch);
    db.PatchModel(id, JObj(patch));
    var stop := db.GetModelAttr(id, "stop_signal");
    assert stop == Ok(JBool(true));
    var h := db.GetHistoryById(id);
    assert h == Ok(Get(before, "history"));
  }

  /** A rowid nobody inserted cannot be read, and patching it creates nothing. */
  method Missing(doc: Json)
  {
    var db := new Database();
    var a := db.InsertModel(doc);
    var m := db.GetModelById(a + 1);
    assert m == Err(RowMissing);
    db.PatchModel(a + 1, JObj(map["description" := JStr("x")]));
    assert a + 1 !in db.rows;
  }
}
