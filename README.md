# Training-run document table, modelled in Dafny

The fitsbook server keeps every training run as one JSON document in
the SQLite table `models(model TEXT)`, through the `Database` class of
`db.js`. This project models that class:

- **`json_merge_patch.dfy`** (module `JsonMergePatch`): JSON values as a
  datatype, and `json_patch`, the merge patch of RFC 7396 (section 2), as a
  pure recursive function with its laws.
- **`database.dfy`** (module `Db`): the pure side of the table. This covers:
  - SQLite's rowid choice;
  - `ORDER BY oid DESC`;
  - LIMIT and OFFSET;
  - the `{id}` patch an insert applies;
  - the history push.

  The class `Database` holds the rows as a map from rowid to document,
  plus the next rowid, and has one method per method of `db.js`.
- **`scenarios.dfy`** (module `Scenarios`): the calls the HTTP handlers of
  `server.js` make, written against the contracts above:
  - creating a run from a request's record;
  - inserting into a reopened table;
  - listing;
  - appending events;
  - stopping a run;
  - reading an unknown rowid.

Errors are values. A JavaScript exception becomes `Err(...)`:
- `RowMissing` when no row has the rowid, because `JSON.parse(undefined)` throws;
- `HistoryNotArray` when `model.history.push` throws a TypeError.

SQLite picks a new rowid that is one more than the largest rowid, or 1 for
an empty table. Rows are never deleted, so the class keeps that number in
`nextRowid`, and `Valid()` ties it to the rows. `Db.NextRowidRule` proves
that it is SQLite's rule.

`getModels` adds `LIMIT` only for a non-zero limit, and adds `OFFSET` only
when both values are non-zero (db.js:42-43). An offset without a limit is
therefore ignored. The model does the same. SQLite reads a negative LIMIT as
no limit, and a negative OFFSET as zero.

## Model

| member | source | states |
|---|---|---|
| JsonMergePatch.Get | db.js:54-55 | `json_extract(model, '$.key')` returns the top-level member `key`, or null when the document is not an object or lacks it |
| JsonMergePatch.MergePatch | db.js:82 | a patch that is not an object replaces the target, and an object patch always yields an object |
| JsonMergePatch.MergePatchMembers | db.js:82 | result members of an object patch: null removes, other patch members merge recursively into the target's member (null if absent), unmentioned members are kept; the key set in both directions |
| JsonMergePatch.MergePatchIdempotent | db.js:79-85 | applying the same patch twice equals applying it once |
| JsonMergePatch.MergePatchOntoNonObject | db.js:82 | a patch without nested nulls applied to a non-object (or missing member) yields the patch itself |
| JsonMergePatch.MergePatchSelf | db.js:82 | a document without null members patched with itself is unchanged |
| JsonMergePatch.MergePatchFlat | db.js:82 | a patch whose members are neither null nor objects sets exactly those members and keeps the rest: the map override |
| JsonMergePatch.MergePatchEmpty | db.js:82 | the empty patch `{}` keeps an object and turns any other value into `{}` |
| Db.MaxKey | db.js:25 | the largest rowid of a non-empty set: it belongs to the set and bounds every element |
| Db.RowidsDesc | db.js:41 | `ORDER BY oid DESC`: every rowid exactly once (same length, every element in the set and every set element listed), strictly descending |
| Db.NewestFirst | db.js:41 | a rowid larger than all others is listed first |
| Db.Skipped | db.js:43 | OFFSET skips exactly `offset` rows when there are that many, all rows when there are fewer, and none when the clause is absent or negative; never more than the row count |
| Db.Window | db.js:41-43 | LIMIT/OFFSET result: no clauses returns everything; a non-negative limit bounds the count; exact length; element `i` is element `skip + i` of the ordered rows |
| Db.WindowIsSlice | db.js:42-43 | with non-negative limit and offset the result equals the slice `[min(offset, n) .. min(offset + limit, n)]` of the ordered rows |
| Db.Newest | db.js:41-48 | every document of the table, one per rowid, in descending rowid order |
| Db.IdPatch | db.js:27 | the patch `{id}` is a one-member flat object holding the rowid |
| Db.StoredWithId | db.js:24-27 | after the `{id}` patch, the document's `id` is the rowid; an object keeps all other members, a non-object becomes `{id}` |
| Db.NextRowidRule | db.js:23-25 | under the table invariant the next rowid is 1 exactly when the table is empty, and otherwise one more than the largest rowid |
| Db.Inserted | db.js:20-29 | an insert under a larger rowid adds exactly one row, whose `id` member is the rowid and which is listed first |
| Db.WithEvent | db.js:71-72 | pushing an event: the history becomes old history + [event]; every other member and the member set are unchanged |
| Db.WithEventIsPatch | db.js:67-77 | writing back the pushed document equals merge-patching `{history: old + [event]}` |
| Db.Database.constructor | db.js:5-18 | the first start, which creates the table: it is empty, its next rowid is 1, and it satisfies the invariant |
| Db.Database.Reopen | db.js:5-11 | a later start, which reopens the stored rows: the rows are exactly the stored ones, the next rowid is one more than the largest stored rowid (1 when none), and the invariant holds |
| Db.Database.InsertModel | db.js:20-29 | the returned rowid is the next rowid, absent before and above every earlier rowid; the rows become the old rows plus the new rowid mapped to `MergePatch(model, {id})`; the invariant is kept |
| Db.Database.GetModelById | db.js:31-36 | succeeds exactly when the rowid exists, returning its document; otherwise RowMissing |
| Db.Database.GetModels | db.js:38-49 | limit 0 returns all documents newest first; otherwise the LIMIT window, with OFFSET only if the offset is non-zero; a positive limit bounds the count |
| Db.Database.GetModelAttr | db.js:51-57 | succeeds exactly when the row exists, returning its top-level member (null when absent); otherwise RowMissing |
| Db.Database.GetHistoryById | db.js:59-65 | succeeds exactly when the row exists, returning its `history` member (null when absent); otherwise RowMissing |
| Db.Database.AppendHistory | db.js:67-77 | succeeds exactly when the row exists and its `history` is an array, and then replaces only that row by `WithEvent`; otherwise the table is unchanged with RowMissing or HistoryNotArray; the next rowid and the invariant are kept |
| Db.Database.PatchModel | db.js:79-85 | an existing row is replaced by its merge patch and no other row changes; a missing rowid leaves the table unchanged; the next rowid and the invariant are kept |
| Scenarios.NewRunHistory | server.js:67-79 | the record `POST /api/model` builds is an object with an empty history and a null `training_end` |

## Left out

- The database file, the lock file under `.data/`, `CREATE TABLE`, and the SQL text itself: the table is modelled by its contents, not by storage or statements.
- Db.Database.constructor: models only the first start, when the lock file is missing and the table is created empty. A later start reopens the rows already on disk. `Db.Database.Reopen` models that start as taking the stored rows. Which of the two happens depends on the lock file, which is not modelled.
- Db.Database.InsertModel: assumes every statement succeeds. The INSERT and the `{id}` patch are two separately committed statements. The model does not capture a failure between them, which would leave a stored row without an `id` member and raise an exception instead of returning the rowid.
- SQLite engine errors in the other methods are not modelled: a busy database, a full disk, or a missing table when the lock file exists without it. Each method either succeeds or returns one of the errors named above.
- The `verbose` logger and `console.log` of the update info: these are output only.
- JSON text. The model does not capture these aspects:
  - how `JSON.stringify` orders keys;
  - duplicate keys, which a map cannot hold;
  - `undefined` members, which are dropped;
  - IEEE-754 doubles, which are modelled as `real`.
- Db.Database.InsertModel: the 64-bit rowid limit and SQLite's random rowid once the largest rowid is in use are not modelled, because integers are unbounded here.
- Db.Database.GetModelAttr: accepts only a top-level key (`$.key`), not the general JSON path language. It also returns the member as JSON, whereas the source passes SQLite's SQL value through `JSON.parse`, with these effects:
  - `true` comes back as `1`;
  - a string member that is not itself JSON text makes `JSON.parse` throw.
- Db.Database.GetHistoryById: has the same SQL-value conversion gap as `GetModelAttr`, for the `history` member.
- Names in a run's record: `server.js` copies `req.body.model.name` and `req.body.optimizer.name` whatever they hold. The model takes any JSON value, but not `undefined`, which `JSON.stringify` drops.
- Rowids passed as strings from URL parameters and coerced by SQLite: the model takes an integer rowid.
- `Date.now()` for `training_start` and `training_end`: the time is a parameter of the scenarios.
- Concurrency between requests: each method is one atomic step. Reading and writing back in `appendHistory` could lose an update under interleaving, and the model does not capture that.
- `server.js` routing, socket.io broadcasts, the webhook, `git.sh` and file system handlers: these are outside the table component.
