/** What the repository's statements and transactions do to the tables, as functions of the tables. */
module Repository {
  import opened Results
  import opened Lifecycle
  import opened Records
  import opened Text

  /** Where the database fails a transaction, if anywhere. */
  datatype Fault = NoFault | AtRow | AtRevision | AtAudit | AtCommit

  /** A transaction either leaves new tables or is rolled back with an error. */
  datatype Transaction = Committed(db: Db) | RolledBack(error: Error)

  /** The arguments of `UpdateVersion`. */
  datatype Write = Write(
    key: Key, expected: nat, item: Row, actor: string, requestId: string,
    action: Action, before: Status, reason: string)

  // ---- Queries ----

  function InsertByVersion(r: Revision, sorted: seq<Revision>): seq<Revision> {
    if sorted == [] || r.version < sorted[0].version then [r] + sorted
    else [sorted[0]] + InsertByVersion(r, sorted[1..])
  }

  /** `ORDER BY version`, equal versions in table order. */
  function OrderByVersion(revisions: seq<Revision>): seq<Revision> {
    if revisions == [] then []
    else InsertByVersion(revisions[|revisions| - 1], OrderByVersion(revisions[..|revisions| - 1]))
  }

  /** The first statement of `Get`: the live row. */
  function FindRow(db: Db, key: Key): Result<Row> {
    if Live(db, key) then Ok(db.rows[key]) else Err(NotFound)
  }

  /** The second statement of `Get`: the revisions in version order, of a deleted row as well. */
  function FindRevisions(db: Db, key: Key): seq<Revision> {
    OrderByVersion(History(db.revisions, key))
  }

  /** What `Get` returns when nothing comes between its two statements. */
  function Get(db: Db, key: Key): Result<Loaded> {
    match FindRow(db, key)
    case Err(error) => Err(error)
    case Ok(row) => Ok(Loaded(row, FindRevisions(db, key)))
  }

  // ---- Statements ----

  /** The conditional update writes every column except id, code, created_at and deleted_at. */
  function Overwrite(stored: Row, item: Row): Row {
    item.(code := stored.code, deleted := stored.deleted)
  }

  predicate Matches(db: Db, key: Key, expected: nat) {
    Live(db, key) && db.rows[key].version == expected
  }

  predicate RevisionExists(db: Db, key: Key, version: nat) {
    exists i :: 0 <= i < |db.revisions| && db.revisions[i].key == key && db.revisions[i].version == version
  }

  predicate CodeExists(db: Db, kind: Kind, code: string) {
    exists k :: k in db.rows && k.kind == kind && db.rows[k].code == code
  }

  function AuditRow(actor: string, requestId: string, action: Action, key: Key,
                    before: AuditState, after: AuditState, detail: string): Audit
  {
    Audit(if IsBlank(actor) then "system" else actor,
          if IsBlank(requestId) then "untracked" else requestId,
          action, key, before, after, detail)
  }

  // ---- Transactions ----

  function WriteRevision(w: Write): Revision {
    Revision(w.key, w.item.version, w.item.status, w.item.fields.evidence,
             w.actor, w.requestId, w.action, w.reason)
  }

  function WriteAudit(w: Write): Audit {
    AuditRow(w.actor, w.requestId, w.action, w.key, In(w.before), In(w.item.status), w.reason)
  }

  /** The tables after all three statements of `UpdateVersion`. */
  function Written(db: Db, w: Write): Db
    requires w.key in db.rows
  {
    Db(db.rows[w.key := Overwrite(db.rows[w.key], w.item)],
       db.revisions + [WriteRevision(w)],
       db.audits + [WriteAudit(w)])
  }

  /** `UpdateVersion`: conditional update, revision, audit, in one transaction. */
  function UpdateVersion(db: Db, w: Write, fault: Fault): Transaction {
    if fault.AtRow? then RolledBack(StatementFailed)
    else if !Matches(db, w.key, w.expected) then RolledBack(VersionConflict)
    else if fault.AtRevision? then RolledBack(StatementFailed)
    else if RevisionExists(db, w.key, w.item.version) then RolledBack(Duplicate)
    else if fault.AtAudit? || fault.AtCommit? then RolledBack(StatementFailed)
    else Committed(Written(db, w))
  }

  function CreateRevision(key: Key, item: Row, actor: string, requestId: string): Revision {
    var reason := if key.kind.Authorization? then "authorization drafted" else "certificate prepared";
    Revision(key, item.version, item.status, item.fields.evidence, actor, requestId, Created, reason)
  }

  function CreateAudit(key: Key, item: Row, actor: string, requestId: string): Audit {
    var detail := if key.kind.Authorization? then "authorization version 1 drafted"
                  else "certificate version 1 prepared";
    AuditRow(actor, requestId, Created, key, Absent, In(item.status), detail)
  }

  function Inserted(db: Db, key: Key, item: Row, actor: string, requestId: string): Db {
    Db(db.rows[key := item],
       db.revisions + [CreateRevision(key, item, actor, requestId)],
       db.audits + [CreateAudit(key, item, actor, requestId)])
  }

  /** `CreateVersion`: row, revision, audit, in one transaction; the engine picks the key. */
  function CreateVersion(db: Db, key: Key, item: Row, actor: string, requestId: string, fault: Fault): Transaction {
    if fault.AtRow? then RolledBack(StatementFailed)
    else if key in db.rows || CodeExists(db, key.kind, item.code) then RolledBack(Duplicate)
    else if fault.AtRevision? then RolledBack(StatementFailed)
    else if RevisionExists(db, key, item.version) then RolledBack(Duplicate)
    else if fault.AtAudit? || fault.AtCommit? then RolledBack(StatementFailed)
    else Committed(Inserted(db, key, item, actor, requestId))
  }

  /** The unversioned soft delete. */
  function Delete(db: Db, key: Key, fails: bool): Transaction {
    if fails then RolledBack(StatementFailed)
    else if !Live(db, key) then RolledBack(NotFound)
    else Committed(db.(rows := db.rows[key := db.rows[key].(deleted := true)]))
  }

  /** The audit row of a delete, written outside any transaction. */
  function DeleteAudit(key: Key, actor: string, requestId: string, before: Status): Audit {
    var detail := if key.kind.Authorization? then "soft deleted 放行授权" else "soft deleted 证书记录";
    Audit(if actor == "" then "system" else actor,
          if requestId == "" then "untracked" else requestId,
          Deleted, key, In(before), Gone, detail)
  }

  // ---- Facts about the query order ----

  predicate Contiguous(h: seq<Revision>) {
    forall i :: 0 <= i < |h| ==> h[i].version == i + 1
  }

  lemma {:induction false} InsertAtEnd(r: Revision, sorted: seq<Revision>)
    requires forall i :: 0 <= i < |sorted| ==> sorted[i].version <= r.version
    ensures InsertByVersion(r, sorted) == sorted + [r]
  {
    if sorted != [] {
      InsertAtEnd(r, sorted[1..]);
    }
  }

  /** On a gap-free history the query order is the table order. */
  lemma {:induction false} OrderOfContiguous(h: seq<Revision>)
    requires Contiguous(h)
    ensures OrderByVersion(h) == h
  {
    if h != [] {
      OrderOfContiguous(h[..|h| - 1]);
      InsertAtEnd(h[|h| - 1], h[..|h| - 1]);
    }
  }

  predicate VersionsAscend(h: seq<Revision>) {
    forall i, j :: 0 <= i < j < |h| ==> h[i].version <= h[j].version
  }

  lemma {:induction false} InsertKeepsRows(r: Revision, sorted: seq<Revision>)
    ensures multiset(InsertByVersion(r, sorted)) == multiset(sorted) + multiset{r}
    ensures forall x :: x in InsertByVersion(r, sorted) ==> x == r || x in sorted
  {
    if sorted != [] && r.version >= sorted[0].version {
      InsertKeepsRows(r, sorted[1..]);
      assert sorted == [sorted[0]] + sorted[1..];
    }
  }

  lemma {:induction false} InsertKeepsAscent(r: Revision, sorted: seq<Revision>)
    requires VersionsAscend(sorted)
    ensures VersionsAscend(InsertByVersion(r, sorted))
  {
    if sorted != [] && r.version >= sorted[0].version {
      var rest := InsertByVersion(r, sorted[1..]);
      InsertKeepsAscent(r, sorted[1..]);
      InsertKeepsRows(r, sorted[1..]);
      forall j | 0 <= j < |rest| ensures sorted[0].version <= rest[j].version {
        assert rest[j] in rest;
      }
    }
  }

  /** The query order ascends by version and loses no row, whatever the table holds. */
  lemma {:induction false} OrderByVersionSorts(h: seq<Revision>)
    ensures VersionsAscend(OrderByVersion(h))
    ensures multiset(OrderByVersion(h)) == multiset(h)
  {
    if h != [] {
      var n := |h| - 1;
      OrderByVersionSorts(h[..n]);
      InsertKeepsAscent(h[n], OrderByVersion(h[..n]));
      InsertKeepsRows(h[n], OrderByVersion(h[..n]));
      assert h == h[..n] + [h[n]];
    }
  }
}
