/** What every step of every client keeps, whatever versions callers send and whatever fails. */
module Invariant {
  import opened Results
  import opened Records
  import opened Repository
  import opened Service
  import opened Protocol
  import opened Text

  /** A record at version n has exactly the revisions 1..n, and its row is the last of them. */
  ghost predicate RecordValid(db: Db, key: Key)
    requires key in db.rows
  {
    var h := History(db.revisions, key);
    var row := db.rows[key];
    && row.version >= 1
    && |h| == row.version
    && Contiguous(h)
    && h[row.version - 1].status == row.status
    && h[row.version - 1].evidence == row.fields.evidence
    && KindMatches(key.kind, row.control)
  }

  ghost predicate DbValid(db: Db) {
    && (forall key :: key in db.rows ==> RecordValid(db, key))
    && (forall r :: r in db.revisions ==> r.key in db.rows)
  }

  /** A private copy is never ahead of its row, and while the versions agree it is the row. */
  ghost predicate PendingValid(db: Db, p: Pending) {
    match p
    case Checked(base, r, item) =>
      && r.key in db.rows
      && var row := db.rows[r.key];
      && !base.deleted
      && base.version <= row.version
      && (base.version == row.version ==> base == row.(deleted := false))
      && (base.control.ReleaseControl? <==> r.key.kind.Authorization?)
      && Prepare(base, r) == Ok(item)
    case Stored(revision) =>
      && revision.key in db.rows
      && 1 <= revision.version <= |History(db.revisions, revision.key)|
      && History(db.revisions, revision.key)[revision.version - 1] == revision
    case RowRead(revision, row) =>
      && revision.key in db.rows
      && var h := History(db.revisions, revision.key);
      && 1 <= revision.version <= row.version <= |h|
      && h[revision.version - 1] == revision
      && h[row.version - 1].status == row.status
      && h[row.version - 1].evidence == row.fields.evidence
    case _ => true
  }

  ghost predicate SystemValid(s: System) {
    && DbValid(s.db)
    && forall c :: c in s.inflight ==> PendingValid(s.db, s.inflight[c])
  }

  // ---- One write ----

  /** A record's revisions are complete, so the version after the stored one is still free. */
  lemma NextVersionIsFree(db: Db, key: Key)
    requires DbValid(db) && key in db.rows
    ensures !RevisionExists(db, key, db.rows[key].version + 1)
  {
    HistoryHoldsExactly(db.revisions, key);
    forall i | 0 <= i < |db.revisions| && db.revisions[i].key == key
      ensures db.revisions[i].version <= db.rows[key].version
    {
      assert RecordValid(db, key);
      assert db.revisions[i] in History(db.revisions, key);
    }
  }

  /**
   A swap that matches can only be undone by a failing statement: the unique index on
   (record, version) never rejects the revision of a successful swap.
   */
  lemma UpdateVersionOutcome(db: Db, w: Write, fault: Fault)
    requires DbValid(db) && w.item.version == w.expected + 1
    ensures UpdateVersion(db, w, fault)
         == if fault.AtRow? then RolledBack(StatementFailed)
            else if !Matches(db, w.key, w.expected) then RolledBack(VersionConflict)
            else if !fault.NoFault? then RolledBack(StatementFailed)
            else Committed(Written(db, w))
  {
    if Matches(db, w.key, w.expected) {
      NextVersionIsFree(db, w.key);
    }
  }

  /** Tables that grew on one record only. */
  ghost predicate Grew(db: Db, db': Db, r: Revision) {
    && db'.revisions == db.revisions + [r]
    && r.key in db'.rows
    && (forall k :: k != r.key ==> (k in db.rows <==> k in db'.rows))
    && (forall k :: k != r.key && k in db.rows ==> db'.rows[k] == db.rows[k])
  }

  lemma GrewKeepsOthers(db: Db, db': Db, r: Revision, key: Key)
    requires Grew(db, db', r) && key != r.key && key in db.rows && RecordValid(db, key)
    ensures RecordValid(db', key)
    ensures History(db'.revisions, key) == History(db.revisions, key)
  {
    HistoryAppend(db.revisions, r, key);
  }

  lemma NextRevisionFits(db: Db, db': Db, r: Revision)
    requires Grew(db, db', r)
    requires r.version == |History(db.revisions, r.key)| + 1 && Contiguous(History(db.revisions, r.key))
    requires var row := db'.rows[r.key];
             && row.version == r.version && row.status == r.status && row.fields.evidence == r.evidence
             && KindMatches(r.key.kind, row.control)
    ensures RecordValid(db', r.key)
  {
    hide History;
    HistoryAppend(db.revisions, r, r.key);
  }

  /** Appending the next revision of one record, with a row to match, keeps the tables valid. */
  lemma GrewKeepsDb(db: Db, db': Db, r: Revision)
    requires DbValid(db) && Grew(db, db', r)
    requires r.version == |History(db.revisions, r.key)| + 1 && Contiguous(History(db.revisions, r.key))
    requires var row := db'.rows[r.key];
             && row.version == r.version && row.status == r.status && row.fields.evidence == r.evidence
             && KindMatches(r.key.kind, row.control)
    ensures DbValid(db')
  {
    hide History, Contiguous;
    forall key | key in db'.rows ensures RecordValid(db', key) {
      if key == r.key {
        NextRevisionFits(db, db', r);
      } else {
        assert RecordValid(db, key);
        GrewKeepsOthers(db, db', r, key);
      }
    }
  }

  lemma WriteKeepsDb(db: Db, w: Write)
    requires DbValid(db) && Matches(db, w.key, w.expected)
    requires w.item.version == w.expected + 1 && KindMatches(w.key.kind, w.item.control)
    ensures DbValid(Written(db, w))
    ensures Grew(db, Written(db, w), WriteRevision(w))
    ensures w.item.version == |History(db.revisions, w.key)| + 1
  {
    hide WriteAudit;
    assert RecordValid(db, w.key);
    GrewKeepsDb(db, Written(db, w), WriteRevision(w));
  }

  lemma {:induction false} NoHistory(revisions: seq<Revision>, key: Key)
    requires forall r :: r in revisions ==> r.key != key
    ensures History(revisions, key) == []
  {
    if revisions != [] {
      NoHistory(revisions[..|revisions| - 1], key);
    }
  }

  lemma CreateKeepsDb(db: Db, key: Key, item: Row, actor: string, requestId: string)
    requires DbValid(db) && key !in db.rows
    requires item.version == 1 && KindMatches(key.kind, item.control)
    ensures DbValid(Inserted(db, key, item, actor, requestId))
    ensures Grew(db, Inserted(db, key, item, actor, requestId), CreateRevision(key, item, actor, requestId))
    ensures History(db.revisions, key) == []
  {
    hide CreateAudit;
    NoHistory(db.revisions, key);
    GrewKeepsDb(db, Inserted(db, key, item, actor, requestId), CreateRevision(key, item, actor, requestId));
  }

  lemma DeleteKeepsDb(db: Db, key: Key)
    requires DbValid(db) && Live(db, key)
    ensures DbValid(Delete(db, key, false).db)
  {
    var db' := Delete(db, key, false).db;
    forall k | k in db'.rows ensures RecordValid(db', k) {
      assert RecordValid(db, k);
    }
  }

  // ---- One step ----

  /** A request's stored revision stays where it is while tables grow. */
  lemma GrewKeepsPending(db: Db, db': Db, r: Revision, p: Pending)
    requires Grew(db, db', r) && PendingValid(db, p)
    requires r.key in db.rows ==> db'.rows[r.key].version > db.rows[r.key].version
    ensures PendingValid(db', p)
  {
    if p.Stored? || p.RowRead? {
      HistoryAppend(db.revisions, r, p.revision.key);
    }
  }

  /** Every request in flight survives a write, and the writer's own revision is in place. */
  lemma GrewKeepsSystem(s: System, db': Db, r: Revision, c: Client)
    requires SystemValid(s) && DbValid(db') && Grew(s.db, db', r)
    requires r.key in s.db.rows ==> db'.rows[r.key].version > s.db.rows[r.key].version
    requires r.version == |History(s.db.revisions, r.key)| + 1
    ensures SystemValid(Remember(s.(db := db'), c, Stored(r)))
  {
    hide DbValid, Prepare, RecordValid;
    forall d | d in s.inflight ensures PendingValid(db', s.inflight[d]) {
      GrewKeepsPending(s.db, db', r, s.inflight[d]);
    }
    HistoryAppend(s.db.revisions, r, r.key);
    assert PendingValid(db', Stored(r));
  }

  /** Recording an outcome keeps the system valid. */
  lemma OutcomeKeepsValid(s: System, c: Client, p: Pending)
    requires SystemValid(s) && !p.Checked? && !p.Stored? && !p.RowRead?
    ensures SystemValid(Remember(s, c, p))
  {
    hide DbValid, Prepare;
  }

  /** What a checked request is about to write fits its record. */
  lemma PendingWriteFits(db: Db, p: Pending)
    requires p.Checked? && PendingValid(db, p)
    ensures var w := PendingWrite(p);
            && w.key == p.request.key && w.expected == p.request.expected
            && w.item.version == w.expected + 1 && KindMatches(w.key.kind, w.item.control)
  {
    PrepareKeeps(p.base, p.request);
  }

  lemma CommitKeepsValid(s: System, c: Client, fault: Fault)
    requires SystemValid(s)
    ensures SystemValid(StepCommit(s, c, fault))
  {
    hide DbValid, PendingValid, PendingWrite, UpdateVersion, WriteAudit;
    if c in s.inflight && s.inflight[c].Checked? {
      var w := PendingWrite(s.inflight[c]);
      PendingWriteFits(s.db, s.inflight[c]);
      UpdateVersionOutcome(s.db, w, fault);
      match UpdateVersion(s.db, w, fault)
      case RolledBack(error) => OutcomeKeepsValid(s, c, Returned(Err(error)));
      case Committed(db') =>
        WriteKeepsDb(s.db, w);
        GrewKeepsSystem(s, db', WriteRevision(w), c);
    }
  }

  lemma CreateKeepsValid(s: System, e: Event)
    requires SystemValid(s) && e.Create?
    ensures SystemValid(StepCreate(s, e))
  {
    hide DbValid, PendingValid, CreateAudit, IsBlank, CodeOf, RevisionExists, CodeExists;
    match PrepareCreate(e.key.kind, e.code, e.fields, e.actor, e.now)
    case Err(error) => OutcomeKeepsValid(s, e.client, Returned(Err(error)));
    case Ok(item) =>
      match CreateVersion(s.db, e.key, item, e.actor, e.requestId, e.fault)
      case RolledBack(error) => OutcomeKeepsValid(s, e.client, Returned(Err(error)));
      case Committed(db') =>
        CreateKeepsDb(s.db, e.key, item, e.actor, e.requestId);
        GrewKeepsSystem(s, db', CreateRevision(e.key, item, e.actor, e.requestId), e.client);
  }

  lemma BeginKeepsValid(s: System, c: Client, r: Request)
    requires SystemValid(s)
    ensures SystemValid(StepBegin(s, c, r))
  {
    if Live(s.db, r.key) {
      assert RecordValid(s.db, r.key);
    }
  }

  lemma DeleteKeepsValid(s: System, c: Client, fails: bool)
    requires SystemValid(s)
    ensures SystemValid(StepCommitDelete(s, c, fails))
  {
    hide DbValid, Prepare;
    if c in s.inflight && s.inflight[c].DeleteChecked? && !fails && Live(s.db, s.inflight[c].key) {
      DeleteKeepsDb(s.db, s.inflight[c].key);
    }
  }

  lemma AuditKeepsDb(db: Db, audits: seq<Audit>)
    requires DbValid(db)
    ensures DbValid(db.(audits := audits))
  {
    forall k | k in db.rows ensures RecordValid(db.(audits := audits), k) {
      assert RecordValid(db, k);
    }
  }

  lemma AuditDeleteKeepsValid(s: System, c: Client, fails: bool)
    requires SystemValid(s)
    ensures SystemValid(StepAuditDelete(s, c, fails))
  {
    hide DbValid, Prepare;
    AuditKeepsDb(s.db, StepAuditDelete(s, c, fails).db.audits);
  }

  /** The row a request reads back is at its own version or later, and a revision matches it. */
  lemma ReadRowKeepsValid(s: System, c: Client)
    requires SystemValid(s)
    ensures SystemValid(StepReadRow(s, c))
  {
    hide Prepare;
    if c in s.inflight && s.inflight[c].Stored? {
      assert PendingValid(s.db, s.inflight[c]);
      assert RecordValid(s.db, s.inflight[c].revision.key);
    }
  }

  lemma StepKeepsValid(s: System, e: Event)
    requires SystemValid(s)
    ensures SystemValid(Step(s, e))
  {
    hide SystemValid, StepCreate, StepBegin, StepCommit, StepCommitDelete, StepAuditDelete, FindRow, FindRevisions,
         StepReadRow;
    match e
    case Create(_, _, _, _, _, _, _, _) => CreateKeepsValid(s, e);
    case Begin(c, r) => BeginKeepsValid(s, c, r);
    case Commit(c, fault) => CommitKeepsValid(s, c, fault);
    case CommitDelete(c, fails) => DeleteKeepsValid(s, c, fails);
    case AuditDelete(c, fails) => AuditDeleteKeepsValid(s, c, fails);
    case ReadRow(c) => ReadRowKeepsValid(s, c);
    case ReadRevisions(c) =>
      if c in s.inflight && s.inflight[c].RowRead? {
        OutcomeKeepsValid(s, c, StepReadRevisions(s, c).inflight[c]);
      }
    case BeginDelete(c, key, actor, requestId) =>
      OutcomeKeepsValid(s, c, StepBeginDelete(s, e).inflight[c]);
  }

  /** The invariant holds after every run, whatever the clients and the database do. */
  lemma {:induction false} RunKeepsValid(s: System, es: seq<Event>)
    requires SystemValid(s)
    ensures SystemValid(Run(s, es))
  {
    hide SystemValid, Step;
    if es != [] {
      RunKeepsValid(s, es[..|es| - 1]);
      StepKeepsValid(Run(s, es[..|es| - 1]), es[|es| - 1]);
    }
  }
}
