/**
 What the rules of the services make of a record's history, proved on atomic operations:
 legal steps, frozen evidence, separation of duty, and an audit trail that mirrors the revisions.
 */
module Lawful {
  import opened Results
  import opened Lifecycle
  import opened Records
  import opened Repository
  import opened Service
  import opened Invariant
  import opened Refinement
  import opened Text

  function Last<T>(s: seq<T>): T
    requires s != []
  {
    s[|s| - 1]
  }

  // ---- Who acted ----

  predicate IsSubmission(r: Revision) {
    r.action == Transitioned && r.status == Review
  }

  /** The actor of the latest transition into review. */
  function Submitter(h: seq<Revision>): Option<string> {
    if h == [] then None
    else if IsSubmission(Last(h)) then Some(Last(h).actor)
    else Submitter(h[..|h| - 1])
  }

  predicate IsPreparation(r: Revision) {
    r.action == Created || r.action == Updated
  }

  /** The actor of the latest create or update. */
  function Preparer(h: seq<Revision>): Option<string> {
    if h == [] then None
    else if IsPreparation(Last(h)) then Some(Last(h).actor)
    else Preparer(h[..|h| - 1])
  }

  /** The actor of the latest publication or revocation, or the empty text. */
  function Verifier(h: seq<Revision>): string {
    if h == [] then ""
    else if Last(h).action == Transitioned && IsPublication(Last(h).status) then Last(h).actor
    else Verifier(h[..|h| - 1])
  }

  /** Actor and reason of the latest decision since the latest transition into review, if any. */
  function ReviewOf(h: seq<Revision>): (string, string) {
    if h == [] || IsSubmission(Last(h)) then ("", "")
    else if Last(h).action == Transitioned && IsDecision(Last(h).status) then (Last(h).actor, Last(h).reason)
    else ReviewOf(h[..|h| - 1])
  }

  // ---- One step of a history ----

  /** The reviewer of `r` is not the one whose work is reviewed; an empty submitter is not compared. */
  predicate Separated(earlier: seq<Revision>, r: Revision) {
    match r.key.kind
    case Authorization =>
      IsDecision(r.status) && Submitter(earlier).Some? && Submitter(earlier).value != ""
      ==> r.actor != Submitter(earlier).value
    case Certificate =>
      IsPublication(r.status) && Preparer(earlier).Some? ==> r.actor != Preparer(earlier).value
  }

  /** A revision is a draft edit, or a transition along the graph that carries the evidence over. */
  predicate LegalNext(earlier: seq<Revision>, r: Revision)
    requires earlier != []
  {
    || (r.action == Updated && Last(earlier).status == Draft && r.status == Draft)
    || (&& r.action == Transitioned
        && CanTransition(Graph(r.key.kind), Last(earlier).status, r.status)
        && r.evidence == Last(earlier).evidence
        && Separated(earlier, r))
  }

  predicate LegalAt(h: seq<Revision>, n: nat)
    requires 1 <= n < |h|
  {
    LegalNext(h[..n], h[n])
  }

  ghost predicate LawfulHistory(h: seq<Revision>) {
    && h != []
    && (h[0].action == Seeded || (h[0].action == Created && h[0].status == Draft))
    && forall n :: 1 <= n < |h| ==> LegalAt(h, n)
  }

  /** The control columns of a row say who acted according to its history. */
  predicate ControlLawful(h: seq<Revision>, status: Status, c: Control)
    requires h != []
  {
    match c
    case ReleaseControl(submittedBy, reviewedBy, reviewReason) =>
      && (h[0].action == Created ==> (reviewedBy, reviewReason) == ReviewOf(h))
      && (Submitter(h).Some? ==> submittedBy == Submitter(h).value)
      && (Submitter(h).None? && h[0].action == Created ==> submittedBy == "")
      && (submittedBy != "" && reviewedBy != "" ==> submittedBy != reviewedBy)
    case CertificateControl(preparedBy, verifiedBy) =>
      && (Preparer(h).Some? ==> preparedBy == Preparer(h).value)
      && (h[0].action == Created ==> verifiedBy == Verifier(h))
      && (status == Draft ==> verifiedBy == "")
      && (status != Draft ==> verifiedBy != preparedBy)
  }

  // ---- Audit trail ----

  /** The audit rows of one record, its delete rows apart. */
  function Trail(audits: seq<Audit>, key: Key): seq<Audit> {
    if audits == [] then []
    else
      var earlier := Trail(audits[..|audits| - 1], key);
      var a := Last(audits);
      if a.key == key && a.action != Deleted then earlier + [a] else earlier
  }

  lemma TrailAppend(audits: seq<Audit>, a: Audit, key: Key)
    ensures Trail(audits + [a], key)
         == if a.key == key && a.action != Deleted then Trail(audits, key) + [a] else Trail(audits, key)
  {
    assert (audits + [a])[..|audits|] == audits;
  }

  function Detail(r: Revision): string {
    if r.action != Created then r.reason
    else if r.key.kind.Authorization? then "authorization version 1 drafted"
    else "certificate version 1 prepared"
  }

  /** The audit row that belongs to a revision that follows `earlier`. */
  function AuditOf(earlier: seq<Revision>, r: Revision): Audit {
    var before := if earlier == [] then Absent else In(Last(earlier).status);
    AuditRow(r.actor, r.requestId, r.action, r.key, before, In(r.status), Detail(r))
  }

  /** The audit rows a history must have left: one per revision, seeds apart, in order. */
  function Mirror(h: seq<Revision>): seq<Audit> {
    if h == [] then []
    else
      var earlier := h[..|h| - 1];
      if Last(h).action == Seeded then Mirror(earlier) else Mirror(earlier) + [AuditOf(earlier, Last(h))]
  }

  // ---- The invariant ----

  ghost predicate RecordLawful(db: Db, key: Key)
    requires key in db.rows
  {
    var h := History(db.revisions, key);
    && RecordValid(db, key)
    && LawfulHistory(h)
    && ControlLawful(h, db.rows[key].status, db.rows[key].control)
    && Trail(db.audits, key) == Mirror(h)
  }

  ghost predicate DbLawful(db: Db) {
    && DbValid(db)
    && (forall a :: a in db.audits && a.action != Deleted ==> a.key in db.rows)
    && forall key :: key in db.rows ==> RecordLawful(db, key)
  }

  lemma LawfulAppend(h: seq<Revision>, r: Revision)
    requires LawfulHistory(h) && LegalNext(h, r)
    ensures LawfulHistory(h + [r])
  {
    hide LegalNext;
    var g := h + [r];
    forall n | 1 <= n < |g| ensures LegalAt(g, n) {
      if n < |h| {
        assert LegalAt(h, n);
        assert g[..n] == h[..n];
      } else {
        assert g[..n] == h;
      }
    }
  }

  lemma ActorsAppend(h: seq<Revision>, r: Revision)
    ensures Submitter(h + [r]) == if IsSubmission(r) then Some(r.actor) else Submitter(h)
    ensures ReviewOf(h + [r])
         == if IsSubmission(r) then ("", "")
            else if r.action == Transitioned && IsDecision(r.status) then (r.actor, r.reason) else ReviewOf(h)
    ensures Preparer(h + [r]) == if IsPreparation(r) then Some(r.actor) else Preparer(h)
    ensures Verifier(h + [r])
         == if r.action == Transitioned && IsPublication(r.status) then r.actor else Verifier(h)
    ensures Mirror(h + [r])
         == if r.action == Seeded then Mirror(h) else Mirror(h) + [AuditOf(h, r)]
  {
    hide AuditOf;
    assert (h + [r])[..|h|] == h;
  }

  lemma {:induction false} MirrorIsOneToOne(h: seq<Revision>)
    requires LawfulHistory(h)
    ensures var skipped := if h[0].action == Seeded then 1 else 0;
            && |Mirror(h)| == |h| - skipped
            && forall i :: 0 <= i < |Mirror(h)| ==> Mirror(h)[i] == AuditOf(h[..i + skipped], h[i + skipped])
  {
    hide AuditOf, LegalNext;
    var n := |h| - 1;
    if n == 0 {
      assert Mirror(h[..0]) == [];
      assert h[..0] == [];
    } else {
      var g := h[..n];
      forall m | 1 <= m < n ensures LegalAt(g, m) {
        assert LegalAt(h, m);
        assert g[..m] == h[..m];
      }
      MirrorIsOneToOne(g);
      assert LegalAt(h, n);
      NotSeededAgain(h, n);
      forall m | 0 <= m <= n ensures m < n ==> g[..m] == h[..m] {
      }
    }
  }

  lemma NotSeededAgain(h: seq<Revision>, n: nat)
    requires 1 <= n < |h| && LegalAt(h, n)
    ensures h[n].action == Updated || h[n].action == Transitioned
  {
  }

  /** An accepted authorization transition is a legal step and leaves lawful control columns. */
  lemma AuthorizationStep(h: seq<Revision>, row: Row, r: Request)
    requires h != [] && ControlLawful(h, row.status, row.control) && Last(h).status == row.status
    requires Last(h).evidence == row.fields.evidence && r.key.kind.Authorization?
    requires row.control.ReleaseControl? && r.TransitionRequest? && PrepareAuthorization(row, r).Ok?
    ensures var item := PrepareAuthorization(row, r).value;
            var next := WriteRevision(WriteOf(row, r, item));
            LegalNext(h, next) && ControlLawful(h + [next], item.status, item.control)
  {
    hide Trim, Parse, AuditOf;
    ActorsAppend(h, WriteRevision(WriteOf(row, r, PrepareAuthorization(row, r).value)));
  }

  lemma CertificateStep(h: seq<Revision>, row: Row, r: Request)
    requires h != [] && ControlLawful(h, row.status, row.control) && Last(h).status == row.status
    requires Last(h).evidence == row.fields.evidence && r.key.kind.Certificate?
    requires row.control.CertificateControl? && r.TransitionRequest? && PrepareCertificate(row, r).Ok?
    ensures var item := PrepareCertificate(row, r).value;
            var next := WriteRevision(WriteOf(row, r, item));
            LegalNext(h, next) && ControlLawful(h + [next], item.status, item.control)
  {
    hide Trim, Parse, AuditOf;
    ActorsAppend(h, WriteRevision(WriteOf(row, r, PrepareCertificate(row, r).value)));
  }

  /** So is an accepted draft edit, of either kind. */
  lemma UpdateStep(h: seq<Revision>, row: Row, r: Request)
    requires h != [] && ControlLawful(h, row.status, row.control) && Last(h).status == row.status
    requires KindMatches(r.key.kind, row.control)
    requires r.UpdateRequest? && PrepareUpdate(row, r).Ok?
    ensures var item := PrepareUpdate(row, r).value;
            var next := WriteRevision(WriteOf(row, r, item));
            LegalNext(h, next) && ControlLawful(h + [next], item.status, item.control)
  {
    hide Trim, Parse, AuditOf, Normalize, MissingBusinessField;
    ActorsAppend(h, WriteRevision(WriteOf(row, r, PrepareUpdate(row, r).value)));
  }

  /** Every accepted request extends a lawful history by a legal step and mirrors it in the audit. */
  lemma RequestStep(h: seq<Revision>, row: Row, r: Request)
    requires h != [] && ControlLawful(h, row.status, row.control) && Last(h).status == row.status
    requires Last(h).evidence == row.fields.evidence && KindMatches(r.key.kind, row.control)
    requires Prepare(row, r).Ok?
    ensures var w := WriteOf(row, r, Prepare(row, r).value);
            && LegalNext(h, WriteRevision(w))
            && ControlLawful(h + [WriteRevision(w)], w.item.status, w.item.control)
            && WriteAudit(w) == AuditOf(h, WriteRevision(w))
  {
    hide ControlLawful, LegalNext, AuditRow, PrepareAuthorization, PrepareCertificate, Trim, Normalize,
         MissingBusinessField;
    if r.UpdateRequest? {
      UpdateStep(h, row, r);
    } else if row.control.ReleaseControl? {
      AuthorizationStep(h, row, r);
    } else {
      CertificateStep(h, row, r);
    }
  }

  // ---- One operation ----

  /** A lawful step of one record leaves every other record lawful. */
  lemma GrewKeepsLawful(db: Db, db': Db, r: Revision, a: Audit)
    requires DbLawful(db) && DbValid(db') && Grew(db, db', r)
    requires db'.audits == db.audits + [a] && a.key == r.key
    requires RecordLawful(db', r.key)
    ensures DbLawful(db')
  {
    hide LawfulHistory, ControlLawful, RecordValid, Mirror;
    forall key | key in db'.rows ensures RecordLawful(db', key) {
      if key != r.key {
        assert RecordLawful(db, key);
        GrewKeepsRecord(db, db', r, a, key);
      }
    }
  }

  lemma GrewKeepsRecord(db: Db, db': Db, r: Revision, a: Audit, key: Key)
    requires Grew(db, db', r) && db'.audits == db.audits + [a] && a.key == r.key
    requires key != r.key && key in db.rows && RecordLawful(db, key)
    ensures RecordLawful(db', key)
  {
    hide LawfulHistory, ControlLawful, RecordValid, Mirror;
    GrewKeepsOthers(db, db', r, key);
    TrailAppend(db.audits, a, key);
  }

  lemma ValidAt(db: Db, key: Key)
    requires DbValid(db) && key in db.rows
    ensures RecordValid(db, key)
  {
  }

  /** The written record is lawful when its new revision follows lawfully and is mirrored. */
  lemma GrownRecordLawful(db: Db, db': Db, r: Revision, a: Audit)
    requires DbValid(db') && Grew(db, db', r) && db'.audits == db.audits + [a]
    requires var h := History(db.revisions, r.key);
             && LawfulHistory(h + [r])
             && ControlLawful(h + [r], db'.rows[r.key].status, db'.rows[r.key].control)
             && Trail(db.audits, r.key) == Mirror(h)
             && a == AuditOf(h, r) && r.action != Seeded && r.action != Deleted
    ensures RecordLawful(db', r.key)
  {
    hide LawfulHistory, ControlLawful, IsBlank, Detail, RecordValid, DbValid;
    ValidAt(db', r.key);
    HistoryAppend(db.revisions, r, r.key);
    TrailAppend(db.audits, a, r.key);
    ActorsAppend(History(db.revisions, r.key), r);
  }

  /** On a record with a lawful history, an accepted request's revision, row and audit follow lawfully. */
  lemma RequestFollows(db: Db, key: Key, r: Request)
    requires key in db.rows && RecordLawful(db, key) && r.key == key && Prepare(db.rows[key], r).Ok?
    ensures var w := WriteOf(db.rows[key], r, Prepare(db.rows[key], r).value);
            var h := History(db.revisions, key);
            && LawfulHistory(h + [WriteRevision(w)])
            && ControlLawful(h + [WriteRevision(w)], w.item.status, w.item.control)
            && WriteAudit(w) == AuditOf(h, WriteRevision(w))
            && Trail(db.audits, key) == Mirror(h)
  {
    hide ControlLawful, LegalNext, AuditOf, WriteAudit, Prepare, WriteOf, History, LegalAt, Trail, Mirror;
    var h := History(db.revisions, key);
    RequestStep(h, db.rows[key], r);
    LawfulAppend(h, WriteRevision(WriteOf(db.rows[key], r, Prepare(db.rows[key], r).value)));
  }

  lemma WriteKeepsLawful(db: Db, r: Request)
    requires DbLawful(db) && ExecuteRequest(db, r).Committed?
    ensures DbLawful(ExecuteRequest(db, r).db)
  {
    hide LawfulHistory, ControlLawful, LegalNext, AuditOf, WriteAudit, Prepare, WriteOf, OrderByVersion,
         RevisionExists, DbLawful, Mirror, Trail, RecordValid;
    var row := db.rows[r.key];
    var w := WriteOf(row, r, Prepare(row, r).value);
    LawfulAt(db, r.key);
    WriteFits(row, r);
    RequestFollows(db, r.key, r);
    WriteKeepsDb(db, w);
    GrownRecordLawful(db, Written(db, w), WriteRevision(w), WriteAudit(w));
    GrewKeepsLawful(db, Written(db, w), WriteRevision(w), WriteAudit(w));
  }

  lemma LawfulAt(db: Db, key: Key)
    requires DbLawful(db) && key in db.rows
    ensures DbValid(db) && RecordLawful(db, key) && KindMatches(key.kind, db.rows[key].control)
  {
  }

  /** What an accepted request writes fits its record, and its audit row is not a delete. */
  lemma WriteFits(row: Row, r: Request)
    requires Prepare(row, r).Ok? && KindMatches(r.key.kind, row.control)
    ensures var w := WriteOf(row, r, Prepare(row, r).value);
            && w.key == r.key && w.expected == r.expected && w.item == Prepare(row, r).value
            && w.item.version == w.expected + 1 && KindMatches(w.key.kind, w.item.control)
            && (WriteRevision(w).action == Updated || WriteRevision(w).action == Transitioned)
            && WriteAudit(w).key == r.key && WriteAudit(w).action == WriteRevision(w).action
  {
    PrepareKeeps(row, r);
  }

  lemma {:induction false} NoTrail(audits: seq<Audit>, key: Key)
    requires forall a :: a in audits && a.action != Deleted ==> a.key != key
    ensures Trail(audits, key) == []
  {
    if audits != [] {
      NoTrail(audits[..|audits| - 1], key);
    }
  }

  lemma NewHistoryLawful(key: Key, item: Row, actor: string, requestId: string)
    requires item.status == Draft && item.version == 1
    requires item.control == if key.kind.Authorization? then ReleaseControl("", "", "")
                             else CertificateControl(actor, "")
    ensures var r := CreateRevision(key, item, actor, requestId);
            && LawfulHistory([r]) && ControlLawful([r], Draft, item.control)
            && AuditOf([], r) == CreateAudit(key, item, actor, requestId)
            && CreateAudit(key, item, actor, requestId).key == key
  {
    hide IsBlank;
    var r := CreateRevision(key, item, actor, requestId);
    ActorsAppend([], r);
    assert [] + [r] == [r];
  }

  lemma NewTrail(db: Db, key: Key)
    requires DbLawful(db) && key !in db.rows
    ensures DbValid(db) && Trail(db.audits, key) == Mirror([])
  {
    NoTrail(db.audits, key);
  }

  lemma CreateKeepsLawful(db: Db, key: Key, item: Row, actor: string, requestId: string)
    requires DbLawful(db) && key !in db.rows
    requires item.status == Draft && item.version == 1
    requires item.control == if key.kind.Authorization? then ReleaseControl("", "", "")
                             else CertificateControl(actor, "")
    ensures DbLawful(Inserted(db, key, item, actor, requestId))
  {
    hide LawfulHistory, ControlLawful, AuditOf, DbLawful, DbValid, Mirror, Trail, RecordLawful, CreateAudit;
    var r := CreateRevision(key, item, actor, requestId);
    var db' := Inserted(db, key, item, actor, requestId);
    NewTrail(db, key);
    CreateKeepsDb(db, key, item, actor, requestId);
    NewHistoryLawful(key, item, actor, requestId);
    assert [] + [r] == [r];
    GrownRecordLawful(db, db', r, CreateAudit(key, item, actor, requestId));
    GrewKeepsLawful(db, db', r, CreateAudit(key, item, actor, requestId));
  }

  /** Deleting a row and auditing a delete touch neither histories nor trails. */
  lemma SameHistoriesLawful(db: Db, db': Db)
    requires DbLawful(db) && DbValid(db') && db'.revisions == db.revisions && db'.rows.Keys == db.rows.Keys
    requires forall k :: k in db.rows ==> db'.rows[k].(deleted := false) == db.rows[k].(deleted := false)
    requires db'.audits == db.audits
          || exists a: Audit :: a.action == Deleted && db'.audits == db.audits + [a]
    ensures DbLawful(db')
  {
    hide LawfulHistory, ControlLawful, Mirror;
    forall k | k in db'.rows ensures RecordLawful(db', k) {
      assert RecordLawful(db, k) && RecordValid(db', k);
      if db'.audits != db.audits {
        var a: Audit :| a.action == Deleted && db'.audits == db.audits + [a];
        TrailAppend(db.audits, a, k);
      }
    }
  }

  lemma ExecuteKeepsLawful(db: Db, op: Op)
    requires DbLawful(db) && Execute(db, op).Committed?
    ensures DbLawful(Execute(db, op).db)
  {
    hide RecordLawful, RecordValid, RevisionExists, CodeExists, AuditRow, Trim, Prepare, OrderByVersion;
    match op
    case CreateOp(key, code, fields, actor, requestId, now) =>
      CreateKeepsLawful(db, key, PrepareCreate(key.kind, code, fields, actor, now).value, actor, requestId);
    case WriteOp(r) => WriteKeepsLawful(db, r);
    case DeleteOp(key) =>
      DeleteKeepsDb(db, key);
      SameHistoriesLawful(db, Execute(db, op).db);
    case AuditOp(key, actor, requestId, before) =>
      AuditKeepsDb(db, Execute(db, op).db.audits);
      SameHistoriesLawful(db, Execute(db, op).db);
  }

  lemma {:induction false} ExecuteAllKeepsLawful(db: Db, ops: seq<Op>)
    requires DbLawful(db) && ExecuteAll(db, ops).Committed?
    ensures DbLawful(ExecuteAll(db, ops).db)
  {
    hide DbLawful, Execute;
    if ops != [] {
      var n := |ops| - 1;
      ExecuteAllKeepsLawful(db, ops[..n]);
      ExecuteKeepsLawful(ExecuteAll(db, ops[..n]).db, ops[n]);
    }
  }
}
