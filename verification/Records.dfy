/** The stored tables: versioned rows, their append-only revisions, and the audit log. */
module Records {
  import opened Lifecycle

  datatype Kind = Authorization | Certificate

  /** Entity type and primary key; the two record tables are one table indexed by kind. */
  datatype Key = Key(kind: Kind, id: nat)

  datatype Fields = Fields(
    name: string, description: string, facility: string, owner: string, category: string,
    riskLevel: string, metricValue: real, metricUnit: string, effectiveAt: int,
    evidence: string, relatedCode: string)

  /** Who acted on the record, as each kind of record remembers it. */
  datatype Control =
    | ReleaseControl(submittedBy: string, reviewedBy: string, reviewReason: string)
    | CertificateControl(preparedBy: string, verifiedBy: string)

  datatype Row = Row(
    code: string, status: Status, version: nat, fields: Fields, control: Control,
    updatedAt: int, deleted: bool)

  datatype Action = Created | Updated | Transitioned | Seeded | Deleted

  datatype Revision = Revision(
    key: Key, version: nat, status: Status, evidence: string, actor: string,
    requestId: string, action: Action, reason: string)

  /** Before and after states of an audit row: the empty text, a status, or "deleted". */
  datatype AuditState = Absent | In(status: Status) | Gone

  datatype Audit = Audit(
    actor: string, requestId: string, action: Action, key: Key,
    before: AuditState, after: AuditState, detail: string)

  datatype Db = Db(rows: map<Key, Row>, revisions: seq<Revision>, audits: seq<Audit>)

  /** What `Get` returns: the row with its revisions preloaded. */
  datatype Loaded = Loaded(row: Row, revisions: seq<Revision>)

  predicate Live(db: Db, key: Key) {
    key in db.rows && !db.rows[key].deleted
  }

  /** The revisions of one record, in table order. */
  function History(revisions: seq<Revision>, key: Key): (h: seq<Revision>)
    ensures forall i :: 0 <= i < |h| ==> h[i].key == key
  {
    if revisions == [] then []
    else
      var earlier := History(revisions[..|revisions| - 1], key);
      var last := revisions[|revisions| - 1];
      if last.key == key then earlier + [last] else earlier
  }

  lemma HistoryAppend(revisions: seq<Revision>, r: Revision, key: Key)
    ensures History(revisions + [r], key)
         == if r.key == key then History(revisions, key) + [r] else History(revisions, key)
  {
    assert (revisions + [r])[..|revisions|] == revisions;
  }

  /** The revisions of a record, no more and no less. */
  lemma {:induction false} HistoryHoldsExactly(revisions: seq<Revision>, key: Key)
    ensures forall x :: x in History(revisions, key) <==> x in revisions && x.key == key
  {
    if revisions != [] {
      var n := |revisions| - 1;
      HistoryHoldsExactly(revisions[..n], key);
      assert revisions == revisions[..n] + [revisions[n]];
    }
  }

  /** The control columns belong to the kind of the record. */
  predicate KindMatches(kind: Kind, control: Control) {
    kind.Authorization? <==> control.ReleaseControl?
  }

  function Graph(kind: Kind): map<Status, set<Status>> {
    if kind.Authorization? then RELEASE_AUTHORIZATION_TRANSITIONS else CERTIFICATE_TRANSITIONS
  }
}
