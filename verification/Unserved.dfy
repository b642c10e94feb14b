/**
 What the rules of the services keep in every run, whatever versions callers send: the columns of
 a row are overwritten together, so a stale copy cannot mix them; and each commit leaves its own
 audit row.
 */
module Unserved {
  import opened Results
  import opened Lifecycle
  import opened Records
  import opened Repository
  import opened Service
  import opened Protocol
  import opened Invariant
  import opened Concurrency
  import opened Lawful
  import opened Text

  // ---- Separated columns ----

  /** A recorded reviewer is not the submitter, a verifier not the preparer, a draft has no verifier. */
  predicate ColumnsSeparated(status: Status, c: Control) {
    match c
    case ReleaseControl(submittedBy, reviewedBy, _) =>
      submittedBy != "" && reviewedBy != "" ==> submittedBy != reviewedBy
    case CertificateControl(preparedBy, verifiedBy) =>
      if status == Draft then verifiedBy == "" else verifiedBy != preparedBy
  }

  /** Outside draft a certificate names its verifier. */
  predicate VerifierNamed(status: Status, c: Control) {
    c.CertificateControl? && status != Draft ==> c.verifiedBy != ""
  }

  predicate RowSeparated(row: Row) {
    ColumnsSeparated(row.status, row.control)
  }

  predicate RowNamed(row: Row) {
    VerifierNamed(row.status, row.control)
  }

  /** The property `p` of every stored row and of every copy in flight. */
  ghost predicate Everywhere(p: Row -> bool, s: System) {
    && (forall key :: key in s.db.rows ==> p(s.db.rows[key]))
    && (forall c :: c in s.inflight && s.inflight[c].Checked? ==> p(s.inflight[c].base) && p(s.inflight[c].item))
  }

  lemma PrepareSeparated(row: Row, r: Request)
    requires RowSeparated(row) && Prepare(row, r).Ok?
    ensures RowSeparated(Prepare(row, r).value)
  {
    hide Trim, Parse, Normalize, MissingBusinessField;
  }

  lemma PrepareNamed(row: Row, r: Request)
    requires RowNamed(row) && Prepare(row, r).Ok? && r.actor != ""
    ensures RowNamed(Prepare(row, r).value)
  {
    hide Trim, Parse, Normalize, MissingBusinessField;
  }

  /** Properties that hold of new rows, survive a delete mark, and are kept by accepted requests. */
  ghost predicate Kept(p: Row -> bool, e: Event) {
    && (forall row: Row, code: string, deleted: bool :: p(row) ==> p(row.(code := code, deleted := deleted)))
    && (e.Create? ==> var item := PrepareCreate(e.key.kind, e.code, e.fields, e.actor, e.now);
                      item.Ok? ==> p(item.value))
    && (e.Begin? ==> forall row: Row :: p(row) && Prepare(row, e.request).Ok? ==> p(Prepare(row, e.request).value))
  }

  lemma StepKeepsEverywhere(p: Row -> bool, s: System, e: Event)
    requires Everywhere(p, s) && Kept(p, e) && SystemValid(s)
    ensures Everywhere(p, Step(s, e))
  {
    hide DbValid, PendingValid, Prepare, PrepareCreate, FindRevisions, RevisionExists, CodeExists, CreateAudit,
         WriteAudit, DeleteAudit;
    if e.Commit? {
      CommitKeepsEverywhere(p, s, e);
    }
  }

  lemma CommitKeepsEverywhere(p: Row -> bool, s: System, e: Event)
    requires e.Commit? && Everywhere(p, s) && Kept(p, e) && SystemValid(s)
    ensures Everywhere(p, Step(s, e))
  {
    hide DbValid, PendingValid, PendingWrite, RevisionExists, WriteAudit;
    var c := e.client;
    if c in s.inflight && s.inflight[c].Checked? {
      assert PendingValid(s.db, s.inflight[c]);
      PendingWriteFits(s.db, s.inflight[c]);
      PendingWriteItem(s.inflight[c]);
    }
  }

  lemma PendingWriteItem(p: Pending)
    requires p.Checked?
    ensures PendingWrite(p).item == p.item
  {
  }

  lemma SeparatedIsKept(e: Event)
    ensures Kept(RowSeparated, e)
  {
    hide Trim, Parse, Normalize, MissingBusinessField, Prepare;
    if e.Begin? {
      forall row: Row | RowSeparated(row) && Prepare(row, e.request).Ok?
        ensures RowSeparated(Prepare(row, e.request).value)
      {
        PrepareSeparated(row, e.request);
      }
    }
  }

  /**
   Separation of duty in the columns, in every run and for every expected version any client
   sends: a recorded reviewer and a recorded submitter are two people, a certificate outside draft
   has a verifier other than its preparer, and a draft has none.
   */
  lemma {:induction false} ColumnsStaySeparated(s: System, es: seq<Event>)
    requires SystemValid(s) && Everywhere(RowSeparated, s)
    ensures Everywhere(RowSeparated, Run(s, es))
  {
    hide SystemValid, Step, Everywhere, Kept;
    if es != [] {
      var n := |es| - 1;
      ColumnsStaySeparated(s, es[..n]);
      RunKeepsValid(s, es[..n]);
      SeparatedIsKept(es[n]);
      StepKeepsEverywhere(RowSeparated, Run(s, es[..n]), es[n]);
    }
  }

  /** The events of people with a name. */
  predicate ByNamed(e: Event) {
    (e.Begin? ==> e.request.actor != "") && (e.Create? ==> e.actor != "")
  }

  lemma NamedIsKept(e: Event)
    requires ByNamed(e)
    ensures Kept(RowNamed, e)
  {
    hide Trim, Parse, Normalize, MissingBusinessField, Prepare;
    if e.Begin? {
      forall row: Row | RowNamed(row) && Prepare(row, e.request).Ok?
        ensures RowNamed(Prepare(row, e.request).value)
      {
        PrepareNamed(row, e.request);
      }
    }
  }

  lemma {:induction false} VerifiersStayNamed(s: System, es: seq<Event>)
    requires SystemValid(s) && Everywhere(RowNamed, s)
    requires forall i :: 0 <= i < |es| ==> ByNamed(es[i])
    ensures Everywhere(RowNamed, Run(s, es))
  {
    hide SystemValid, Step, Everywhere, Kept, ByNamed;
    if es != [] {
      var n := |es| - 1;
      VerifiersStayNamed(s, es[..n]);
      RunKeepsValid(s, es[..n]);
      NamedIsKept(es[n]);
      StepKeepsEverywhere(RowNamed, Run(s, es[..n]), es[n]);
    }
  }

  /** Two people on every authorization, after every run. */
  lemma ReviewerIsNotSubmitter(s: System, es: seq<Event>, key: Key)
    requires SystemValid(s) && Everywhere(RowSeparated, s)
    requires key in Run(s, es).db.rows && key.kind.Authorization?
    ensures var c := Run(s, es).db.rows[key].control;
            c.ReleaseControl? && (c.submittedBy != "" && c.reviewedBy != "" ==> c.submittedBy != c.reviewedBy)
  {
    hide DbValid, Run;
    ColumnsStaySeparated(s, es);
    RunKeepsValid(s, es);
    KindOfRow(Run(s, es), key);
  }

  /** Two people on every certificate outside draft; and with named actors, no verifier in draft only. */
  lemma VerifierIsNotPreparer(s: System, es: seq<Event>, key: Key)
    requires SystemValid(s) && Everywhere(RowSeparated, s)
    requires key in Run(s, es).db.rows && key.kind.Certificate?
    ensures var row := Run(s, es).db.rows[key];
            && row.control.CertificateControl?
            && (row.status != Draft ==> row.control.verifiedBy != row.control.preparedBy)
            && (row.status == Draft ==> row.control.verifiedBy == "")
            && (Everywhere(RowNamed, s) && (forall i :: 0 <= i < |es| ==> ByNamed(es[i]))
                ==> (row.control.verifiedBy == "" <==> row.status == Draft))
  {
    hide DbValid, Run;
    ColumnsStaySeparated(s, es);
    RunKeepsValid(s, es);
    KindOfRow(Run(s, es), key);
    if Everywhere(RowNamed, s) && forall i :: 0 <= i < |es| ==> ByNamed(es[i]) {
      VerifiersStayNamed(s, es);
    }
  }

  lemma KindOfRow(s: System, key: Key)
    requires SystemValid(s) && key in s.db.rows
    ensures KindMatches(key.kind, s.db.rows[key].control)
  {
    assert RecordValid(s.db, key);
  }

  /** Lawful tables have separated columns. */
  lemma LawfulRowsAreSeparated(db: Db)
    requires SystemValid(System(db, map[])) && DbLawful(db)
    ensures Everywhere(RowSeparated, System(db, map[]))
  {
    hide Contiguous, Mirror, Submitter, Preparer, Verifier, ReviewOf, LegalNext;
    forall key | key in db.rows ensures RowSeparated(db.rows[key]) {
      assert RecordLawful(db, key);
    }
  }

  // ---- Decisions before any submission of the run ----

  /** `name` is the recorded submitter, in the row and in every copy taken of it. */
  ghost predicate SubmittedBy(s: System, key: Key, name: string) {
    && key in s.db.rows && s.db.rows[key].control.ReleaseControl? && s.db.rows[key].control.submittedBy == name
    && forall c :: c in s.inflight && s.inflight[c].Checked? && s.inflight[c].request.key == key ==>
         s.inflight[c].base.control.ReleaseControl? && s.inflight[c].base.control.submittedBy == name
  }

  predicate Submits(stamp: Option<Stamp>, key: Key) {
    stamp.Some? && stamp.value.revision.key == key && IsSubmission(stamp.value.revision)
  }

  lemma AcceptedKeepsSubmitter(base: Row, r: Request)
    requires base.control.ReleaseControl? && Prepare(base, r).Ok?
    ensures var item := Prepare(base, r).value;
            && item.control.ReleaseControl?
            && (r.UpdateRequest? || item.status != Review ==> item.control.submittedBy == base.control.submittedBy)
            && (r.TransitionRequest? && IsDecision(item.status)
                ==> base.control.submittedBy == "" || r.actor != base.control.submittedBy)
  {
    hide Trim, Parse, Normalize, MissingBusinessField;
  }

  lemma CommitKeepsSubmitter(s: System, e: Event, key: Key, name: string)
    requires e.Commit? && SystemValid(s) && SubmittedBy(s, key, name) && !Submits(StampOf(s, e), key)
    ensures SubmittedBy(Step(s, e), key, name)
  {
    hide DbValid, Prepare, RevisionExists, WriteAudit;
    var c := e.client;
    if c in s.inflight && s.inflight[c].Checked? {
      var p := s.inflight[c];
      assert PendingValid(s.db, p);
      if p.request.key == key {
        AcceptedKeepsSubmitter(p.base, p.request);
      }
    }
  }

  lemma OtherStepsKeepSubmitter(s: System, e: Event, key: Key, name: string)
    requires !e.Commit? && SubmittedBy(s, key, name)
    ensures SubmittedBy(Step(s, e), key, name)
  {
    hide Prepare, PrepareCreate, FindRevisions, RevisionExists, CodeExists, CreateAudit, DeleteAudit;
  }

  lemma {:induction false} SubmitterStays(s: System, es: seq<Event>, key: Key, name: string)
    requires SystemValid(s) && SubmittedBy(s, key, name)
    requires forall k :: 0 <= k < |Commits(s, es, key)| ==> !IsSubmission(Commits(s, es, key)[k].revision)
    ensures SubmittedBy(Run(s, es), key, name)
  {
    hide SystemValid, SubmittedBy, Step, StampOf, IsSubmission;
    if es != [] {
      var n := |es| - 1;
      var t := Run(s, es[..n]);
      var earlier := Commits(s, es[..n], key);
      assert forall k :: 0 <= k < |earlier| ==> Commits(s, es, key)[k] == earlier[k];
      SubmitterStays(s, es[..n], key, name);
      RunKeepsValid(s, es[..n]);
      if es[n].Commit? {
        assert !Submits(StampOf(t, es[n]), key) by {
          if StampOf(t, es[n]).Some? && StampOf(t, es[n]).value.revision.key == key {
            assert Commits(s, es, key)[|earlier|] == StampOf(t, es[n]).value;
          }
        }
        CommitKeepsSubmitter(t, es[n], key, name);
      } else {
        OtherStepsKeepSubmitter(t, es[n], key, name);
      }
    }
  }

  lemma DecisionIsByAnother(s: System, e: Event, key: Key, name: string)
    requires SystemValid(s) && SubmittedBy(s, key, name) && StampOf(s, e).Some?
    requires var r := StampOf(s, e).value.revision;
             r.key == key && r.action == Transitioned && IsDecision(r.status)
    ensures name == "" || StampOf(s, e).value.revision.actor != name
  {
    hide DbValid, Prepare, PrepareCreate, UpdateVersion, CreateVersion;
    if e.Commit? {
      var p := s.inflight[e.client];
      assert PendingValid(s.db, p);
      AcceptedKeepsSubmitter(p.base, p.request);
    }
  }

  /**
   Until a run commits a submission of its own, nobody decides an authorization whose recorded
   submitter they are, whatever versions callers send: so a record seeded under review is
   separated from its seeded submitter, which its history does not name.
   */
  lemma {:induction false} FirstDecisionIsSeparated(s: System, es: seq<Event>, key: Key, name: string, k: nat)
    requires SystemValid(s) && SubmittedBy(s, key, name) && k < |Commits(s, es, key)|
    requires forall j :: 0 <= j < k ==> !IsSubmission(Commits(s, es, key)[j].revision)
    requires var r := Commits(s, es, key)[k].revision; r.action == Transitioned && IsDecision(r.status)
    ensures name == "" || Commits(s, es, key)[k].revision.actor != name
  {
    hide SystemValid, SubmittedBy, Step, StampOf, IsSubmission, IsDecision;
    var n := |es| - 1;
    var earlier := Commits(s, es[..n], key);
    assert forall j :: 0 <= j < |earlier| ==> Commits(s, es, key)[j] == earlier[j];
    if k < |earlier| {
      FirstDecisionIsSeparated(s, es[..n], key, name, k);
    } else {
      SubmitterStays(s, es[..n], key, name);
      RunKeepsValid(s, es[..n]);
      CommitIsOfKey(s, es, key);
      DecisionIsByAnother(Run(s, es[..n]), es[n], key, name);
    }
  }

  lemma CommitIsOfKey(s: System, es: seq<Event>, key: Key)
    requires es != [] && |Commits(s, es, key)| > |Commits(s, es[..|es| - 1], key)|
    ensures var stamp := StampOf(Run(s, es[..|es| - 1]), es[|es| - 1]);
            && stamp.Some? && stamp.value.revision.key == key
            && Commits(s, es, key) == Commits(s, es[..|es| - 1], key) + [stamp.value]
  {
    hide StampOf, Step;
  }

  // ---- One audit row per commit ----

  /** An audit row that attests a revision: everything but the state before. */
  predicate Attests(a: Audit, r: Revision) {
    && a.key == r.key && a.action == r.action
    && a.actor == (if IsBlank(r.actor) then "system" else r.actor)
    && a.requestId == (if IsBlank(r.requestId) then "untracked" else r.requestId)
    && a.after == In(r.status) && a.detail == Detail(r)
  }

  /** What a step does to the audit table: one row per commit, otherwise at most one for a delete. */
  ghost predicate AuditsStep(s: System, e: Event) {
    var audits := Step(s, e).db.audits;
    match StampOf(s, e)
    case Some(st) => exists a: Audit :: audits == s.db.audits + [a] && Attests(a, st.revision) && a.action != Deleted
    case None => audits == s.db.audits || exists a: Audit :: audits == s.db.audits + [a] && a.action == Deleted
  }

  lemma CommitAudits(s: System, c: Client, fault: Fault)
    ensures AuditsStep(s, Commit(c, fault))
  {
    hide Prepare, RevisionExists, IsBlank, Trim;
    var e := Commit(c, fault);
    if StampOf(s, e).Some? {
      var w := PendingWrite(s.inflight[c]);
      assert Step(s, e).db.audits == s.db.audits + [WriteAudit(w)];
      assert Attests(WriteAudit(w), WriteRevision(w));
    }
  }

  lemma CreateAudits(s: System, e: Event)
    requires e.Create?
    ensures AuditsStep(s, e)
  {
    hide PrepareCreate, RevisionExists, CodeExists, IsBlank, Trim;
    if StampOf(s, e).Some? {
      var item := PrepareCreate(e.key.kind, e.code, e.fields, e.actor, e.now).value;
      var a := CreateAudit(e.key, item, e.actor, e.requestId);
      assert Step(s, e).db.audits == s.db.audits + [a];
      assert Attests(a, CreateRevision(e.key, item, e.actor, e.requestId));
    }
  }

  lemma OtherStepsAudit(s: System, e: Event)
    requires !e.Commit? && !e.Create?
    ensures AuditsStep(s, e)
  {
    hide Prepare, FindRow, FindRevisions;
    if e.AuditDelete? && e.client in s.inflight && s.inflight[e.client].DeleteStored? && !e.fails {
      var p := s.inflight[e.client];
      assert Step(s, e).db.audits == s.db.audits + [DeleteAudit(p.key, p.actor, p.requestId, p.before)];
    }
  }

  lemma EveryStepAudits(s: System, e: Event)
    ensures AuditsStep(s, e)
  {
    hide AuditsStep;
    if e.Commit? {
      CommitAudits(s, e.client, e.fault);
    } else if e.Create? {
      CreateAudits(s, e);
    } else {
      OtherStepsAudit(s, e);
    }
  }

  /** The audit rows of a record that a run has added attest its commits, one for one. */
  ghost predicate TrailGrew(before: seq<Audit>, after: seq<Audit>, stamps: seq<Stamp>) {
    && |after| == |before| + |stamps|
    && before <= after
    && forall k :: 0 <= k < |stamps| ==> Attests(after[|before| + k], stamps[k].revision)
  }

  lemma StepGrowsTrail(s: System, e: Event, key: Key)
    ensures var stamp := StampOf(s, e);
            TrailGrew(Trail(s.db.audits, key), Trail(Step(s, e).db.audits, key),
                      if stamp.Some? && stamp.value.revision.key == key then [stamp.value] else [])
  {
    hide Step, StampOf, Trail, IsBlank, Detail;
    EveryStepAudits(s, e);
    var audits := Step(s, e).db.audits;
    if audits != s.db.audits {
      var a: Audit :| audits == s.db.audits + [a]
                      && match StampOf(s, e)
                         case Some(st) => Attests(a, st.revision) && a.action != Deleted
                         case None => a.action == Deleted;
      TrailAppend(s.db.audits, a, key);
    }
  }

  /**
   In every run, with any faults and whatever versions callers send, each commit on a record adds
   exactly one audit row, in commit order, with the commit's action, actor and request up to
   blanks, its status after and its detail; nothing else adds one but deletes.
   */
  lemma {:induction false} TrailIsCommits(s: System, es: seq<Event>, key: Key)
    ensures TrailGrew(Trail(s.db.audits, key), Trail(Run(s, es).db.audits, key), Commits(s, es, key))
  {
    hide Step, StampOf, Trail, Attests;
    if es != [] {
      var n := |es| - 1;
      var t := Run(s, es[..n]);
      TrailIsCommits(s, es[..n], key);
      StepGrowsTrail(t, es[n], key);
    }
  }

  /** A trail that attests a history row by row, the seeded revision apart. */
  ghost predicate TrailAttests(trail: seq<Audit>, h: seq<Revision>) {
    var skipped := if h != [] && h[0].action == Seeded then 1 else 0;
    && |trail| == |h| - skipped
    && forall i :: 0 <= i < |trail| ==> Attests(trail[i], h[i + skipped])
  }

  lemma AttestedGrows(trail: seq<Audit>, h: seq<Revision>, trail': seq<Audit>, stamps: seq<Stamp>)
    requires TrailAttests(trail, h) && TrailGrew(trail, trail', stamps)
    requires h == [] && stamps != [] ==> stamps[0].revision.action != Seeded
    ensures TrailAttests(trail', h + RevisionsOf(stamps))
  {
    hide Attests, RevisionsOf;
    var all := h + RevisionsOf(stamps);
    assert h == [] ==> all == RevisionsOf(stamps);
    var skipped := if h != [] && h[0].action == Seeded then 1 else 0;
    forall i | 0 <= i < |trail'| ensures Attests(trail'[i], all[i + skipped]) {
      if i < |trail| {
        assert trail'[i] == trail[i];
      } else {
        assert trail'[|trail| + (i - |trail|)] == trail'[i];
      }
    }
  }

  /**
   From a lawful start, in every run, the audit trail of a record and its history correspond one
   for one and in order, the seeded revision apart. Only the state before is not covered: that
   needs callers to send versions they were served.
   */
  lemma AuditAttestsHistory(s: System, es: seq<Event>, key: Key)
    requires SystemValid(s) && DbLawful(s.db)
    ensures TrailAttests(Trail(Run(s, es).db.audits, key), History(Run(s, es).db.revisions, key))
  {
    hide Run, Commits, Attests, DbLawful, SystemValid, Trail, History, StampFits, TrailAttests, TrailGrew;
    TrailIsCommits(s, es, key);
    HistoryIsCommits(s, es, key);
    StartAttested(s, key);
    var stamps := Commits(s, es, key);
    if stamps != [] {
      CommitsFitRequests(s, es, key);
      CommitIsNotSeeded(stamps[0]);
    }
    AttestedGrows(Trail(s.db.audits, key), History(s.db.revisions, key), Trail(Run(s, es).db.audits, key), stamps);
  }

  lemma CommitIsNotSeeded(st: Stamp)
    requires StampFits(st)
    ensures st.revision.action != Seeded
  {
  }

  /** Where a lawful run starts, the trail of each record already attests its history. */
  lemma StartAttested(s: System, key: Key)
    requires SystemValid(s) && DbLawful(s.db)
    ensures TrailAttests(Trail(s.db.audits, key), History(s.db.revisions, key))
  {
    hide DbValid, ControlLawful, LegalNext, IsBlank, Detail, RecordValid;
    var h := History(s.db.revisions, key);
    if key in s.db.rows {
      assert RecordLawful(s.db, key);
      MirrorIsOneToOne(h);
    } else {
      UnknownKey(s, key);
    }
  }

  lemma UnknownKey(s: System, key: Key)
    requires SystemValid(s) && DbLawful(s.db) && key !in s.db.rows
    ensures History(s.db.revisions, key) == [] && Trail(s.db.audits, key) == []
  {
    NoHistory(s.db.revisions, key);
    NoTrail(s.db.audits, key);
  }
}
