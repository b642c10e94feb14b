/** What every run in which callers send versions they were served guarantees about the records. */
module Guarantees {
  import opened Results
  import opened Lifecycle
  import opened Records
  import opened Repository
  import opened Service
  import opened Rules
  import opened Protocol
  import opened Invariant
  import opened Concurrency
  import opened Refinement
  import opened Lawful
  import opened Text

  /** A system from which lawful runs start: valid, lawful, every copy in flight taken as served. */
  ghost predicate LawfulSystem(s: System) {
    SystemValid(s) && PendingServed(s) && DbLawful(s.db)
  }

  lemma RunIsLawful(s: System, es: seq<Event>)
    requires LawfulSystem(s) && ServedRun(s, es)
    ensures LawfulSystem(Run(s, es))
  {
    hide SystemValid, DbLawful, PendingServed, Run, ServedRun;
    RunKeepsValid(s, es);
    RunRefinesAtomic(s, es);
    ExecuteAllKeepsLawful(s.db, Linearization(s, es));
  }

  /**
   The premise is met by callers that send a version they have read: versions only grow, so one
   that was stored earlier in the run is still at most the stored version when the request begins.
   */
  lemma VersionsReadAreServed(s: System, es: seq<Event>, e: Event)
    requires SystemValid(s) && e.Begin? && e.request.key in s.db.rows
    requires e.request.expected <= s.db.rows[e.request.key].version
    ensures Served(Run(s, es), e)
  {
    hide SystemValid, Run;
    RunExtends(s, es);
  }

  /** The history of a record after a run. */
  function HistoryAfter(s: System, es: seq<Event>, key: Key): seq<Revision> {
    History(Run(s, es).db.revisions, key)
  }

  lemma HistoryIsLawful(s: System, es: seq<Event>, key: Key)
    requires LawfulSystem(s) && ServedRun(s, es) && key in Run(s, es).db.rows
    ensures RecordLawful(Run(s, es).db, key)
  {
    hide SystemValid, PendingServed, Run, ServedRun, RecordLawful;
    RunIsLawful(s, es);
  }

  /** `j` is the last position before `i` at which `p` holds. */
  ghost predicate IsLatest(p: Revision -> bool, h: seq<Revision>, i: nat, j: nat) {
    j < i <= |h| && p(h[j]) && forall k :: j < k < i ==> !p(h[k])
  }

  // ---- Dual control over release authorizations ----

  lemma {:induction false} LatestSubmitter(h: seq<Revision>, i: nat, j: nat)
    requires IsLatest(IsSubmission, h, i, j)
    ensures Submitter(h[..i]) == Some(h[j].actor)
    decreases i
  {
    assert h[..i][..i - 1] == h[..i - 1];
    if j < i - 1 {
      LatestSubmitter(h, i - 1, j);
    }
  }

  /** A record that was created in draft cannot have left it without a transition into review. */
  lemma {:induction false} SubmissionExists(h: seq<Revision>, i: nat) returns (j: nat)
    requires LawfulHistory(h) && h[0].action == Created && i < |h| && h[i].status != Draft
    requires forall k :: 0 <= k < |h| ==> h[k].key.kind.Authorization?
    ensures IsLatest(IsSubmission, h, i + 1, j)
  {
    hide Separated;
    assert LegalAt(h, i);
    if IsSubmission(h[i]) {
      j := i;
    } else {
      j := SubmissionExists(h, i - 1);
    }
  }

  /**
   Dual control: whoever approves, restricts, revokes or sends back an authorization is not the
   one whose transition into review came last, unless that submitter's name was empty; and for a
   record the service created there is such a submission.
   */
  lemma DualControl(s: System, es: seq<Event>, key: Key, i: nat)
    requires LawfulSystem(s) && ServedRun(s, es) && key in Run(s, es).db.rows && key.kind.Authorization?
    requires i < |HistoryAfter(s, es, key)|
    requires var r := HistoryAfter(s, es, key)[i]; r.action == Transitioned && IsDecision(r.status)
    ensures var h := HistoryAfter(s, es, key);
            && (forall j: nat :: IsLatest(IsSubmission, h, i, j) ==> h[j].actor != h[i].actor || h[j].actor == "")
            && (h[0].action == Created ==> exists j: nat :: IsLatest(IsSubmission, h, i, j))
  {
    hide Run, ServedRun, LawfulSystem, RecordValid, ControlLawful, Mirror, Trail;
    HistoryIsLawful(s, es, key);
    DecisionsAreSeparated(HistoryAfter(s, es, key), i);
  }

  lemma DecisionsAreSeparated(h: seq<Revision>, i: nat)
    requires LawfulHistory(h) && i < |h| && h[i].action == Transitioned && IsDecision(h[i].status)
    requires forall k :: 0 <= k < |h| ==> h[k].key.kind.Authorization?
    ensures forall j: nat :: IsLatest(IsSubmission, h, i, j) ==> h[j].actor != h[i].actor || h[j].actor == ""
    ensures h[0].action == Created ==> exists j: nat :: IsLatest(IsSubmission, h, i, j)
  {
    assert LegalAt(h, i);
    forall j: nat | IsLatest(IsSubmission, h, i, j)
      ensures h[j].actor != h[i].actor || h[j].actor == ""
    {
      LatestSubmitter(h, i, j);
    }
    if h[0].action == Created {
      assert h[i - 1].status != Draft;
      var j := SubmissionExists(h, i - 1);
    }
  }

  /**
   On a record the service created, the review columns are those of its history: the latest
   submitter, and the decider and the reason of the latest decision since.
   */
  lemma ReviewColumnsFollowHistory(s: System, es: seq<Event>, key: Key)
    requires LawfulSystem(s) && ServedRun(s, es) && key in Run(s, es).db.rows && key.kind.Authorization?
    ensures var c := Run(s, es).db.rows[key].control;
            var h := HistoryAfter(s, es, key);
            && c.ReleaseControl? && h != []
            && (Submitter(h).Some? ==> c.submittedBy == Submitter(h).value)
            && (h[0].action == Created ==>
                  && (Submitter(h).None? ==> c.submittedBy == "")
                  && (c.reviewedBy, c.reviewReason) == ReviewOf(h))
  {
    hide Run, ServedRun, LawfulSystem, LawfulHistory, Mirror, Trail, Contiguous;
    HistoryIsLawful(s, es, key);
  }

  // ---- Frozen contents ----

  /** Evidence does not change over a stretch of history without a draft. */
  lemma {:induction false} EvidenceFrozen(h: seq<Revision>, i: nat, k: nat)
    requires LawfulHistory(h) && i <= k < |h|
    requires forall m :: i < m <= k ==> h[m].status != Draft
    ensures h[k].evidence == h[i].evidence
    decreases k
  {
    hide Separated;
    if i < k {
      assert LegalAt(h, k);
      EvidenceFrozen(h, i, k - 1);
    }
  }

  /** What is approved is what was submitted: the evidence of the latest transition into review. */
  lemma ApprovedIsSubmitted(s: System, es: seq<Event>, key: Key, i: nat)
    requires LawfulSystem(s) && ServedRun(s, es) && key in Run(s, es).db.rows && key.kind.Authorization?
    requires i < |HistoryAfter(s, es, key)| && HistoryAfter(s, es, key)[i].status != Draft
    requires HistoryAfter(s, es, key)[0].action == Created
    ensures var h := HistoryAfter(s, es, key);
            exists j: nat :: IsLatest(IsSubmission, h, i + 1, j) && h[i].evidence == h[j].evidence
  {
    hide Run, ServedRun, LawfulSystem, RecordValid, ControlLawful, Mirror, Trail;
    HistoryIsLawful(s, es, key);
    SubmittedEvidence(HistoryAfter(s, es, key), i);
  }

  lemma SubmittedEvidence(h: seq<Revision>, i: nat)
    requires LawfulHistory(h) && h[0].action == Created && i < |h| && h[i].status != Draft
    requires forall k :: 0 <= k < |h| ==> h[k].key.kind.Authorization?
    ensures exists j: nat :: IsLatest(IsSubmission, h, i + 1, j) && h[i].evidence == h[j].evidence
  {
    var j := SubmissionExists(h, i);
    NoDraftSince(h, i, j);
    EvidenceFrozen(h, j, i);
  }

  /** Leaving draft again takes a new submission, so there is no draft after the latest one. */
  lemma {:induction false} NoDraftSince(h: seq<Revision>, i: nat, j: nat)
    requires LawfulHistory(h) && IsLatest(IsSubmission, h, i + 1, j) && i < |h| && h[i].status != Draft
    requires forall k :: 0 <= k < |h| ==> h[k].key.kind.Authorization?
    ensures forall m :: j <= m <= i ==> h[m].status != Draft
    decreases i
  {
    hide Separated;
    if j < i {
      assert LegalAt(h, i);
      NoDraftSince(h, i - 1, j);
    }
  }

  /** The business fields submitted by the latest create or update among some commits. */
  function LatestEdit(stamps: seq<Stamp>): Option<Fields> {
    if stamps == [] then None
    else if Last(stamps).edit.Some? then Last(stamps).edit
    else LatestEdit(stamps[..|stamps| - 1])
  }

  /** The fields a step leaves: those it submitted for this record, or the ones stored before. */
  ghost predicate StoresEdit(s: System, e: Event, key: Key) {
    var s' := Step(s, e);
    var stamp := StampOf(s, e);
    key in s'.db.rows ==>
      if stamp.Some? && stamp.value.revision.key == key && stamp.value.edit.Some?
      then s'.db.rows[key].fields == Normalize(stamp.value.edit.value)
      else key in s.db.rows && s'.db.rows[key].fields == s.db.rows[key].fields
  }

  lemma PrepareStoresEdit(base: Row, r: Request)
    requires Prepare(base, r).Ok?
    ensures Prepare(base, r).value.fields == match EditOf(r) case Some(f) => Normalize(f) case None => base.fields
  {
    hide Normalize, Trim, MissingBusinessField;
  }

  lemma CommitStoresEdit(s: System, c: Client, fault: Fault, key: Key)
    requires SystemValid(s) && PendingServed(s)
    ensures StoresEdit(s, Commit(c, fault), key)
  {
    hide DbValid, Prepare, WriteAudit, RevisionExists, Normalize;
    if c in s.inflight && s.inflight[c].Checked? {
      var p := s.inflight[c];
      assert PendingValid(s.db, p);
      PrepareStoresEdit(p.base, p.request);
      PendingWriteFits(s.db, p);
    }
  }

  lemma OtherStepsStoreEdit(s: System, e: Event, key: Key)
    requires !e.Commit?
    ensures StoresEdit(s, e, key)
  {
    hide Prepare, OrderByVersion, History, CreateAudit, DeleteAudit, IsBlank, Trim, Normalize,
         RevisionExists, CodeExists;
  }

  lemma {:induction false} FieldsAreNormalized(s: System, es: seq<Event>, key: Key)
    requires SystemValid(s) && PendingServed(s) && ServedRun(s, es) && key in Run(s, es).db.rows
    ensures match LatestEdit(Commits(s, es, key))
            case Some(f) => Run(s, es).db.rows[key].fields == Normalize(f)
            case None => key in s.db.rows && Run(s, es).db.rows[key].fields == s.db.rows[key].fields
  {
    hide SystemValid, PendingServed, Step, StampOf, Served, Normalize;
    if es != [] {
      var n := |es| - 1;
      var t := Run(s, es[..n]);
      RunKeepsValid(s, es[..n]);
      RunRefinesAtomic(s, es[..n]);
      if es[n].Commit? {
        CommitStoresEdit(t, es[n].client, es[n].fault, key);
      } else {
        OtherStepsStoreEdit(t, es[n], key);
      }
      var earlier := Commits(s, es[..n], key);
      var stamp := StampOf(t, es[n]);
      if stamp.Some? {
        assert (earlier + [stamp.value])[..|earlier|] == earlier;
      }
      if key in t.db.rows {
        FieldsAreNormalized(s, es[..n], key);
      }
    }
  }

  /**
   Each business field of a record is the one its latest committed create or update submitted,
   stripped or canonical, however many transitions follow; without one it is what it was.
   */
  lemma FieldsAreLatestEdit(s: System, es: seq<Event>, key: Key)
    requires SystemValid(s) && PendingServed(s) && ServedRun(s, es) && key in Run(s, es).db.rows
    ensures match LatestEdit(Commits(s, es, key))
            case Some(f) => FieldsFit(Run(s, es).db.rows[key].fields, f)
            case None => key in s.db.rows && Run(s, es).db.rows[key].fields == s.db.rows[key].fields
  {
    hide SystemValid, PendingServed, ServedRun, Run, Commits, LatestEdit, Normalize, FieldsFit;
    FieldsAreNormalized(s, es, key);
    match LatestEdit(Commits(s, es, key))
    case Some(f) => NormalizedExactlyWhen(Run(s, es).db.rows[key].fields, f);
    case None =>
  }

  lemma {:induction false} NoEditOutsideDraft(stamps: seq<Stamp>)
    requires forall k :: 0 <= k < |stamps| ==> stamps[k].edit.Some? ==> stamps[k].revision.status == Draft
    requires forall k :: 0 <= k < |stamps| ==> stamps[k].revision.status != Draft
    ensures LatestEdit(stamps) == None
  {
    if stamps != [] {
      NoEditOutsideDraft(stamps[..|stamps| - 1]);
    }
  }

  lemma {:induction false} EditsAreDrafts(s: System, es: seq<Event>, key: Key)
    requires SystemValid(s)
    ensures forall k :: 0 <= k < |Commits(s, es, key)| && Commits(s, es, key)[k].edit.Some?
                        ==> Commits(s, es, key)[k].revision.status == Draft
  {
    hide SystemValid, Step, StampOf;
    if es != [] {
      var n := |es| - 1;
      EditsAreDrafts(s, es[..n], key);
      RunKeepsValid(s, es[..n]);
      if StampOf(Run(s, es[..n]), es[n]).Some? {
        EditIsDraft(Run(s, es[..n]), es[n]);
      }
    }
  }

  lemma EditIsDraft(s: System, e: Event)
    requires SystemValid(s) && StampOf(s, e).Some?
    ensures StampOf(s, e).value.edit.Some? ==> StampOf(s, e).value.revision.status == Draft
  {
    hide DbValid, UpdateVersion, CreateVersion, Trim, MissingBusinessField;
    if e.Commit? {
      assert PendingValid(s.db, s.inflight[e.client]);
    }
  }

  /** Over a run in which no draft of the record is committed, none of its business fields changes. */
  lemma FieldsFrozenOutsideDraft(s: System, es: seq<Event>, key: Key)
    requires SystemValid(s) && PendingServed(s) && ServedRun(s, es) && key in s.db.rows
    requires forall k :: 0 <= k < |Commits(s, es, key)| ==> Commits(s, es, key)[k].revision.status != Draft
    ensures key in Run(s, es).db.rows && Run(s, es).db.rows[key].fields == s.db.rows[key].fields
  {
    hide SystemValid, PendingServed, Run, Commits, ServedRun, LatestEdit;
    RunExtends(s, es);
    EditsAreDrafts(s, es, key);
    NoEditOutsideDraft(Commits(s, es, key));
    FieldsAreLatestEdit(s, es, key);
  }

  // ---- Audit ----

  /**
   The audit trail is the history seen from outside: row by row in order, with the same action,
   actor and request (blank ones renamed), the state before and the state after. The seeded
   revision of a demonstration record has no audit row.
   */
  lemma AuditMirrorsHistory(s: System, es: seq<Event>, key: Key)
    requires LawfulSystem(s) && ServedRun(s, es) && key in Run(s, es).db.rows
    ensures var h := HistoryAfter(s, es, key);
            var trail := Trail(Run(s, es).db.audits, key);
            && h != []
            && var skipped := if h[0].action == Seeded then 1 else 0;
            && |trail| == |h| - skipped
            && forall i :: 0 <= i < |trail| ==>
                 var r := h[i + skipped];
                 && trail[i].actor == (if IsBlank(r.actor) then "system" else r.actor)
                 && trail[i].requestId == (if IsBlank(r.requestId) then "untracked" else r.requestId)
                 && trail[i].action == r.action
                 && trail[i].before == (if i + skipped == 0 then Absent else In(h[i + skipped - 1].status))
                 && trail[i].after == In(r.status)
  {
    hide Run, ServedRun, LawfulSystem, RecordValid, ControlLawful, Mirror, Trail, IsBlank, LegalAt;
    HistoryIsLawful(s, es, key);
    MirrorIsOneToOne(HistoryAfter(s, es, key));
  }

  // ---- Separation of duty over certificates ----

  lemma {:induction false} LatestPreparer(h: seq<Revision>, i: nat, j: nat)
    requires IsLatest(IsPreparation, h, i, j)
    ensures Preparer(h[..i]) == Some(h[j].actor)
    decreases i
  {
    assert h[..i][..i - 1] == h[..i - 1];
    if j < i - 1 {
      LatestPreparer(h, i - 1, j);
    }
  }

  lemma {:induction false} PreparationExists(h: seq<Revision>, i: nat) returns (j: nat)
    requires h != [] && h[0].action == Created && 1 <= i <= |h|
    ensures IsLatest(IsPreparation, h, i, j)
  {
    if IsPreparation(h[i - 1]) {
      j := i - 1;
    } else {
      j := PreparationExists(h, i - 1);
    }
  }

  /** Whoever publishes or revokes a certificate is not the one who created or edited it last. */
  lemma CertificateSeparation(s: System, es: seq<Event>, key: Key, i: nat)
    requires LawfulSystem(s) && ServedRun(s, es) && key in Run(s, es).db.rows && key.kind.Certificate?
    requires i < |HistoryAfter(s, es, key)|
    requires var r := HistoryAfter(s, es, key)[i]; r.action == Transitioned && IsPublication(r.status)
    ensures var h := HistoryAfter(s, es, key);
            && (forall j: nat :: IsLatest(IsPreparation, h, i, j) ==> h[j].actor != h[i].actor)
            && (h[0].action == Created ==> exists j: nat :: IsLatest(IsPreparation, h, i, j))
  {
    hide Run, ServedRun, LawfulSystem, RecordValid, ControlLawful, Mirror, Trail;
    HistoryIsLawful(s, es, key);
    PublicationsAreSeparated(HistoryAfter(s, es, key), i);
  }

  lemma PublicationsAreSeparated(h: seq<Revision>, i: nat)
    requires LawfulHistory(h) && i < |h| && h[i].action == Transitioned && IsPublication(h[i].status)
    requires forall k :: 0 <= k < |h| ==> h[k].key.kind.Certificate?
    ensures forall j: nat :: IsLatest(IsPreparation, h, i, j) ==> h[j].actor != h[i].actor
    ensures h[0].action == Created ==> exists j: nat :: IsLatest(IsPreparation, h, i, j)
  {
    assert LegalAt(h, i);
    forall j: nat | IsLatest(IsPreparation, h, i, j) ensures h[j].actor != h[i].actor {
      LatestPreparer(h, i, j);
    }
    if h[0].action == Created {
      var j := PreparationExists(h, i);
    }
  }

  lemma {:induction false} VerifierActed(h: seq<Revision>, n: nat)
    requires LawfulHistory(h) && h[0].action == Created && 1 <= n <= |h|
    requires forall k :: 0 <= k < |h| ==> h[k].key.kind.Certificate? && h[k].actor != ""
    ensures h[n - 1].status != Draft ==> Verifier(h[..n]) != ""
  {
    hide Separated;
    assert h[..n][..n - 1] == h[..n - 1];
    if n > 1 {
      assert LegalAt(h, n - 1);
      VerifierActed(h, n - 1);
    }
  }

  /**
   The columns of a certificate are those of its history: the latest preparer, and on a record the
   service created the verifier. With no empty actor in its history, the verifier is empty in
   draft only.
   */
  lemma VerifierColumnsFollowHistory(s: System, es: seq<Event>, key: Key)
    requires LawfulSystem(s) && ServedRun(s, es) && key in Run(s, es).db.rows && key.kind.Certificate?
    ensures var row := Run(s, es).db.rows[key];
            var h := HistoryAfter(s, es, key);
            && row.control.CertificateControl? && h != []
            && (Preparer(h).Some? ==> row.control.preparedBy == Preparer(h).value)
            && (h[0].action == Created ==>
                  && row.control.verifiedBy == Verifier(h)
                  && ((forall k :: 0 <= k < |h| ==> h[k].actor != "")
                      ==> (row.control.verifiedBy == "" <==> row.status == Draft)))
  {
    hide Run, ServedRun, LawfulSystem, Mirror, Trail, Contiguous, LegalAt;
    HistoryIsLawful(s, es, key);
    var h := HistoryAfter(s, es, key);
    assert RecordLawful(Run(s, es).db, key);
    if h[0].action == Created && forall k :: 0 <= k < |h| ==> h[k].actor != "" {
      VerifierActed(h, |h|);
      assert h[..|h|] == h;
    }
  }
}
