/**
 The running program: tables updated statement by statement, services that edit their private
 copy field by field. Every method is tied to the functions and events of the models above.
 */
module Backend {
  import opened Results
  import opened Lifecycle
  import opened Records
  import opened Service
  import opened Protocol
  import opened Invariant
  import opened Concurrency
  import opened Rules
  import opened Answers
  import opened Text
  import opened Repository

  class Store {
    var rows: map<Key, Row>
    var revisions: seq<Revision>
    var audits: seq<Audit>

    function Tables(): Db
      reads this
    {
      Db(rows, revisions, audits)
    }

    constructor (db: Db)
      ensures Tables() == db
    {
      rows, revisions, audits := db.rows, db.revisions, db.audits;
    }

    method FetchRow(key: Key) returns (r: Result<Row>)
      ensures r == FindRow(Tables(), key)
    {
      if key !in rows || rows[key].deleted {
        return Err(NotFound);
      }
      r := Ok(rows[key]);
    }

    /** All revisions of the record and no others, ascending by version, on any tables. */
    method FetchRevisions(key: Key) returns (r: seq<Revision>)
      ensures r == FindRevisions(Tables(), key)
      ensures VersionsAscend(r) && multiset(r) == multiset(History(revisions, key))
      ensures forall x :: x in r <==> x in revisions && x.key == key
    {
      OrderByVersionSorts(History(revisions, key));
      HistoryHoldsExactly(revisions, key);
      r := OrderByVersion(History(revisions, key));
      assert forall x :: x in r <==> x in multiset(r);
    }

    /** The conditional update; no matching row is a version conflict. */
    method OptimisticUpdate(key: Key, expected: nat, item: Row) returns (error: Option<Error>)
      modifies this`rows
      ensures error == if old(Matches(Tables(), key, expected)) then None else Some(VersionConflict)
      ensures rows == if error.None? then old(rows)[key := Overwrite(old(rows)[key], item)] else old(rows)
    {
      if key !in rows || rows[key].deleted || rows[key].version != expected {
        return Some(VersionConflict);
      }
      var stored := rows[key];
      rows := rows[key := item.(code := stored.code, deleted := stored.deleted)];
      error := None;
    }

    method InsertRevision(r: Revision) returns (error: Option<Error>)
      modifies this`revisions
      ensures error == if old(RevisionExists(Tables(), r.key, r.version)) then Some(Duplicate) else None
      ensures revisions == if error.None? then old(revisions) + [r] else old(revisions)
    {
      if RevisionExists(Tables(), r.key, r.version) {
        return Some(Duplicate);
      }
      revisions := revisions + [r];
      error := None;
    }

    method AppendAudit(actor: string, requestId: string, action: Action, key: Key,
                       before: AuditState, after: AuditState, detail: string)
      modifies this`audits
      ensures audits == old(audits) + [AuditRow(actor, requestId, action, key, before, after, detail)]
    {
      var who, request := actor, requestId;
      if IsBlank(who) {
        who := "system";
      }
      if IsBlank(request) {
        request := "untracked";
      }
      audits := audits + [Audit(who, request, action, key, before, after, detail)];
    }

    /** Put every table back as it was when the transaction began. */
    method Rollback(saved: Db)
      modifies this
      ensures Tables() == saved
    {
      rows, revisions, audits := saved.rows, saved.revisions, saved.audits;
    }

    /** Three statements in one transaction, any of which, or the commit itself, may fail. */
    method StoreVersion(w: Write, fault: Fault) returns (error: Option<Error>)
      modifies this
      ensures match UpdateVersion(old(Tables()), w, fault)
              case Committed(db) => error == None && Tables() == db
              case RolledBack(e) => error == Some(e) && Tables() == old(Tables())
    {
      hide IsBlank;
      var saved := Tables();
      if fault.AtRow? {
        return Some(StatementFailed);
      }
      error := OptimisticUpdate(w.key, w.expected, w.item);
      if error.Some? {
        return;
      }
      if fault.AtRevision? {
        Rollback(saved);
        return Some(StatementFailed);
      }
      error := InsertRevision(WriteRevision(w));
      if error.Some? {
        Rollback(saved);
        return;
      }
      if fault.AtAudit? {
        Rollback(saved);
        return Some(StatementFailed);
      }
      AppendAudit(w.actor, w.requestId, w.action, w.key, In(w.before), In(w.item.status), w.reason);
      if fault.AtCommit? {
        Rollback(saved);
        return Some(StatementFailed);
      }
    }

    method InsertRow(key: Key, item: Row) returns (error: Option<Error>)
      modifies this`rows
      ensures error == if old(key in rows || CodeExists(Tables(), key.kind, item.code)) then Some(Duplicate) else None
      ensures rows == if error.None? then old(rows)[key := item] else old(rows)
    {
      if key in rows || CodeExists(Tables(), key.kind, item.code) {
        return Some(Duplicate);
      }
      rows := rows[key := item];
      error := None;
    }

    method StoreNew(key: Key, item: Row, actor: string, requestId: string, fault: Fault) returns (error: Option<Error>)
      modifies this
      ensures match CreateVersion(old(Tables()), key, item, actor, requestId, fault)
              case Committed(db) => error == None && Tables() == db
              case RolledBack(e) => error == Some(e) && Tables() == old(Tables())
    {
      hide IsBlank;
      var saved := Tables();
      if fault.AtRow? {
        return Some(StatementFailed);
      }
      error := InsertRow(key, item);
      if error.Some? {
        return;
      }
      if fault.AtRevision? {
        Rollback(saved);
        return Some(StatementFailed);
      }
      error := InsertRevision(CreateRevision(key, item, actor, requestId));
      if error.Some? {
        Rollback(saved);
        return;
      }
      if fault.AtAudit? {
        Rollback(saved);
        return Some(StatementFailed);
      }
      var detail := if key.kind.Authorization? then "authorization version 1 drafted"
                    else "certificate version 1 prepared";
      AppendAudit(actor, requestId, Created, key, Absent, In(item.status), detail);
      if fault.AtCommit? {
        Rollback(saved);
        return Some(StatementFailed);
      }
    }

    method SoftDelete(key: Key, fails: bool) returns (error: Option<Error>)
      modifies this`rows
      ensures match Delete(old(Tables()), key, fails)
              case Committed(db) => error == None && Tables() == db
              case RolledBack(e) => error == Some(e) && Tables() == old(Tables())
    {
      if fails {
        return Some(StatementFailed);
      }
      if key !in rows || rows[key].deleted {
        return Some(NotFound);
      }
      rows := rows[key := rows[key].(deleted := true)];
      error := None;
    }
  }

  class Server {
    const store: Store
    var inflight: map<Client, Pending>

    function State(): System
      reads this, store
    {
      System(store.Tables(), inflight)
    }

    constructor (store: Store)
      ensures this.store == store && State() == System(store.Tables(), map[])
    {
      this.store := store;
      inflight := map[];
    }

    /** Fetch, check for draft and for mandatory fields, then overwrite the copy's fields one by one. */
    method BeginUpdate(c: Client, r: Request)
      requires r.UpdateRequest?
      modifies this`inflight
      ensures State() == Step(old(State()), Begin(c, r))
      ensures SystemValid(old(State())) ==> BeginAnswered(old(State()), c, r, State())
    {
      hide Trim, OrderByVersion, IsBlank, SystemValid, BeginAnswered;
      if SystemValid(State()) {
        BeginAnswer(State(), c, r);
      }
      var fetched := store.FetchRow(r.key);
      if fetched.Err? {
        inflight := inflight[c := Returned(Err(fetched.error))];
        return;
      }
      var base := fetched.value;
      var current := base;
      if current.status != Draft {
        inflight := inflight[c := Returned(Err(Locked))];
        return;
      }
      if MissingBusinessField(current.code, r.fields) {
        inflight := inflight[c := Returned(Err(InvalidInput))];
        return;
      }
      var f := current.fields;
      f := f.(name := Trim(r.fields.name));
      f := f.(description := Trim(r.fields.description));
      f := f.(facility := Trim(r.fields.facility));
      f := f.(owner := Trim(r.fields.owner));
      f := f.(category := Trim(r.fields.category));
      f := f.(riskLevel := r.fields.riskLevel);
      f := f.(metricValue := r.fields.metricValue);
      f := f.(metricUnit := Trim(r.fields.metricUnit));
      f := f.(effectiveAt := r.fields.effectiveAt);
      f := f.(evidence := Trim(r.fields.evidence));
      f := f.(relatedCode := CodeOf(r.fields.relatedCode));
      current := current.(fields := f);
      if current.control.CertificateControl? {
        current := current.(control := CertificateControl(r.actor, ""));
      }
      current := current.(version := r.expected + 1);
      current := current.(updatedAt := r.now);
      inflight := inflight[c := Checked(base, r, current)];
    }

    method BeginTransition(c: Client, r: Request)
      requires r.TransitionRequest?
      modifies this`inflight
      ensures State() == Step(old(State()), Begin(c, r))
      ensures SystemValid(old(State())) ==> BeginAnswered(old(State()), c, r, State())
    {
      hide Trim, OrderByVersion, Parse, SystemValid, BeginAnswered, Ruled;
      if SystemValid(State()) {
        BeginAnswer(State(), c, r);
      }
      var fetched := store.FetchRow(r.key);
      if fetched.Err? {
        inflight := inflight[c := Returned(Err(fetched.error))];
        return;
      }
      var base := fetched.value;
      var edited: Result<Row>;
      if base.control.ReleaseControl? {
        edited := EditAuthorization(base, r);
      } else {
        edited := EditCertificate(base, r);
      }
      match edited
      case Err(error) => inflight := inflight[c := Returned(Err(error))];
      case Ok(current) => inflight := inflight[c := Checked(base, r, current)];
    }

    /** Graph, role, and for decisions reviewer role and dual control, then the edits in place. */
    method EditAuthorization(base: Row, r: Request) returns (edited: Result<Row>)
      requires r.TransitionRequest? && base.control.ReleaseControl?
      ensures edited == PrepareAuthorization(base, r)
      ensures Ruled(Authorization, base, r, edited)
    {
      hide Trim, Parse, Ruled;
      PrepareIsRuled(Authorization, base, r);
      var current := base;
      var target := Parse(Trim(r.target));
      if target.None? || !CanTransition(RELEASE_AUTHORIZATION_TRANSITIONS, current.status, target.value) {
        return Err(InvalidTransition);
      }
      if !IsOperatorRole(r.role) {
        return Err(Forbidden);
      }
      if target.value == Review {
        current := current.(control := current.control.(submittedBy := r.actor));
        current := current.(control := current.control.(reviewedBy := ""));
        current := current.(control := current.control.(reviewReason := ""));
      }
      if target.value == Approved || target.value == Restricted || target.value == Revoked || target.value == Draft {
        if !IsReviewerRole(r.role) {
          return Err(Forbidden);
        }
        if current.control.submittedBy != "" && r.actor == current.control.submittedBy {
          return Err(SeparationOfDuty);
        }
        current := current.(control := current.control.(reviewedBy := r.actor));
        current := current.(control := current.control.(reviewReason := Trim(r.reason)));
      }
      current := current.(status := target.value);
      current := current.(version := r.expected + 1);
      current := current.(updatedAt := r.now);
      edited := Ok(current);
    }

    method EditCertificate(base: Row, r: Request) returns (edited: Result<Row>)
      requires r.TransitionRequest? && base.control.CertificateControl?
      ensures edited == PrepareCertificate(base, r)
      ensures Ruled(Certificate, base, r, edited)
    {
      hide Trim, Parse, Ruled;
      PrepareIsRuled(Certificate, base, r);
      var current := base;
      var target := Parse(Trim(r.target));
      if target.None? || !CanTransition(CERTIFICATE_TRANSITIONS, current.status, target.value) {
        return Err(InvalidTransition);
      }
      if !IsOperatorRole(r.role) {
        return Err(Forbidden);
      }
      if target.value == Valid || target.value == Revoked {
        if !IsReviewerRole(r.role) {
          return Err(Forbidden);
        }
        if r.actor == current.control.preparedBy {
          return Err(SeparationOfDuty);
        }
        current := current.(control := current.control.(verifiedBy := r.actor));
      }
      current := current.(status := target.value);
      current := current.(version := r.expected + 1);
      current := current.(updatedAt := r.now);
      edited := Ok(current);
    }

    method Write(c: Client, fault: Fault)
      modifies this`inflight, store
      ensures State() == Step(old(State()), Commit(c, fault))
      ensures SystemValid(old(State())) && c in old(inflight) && old(inflight)[c].Checked?
              ==> CommitAnswered(old(State()), c, fault, State())
    {
      hide UpdateVersion, PendingWrite, SystemValid, CommitAnswered;
      if SystemValid(State()) && c in inflight && inflight[c].Checked? {
        CommitAnswer(State(), c, fault);
      }
      if c in inflight && inflight[c].Checked? {
        var w := PendingWrite(inflight[c]);
        var error := store.StoreVersion(w, fault);
        match error
        case Some(e) => inflight := inflight[c := Returned(Err(e))];
        case None => inflight := inflight[c := Stored(WriteRevision(w))];
      }
    }

    method RereadRow(c: Client)
      modifies this`inflight
      ensures State() == Step(old(State()), ReadRow(c))
    {
      if c in inflight && inflight[c].Stored? {
        var own := inflight[c].revision;
        var got := store.FetchRow(own.key);
        match got
        case Err(error) => inflight := inflight[c := Returned(Err(error))];
        case Ok(row) => inflight := inflight[c := RowRead(own, row)];
      }
    }

    method RereadRevisions(c: Client)
      modifies this`inflight
      ensures State() == Step(old(State()), ReadRevisions(c))
    {
      hide OrderByVersion;
      if c in inflight && inflight[c].RowRead? {
        var p := inflight[c];
        var got := store.FetchRevisions(p.revision.key);
        inflight := inflight[c := Returned(Ok(Loaded(p.row, got)))];
      }
    }

    method CreateNew(e: Event)
      requires e.Create?
      modifies this`inflight, store
      ensures State() == Step(old(State()), e)
      ensures SystemValid(old(State())) ==> CreateAnswered(old(State()), e, State())
    {
      hide CreateVersion, IsBlank, Trim, SystemValid, CreateAnswered;
      if SystemValid(State()) {
        CreateAnswer(State(), e);
      }
      var prepared := PrepareCreate(e.key.kind, e.code, e.fields, e.actor, e.now);
      if prepared.Err? {
        inflight := inflight[e.client := Returned(Err(prepared.error))];
        return;
      }
      var error := store.StoreNew(e.key, prepared.value, e.actor, e.requestId, e.fault);
      match error
      case Some(err) => inflight := inflight[e.client := Returned(Err(err))];
      case None =>
        var first := CreateRevision(e.key, prepared.value, e.actor, e.requestId);
        inflight := inflight[e.client := Stored(first)];
    }

    method CheckDelete(e: Event)
      requires e.BeginDelete?
      modifies this`inflight
      ensures State() == Step(old(State()), e)
    {
      hide OrderByVersion;
      var fetched := store.FetchRow(e.key);
      if fetched.Err? {
        inflight := inflight[e.client := DeleteReturned(Some(fetched.error))];
        return;
      }
      var current := fetched.value;
      if current.status != Draft {
        inflight := inflight[e.client := DeleteReturned(Some(Locked))];
        return;
      }
      inflight := inflight[e.client := DeleteChecked(e.key, e.actor, e.requestId, current.status)];
    }

    method RunDelete(c: Client, fails: bool)
      modifies this`inflight, store
      ensures State() == Step(old(State()), CommitDelete(c, fails))
    {
      if c in inflight && inflight[c].DeleteChecked? {
        var p := inflight[c];
        var error := store.SoftDelete(p.key, fails);
        match error
        case Some(e) => inflight := inflight[c := DeleteReturned(Some(e))];
        case None => inflight := inflight[c := DeleteStored(p.key, p.actor, p.requestId, p.before)];
      }
    }

    method RecordDelete(c: Client, fails: bool)
      modifies this`inflight, store
      ensures State() == Step(old(State()), AuditDelete(c, fails))
    {
      if c in inflight && inflight[c].DeleteStored? {
        var p := inflight[c];
        if fails {
          inflight := inflight[c := DeleteReturned(Some(StatementFailed))];
        } else {
          store.audits := store.audits + [DeleteAudit(p.key, p.actor, p.requestId, p.before)];
          inflight := inflight[c := DeleteReturned(None)];
        }
      }
    }

    method Execute(e: Event)
      modifies this`inflight, store
      ensures State() == Step(old(State()), e)
    {
      hide StepCreate, StepBegin, StepCommit, StepReadRow, StepReadRevisions, StepBeginDelete,
           StepCommitDelete, StepAuditDelete;
      match e
      case Create(_, _, _, _, _, _, _, _) => CreateNew(e);
      case Begin(c, r) =>
        if r.UpdateRequest? {
          BeginUpdate(c, r);
        } else {
          BeginTransition(c, r);
        }
      case Commit(c, fault) => Write(c, fault);
      case ReadRow(c) => RereadRow(c);
      case ReadRevisions(c) => RereadRevisions(c);
      case BeginDelete(_, _, _, _) => CheckDelete(e);
      case CommitDelete(c, fails) => RunDelete(c, fails);
      case AuditDelete(c, fails) => RecordDelete(c, fails);
    }

    /** The other clients run for a while. */
    method Interleave(es: seq<Event>)
      modifies this`inflight, store
      ensures State() == Run(old(State()), es)
    {
      hide Step;
      var i := 0;
      assert es[..0] == [];
      while i < |es|
        invariant 0 <= i <= |es|
        invariant State() == Run(old(State()), es[..i])
      {
        Execute(es[i]);
        assert es[..i + 1] == es[..i] + [es[i]];
        RunAppend(old(State()), es[..i], es[i]);
        i := i + 1;
      }
      assert es[..|es|] == es;
    }

    /** Run one event of the caller's own after a run, and keep the run as one list. */
    method Continue(e: Event, ghost s0: System, ghost es: seq<Event>)
      requires SystemValid(State()) && State() == Run(s0, es)
      modifies this`inflight, store
      ensures State() == Step(old(State()), e) && State() == Run(s0, es + [e])
      ensures SystemValid(State())
    {
      hide Step, SystemValid, Run;
      StepKeepsValid(State(), e);
      RunAppend(s0, es, e);
      Execute(e);
    }

    /** Let the other clients run after a run; the caller's own request stays as it was. */
    method Wait(gap: seq<Event>, c: Client, ghost s0: System, ghost es: seq<Event>)
      requires SystemValid(State()) && State() == Run(s0, es)
      requires ByOthers(gap, c) && c in inflight
      modifies this`inflight, store
      ensures State() == Run(old(State()), gap) && State() == Run(s0, es + gap)
      ensures SystemValid(State())
      ensures c in inflight && inflight[c] == old(inflight)[c]
    {
      hide Step, SystemValid, Run;
      RunKeepsValid(State(), gap);
      OthersLeaveMine(State(), gap, c);
      RunConcat(s0, es, gap);
      Interleave(gap);
    }

    /**
     One whole update or transition, with the other clients running between its fetch and its
     write, between its write and its final row read, and between that and its revisions read.
     The outcome is one interleaved run. A record it returns is at its own version or later, has
     at least as many revisions as its version says, and carries the caller's own revision at the
     index of the expected version.
     */
    method Serve(c: Client, r: Request, before: seq<Event>, fault: Fault, after: seq<Event>, late: seq<Event>)
      returns (result: Result<Loaded>)
      requires SystemValid(State())
      requires ByOthers(before, c) && ByOthers(after, c) && ByOthers(late, c)
      modifies this`inflight, store
      ensures State() == Run(old(State()), [Begin(c, r)] + before + [Commit(c, fault)] + after + [ReadRow(c)] + late
                                           + [ReadRevisions(c)])
      ensures c in inflight && inflight[c] == Returned(result)
      ensures SystemValid(State())
      ensures result.Ok? ==> ShowsOwnOf(r, result.value)
    {
      hide Step, SystemValid, Run, ShowsOwnOf;
      ghost var s0 := State();
      RunNothing(s0);
      ghost var es := [];
      BeginAnswers(s0, c, r);
      Continue(Begin(c, r), s0, es);
      es := es + [Begin(c, r)];
      Wait(before, c, s0, es);
      es := es + before;
      CommitAnswers(State(), c, fault);
      Continue(Commit(c, fault), s0, es);
      es := es + [Commit(c, fault)];
      ghost var s3 := State();
      Wait(after, c, s0, es);
      es := es + after;
      Continue(ReadRow(c), s0, es);
      es := es + [ReadRow(c)];
      ReadRowAnswers(s3, after, c);
      Wait(late, c, s0, es);
      es := es + late;
      Continue(ReadRevisions(c), s0, es);
      es := es + [ReadRevisions(c)];
      ReadBackAnswers(s3, after, late, c, r);
      assert es == [Begin(c, r)] + before + [Commit(c, fault)] + after + [ReadRow(c)] + late + [ReadRevisions(c)];
      result := inflight[c].result;
    }
  }

  lemma RunNothing(s: System)
    ensures Run(s, []) == s
  {
  }

  /** After its first step a request has either been answered or holds a checked copy. */
  lemma BeginAnswers(s: System, c: Client, r: Request)
    ensures var s' := Step(s, Begin(c, r));
            && c in s'.inflight
            && ((s'.inflight[c].Returned? && s'.inflight[c].result.Err?)
                || (s'.inflight[c].Checked? && s'.inflight[c].request == r))
  {
    hide Prepare, OrderByVersion;
  }

  /** After its write a request has either failed or stored its own revision. */
  lemma CommitAnswers(s: System, c: Client, fault: Fault)
    requires SystemValid(s) && c in s.inflight
    requires s.inflight[c].Checked? || (s.inflight[c].Returned? && s.inflight[c].result.Err?)
    ensures var s' := Step(s, Commit(c, fault));
            && c in s'.inflight
            && ((s'.inflight[c].Returned? && s'.inflight[c].result.Err?)
                || (&& s'.inflight[c].Stored? && s.inflight[c].Checked?
                    && IsOwn(s'.inflight[c].revision, s.inflight[c].request)))
  {
    hide UpdateVersion, DbValid;
    if s.inflight[c].Checked? {
      assert PendingValid(s.db, s.inflight[c]);
      PendingWriteFits(s.db, s.inflight[c]);
    }
  }

  /** A record returned to the caller of `r` shows the revision that `r` itself stored. */
  predicate ShowsOwnOf(r: Request, got: Loaded) {
    && r.expected < got.row.version <= |got.revisions|
    && IsOwn(got.revisions[r.expected], r)
    && ShowsOwn(got.revisions[r.expected], got)
  }

  lemma ReadRowAnswers(s: System, es: seq<Event>, c: Client)
    requires ByOthers(es, c) && c in s.inflight
    ensures c in Step(Run(s, es), ReadRow(c)).inflight
  {
    hide Run;
    OthersLeaveMine(s, es, c);
  }

  lemma ReadBackAnswers(s: System, es: seq<Event>, late: seq<Event>, c: Client, r: Request)
    requires SystemValid(s) && c in s.inflight && ByOthers(es, c) && ByOthers(late, c)
    requires (s.inflight[c].Returned? && s.inflight[c].result.Err?)
          || (s.inflight[c].Stored? && IsOwn(s.inflight[c].revision, r))
    ensures var s' := Step(Run(Step(Run(s, es), ReadRow(c)), late), ReadRevisions(c));
            && c in s'.inflight && s'.inflight[c].Returned?
            && (s'.inflight[c].result.Ok? ==> ShowsOwnOf(r, s'.inflight[c].result.value))
  {
    hide SystemValid, Run, Contiguous, Step, Commits;
    if s.inflight[c].Stored? {
      ReadBackShowsOwnRevision(s, es, late, c);
    } else {
      OthersLeaveMine(s, es, c);
      AnsweredStays(Run(s, es), c);
      OthersLeaveMine(Step(Run(s, es), ReadRow(c)), late, c);
      AnsweredStays(Run(Step(Run(s, es), ReadRow(c)), late), c);
    }
  }

  lemma AnsweredStays(s: System, c: Client)
    requires c in s.inflight && s.inflight[c].Returned?
    ensures Step(s, ReadRow(c)) == s && Step(s, ReadRevisions(c)) == s
  {
  }
}
