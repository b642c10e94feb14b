/**
 What each step answers and stores, on valid tables: when it succeeds, which error it gives
 otherwise, and every column of every row it writes.
 */
module Answers {
  import opened Results
  import opened Lifecycle
  import opened Records
  import opened Repository
  import opened Service
  import opened Rules
  import opened Protocol
  import opened Invariant
  import opened Concurrency
  import opened Text

  /** The record is stored and not deleted. */
  predicate Present(db: Db, key: Key) {
    key in db.rows && !db.rows[key].deleted
  }

  // ---- Updates and transitions ----

  /** The first step changes no table: the row is missing, or the rules decide. */
  ghost predicate BeginAnswered(s: System, c: Client, r: Request, t: System) {
    && t.db == s.db && c in t.inflight
    && (if !Present(s.db, r.key) then t.inflight[c] == Returned(Err(NotFound))
        else
          var row := s.db.rows[r.key];
          exists out: Result<Row> :: Ruled(r.key.kind, row, r, out) &&
            t.inflight[c] == match out case Err(error) => Returned(Err(error)) case Ok(item) => Checked(row, r, item))
  }

  lemma BeginAnswer(s: System, c: Client, r: Request)
    requires SystemValid(s)
    ensures BeginAnswered(s, c, r, Step(s, Begin(c, r)))
  {
    hide Prepare, Ruled, SystemValid;
    if Present(s.db, r.key) {
      KindOfRow(s, r.key);
      PrepareIsRuled(r.key.kind, s.db.rows[r.key], r);
    }
  }

  lemma KindOfRow(s: System, key: Key)
    requires SystemValid(s) && key in s.db.rows
    ensures KindMatches(key.kind, s.db.rows[key].control)
  {
    assert RecordValid(s.db, key);
  }

  /** The audit names are never blank. */
  function Named(who: string, otherwise: string): string {
    if AllSpace(who) then otherwise else who
  }

  /** The row, the revision and the audit row of a committed update or transition. */
  ghost predicate WriteStores(db: Db, db': Db, p: Pending)
    requires p.Checked? && p.request.key in db.rows
  {
    var r, item, key := p.request, p.item, p.request.key;
    var action := if r.UpdateRequest? then Updated else Transitioned;
    && db'.rows == db.rows[key := item.(code := db.rows[key].code, deleted := false)]
    && |db'.revisions| == |db.revisions| + 1
    && var own := db'.revisions[|db.revisions|];
    && db'.revisions == db.revisions + [own]
    && own == Revision(key, r.expected + 1, item.status, item.fields.evidence, r.actor, r.requestId, action, own.reason)
    && DoesWhatWasAsked(own, r)
    && db'.audits == db.audits + [Audit(Named(r.actor, "system"), Named(r.requestId, "untracked"), action, key,
                                        In(p.base.status), In(item.status), own.reason)]
  }

  /**
   The second step commits exactly if the record is present at the version the caller sent and no
   statement fails; otherwise it leaves the tables alone and says which of the two it was.
   */
  ghost predicate CommitAnswered(s: System, c: Client, fault: Fault, t: System)
    requires c in s.inflight && s.inflight[c].Checked?
  {
    var p := s.inflight[c];
    var r := p.request;
    var matches := Present(s.db, r.key) && s.db.rows[r.key].version == r.expected;
    && c in t.inflight && r.key in s.db.rows
    && (t.inflight[c].Stored? <==> fault == NoFault && matches)
    && (t.inflight[c].Stored? ==>
          WriteStores(s.db, t.db, p) && t.inflight[c].revision == t.db.revisions[|s.db.revisions|])
    && (!t.inflight[c].Stored? ==>
          && t.db == s.db
          && t.inflight[c] == Returned(Err(if matches || fault == AtRow then StatementFailed else VersionConflict)))
  }

  lemma CommitAnswer(s: System, c: Client, fault: Fault)
    requires SystemValid(s) && c in s.inflight && s.inflight[c].Checked?
    ensures CommitAnswered(s, c, fault, Step(s, Commit(c, fault)))
  {
    hide DbValid, PendingValid, PendingWrite, UpdateVersion, WriteStores, Written;
    var p := s.inflight[c];
    assert PendingValid(s.db, p);
    PendingIsOf(s.db, p);
    PendingWriteFits(s.db, p);
    UpdateVersionOutcome(s.db, PendingWrite(p), fault);
    if fault == NoFault && Matches(s.db, p.request.key, p.request.expected) {
      CommittedStores(s.db, p);
    }
  }

  lemma PendingIsOf(db: Db, p: Pending)
    requires p.Checked? && PendingValid(db, p)
    ensures p.request.key in db.rows
  {
  }

  lemma CommittedStores(db: Db, p: Pending)
    requires p.Checked? && PendingValid(db, p) && Matches(db, p.request.key, p.request.expected)
    ensures PendingWrite(p).key in db.rows
    ensures WriteStores(db, Written(db, PendingWrite(p)), p)
    ensures Written(db, PendingWrite(p)).revisions[|db.revisions|] == WriteRevision(PendingWrite(p))
  {
    hide Prepare, DoesWhatWasAsked, IsBlank, AllSpace, FieldsFit;
    if p.request.UpdateRequest? {
      UpdateOutcome(p.base, p.request);
    }
    var own := WriteRevision(PendingWrite(p));
    PendingWriteFits(db, p);
    AcceptedFits(p, db);
    PrepareKeeps(p.base, p.request);
    BlankExactlyWhen(p.request.actor);
    BlankExactlyWhen(p.request.requestId);
    assert (db.revisions + [own])[|db.revisions|] == own;
  }

  // ---- Creates ----

  /** The row, the revision and the audit row of a committed create. */
  ghost predicate CreateWrites(db: Db, db': Db, e: Event)
    requires e.Create?
  {
    var kind := e.key.kind;
    && e.key in db'.rows
    && var item := db'.rows[e.key];
    && CreateStores(kind, e.code, e.fields, e.actor, e.now, item)
    && db'.rows == db.rows[e.key := item]
    && db'.revisions == db.revisions + [Revision(e.key, 1, Draft, item.fields.evidence, e.actor, e.requestId, Created,
         if kind.Authorization? then "authorization drafted" else "certificate prepared")]
    && db'.audits == db.audits + [Audit(Named(e.actor, "system"), Named(e.requestId, "untracked"), Created, e.key,
         Absent, In(Draft), if kind.Authorization? then "authorization version 1 drafted"
                            else "certificate version 1 prepared")]
  }

  /** The key is taken, or a record of the kind holds the code already, deleted ones included. */
  ghost predicate IsTaken(db: Db, key: Key, code: string) {
    key in db.rows || exists k :: k in db.rows && k.kind == key.kind && IsCodeOf(db.rows[k].code, code)
  }

  /** A create succeeds exactly if its mandatory fields hold text, its code is free and nothing fails. */
  ghost predicate CreateAnswered(s: System, e: Event, t: System)
    requires e.Create?
  {
    var c := e.client;
    && c in t.inflight
    && (t.inflight[c].Stored?
        <==> !IsIncomplete(e.code, e.fields) && !IsTaken(s.db, e.key, e.code) && e.fault == NoFault)
    && (t.inflight[c].Stored? ==>
          && CreateWrites(s.db, t.db, e)
          && t.inflight[c].revision == t.db.revisions[|s.db.revisions|])
    && (!t.inflight[c].Stored? ==>
          && t.db == s.db
          && t.inflight[c] == Returned(Err(
               if IsIncomplete(e.code, e.fields) then InvalidInput
               else if e.fault == AtRow then StatementFailed
               else if IsTaken(s.db, e.key, e.code) then Duplicate
               else StatementFailed)))
  }

  lemma CreateAnswer(s: System, e: Event)
    requires SystemValid(s) && e.Create?
    ensures CreateAnswered(s, e, Step(s, e))
  {
    hide DbValid, PendingValid, PrepareCreate, IsIncomplete, IsTaken, CreateWrites, CreateStores, Inserted, CodeExists,
         CreateRevision;
    CreateOutcome(e.key.kind, e.code, e.fields, e.actor, e.now);
    var prepared := PrepareCreate(e.key.kind, e.code, e.fields, e.actor, e.now);
    if prepared.Ok? {
      CreateCodeIs(e);
      TakenExactlyWhen(s.db, e.key, e.code);
      if !IsTaken(s.db, e.key, e.code) {
        VersionOneIsFree(s.db, e.key);
        CreateVersionOutcome(s.db, e, prepared.value);
        InsertedWrites(s.db, e, prepared.value);
      }
    }
  }

  lemma CreateCodeIs(e: Event)
    requires e.Create? && PrepareCreate(e.key.kind, e.code, e.fields, e.actor, e.now).Ok?
    ensures PrepareCreate(e.key.kind, e.code, e.fields, e.actor, e.now).value.code == CodeOf(e.code)
    ensures PrepareCreate(e.key.kind, e.code, e.fields, e.actor, e.now).value.version == 1
  {
    hide CodeOf, Normalize, MissingBusinessField;
  }

  lemma TakenExactlyWhen(db: Db, key: Key, code: string)
    ensures IsTaken(db, key, code) <==> key in db.rows || CodeExists(db, key.kind, CodeOf(code))
  {
    hide CodeOf, IsCodeOf;
    CodeIsStrippedAndUpper(code);
    forall k | k in db.rows && IsCodeOf(db.rows[k].code, code) ensures db.rows[k].code == CodeOf(code) {
      CodeIsUnique(db.rows[k].code, code);
    }
  }

  lemma VersionOneIsFree(db: Db, key: Key)
    requires DbValid(db) && key !in db.rows
    ensures forall v: nat :: !RevisionExists(db, key, v)
  {
  }

  lemma CreateVersionOutcome(db: Db, e: Event, item: Row)
    requires e.Create? && e.key !in db.rows && !CodeExists(db, e.key.kind, item.code)
    requires forall v: nat :: !RevisionExists(db, e.key, v)
    ensures CreateVersion(db, e.key, item, e.actor, e.requestId, e.fault)
         == if e.fault == NoFault then Committed(Inserted(db, e.key, item, e.actor, e.requestId))
            else RolledBack(StatementFailed)
  {
    hide RevisionExists, CodeExists, Inserted;
  }

  lemma InsertedWrites(db: Db, e: Event, item: Row)
    requires e.Create? && CreateStores(e.key.kind, e.code, e.fields, e.actor, e.now, item)
    ensures CreateWrites(db, Inserted(db, e.key, item, e.actor, e.requestId), e)
    ensures Inserted(db, e.key, item, e.actor, e.requestId).revisions[|db.revisions|]
         == CreateRevision(e.key, item, e.actor, e.requestId)
  {
    hide FieldsFit, IsCodeOf, IsBlank, AllSpace;
    BlankExactlyWhen(e.actor);
    BlankExactlyWhen(e.requestId);
  }

  /**
   Of two creates of a kind whose codes differ in outer white space and in the case of ASCII
   letters only, at most one commits in a run, however far apart they are.
   */
  lemma OneCreatePerCode(s: System, es: seq<Event>, i: nat, j: nat)
    requires SystemValid(s) && i < j < |es| && es[i].Create? && es[j].Create?
    requires es[i].key.kind == es[j].key.kind && SameButCase(es[i].code, es[j].code)
    ensures StampOf(Run(s, es[..i]), es[i]).None? || StampOf(Run(s, es[..j]), es[j]).None?
  {
    hide SystemValid, Run, SameButCase, CodeOf, StampOf, Step;
    var s1 := Run(s, es[..i]);
    RunKeepsValid(s, es[..i]);
    CodesCollideExactlyWhen(es[i].code, es[j].code);
    if StampOf(s1, es[i]).Some? {
      var s2 := Step(s1, es[i]);
      CreatedHoldsCode(s1, es[i]);
      StepKeepsValid(s1, es[i]);
      assert es[..j] == es[..i] + [es[i]] + es[i + 1..j];
      RunAppend(s, es[..i], es[i]);
      RunConcat(s, es[..i] + [es[i]], es[i + 1..j]);
      RunExtends(s2, es[i + 1..j]);
      TakenCodeIsRefused(Run(s2, es[i + 1..j]), es[j], es[i].key);
    }
  }

  lemma CreatedHoldsCode(s: System, e: Event)
    requires e.Create? && StampOf(s, e).Some?
    ensures e.key in Step(s, e).db.rows && Step(s, e).db.rows[e.key].code == CodeOf(e.code)
  {
    hide CodeOf, Normalize, MissingBusinessField, RevisionExists, CodeExists, CreateAudit;
  }

  lemma TakenCodeIsRefused(s: System, e: Event, key: Key)
    requires e.Create? && key in s.db.rows && key.kind == e.key.kind && s.db.rows[key].code == CodeOf(e.code)
    ensures StampOf(s, e).None?
  {
    hide CodeOf, Normalize, MissingBusinessField, RevisionExists, CreateAudit;
  }

  // ---- Deletes ----

  /** A delete is refused exactly if the record is missing or has left draft. */
  lemma BeginDeleteAnswer(s: System, e: Event)
    requires e.BeginDelete?
    ensures var t := Step(s, e);
            && t.db == s.db && e.client in t.inflight
            && t.inflight[e.client] ==
               if !Present(s.db, e.key) then DeleteReturned(Some(NotFound))
               else if s.db.rows[e.key].status != Draft then DeleteReturned(Some(Locked))
               else DeleteChecked(e.key, e.actor, e.requestId, Draft)
  {
  }

  /** Its statement sets the mark of a present row and nothing else. */
  lemma CommitDeleteAnswer(s: System, c: Client, fails: bool)
    requires c in s.inflight && s.inflight[c].DeleteChecked?
    ensures var p, t := s.inflight[c], Step(s, CommitDelete(c, fails));
            && c in t.inflight
            && t.inflight[c] ==
               (if fails then DeleteReturned(Some(StatementFailed))
                else if !Present(s.db, p.key) then DeleteReturned(Some(NotFound))
                else DeleteStored(p.key, p.actor, p.requestId, p.before))
            && t.db == if fails || !Present(s.db, p.key) then s.db
                       else s.db.(rows := s.db.rows[p.key := s.db.rows[p.key].(deleted := true)])
  {
  }

  /**
   A delete that goes through, with other clients between its steps, appends one audit row that
   names the caller and the request of its own event, unless those are empty, and says that a
   draft is gone.
   */
  lemma DeleteIsAudited(s: System, e: Event, before: seq<Event>, after: seq<Event>)
    requires e.BeginDelete? && Present(s.db, e.key) && s.db.rows[e.key].status == Draft
    requires ByOthers(before, e.client) && ByOthers(after, e.client)
    requires Present(Run(Step(s, e), before).db, e.key)
    ensures var c := e.client;
            var t := Run(Step(Run(Step(s, e), before), CommitDelete(c, false)), after);
            var u := Step(t, AuditDelete(c, false));
            && u.db.rows == t.db.rows && u.db.revisions == t.db.revisions
            && u.db.audits == t.db.audits + [Audit(
                 if e.actor == "" then "system" else e.actor,
                 if e.requestId == "" then "untracked" else e.requestId,
                 Deleted, e.key, In(Draft), Gone,
                 if e.key.kind.Authorization? then "soft deleted 放行授权" else "soft deleted 证书记录")]
            && c in u.inflight && u.inflight[c] == DeleteReturned(None)
  {
    hide Run;
    var c := e.client;
    BeginDeleteAnswer(s, e);
    OthersLeaveMine(Step(s, e), before, c);
    var t0 := Run(Step(s, e), before);
    CommitDeleteAnswer(t0, c, false);
    OthersLeaveMine(Step(t0, CommitDelete(c, false)), after, c);
  }

  /** If the audit statement fails, the caller is told although the record is gone. */
  lemma FailedDeleteAudit(s: System, c: Client)
    requires c in s.inflight && s.inflight[c].DeleteStored?
    ensures Step(s, AuditDelete(c, true)) == Remember(s, c, DeleteReturned(Some(StatementFailed)))
  {
  }
}
