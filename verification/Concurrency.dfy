/** What concurrent clients can rely on: lost updates, growth of the tables, own writes read back. */
module Concurrency {
  import opened Results
  import opened Lifecycle
  import opened Records
  import opened Repository
  import opened Service
  import opened Rules
  import opened Protocol
  import opened Invariant
  import opened Text

  // ---- Commits and the revision table ----

  lemma StampIsNextRevision(s: System, e: Event)
    ensures Step(s, e).db.revisions
         == match StampOf(s, e) case None => s.db.revisions case Some(st) => s.db.revisions + [st.revision]
  {
    hide SystemValid, Prepare, FindRow, FindRevisions, RevisionExists, CodeExists, IsBlank, CreateAudit, WriteAudit,
         PendingWrite;
    match e
    case Create(_, _, _, _, _, _, _, _) =>
    case Commit(c, fault) =>
    case _ =>
  }

  function RevisionsOf(stamps: seq<Stamp>): (r: seq<Revision>)
    ensures |r| == |stamps|
    ensures forall i :: 0 <= i < |r| ==> r[i] == stamps[i].revision
  {
    if stamps == [] then [] else RevisionsOf(stamps[..|stamps| - 1]) + [stamps[|stamps| - 1].revision]
  }

  lemma RevisionsOfAppend(stamps: seq<Stamp>, st: Stamp)
    ensures RevisionsOf(stamps + [st]) == RevisionsOf(stamps) + [st.revision]
  {
    assert (stamps + [st])[..|stamps|] == stamps;
  }

  lemma CommitsNothing(s: System, key: Key)
    ensures Run(s, []) == s && Commits(s, [], key) == [] && RevisionsOf([]) == []
  {
  }

  lemma CommitsOneMore(s: System, es: seq<Event>, key: Key)
    requires es != []
    ensures var before, e := Run(s, es[..|es| - 1]), es[|es| - 1];
            var earlier, stamp := Commits(s, es[..|es| - 1], key), StampOf(before, e);
            && Run(s, es) == Step(before, e)
            && Commits(s, es, key) == if stamp.Some? && stamp.value.revision.key == key then earlier + [stamp.value]
                                      else earlier
  {
    hide Step, StampOf;
  }

  /** A record's revisions are its committed requests, one for one and in commit order. */
  lemma {:induction false} HistoryIsCommits(s: System, es: seq<Event>, key: Key)
    ensures History(Run(s, es).db.revisions, key)
         == History(s.db.revisions, key) + RevisionsOf(Commits(s, es, key))
  {
    hide Run, Commits, RevisionsOf, History, Step, StampOf;
    var h := History(s.db.revisions, key);
    if es == [] {
      CommitsNothing(s, key);
      assert h + [] == h;
    } else {
      var n := |es| - 1;
      var t := Run(s, es[..n]);
      var earlier, stamp := Commits(s, es[..n], key), StampOf(t, es[n]);
      HistoryIsCommits(s, es[..n], key);
      CommitsOneMore(s, es, key);
      StampIsNextRevision(t, es[n]);
      if stamp.Some? {
        HistoryAppend(t.db.revisions, stamp.value.revision, key);
        RevisionsOfAppend(earlier, stamp.value);
        assert h + (RevisionsOf(earlier) + [stamp.value.revision])
            == (h + RevisionsOf(earlier)) + [stamp.value.revision];
      }
    }
  }

  /** The revision a request stores is its own: its key, its version, its actor, its action. */
  predicate IsOwn(own: Revision, r: Request) {
    && own.key == r.key && own.version == r.expected + 1
    && own.actor == r.actor && own.requestId == r.requestId
    && own.action == if r.UpdateRequest? then Updated else Transitioned
  }

  /** A transition is made in one of the roles its target is for. */
  predicate RoleSuffices(own: Revision, r: Request) {
    r.TransitionRequest? ==> MayMove(own.key.kind, own.status, r.role)
  }

  /** A transition stores the status and the reason it was asked for, an update stays in draft. */
  ghost predicate DoesWhatWasAsked(own: Revision, r: Request) {
    match r
    case UpdateRequest(_, _, fields, _, _, _) =>
      && own.status == Draft && IsTrimOf(own.evidence, fields.evidence)
      && own.reason == if own.key.kind.Authorization? then "draft authorization fields updated"
                       else "draft certificate fields updated"
    case TransitionRequest(_, _, target, reason, _, _, _, _) =>
      && IsTrimOf(own.reason, reason)
      && exists from: Status, said: string :: IsTrimOf(said, target) && Move(own.key.kind, from, said, own.status)
  }

  /** A create stores a draft at version 1, with the evidence it was given. */
  ghost predicate IsNew(own: Revision, edit: Option<Fields>) {
    && own.action == Created && own.version == 1 && own.status == Draft
    && edit.Some? && IsTrimOf(own.evidence, edit.value.evidence)
    && own.reason == if own.key.kind.Authorization? then "authorization drafted" else "certificate prepared"
  }

  /** A commit is a create, or its request's own revision under a sufficient role. */
  ghost predicate StampFits(st: Stamp) {
    match st.request
    case None => IsNew(st.revision, st.edit)
    case Some(r) => IsOwn(st.revision, r) && RoleSuffices(st.revision, r) && DoesWhatWasAsked(st.revision, r)
  }

  lemma AcceptedFits(p: Pending, db: Db)
    requires p.Checked? && PendingValid(db, p)
    ensures var own := WriteRevision(PendingWrite(p));
            IsOwn(own, p.request) && RoleSuffices(own, p.request) && DoesWhatWasAsked(own, p.request)
  {
    hide Prepare, Trim, IsTrimOf, Move, MayMove, FieldsFit;
    var r, kind := p.request, p.request.key.kind;
    if r.UpdateRequest? {
      UpdateOutcome(p.base, r);
      FitsEvidence(p.item.fields, r.fields);
    } else {
      TrimStrips(r.reason);
      TrimStrips(r.target);
      MoveOutcome(kind, p.base, r, Trim(r.target));
      var to: Status :| Move(kind, p.base.status, Trim(r.target), to);
      assert p.item.status == to;
    }
  }

  lemma FitsEvidence(stored: Fields, submitted: Fields)
    requires FieldsFit(stored, submitted)
    ensures IsTrimOf(stored.evidence, submitted.evidence)
  {
  }

  lemma StampFitsStep(s: System, e: Event)
    requires SystemValid(s) && StampOf(s, e).Some?
    ensures StampFits(StampOf(s, e).value)
  {
    hide DbValid, PendingValid, UpdateVersion, CreateVersion, PrepareCreate, PendingWrite, IsOwn, RoleSuffices,
         DoesWhatWasAsked, FieldsFit, IsTrimOf;
    if e.Commit? {
      assert PendingValid(s.db, s.inflight[e.client]);
      AcceptedFits(s.inflight[e.client], s.db);
    } else {
      CreateOutcome(e.key.kind, e.code, e.fields, e.actor, e.now);
      FitsEvidence(PrepareCreate(e.key.kind, e.code, e.fields, e.actor, e.now).value.fields, e.fields);
    }
  }

  /**
   Every commit of every run is the work of one request: its actor, its request id, its version,
   the status and reason it asked for; every transition in the role of an operator, a reviewer or
   an admin, and every decision, publication or revocation in one of the last two.
   */
  lemma {:induction false} CommitsFitRequests(s: System, es: seq<Event>, key: Key)
    requires SystemValid(s)
    ensures forall k :: 0 <= k < |Commits(s, es, key)| ==> StampFits(Commits(s, es, key)[k])
  {
    hide SystemValid, Step, StampOf, StampFits;
    if es != [] {
      var n := |es| - 1;
      var t := Run(s, es[..n]);
      CommitsFitRequests(s, es[..n], key);
      RunKeepsValid(s, es[..n]);
      if StampOf(t, es[n]).Some? {
        StampFitsStep(t, es[n]);
      }
    }
  }

  /** The version counts the commits: the k-th commit of a run stores version v0+k+1. */
  lemma CommitsCountVersions(s: System, es: seq<Event>, key: Key)
    requires SystemValid(s) && key in s.db.rows
    ensures key in Run(s, es).db.rows
    ensures Run(s, es).db.rows[key].version == s.db.rows[key].version + |Commits(s, es, key)|
    ensures forall k :: 0 <= k < |Commits(s, es, key)|
                        ==> Commits(s, es, key)[k].revision.version == s.db.rows[key].version + k + 1
  {
    hide Run, Commits, SystemValid, Contiguous, History;
    HistoryIsCommits(s, es, key);
    RunKeepsValid(s, es);
    RunExtends(s, es);
    VersionIsLength(s, key);
    VersionIsLength(Run(s, es), key);
    var h := History(Run(s, es).db.revisions, key);
    var v := s.db.rows[key].version;
    forall k | 0 <= k < |Commits(s, es, key)|
      ensures Commits(s, es, key)[k].revision.version == v + k + 1
    {
      assert h[v + k] == Commits(s, es, key)[k].revision;
    }
  }

  /** Of all requests that expect the same version of a record, at most one commits in a run. */
  lemma OneCommitPerExpectedVersion(s: System, es: seq<Event>, key: Key, i: nat, j: nat)
    requires SystemValid(s) && key in s.db.rows
    requires i < j < |Commits(s, es, key)|
    ensures var first, second := Commits(s, es, key)[i].request, Commits(s, es, key)[j].request;
            && first.Some? && second.Some?
            && first.value.expected == s.db.rows[key].version + i
            && second.value.expected == s.db.rows[key].version + j
  {
    hide SystemValid, Run, Commits, RoleSuffices, DoesWhatWasAsked;
    CommitsCountVersions(s, es, key);
    CommitsFitRequests(s, es, key);
    AtLeastOne(s, key);
    assert StampFits(Commits(s, es, key)[i]) && StampFits(Commits(s, es, key)[j]);
  }

  lemma AtLeastOne(s: System, key: Key)
    requires SystemValid(s) && key in s.db.rows
    ensures s.db.rows[key].version >= 1
  {
    assert RecordValid(s.db, key);
  }

  // ---- Growth ----

  /** Tables only grow; codes never change; a deleted record is frozen. */
  ghost predicate Extends(old_: Db, new_: Db) {
    && old_.revisions <= new_.revisions
    && old_.audits <= new_.audits
    && forall k :: k in old_.rows ==>
         && k in new_.rows
         && new_.rows[k].code == old_.rows[k].code
         && old_.rows[k].version <= new_.rows[k].version
         && (old_.rows[k].deleted ==>
               new_.rows[k] == old_.rows[k] && History(new_.revisions, k) == History(old_.revisions, k))
  }

  lemma WriteExtends(db: Db, w: Write)
    requires Matches(db, w.key, w.expected) && w.item.version == w.expected + 1
    ensures Extends(db, Written(db, w))
  {
    hide WriteAudit;
    forall k | k in db.rows && db.rows[k].deleted
      ensures History(Written(db, w).revisions, k) == History(db.revisions, k)
    {
      HistoryAppend(db.revisions, WriteRevision(w), k);
    }
  }

  lemma CommitExtends(s: System, c: Client, fault: Fault)
    requires SystemValid(s)
    ensures Extends(s.db, StepCommit(s, c, fault).db)
  {
    hide DbValid, PendingValid, PendingWrite, UpdateVersion, Written;
    if c in s.inflight && s.inflight[c].Checked? {
      var w := PendingWrite(s.inflight[c]);
      PendingWriteFits(s.db, s.inflight[c]);
      UpdateVersionOutcome(s.db, w, fault);
      if UpdateVersion(s.db, w, fault).Committed? {
        WriteExtends(s.db, w);
      }
    }
  }

  lemma CreateExtends(s: System, e: Event)
    requires e.Create?
    ensures Extends(s.db, StepCreate(s, e).db)
  {
    hide CreateAudit, Trim;
    var prepared := PrepareCreate(e.key.kind, e.code, e.fields, e.actor, e.now);
    if prepared.Ok? && CreateVersion(s.db, e.key, prepared.value, e.actor, e.requestId, e.fault).Committed? {
      var r := CreateRevision(e.key, prepared.value, e.actor, e.requestId);
      forall k | k in s.db.rows
        ensures History(s.db.revisions + [r], k) == History(s.db.revisions, k)
      {
        HistoryAppend(s.db.revisions, r, k);
      }
    }
  }

  lemma OtherStepsExtend(s: System, e: Event)
    requires !e.Create? && !e.Commit?
    ensures Extends(s.db, Step(s, e).db)
  {
    hide Prepare, FindRow, FindRevisions, History, DeleteAudit;
  }

  lemma StepExtends(s: System, e: Event)
    requires SystemValid(s)
    ensures Extends(s.db, Step(s, e).db)
  {
    hide SystemValid, Extends, StepCreate, StepCommit;
    match e
    case Create(_, _, _, _, _, _, _, _) => CreateExtends(s, e);
    case Commit(c, fault) => CommitExtends(s, c, fault);
    case _ => OtherStepsExtend(s, e);
  }

  /** Append-only tables, immutable codes and frozen deleted records, over every run. */
  lemma {:induction false} RunExtends(s: System, es: seq<Event>)
    requires SystemValid(s)
    ensures Extends(s.db, Run(s, es).db)
  {
    hide SystemValid, Step;
    if es != [] {
      var n := |es| - 1;
      RunExtends(s, es[..n]);
      RunKeepsValid(s, es[..n]);
      StepExtends(Run(s, es[..n]), es[n]);
    }
  }

  // ---- Codes ----

  /** Stored codes are trimmed and in upper case, and unique within a kind, deleted rows included. */
  ghost predicate CodesValid(rows: map<Key, Row>) {
    && (forall k :: k in rows ==> IsCanonical(rows[k].code))
    && (forall k, l :: k in rows && l in rows && k.kind == l.kind && rows[k].code == rows[l].code ==> k == l)
  }

  lemma SameCodesValid(rows: map<Key, Row>, rows': map<Key, Row>)
    requires CodesValid(rows) && rows'.Keys == rows.Keys
    requires forall k :: k in rows ==> rows'[k].code == rows[k].code
    ensures CodesValid(rows')
  {
  }

  lemma CreateKeepsCodes(s: System, e: Event)
    requires CodesValid(s.db.rows) && e.Create?
    ensures CodesValid(Step(s, e).db.rows)
  {
    hide Normalize, MissingBusinessField, RevisionExists, CodeOf, IsCanonical, CreateAudit, CreateRevision;
    CodesAreCanonical(e.code);
  }

  lemma OtherStepsKeepRows(s: System, e: Event)
    requires SystemValid(s) && !e.Create?
    ensures Step(s, e).db.rows.Keys == s.db.rows.Keys
  {
    hide SystemValid, FindRow, FindRevisions, Prepare, RevisionExists, WriteAudit, DeleteAudit;
  }

  lemma StepKeepsCodes(s: System, e: Event)
    requires SystemValid(s) && CodesValid(s.db.rows)
    ensures CodesValid(Step(s, e).db.rows)
  {
    hide SystemValid, CodesValid, Step;
    if e.Create? {
      CreateKeepsCodes(s, e);
    } else {
      StepExtends(s, e);
      OtherStepsKeepRows(s, e);
      SameCodesValid(s.db.rows, Step(s, e).db.rows);
    }
  }

  lemma {:induction false} RunKeepsCodes(s: System, es: seq<Event>)
    requires SystemValid(s) && CodesValid(s.db.rows)
    ensures CodesValid(Run(s, es).db.rows)
  {
    hide SystemValid, Step, CodesValid;
    if es != [] {
      var n := |es| - 1;
      RunKeepsCodes(s, es[..n]);
      RunKeepsValid(s, es[..n]);
      StepKeepsCodes(Run(s, es[..n]), es[n]);
    }
  }

  // ---- Reading back ----

  /**
   With nothing between its two statements, `Get` on valid tables returns the row with its
   complete history, version i at index i-1.
   */
  lemma GetIsComplete(db: Db, key: Key)
    requires DbValid(db) && Live(db, key)
    ensures Get(db, key) == Ok(Loaded(db.rows[key], History(db.revisions, key)))
    ensures |History(db.revisions, key)| == db.rows[key].version && Contiguous(History(db.revisions, key))
  {
    assert RecordValid(db, key);
    OrderOfContiguous(History(db.revisions, key));
  }

  /** What a caller may conclude from the record it gets back after writing `own`. */
  predicate ShowsOwn(own: Revision, got: Loaded) {
    && 1 <= own.version <= got.row.version <= |got.revisions|
    && Contiguous(got.revisions)
    && got.revisions[own.version - 1] == own
    && got.revisions[got.row.version - 1].status == got.row.status
    && got.revisions[got.row.version - 1].evidence == got.row.fields.evidence
  }

  /** The revisions read after the row: at least as many as the row's version, in version order. */
  lemma LaterRevisionsFit(db: Db, own: Revision, row: Row)
    requires DbValid(db) && PendingValid(db, RowRead(own, row))
    ensures FindRevisions(db, own.key) == History(db.revisions, own.key)
    ensures ShowsOwn(own, Loaded(row, FindRevisions(db, own.key)))
  {
    hide History, OrderByVersion, DbValid;
    HistoryIsComplete(db, own.key);
  }

  lemma HistoryIsComplete(db: Db, key: Key)
    requires DbValid(db) && key in db.rows
    ensures Contiguous(History(db.revisions, key)) && FindRevisions(db, key) == History(db.revisions, key)
  {
    hide History;
    assert RecordValid(db, key);
    OrderOfContiguous(History(db.revisions, key));
  }

  /** The outcome of the row read: the live row at that moment, or not found. */
  lemma RowReadOutcome(s: System, c: Client)
    requires c in s.inflight && s.inflight[c].Stored?
    ensures var key := s.inflight[c].revision.key;
            Step(s, ReadRow(c))
            == Remember(s, c, if Live(s.db, key) then RowRead(s.inflight[c].revision, s.db.rows[key])
                              else Returned(Err(NotFound)))
  {
  }

  /**
   A request's own write, then other clients, then the row read, other clients again, and the
   revisions read. If the record was still live at the row read, the caller gets that row with
   every revision up to the second read: its own at the version it wrote, the row's status and
   evidence at the row's version, and one more revision per commit between the two reads.
   */
  lemma ReadBackShowsOwnRevision(s: System, es: seq<Event>, late: seq<Event>, c: Client)
    requires SystemValid(s) && c in s.inflight && s.inflight[c].Stored?
    requires ByOthers(es, c) && ByOthers(late, c)
    ensures var own := s.inflight[c].revision;
            var t := Run(s, es);
            var read := Step(t, ReadRow(c));
            var answered := Step(Run(read, late), ReadRevisions(c));
            && c in answered.inflight
            && (!Live(t.db, own.key) ==> answered.inflight[c] == Returned(Err(NotFound)))
            && (Live(t.db, own.key) ==>
                  && answered.inflight[c].Returned? && answered.inflight[c].result.Ok?
                  && var got := answered.inflight[c].result.value;
                  && got.row == t.db.rows[own.key]
                  && ShowsOwn(own, got)
                  && |got.revisions| == got.row.version + |Commits(read, late, own.key)|)
  {
    hide DbValid, Run, ShowsOwn, PendingValid, Step, Commits, FindRevisions;
    var own := s.inflight[c].revision;
    var t := Run(s, es);
    RunKeepsValid(s, es);
    OthersLeaveMine(s, es, c);
    StepKeepsValid(t, ReadRow(c));
    RowReadOutcome(t, c);
    var read := Step(t, ReadRow(c));
    RunKeepsValid(read, late);
    OthersLeaveMine(read, late, c);
    var last := Run(read, late);
    RevisionsReadOutcome(last, c);
    if Live(t.db, own.key) {
      assert PendingValid(last.db, last.inflight[c]);
      LaterRevisionsFit(last.db, own, t.db.rows[own.key]);
      HistoryIsCommits(read, late, own.key);
      VersionIsLength(read, own.key);
    }
  }

  lemma RevisionsReadOutcome(s: System, c: Client)
    requires c in s.inflight
    ensures var p := s.inflight[c];
            Step(s, ReadRevisions(c))
            == if p.RowRead? then Remember(s, c, Returned(Ok(Loaded(p.row, FindRevisions(s.db, p.revision.key)))))
               else s
  {
  }

  lemma VersionIsLength(s: System, key: Key)
    requires SystemValid(s) && key in s.db.rows
    ensures var h := History(s.db.revisions, key);
            |h| == s.db.rows[key].version && forall i :: 0 <= i < |h| ==> h[i].version == i + 1
  {
    assert RecordValid(s.db, key);
  }

  // ---- Lost updates ----

  /**
   A request whose conditional update matches is writing over the very row it copied exactly when
   the version it sent was already stored when it took the copy.
   */
  lemma CommitIsFreshExactlyWhenServed(db: Db, p: Pending)
    requires p.Checked? && PendingValid(db, p)
    requires Matches(db, p.request.key, p.request.expected)
    ensures p.base == db.rows[p.request.key] <==> p.request.expected <= p.base.version
  {
    hide Prepare;
    var row := db.rows[p.request.key];
    if p.request.expected <= p.base.version {
      assert p.base == row.(deleted := false);
    }
  }
}
