/** Where the guarantees stop: what the premises are for, what deletes do not promise, and the seeds. */
module Boundaries {
  import opened Lifecycle
  import opened Records
  import opened Repository
  import opened Service
  import opened Protocol
  import opened Invariant
  import opened Concurrency
  import opened Refinement
  import opened Lawful
  import opened Guarantees
  import opened Unserved
  import opened Words
  import opened Text

  /** A request whose fetch and write succeed with nothing in between. */
  lemma StepsOf(s: System, c: Client, r: Request)
    requires Live(s.db, r.key) && Prepare(s.db.rows[r.key], r).Ok?
    ensures var row := s.db.rows[r.key];
            Step(s, Begin(c, r)) == Remember(s, c, Checked(row, r, Prepare(row, r).value))
  {
    hide Prepare, OrderByVersion;
  }

  /** A commit whose expected version is the stored one succeeds, whatever copy it writes. */
  lemma CommitsOver(s: System, c: Client)
    requires SystemValid(s) && c in s.inflight && s.inflight[c].Checked?
    requires Live(s.db, s.inflight[c].request.key)
    requires s.db.rows[s.inflight[c].request.key].version == s.inflight[c].request.expected
    ensures Step(s, Commit(c, NoFault)).db == Written(s.db, PendingWrite(s.inflight[c]))
    ensures PendingWrite(s.inflight[c]).key == s.inflight[c].request.key
    ensures var w := PendingWrite(s.inflight[c]); w.item == s.inflight[c].item
  {
    hide DbValid, PendingValid, RevisionExists, WriteAudit;
    var p := s.inflight[c];
    assert PendingValid(s.db, p);
    PendingWriteFits(s.db, p);
    UpdateVersionOutcome(s.db, PendingWrite(p), NoFault);
  }

  lemma RunTwo(s: System, a: Event, b: Event)
    ensures Run(s, [a, b]) == Step(Step(s, a), b)
    ensures Run(s, [a]) == Step(s, a)
  {
    hide Step;
    RunAppend(s, [], a);
    RunAppend(s, [a], b);
    assert [] + [a] == [a] && [a] + [b] == [a, b];
  }

  lemma RunFour(s: System, a: Event, b: Event, c: Event, d: Event)
    ensures Run(s, [a, b, c, d]) == Step(Step(Step(Step(s, a), b), c), d)
  {
    hide Step;
    RunTwo(s, a, b);
    RunAppend(s, [a, b], c);
    RunAppend(s, [a, b, c], d);
    assert [a, b] + [c] == [a, b, c] && [a, b, c] + [d] == [a, b, c, d];
  }

  // ---- The served premise is needed ----

  /** The two fetches: one client submits version 1 for review, the other edits it as "version 2". */
  lemma TwoCopies(t: System, c: Client, other: Client, submit: Request, edit: Request)
    requires SystemValid(t) && c != other && Live(t.db, submit.key) && edit.key == submit.key
    requires Prepare(t.db.rows[submit.key], submit).Ok? && Prepare(t.db.rows[submit.key], edit).Ok?
    ensures var row := t.db.rows[submit.key];
            var s2 := Step(Step(t, Begin(c, submit)), Begin(other, edit));
            && s2.db == t.db && SystemValid(s2) && c in s2.inflight && other in s2.inflight
            && s2.inflight[c] == Checked(row, submit, Prepare(row, submit).value)
            && s2.inflight[other] == Checked(row, edit, Prepare(row, edit).value)
  {
    hide Prepare, SystemValid, OrderByVersion, Step;
    StepsOf(t, c, submit);
    StepKeepsValid(t, Begin(c, submit));
    StepsOf(Step(t, Begin(c, submit)), other, edit);
    StepKeepsValid(Step(t, Begin(c, submit)), Begin(other, edit));
  }

  /** Both copies are written, the second over the first. */
  lemma BothCommit(s: System, c: Client, other: Client)
    requires SystemValid(s) && c != other && c in s.inflight && other in s.inflight
    requires s.inflight[c].Checked? && s.inflight[other].Checked?
    requires var key := s.inflight[c].request.key;
             && s.inflight[other].request.key == key && Live(s.db, key)
             && s.db.rows[key].version == s.inflight[c].request.expected
             && s.inflight[other].request.expected == s.inflight[c].request.expected + 1
    ensures var key := s.inflight[c].request.key;
            var s4 := Step(Step(s, Commit(c, NoFault)), Commit(other, NoFault));
            && key in s4.db.rows
            && History(s4.db.revisions, key) == History(s.db.revisions, key)
                 + [WriteRevision(PendingWrite(s.inflight[c]))] + [WriteRevision(PendingWrite(s.inflight[other]))]
            && WriteRevision(PendingWrite(s.inflight[c])).status == s.inflight[c].item.status
            && WriteRevision(PendingWrite(s.inflight[other])).status == s.inflight[other].item.status
  {
    hide DbValid, PendingValid, RevisionExists, WriteAudit, UpdateVersion, PendingWrite;
    var key := s.inflight[c].request.key;
    CommitsOver(s, c);
    StepKeepsValid(s, Commit(c, NoFault));
    var s3 := Step(s, Commit(c, NoFault));
    var w, v := PendingWrite(s.inflight[c]), PendingWrite(s.inflight[other]);
    assert PendingValid(s.db, s.inflight[c]);
    PendingWriteFits(s.db, s.inflight[c]);
    HistoryAppend(s.db.revisions, WriteRevision(w), key);
    CommitsOver(s3, other);
    HistoryAppend(s3.db.revisions, WriteRevision(v), key);
  }

  /**
   A client that reads version 1 but sends expected version 2 writes over the version 2 another
   client stored meanwhile: a record under review becomes a draft again through an edit, with no
   decision by anybody, which no lawful history shows.
   */
  lemma UnservedVersionOverwrites(t: System, key: Key, cast: Cast, other: Client)
    requires key.kind.Authorization? && Spelled(t, key, [Draft], cast) && other != cast.client
    requires cast.operator != cast.reviewer && !MissingBusinessField(t.db.rows[key].code, cast.fields)
    ensures var submit := Begin(cast.client, NextRequest(key, 1, Draft, Review, cast));
            var edit := Begin(other, UpdateRequest(key, 2, cast.fields, cast.operator, "stale", cast.now));
            var es := [submit, edit, Commit(cast.client, NoFault), Commit(other, NoFault)];
            && !Served(Step(t, submit), edit)
            && Statuses(HistoryAfter(t, es, key)) == [Draft, Review, Draft]
            && !LawfulHistory(HistoryAfter(t, es, key))
  {
    hide Prepare, SystemValid, PendingServed, DbLawful, IsBlank, Step, NextRequest;
    var row := t.db.rows[key];
    var r := NextRequest(key, 1, Draft, Review, cast);
    var edit := UpdateRequest(key, 2, cast.fields, cast.operator, "stale", cast.now);
    NextIsAccepted(row, key, Review, cast);
    EditIsAccepted(row, edit);
    var c := cast.client;
    TwoCopies(t, c, other, r, edit);
    var s1 := Step(t, Begin(c, r));
    StepsOf(t, c, r);
    var s2 := Step(s1, Begin(other, edit));
    BothCommit(s2, c, other);
    RunFour(t, Begin(c, r), Begin(other, edit), Commit(c, NoFault), Commit(other, NoFault));
    var es := [Begin(c, r), Begin(other, edit), Commit(c, NoFault), Commit(other, NoFault)];
    var h := HistoryAfter(t, es, key);
    assert Statuses(h) == [Draft, Review, Draft];
    assert !LegalAt(h, 2);
  }

  lemma EditIsAccepted(row: Row, edit: Request)
    requires edit.UpdateRequest? && row.status == Draft && !MissingBusinessField(row.code, edit.fields)
    ensures Prepare(row, edit).Ok? && Prepare(row, edit).value.status == Draft
  {
    hide MissingBusinessField, Normalize;
  }

  // ---- The submitter's name must not be empty ----

  /** An accepted decision is by the submitter exactly when both names are empty. */
  lemma DecidesOwnExactlyWhenNameless(row: Row, r: Request)
    requires row.control.ReleaseControl? && r.TransitionRequest?
    requires Prepare(row, r).Ok? && IsDecision(Prepare(row, r).value.status)
    ensures var c := Prepare(row, r).value.control;
            && (c.reviewedBy == c.submittedBy <==> r.actor == "" && row.control.submittedBy == "")
            && c.submittedBy == row.control.submittedBy && c.reviewedBy == r.actor
  {
    hide Trim, Parse;
  }

  lemma AfterNamelessSubmission(t: System, key: Key, w: seq<Status>, cast: Cast, decider: Cast)
    requires key.kind.Authorization? && cast.operator == "" && Spelled(t, key, w, cast)
    ensures Spelled(t, key, w, decider)
  {
    hide LawfulSystem;
  }

  /** A served run in which nobody with a name submits an authorization and approves it too. */
  lemma NamelessApprovesOwn(t: System, key: Key, cast: Cast, decider: Cast)
    requires key.kind.Authorization? && Spelled(t, key, [Draft], cast) && cast.operator == "" && cast.reviewer != ""
    requires decider.reviewer == "" && decider.operator != ""
    requires !MissingBusinessField(t.db.rows[key].code, cast.fields)
    requires !MissingBusinessField(t.db.rows[key].code, decider.fields)
    ensures var es := Advance(key, [Draft], Review, cast) + Advance(key, [Draft, Review], Approved, decider);
            && ServedRun(t, es)
            && var h := HistoryAfter(t, es, key);
               Statuses(h) == [Draft, Review, Approved] && h[1].actor == h[2].actor
  {
    hide LawfulSystem, MissingBusinessField, Run, ServedRun, Spelled, Advance, History, IsBlank;
    var es, fs := Advance(key, [Draft], Review, cast), Advance(key, [Draft, Review], Approved, decider);
    var t1 := Run(t, es);
    AdvanceSpells(t, key, [Draft], Review, cast);
    AdvanceNames(t, key, [Draft], Review, cast);
    assert [Draft] + [Review] == [Draft, Review];
    AfterNamelessSubmission(t1, key, [Draft, Review], cast, decider);
    AdvanceSpells(t1, key, [Draft, Review], Approved, decider);
    AdvanceNames(t1, key, [Draft, Review], Approved, decider);
    assert [Draft, Review] + [Approved] == [Draft, Review, Approved];
    SpelledIsHistory(t, key, [Draft], cast);
    SpelledIsHistory(t1, key, [Draft, Review], decider);
    SpelledIsHistory(Run(t1, fs), key, [Draft, Review, Approved], decider);
    ServedConcat(t, es, fs);
    RunConcat(t, es, fs);
  }

  // ---- Deletes ----

  /** A delete with nothing in between its check and its statement removes drafts only. */
  lemma SequentialDeleteRemovesDrafts(s: System, e: Event, key: Key)
    requires e.BeginDelete? && key in s.db.rows && !s.db.rows[key].deleted
    ensures var s' := Run(s, [e, CommitDelete(e.client, false)]);
            && key in s'.db.rows
            && (s'.db.rows[key].deleted <==> e.key == key && s.db.rows[key].status == Draft)
  {
    hide OrderByVersion;
    RunTwo(s, e, CommitDelete(e.client, false));
  }

  lemma StatusIsLast(s: System, key: Key)
    requires SystemValid(s) && key in s.db.rows
    ensures var h := History(s.db.revisions, key); h != [] && Last(h).status == s.db.rows[key].status
  {
    assert RecordValid(s.db, key);
  }

  /** A delete that passed its check removes whatever the row has become. */
  lemma CheckedDeleteRemoves(s: System, c: Client, key: Key)
    requires c in s.inflight && s.inflight[c].DeleteChecked? && s.inflight[c].key == key && Live(s.db, key)
    ensures var s' := Step(s, CommitDelete(c, false));
            key in s'.db.rows && s'.db.rows[key] == s.db.rows[key].(deleted := true)
  {
  }

  lemma BeginDeleteOfDraft(s: System, e: Event)
    requires e.BeginDelete? && Live(s.db, e.key) && s.db.rows[e.key].status == Draft
    ensures Step(s, e) == Remember(s, e.client, DeleteChecked(e.key, e.actor, e.requestId, Draft))
  {
    hide OrderByVersion;
  }

  /** A step that commits nothing on a record changes no more of its row than the delete mark. */
  lemma QuietStepKeepsRow(s: System, e: Event, key: Key)
    requires SystemValid(s) && key in s.db.rows
    requires StampOf(s, e).Some? ==> StampOf(s, e).value.revision.key != key
    ensures var s' := Step(s, e);
            key in s'.db.rows && s'.db.rows[key] == s.db.rows[key].(deleted := s'.db.rows[key].deleted)
  {
    hide DbValid, PendingValid, Prepare, PrepareCreate, FindRow, FindRevisions, RevisionExists, CodeExists,
         CreateAudit, WriteAudit, DeleteAudit;
  }

  lemma {:induction false} QuietRunKeepsRow(s: System, es: seq<Event>, key: Key)
    requires SystemValid(s) && key in s.db.rows && Commits(s, es, key) == []
    ensures var s' := Run(s, es);
            key in s'.db.rows && s'.db.rows[key] == s.db.rows[key].(deleted := s'.db.rows[key].deleted)
  {
    hide SystemValid, Step, StampOf;
    if es != [] {
      var n := |es| - 1;
      QuietRunKeepsRow(s, es[..n], key);
      RunKeepsValid(s, es[..n]);
      QuietStepKeepsRow(Run(s, es[..n]), es[n], key);
    }
  }

  /** Commits on a record leave the status of the last one; none leave the row, up to the delete mark. */
  lemma RowAfterCommits(s: System, es: seq<Event>, key: Key)
    requires SystemValid(s) && key in s.db.rows
    ensures var since := Commits(s, es, key);
            && key in Run(s, es).db.rows
            && var row := Run(s, es).db.rows[key];
            && (row == s.db.rows[key].(deleted := row.deleted) <==> since == [])
            && row.status == (if since == [] then s.db.rows[key].status else Last(since).revision.status)
  {
    hide Run, Commits, SystemValid, Contiguous, History;
    HistoryIsCommits(s, es, key);
    CommitsCountVersions(s, es, key);
    RunKeepsValid(s, es);
    StatusIsLast(s, key);
    StatusIsLast(Run(s, es), key);
    if Commits(s, es, key) == [] {
      QuietRunKeepsRow(s, es, key);
    }
  }

  /**
   What a delete does that checked a draft and was then overtaken by any run of other clients: it
   removes the record if that is still live. The row removed is the one that was checked exactly
   when nothing was committed on it in between, and a draft exactly when the last commit left
   one; the audit row will say draft in every case.
   */
  lemma OvertakenDelete(s: System, e: Event, es: seq<Event>, fails: bool)
    requires SystemValid(s) && e.BeginDelete? && Live(s.db, e.key) && s.db.rows[e.key].status == Draft
    requires ByOthers(es, e.client)
    ensures var checked := Step(s, e);
            var t := Run(checked, es);
            var u := Step(t, CommitDelete(e.client, fails));
            var since := Commits(checked, es, e.key);
            && e.key in t.db.rows
            && (u.db.rows != t.db.rows <==> !fails && Live(t.db, e.key))
            && (u.db.rows != t.db.rows ==>
                  && u.db.rows == t.db.rows[e.key := t.db.rows[e.key].(deleted := true)]
                  && (u.db.rows[e.key] == s.db.rows[e.key].(deleted := true) <==> since == [])
                  && (u.db.rows[e.key].status == Draft <==> since == [] || Last(since).revision.status == Draft)
                  && e.client in u.inflight
                  && u.inflight[e.client] == DeleteStored(e.key, e.actor, e.requestId, Draft))
  {
    hide SystemValid, Run, Commits;
    BeginDeleteOfDraft(s, e);
    StepKeepsValid(s, e);
    OthersLeaveMine(Step(s, e), es, e.client);
    RowAfterCommits(Step(s, e), es, e.key);
  }

  /** With a submission in between, the same delete removes a record under review. */
  lemma OvertakenDeleteRemovesReviewed(t: System, key: Key, cast: Cast, other: Client)
    requires key.kind.Authorization? && Spelled(t, key, [Draft], cast) && other != cast.client
    requires cast.operator != cast.reviewer && !MissingBusinessField(t.db.rows[key].code, cast.fields)
    ensures var es := [BeginDelete(other, key, "root", "gone"),
                       Begin(cast.client, NextRequest(key, 1, Draft, Review, cast)),
                       Commit(cast.client, NoFault), CommitDelete(other, false)];
            && Served(Run(t, [es[0]]), es[1])
            && key in Run(t, es).db.rows
            && Run(t, es).db.rows[key].deleted && Run(t, es).db.rows[key].status == Review
  {
    hide Prepare, SystemValid, PendingServed, DbLawful, IsBlank, NextRequest, Step, History, PendingWrite;
    var row := t.db.rows[key];
    var r := NextRequest(key, 1, Draft, Review, cast);
    var c := cast.client;
    NextIsAccepted(row, key, Review, cast);
    var e1, e2 := BeginDelete(other, key, "root", "gone"), Begin(c, r);
    var e3, e4 := Commit(c, NoFault), CommitDelete(other, false);
    BeginDeleteOfDraft(t, e1);
    StepKeepsValid(t, e1);
    var s1 := Step(t, e1);
    StepsOf(s1, c, r);
    StepKeepsValid(s1, e2);
    var s2 := Step(s1, e2);
    CommitsOver(s2, c);
    CommitTouchesOnly(s2, c, other);
    CheckedDeleteRemoves(Step(s2, e3), other, key);
    RunFour(t, e1, e2, e3, e4);
    RunTwo(t, e1, e2);
  }

  lemma CommitTouchesOnly(s: System, c: Client, other: Client)
    requires c != other && other in s.inflight
    ensures var s' := Step(s, Commit(c, NoFault)); other in s'.inflight && s'.inflight[other] == s.inflight[other]
  {
    hide UpdateVersion, PendingWrite;
  }

  // ---- Demonstration records ----

  /** A record as the start-up seeds it: version 1, one seed revision, no audit row. */
  ghost predicate IsSeeded(db: Db, key: Key)
    requires key in db.rows
  {
    var row := db.rows[key];
    && row.version == 1 && SeedControl(key.kind, row.status, row.control)
    && History(db.revisions, key)
       == [Revision(key, 1, row.status, row.fields.evidence, "system-seed", "seed-gb-515", Seeded,
                    if key.kind.Authorization? then "initial demonstration authorization"
                    else "initial demonstration certificate")]
  }

  ghost predicate IsSeededDb(db: Db) {
    && db.audits == []
    && (forall r :: r in db.revisions ==> r.key in db.rows)
    && forall key :: key in db.rows ==> IsSeeded(db, key)
  }

  /** One record to be seeded, with the time at which that is done. */
  datatype SeedItem = SeedItem(key: Key, code: string, status: Status, fields: Fields, control: Control, at: int)

  function SeededRow(item: SeedItem): Row {
    Row(item.code, item.status, 1, item.fields, item.control, item.at, false)
  }

  /** Insert one demonstration record with its seed revision. */
  function Seed(db: Db, item: SeedItem): Db {
    var reason := if item.key.kind.Authorization? then "initial demonstration authorization"
                  else "initial demonstration certificate";
    db.(rows := db.rows[item.key := SeededRow(item)],
        revisions := db.revisions + [Revision(item.key, 1, item.status, item.fields.evidence, "system-seed",
                                              "seed-gb-515", Seeded, reason)])
  }

  function SeedAll(items: seq<SeedItem>): Db {
    if items == [] then Db(map[], [], []) else Seed(SeedAll(items[..|items| - 1]), Last(items))
  }

  /** The control columns a record may be seeded with. */
  predicate SeedControl(kind: Kind, status: Status, c: Control) {
    KindMatches(kind, c) && ColumnsSeparated(status, c) && VerifierNamed(status, c)
  }

  lemma SeedKeepsSeeded(db: Db, item: SeedItem)
    requires IsSeededDb(db) && item.key !in db.rows && SeedControl(item.key.kind, item.status, item.control)
    ensures IsSeededDb(Seed(db, item))
  {
    hide History;
    var db' := Seed(db, item);
    var r := db'.revisions[|db.revisions|];
    assert db'.revisions == db.revisions + [r];
    NoHistory(db.revisions, item.key);
    forall k | k in db'.rows ensures IsSeeded(db', k) {
      HistoryAppend(db.revisions, r, k);
      assert k != item.key ==> IsSeeded(db, k);
    }
  }

  /** Seeding stores each record as given, and nothing else. */
  lemma {:induction false} SeedAllStores(items: seq<SeedItem>)
    requires forall i, j :: 0 <= i < j < |items| ==> items[i].key != items[j].key
    ensures forall k :: k in SeedAll(items).rows ==> exists i :: 0 <= i < |items| && items[i].key == k
    ensures forall i :: 0 <= i < |items| ==>
              items[i].key in SeedAll(items).rows && SeedAll(items).rows[items[i].key] == SeededRow(items[i])
  {
    hide SeededRow;
    if items != [] {
      var n := |items| - 1;
      var before := items[..n];
      SeedAllStores(before);
      assert SeedAll(items).rows == SeedAll(before).rows[items[n].key := SeededRow(items[n])];
      forall i | 0 <= i < |items|
        ensures items[i].key in SeedAll(items).rows && SeedAll(items).rows[items[i].key] == SeededRow(items[i])
      {
        assert i < n ==> before[i] == items[i] && items[i].key != items[n].key;
      }
      forall k | k in SeedAll(items).rows ensures exists i :: 0 <= i < |items| && items[i].key == k {
        if k != items[n].key {
          var i :| 0 <= i < n && before[i].key == k;
          assert items[i].key == k;
        }
      }
    }
  }

  lemma {:induction false} SeedAllIsSeeded(items: seq<SeedItem>)
    requires forall i :: 0 <= i < |items| ==> SeedControl(items[i].key.kind, items[i].status, items[i].control)
    requires forall i, j :: 0 <= i < j < |items| ==> items[i].key != items[j].key
    ensures IsSeededDb(SeedAll(items))
  {
    hide IsSeeded, SeedControl;
    if items != [] {
      var n := |items| - 1;
      SeedAllIsSeeded(items[..n]);
      SeedAllStores(items[..n]);
      SeedKeepsSeeded(SeedAll(items[..n]), items[n]);
    }
  }

  /** Canonical codes, no two of a kind alike. */
  predicate CodesAreSet(items: seq<SeedItem>) {
    && (forall i :: 0 <= i < |items| ==> IsCanonical(items[i].code))
    && (forall i, j :: 0 <= i < j < |items| && items[i].key.kind == items[j].key.kind
          ==> items[i].code != items[j].code)
  }

  /** They are what the code index demands of the tables. */
  lemma SeededCodesAreValid(items: seq<SeedItem>)
    requires forall i, j :: 0 <= i < j < |items| ==> items[i].key != items[j].key
    requires CodesAreSet(items)
    ensures CodesValid(SeedAll(items).rows)
  {
    hide IsCanonical, SeedAll;
    SeedAllStores(items);
  }

  const HOUR := 3600

  /** The business fields of the n-th demonstration record of a kind. */
  function DemonstrationFields(kind: Kind, n: nat, at: int): Fields
    requires 1 <= n <= 3
  {
    var record := if kind.Certificate? then "证书记录" else "放行授权";
    Fields(record + "示例" + ["一", "二", "三"][n - 1],
           "用于启动验证和主要流程演示的" + record + "记录",
           "航空部件适航放行区域" + ["1", "2", "3"][n - 1],
           ["运行一组", "质量复核组", "安全主管组"][n - 1],
           ["常规", "重点", "复核"][n - 1],
           ["low", "medium", "high"][n - 1],
           12.5 * n as real,
           ["unit", "%", "score"][n - 1],
           at + 3 * (n - 1) * HOUR,
           "已完成基础证据核对",
           "REL-515-0" + ["1", "2", "3"][n - 1])
  }

  function SeedOf(kind: Kind, n: nat, code: string, status: Status, control: Control, at: int): SeedItem
    requires 1 <= n <= 3
  {
    SeedItem(Key(kind, n), code, status, DemonstrationFields(kind, n, at), control, at)
  }

  /** What start-up seeds: three certificates, then three authorizations, not all of them drafts. */
  function Demonstration(first: int, second: int): seq<SeedItem> {
    [SeedOf(Certificate, 1, "CR-001", Draft, CertificateControl("operator", ""), first),
     SeedOf(Certificate, 2, "CR-002", Valid, CertificateControl("operator", "reviewer"), first),
     SeedOf(Certificate, 3, "CR-003", Expired, CertificateControl("operator", "reviewer"), first),
     SeedOf(Authorization, 1, "RA-001", Draft, ReleaseControl("", "", ""), second),
     SeedOf(Authorization, 2, "RA-002", Review, ReleaseControl("operator", "", ""), second),
     SeedOf(Authorization, 3, "RA-003", Approved,
            ReleaseControl("operator", "reviewer", "演示数据双人复核通过"), second)]
  }

  /** A code of capitals, digits and dashes is canonical. */
  lemma PlainCodeIsCanonical(code: string)
    requires code != "" && forall i :: 0 <= i < |code| ==> '-' <= code[i] <= 'Z'
    ensures IsCanonical(code)
  {
  }

  lemma DemonstrationCodes(first: int, second: int)
    ensures CodesAreSet(Demonstration(first, second))
  {
    hide IsCanonical, DemonstrationFields;
    var items := Demonstration(first, second);
    forall i | 0 <= i < |items|
      ensures IsCanonical(items[i].code) && items[i].code[5] as int == '1' as int + i % 3
    {
      PlainCodeIsCanonical(items[i].code);
    }
    assert forall i :: 0 <= i < |items| ==> items[i].key.id == i % 3 + 1;
  }

  lemma DemonstrationControls(first: int, second: int)
    ensures var items := Demonstration(first, second);
            && (forall i :: 0 <= i < |items| ==> SeedControl(items[i].key.kind, items[i].status, items[i].control))
            && (forall i, j :: 0 <= i < j < |items| ==> items[i].key != items[j].key)
  {
    hide DemonstrationFields;
    assert "operator"[0] != "reviewer"[0];
  }

  /**
   The system as it starts up is one from which lawful runs start, its columns separated and named,
   its codes canonical and unique, and the record under review submitted by the operator.
   */
  lemma DemonstrationIsLawful(first: int, second: int)
    ensures var s := System(SeedAll(Demonstration(first, second)), map[]);
            && LawfulSystem(s) && Everywhere(RowSeparated, s) && Everywhere(RowNamed, s) && CodesValid(s.db.rows)
            && SubmittedBy(s, Key(Authorization, 2), "operator")
  {
    hide IsSeededDb, SeedAll, LawfulSystem, Everywhere, Demonstration, SeedControl, CodesValid;
    var items := Demonstration(first, second);
    DemonstrationControls(first, second);
    DemonstrationCodes(first, second);
    SeedAllIsSeeded(items);
    SeededIsLawful(SeedAll(items));
    SeededIsSeparated(SeedAll(items));
    SeededCodesAreValid(items);
    SeedAllStores(items);
    UnderReview(first, second);
  }

  lemma UnderReview(first: int, second: int)
    ensures |Demonstration(first, second)| == 6
    ensures var item := Demonstration(first, second)[4];
            item.key == Key(Authorization, 2) && item.status == Review
            && item.control == ReleaseControl("operator", "", "")
  {
    hide DemonstrationFields;
  }

  /** Seeded tables are where runs start whose columns stay separated and named. */
  lemma SeededIsSeparated(db: Db)
    requires IsSeededDb(db)
    ensures Everywhere(RowSeparated, System(db, map[])) && Everywhere(RowNamed, System(db, map[]))
  {
    hide History;
    forall key | key in db.rows ensures RowSeparated(db.rows[key]) && RowNamed(db.rows[key]) {
      assert IsSeeded(db, key);
    }
  }

  /** Seeded tables, and empty ones, are where lawful runs start. */
  lemma SeededIsLawful(db: Db)
    requires IsSeededDb(db)
    ensures LawfulSystem(System(db, map[]))
  {
    forall key | key in db.rows ensures RecordValid(db, key) && RecordLawful(db, key) {
      assert IsSeeded(db, key);
      SeededRecord(db, key);
    }
  }

  lemma SeededRecord(db: Db, key: Key)
    requires key in db.rows && IsSeeded(db, key) && db.audits == []
    ensures RecordValid(db, key) && RecordLawful(db, key)
  {
    var h := History(db.revisions, key);
    ActorsAppend([], h[0]);
    assert [] + [h[0]] == h;
    assert Mirror([]) == [];
  }
}
