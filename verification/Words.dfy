/** The status sequences a record can go through, as a language for each kind, and runs that spell each word. */
module Words {
  import opened Results
  import opened Lifecycle
  import opened Records
  import opened Repository
  import opened Service
  import opened Protocol
  import opened Invariant
  import opened Refinement
  import opened Lawful
  import opened Guarantees
  import opened Text

  // ---- The language ----

  /** An authorization: draft+ (review draft+)*, a certificate: draft+ */
  predicate IsRounds(kind: Kind, w: seq<Status>) {
    && w != [] && w[0] == Draft && Last(w) == Draft
    && (forall i :: 0 <= i < |w| ==> w[i] == Draft || (kind.Authorization? && w[i] == Review))
    && (forall i :: 0 < i < |w| ==> !(w[i - 1] == Review && w[i] == Review))
  }

  /**
   How a record ends. An authorization: nothing, an open review, or a review with one of its
   outcomes, each of which may be revoked. A certificate: nothing, or valid, from where it may
   expire or be revoked, or first one and then the other.
   */
  predicate IsEnding(kind: Kind, t: seq<Status>) {
    match kind
    case Authorization =>
      || t == [] || t == [Review]
      || t == [Review, Approved] || t == [Review, Restricted] || t == [Review, Approved, Restricted]
      || t == [Review, Approved, Revoked] || t == [Review, Restricted, Revoked]
      || t == [Review, Approved, Restricted, Revoked]
    case Certificate =>
      || t == [] || t == [Valid] || t == [Valid, Expired] || t == [Valid, Revoked] || t == [Valid, Expired, Revoked]
  }

  predicate SplitsAt(kind: Kind, w: seq<Status>, k: nat) {
    k <= |w| && IsRounds(kind, w[..k]) && IsEnding(kind, w[k..])
  }

  ghost predicate InLanguage(kind: Kind, w: seq<Status>) {
    exists k: nat :: SplitsAt(kind, w, k)
  }

  // ---- The language is what single steps allow ----

  predicate Follows(kind: Kind, a: Status, b: Status) {
    (a == Draft && b == Draft) || CanTransition(Graph(kind), a, b)
  }

  predicate IsPath(kind: Kind, w: seq<Status>) {
    w != [] && w[0] == Draft && forall n :: 0 < n < |w| ==> Follows(kind, w[n - 1], w[n])
  }

  lemma {:induction false} PathIsInLanguage(kind: Kind, w: seq<Status>)
    requires IsPath(kind, w)
    ensures InLanguage(kind, w)
  {
    var n := |w| - 1;
    if n == 0 {
      assert w[..1] == w && w[1..] == [];
      assert SplitsAt(kind, w, 1);
    } else {
      var u := w[..n];
      PathIsInLanguage(kind, u);
      var k: nat :| SplitsAt(kind, u, k);
      ExtendSplit(kind, u, k, w[n]);
      assert u + [w[n]] == w;
    }
  }

  /** A step that does not go back to draft prolongs the ending. */
  lemma EndingGrows(kind: Kind, t: seq<Status>, x: Status)
    requires IsEnding(kind, t) && x != Draft
    requires Follows(kind, if t == [] then Draft else Last(t), x)
    ensures IsEnding(kind, t + [x])
  {
  }

  /** A step back to draft, or staying there, makes it one more round. */
  lemma RoundsGrow(kind: Kind, rounds: seq<Status>, t: seq<Status>)
    requires IsRounds(kind, rounds) && IsEnding(kind, t)
    requires Follows(kind, if t == [] then Draft else Last(t), Draft)
    ensures IsRounds(kind, rounds + t + [Draft])
  {
    assert t == [] || t == [Review];
  }

  lemma ExtendSplit(kind: Kind, u: seq<Status>, k: nat, x: Status)
    requires u != [] && SplitsAt(kind, u, k) && Follows(kind, Last(u), x)
    ensures InLanguage(kind, u + [x])
  {
    hide IsRounds, IsEnding, Follows;
    var w := u + [x];
    var rounds, ending := u[..k], u[k..];
    assert u == rounds + ending;
    RoundsEndInDraft(kind, rounds);
    if x == Draft {
      RoundsGrow(kind, rounds, ending);
      EmptyEnding(kind);
      assert w[..|w|] == w && w[|w|..] == [];
      assert SplitsAt(kind, w, |w|);
    } else {
      EndingGrows(kind, ending, x);
      assert w[..k] == rounds && w[k..] == ending + [x];
      assert SplitsAt(kind, w, k);
    }
  }

  lemma RoundsEndInDraft(kind: Kind, rounds: seq<Status>)
    requires IsRounds(kind, rounds)
    ensures rounds != [] && Last(rounds) == Draft
  {
  }

  lemma EmptyEnding(kind: Kind)
    ensures IsEnding(kind, [])
  {
  }

  lemma EndingIsPath(kind: Kind, t: seq<Status>)
    requires IsEnding(kind, t)
    ensures t != [] ==> t[0] == if kind.Authorization? then Review else Valid
    ensures forall n :: 0 < n < |t| ==> Follows(kind, t[n - 1], t[n])
  {
  }

  lemma RoundsArePath(kind: Kind, w: seq<Status>)
    requires IsRounds(kind, w)
    ensures IsPath(kind, w)
  {
  }

  lemma LanguageIsPath(kind: Kind, w: seq<Status>)
    requires InLanguage(kind, w)
    ensures IsPath(kind, w)
  {
    hide IsEnding, IsRounds, Follows;
    var k: nat :| SplitsAt(kind, w, k);
    JoinIsPath(kind, w[..k], w[k..]);
    assert w == w[..k] + w[k..];
  }

  lemma JoinIsPath(kind: Kind, rounds: seq<Status>, ending: seq<Status>)
    requires IsRounds(kind, rounds) && IsEnding(kind, ending)
    ensures IsPath(kind, rounds + ending)
  {
    hide IsEnding;
    RoundsArePath(kind, rounds);
    EndingIsPath(kind, ending);
    var w, k := rounds + ending, |rounds|;
    forall n | 0 < n < |w| ensures Follows(kind, w[n - 1], w[n]) {
      if n < k {
        assert Follows(kind, rounds[n - 1], rounds[n]);
      } else if n > k {
        assert Follows(kind, ending[n - k - 1], ending[n - k]);
      }
    }
  }

  function Statuses(h: seq<Revision>): (w: seq<Status>)
    ensures |w| == |h| && forall i :: 0 <= i < |h| ==> w[i] == h[i].status
  {
    seq(|h|, i requires 0 <= i < |h| => h[i].status)
  }

  /** Every run spells a word of its kind's language on every record the service created. */
  lemma RunsSpellWords(s: System, es: seq<Event>, key: Key)
    requires LawfulSystem(s) && ServedRun(s, es) && key in Run(s, es).db.rows
    requires HistoryAfter(s, es, key) != [] && HistoryAfter(s, es, key)[0].action == Created
    ensures InLanguage(key.kind, Statuses(HistoryAfter(s, es, key)))
  {
    hide Run, ServedRun, LawfulSystem, RecordValid, ControlLawful, Mirror, Trail, InLanguage;
    HistoryIsLawful(s, es, key);
    LawfulIsPath(key.kind, HistoryAfter(s, es, key));
    PathIsInLanguage(key.kind, Statuses(HistoryAfter(s, es, key)));
  }

  lemma LawfulIsPath(kind: Kind, h: seq<Revision>)
    requires LawfulHistory(h) && h[0].action == Created
    requires forall k :: 0 <= k < |h| ==> h[k].key.kind == kind
    ensures IsPath(kind, Statuses(h))
  {
    hide Separated;
    forall n | 0 < n < |h| ensures Follows(kind, h[n - 1].status, h[n].status) {
      assert LegalAt(h, n);
    }
  }

  // ---- Every word is spelled ----

  /** Two people: one drafts, submits and lets expire as operator, the other decides and publishes as reviewer. */
  datatype Cast = Cast(client: Client, operator: string, reviewer: string, fields: Fields, reason: string, now: int)

  /** The request that takes a record at version `v` from one status to the next. */
  function NextRequest(key: Key, v: nat, from: Status, to: Status, cast: Cast): Request {
    if from == Draft && to == Draft then UpdateRequest(key, v, cast.fields, cast.operator, "next", cast.now)
    else if to == Review || to == Expired
    then TransitionRequest(key, v, Name(to), cast.reason, cast.operator, "operator", "next", cast.now)
    else TransitionRequest(key, v, Name(to), cast.reason, cast.reviewer, "reviewer", "next", cast.now)
  }

  predicate IsCastEvent(e: Event, cast: Cast) {
    match e
    case Create(_, _, _, _, actor, _, _, fault) => actor == cast.operator && fault == NoFault
    case Begin(_, UpdateRequest(_, _, _, actor, _, _)) => actor == cast.operator
    case Begin(_, TransitionRequest(_, _, _, _, actor, role, _, _)) =>
      (actor == cast.operator && role == "operator") || (actor == cast.reviewer && role == "reviewer")
    case Commit(_, fault) => fault == NoFault
    case _ => false
  }

  lemma TrimName(s: Status)
    ensures Parse(Trim(Name(s))) == Some(s)
  {
    ParseName(s);
    assert Trim(Name(s)) == Name(s);
  }

  /** The columns name nobody but the operator for the work that is to be reviewed. */
  predicate WorkedOnBy(kind: Kind, c: Control, cast: Cast) {
    && KindMatches(kind, c)
    && match c
       case ReleaseControl(submittedBy, _, _) => submittedBy == "" || submittedBy == cast.operator
       case CertificateControl(preparedBy, _) => preparedBy == cast.operator
  }

  /** Where a run that has spelled `w` leaves the record: live, and worked on by nobody but the operator. */
  ghost predicate Spelled(t: System, key: Key, w: seq<Status>, cast: Cast) {
    && LawfulSystem(t)
    && Live(t.db, key)
    && Statuses(History(t.db.revisions, key)) == w && w != []
    && History(t.db.revisions, key)[0].action == Created
    && t.db.rows[key].version == |w|
    && t.db.rows[key].status == Last(w)
    && !IsBlank(t.db.rows[key].code)
    && WorkedOnBy(key.kind, t.db.rows[key].control, cast)
  }

  lemma Targets(kind: Kind, from: Status, to: Status)
    requires Follows(kind, from, to)
    ensures (from == Draft && to == Draft) || CanTransition(Graph(kind), from, to)
    ensures kind.Authorization? ==> to != Expired && to != Valid
    ensures kind.Certificate? ==> to != Review && (to == Draft ==> from == Draft)
  {
  }

  /** The next request of the cast passes every check. */
  lemma NextIsAccepted(row: Row, key: Key, to: Status, cast: Cast)
    requires WorkedOnBy(key.kind, row.control, cast) && Follows(key.kind, row.status, to) && !IsBlank(row.code)
    requires cast.operator != cast.reviewer && !MissingBusinessField(row.code, cast.fields)
    ensures var r := NextRequest(key, row.version, row.status, to, cast);
            && Prepare(row, r).Ok? && r.key == key && r.expected == row.version
            && var item := Prepare(row, r).value;
            && item.status == to && item.version == row.version + 1 && WorkedOnBy(key.kind, item.control, cast)
            && WriteOf(row, r, item).key == key && WriteOf(row, r, item).expected == row.version
            && WriteOf(row, r, item).item == item
  {
    hide Trim, Parse, IsBlank, Normalize, CanTransition, Name;
    TrimName(to);
    Targets(key.kind, row.status, to);
  }

  lemma AdvanceDb(t: System, key: Key, w: seq<Status>, to: Status, cast: Cast)
    requires Spelled(t, key, w, cast) && Follows(key.kind, Last(w), to)
    requires cast.operator != cast.reviewer && !MissingBusinessField(t.db.rows[key].code, cast.fields)
    ensures var r := NextRequest(key, |w|, Last(w), to, cast);
            var row := t.db.rows[key];
            && Prepare(row, r).Ok? && r.key == key && r.expected == row.version
            && UpdateVersion(t.db, WriteOf(row, r, Prepare(row, r).value), NoFault)
               == Committed(Written(t.db, WriteOf(row, r, Prepare(row, r).value)))
            && var next := WriteRevision(WriteOf(row, r, Prepare(row, r).value));
            && next.key == key && next.status == to
  {
    hide Prepare, WriteOf, DbValid, PendingServed, DbLawful, NextRequest, IsBlank;
    NextIsAccepted(t.db.rows[key], key, to, cast);
    var r := NextRequest(key, |w|, Last(w), to, cast);
    UpdateVersionOutcome(t.db, WriteOf(t.db.rows[key], r, Prepare(t.db.rows[key], r).value), NoFault);
  }

  /** The two events that append one more status. */
  function Advance(key: Key, w: seq<Status>, to: Status, cast: Cast): seq<Event>
    requires w != []
  {
    [Begin(cast.client, NextRequest(key, |w|, Last(w), to, cast)), Commit(cast.client, NoFault)]
  }

  /** Running the two events stores what the accepted request writes. */
  lemma AdvanceRuns(t: System, key: Key, w: seq<Status>, to: Status, cast: Cast)
    requires Spelled(t, key, w, cast) && Follows(key.kind, Last(w), to)
    requires cast.operator != cast.reviewer && !MissingBusinessField(t.db.rows[key].code, cast.fields)
    ensures ServedRun(t, Advance(key, w, to, cast))
    ensures var row := t.db.rows[key];
            var r := NextRequest(key, |w|, Last(w), to, cast);
            && Prepare(row, r).Ok?
            && var wr := WriteOf(row, r, Prepare(row, r).value);
            && wr.key in t.db.rows
            && Run(t, Advance(key, w, to, cast)).db == Written(t.db, wr)
  {
    hide Prepare, WriteOf, DbValid, LawfulSystem, NextRequest, IsBlank, UpdateVersion, OrderByVersion, History;
    var c := cast.client;
    var row := t.db.rows[key];
    AdvanceDb(t, key, w, to, cast);
    NextIsAccepted(row, key, to, cast);
    var begin, commit := Begin(c, NextRequest(key, |w|, Last(w), to, cast)), Commit(c, NoFault);
    RunAppend(t, [], begin);
    RunAppend(t, [begin], commit);
    assert [] + [begin] == [begin] && [begin] + [commit] == Advance(key, w, to, cast);
    assert [begin, commit][..1] == [begin] && [begin][..0] == [];
    assert ServedRun(t, [begin]);
  }

  lemma AdvanceSpells(t: System, key: Key, w: seq<Status>, to: Status, cast: Cast)
    requires Spelled(t, key, w, cast) && Follows(key.kind, Last(w), to)
    requires cast.operator != cast.reviewer && !MissingBusinessField(t.db.rows[key].code, cast.fields)
    ensures ServedRun(t, Advance(key, w, to, cast))
    ensures Spelled(Run(t, Advance(key, w, to, cast)), key, w + [to], cast)
    ensures Run(t, Advance(key, w, to, cast)).db.rows[key].code == t.db.rows[key].code
  {
    hide Prepare, WriteOf, LawfulSystem, NextRequest, IsBlank, UpdateVersion, Run, ServedRun, Advance, WriteAudit;
    AdvanceRuns(t, key, w, to, cast);
    RunIsLawful(t, Advance(key, w, to, cast));
    var row := t.db.rows[key];
    var r := NextRequest(key, |w|, Last(w), to, cast);
    AdvanceDb(t, key, w, to, cast);
    NextIsAccepted(row, key, to, cast);
    HistoryAppend(t.db.revisions, WriteRevision(WriteOf(row, r, Prepare(row, r).value)), key);
    assert Statuses(History(Run(t, Advance(key, w, to, cast)).db.revisions, key)) == w + [to];
  }

  /** The revision appended carries the name of whoever the cast sends. */
  lemma AdvanceNames(t: System, key: Key, w: seq<Status>, to: Status, cast: Cast)
    requires Spelled(t, key, w, cast) && Follows(key.kind, Last(w), to)
    requires cast.operator != cast.reviewer && !MissingBusinessField(t.db.rows[key].code, cast.fields)
    ensures exists r: Revision :: r.actor == NextRequest(key, |w|, Last(w), to, cast).actor &&
              History(Run(t, Advance(key, w, to, cast)).db.revisions, key) == History(t.db.revisions, key) + [r]
  {
    hide Prepare, LawfulSystem, NextRequest, IsBlank, UpdateVersion, Run, ServedRun, Advance, WriteAudit, Follows,
         History, MissingBusinessField, Trim;
    AdvanceRuns(t, key, w, to, cast);
    var row := t.db.rows[key];
    var r := NextRequest(key, |w|, Last(w), to, cast);
    NextIsAccepted(row, key, to, cast);
    var next := WriteRevision(WriteOf(row, r, Prepare(row, r).value));
    HistoryAppend(t.db.revisions, next, key);
    assert next.actor == r.actor;
  }

  lemma {:induction false} ServedConcat(s: System, es: seq<Event>, fs: seq<Event>)
    requires ServedRun(s, es) && ServedRun(Run(s, es), fs)
    ensures ServedRun(s, es + fs)
  {
    hide Step, Served;
    if fs == [] {
      assert es + fs == es;
    } else {
      var n := |fs| - 1;
      ServedConcat(s, es, fs[..n]);
      assert (es + fs)[..|es + fs| - 1] == es + fs[..n];
      RunConcat(s, es, fs[..n]);
    }
  }

  /** The event that creates the record in draft. */
  function Creation(key: Key, code: string, cast: Cast): Event {
    Create(cast.client, key, code, cast.fields, cast.operator, "first", cast.now, NoFault)
  }

  predicate CanCreate(s: System, key: Key, code: string, cast: Cast) {
    && key !in s.db.rows
    && !CodeExists(s.db, key.kind, CodeOf(code)) && !MissingBusinessField(code, cast.fields)
  }

  lemma CreateRuns(s: System, key: Key, code: string, cast: Cast)
    requires SystemValid(s) && CanCreate(s, key, code, cast)
    ensures var item := PrepareCreate(key.kind, code, cast.fields, cast.operator, cast.now);
            item.Ok? && Run(s, [Creation(key, code, cast)]).db
                        == Inserted(s.db, key, item.value, cast.operator, "first")
  {
    hide SystemValid, Inserted, CodeExists, MissingBusinessField, CodeOf, Normalize, RevisionExists;
    NewKeyIsFree(s, key);
    RunAppend(s, [], Creation(key, code, cast));
    assert [] + [Creation(key, code, cast)] == [Creation(key, code, cast)];
  }

  lemma CreateIsServed(s: System, key: Key, code: string, cast: Cast)
    ensures ServedRun(s, [Creation(key, code, cast)])
  {
    hide Step, Live;
    assert [Creation(key, code, cast)][..0] == [];
  }

  /** A record just inserted has its creation for a history. */
  lemma InsertedHistory(db: Db, key: Key, item: Row, actor: string)
    requires History(db.revisions, key) == []
    ensures History(Inserted(db, key, item, actor, "first").revisions, key)
         == [CreateRevision(key, item, actor, "first")]
  {
    hide CreateAudit;
    HistoryAppend(db.revisions, CreateRevision(key, item, actor, "first"), key);
  }

  lemma NewRecordSpells(t: System, db: Db, key: Key, item: Row, cast: Cast)
    requires LawfulSystem(t) && t.db == Inserted(db, key, item, cast.operator, "first")
    requires History(db.revisions, key) == []
    requires item.status == Draft && item.version == 1 && !item.deleted && !IsBlank(item.code)
    requires WorkedOnBy(key.kind, item.control, cast)
    ensures Spelled(t, key, [Draft], cast)
  {
    hide LawfulSystem, CreateAudit, IsBlank, History;
    InsertedHistory(db, key, item, cast.operator);
    assert Statuses(History(t.db.revisions, key)) == [Draft];
  }

  lemma CreateSpells(s: System, key: Key, code: string, cast: Cast)
    requires LawfulSystem(s) && CanCreate(s, key, code, cast)
    ensures var es := [Creation(key, code, cast)];
            && ServedRun(s, es) && Spelled(Run(s, es), key, [Draft], cast)
            && Run(s, es).db.rows[key].code == CodeOf(code)
  {
    hide LawfulSystem, Run, ServedRun, CodeExists, CodeOf, Normalize, CreateAudit, IsBlank, History, RevisionExists,
         Spelled, Creation;
    CreateIsServed(s, key, code, cast);
    RunIsLawful(s, [Creation(key, code, cast)]);
    LawfulIsValid(s);
    CreateRuns(s, key, code, cast);
    NewKeyIsFree(s, key);
    CodeStaysPresent(code);
    var item := PrepareCreate(key.kind, code, cast.fields, cast.operator, cast.now).value;
    NewRecordSpells(Run(s, [Creation(key, code, cast)]), s.db, key, item, cast);
  }

  lemma LawfulIsValid(s: System)
    requires LawfulSystem(s)
    ensures SystemValid(s)
  {
    hide SystemValid, PendingServed, DbLawful;
  }

  lemma NewKeyIsFree(s: System, key: Key)
    requires SystemValid(s) && key !in s.db.rows
    ensures History(s.db.revisions, key) == [] && forall v: nat :: !RevisionExists(s.db, key, v)
  {
    NoHistory(s.db.revisions, key);
  }

  lemma CodeStaysPresent(code: string)
    requires !IsBlank(code)
    ensures !IsBlank(CodeOf(code))
  {
    CodesAreTrimmed(UpperChar, code);
  }

  /**
   Two different people, of whom only the second needs to be a reviewer, can produce every word
   of the language of its kind on a fresh record, from any lawful system.
   */
  lemma {:induction false} EveryWordIsSpelled(s: System, key: Key, code: string, w: seq<Status>, cast: Cast)
    returns (es: seq<Event>)
    requires LawfulSystem(s) && CanCreate(s, key, code, cast) && cast.operator != cast.reviewer
    requires InLanguage(key.kind, w)
    ensures ServedRun(s, es) && forall i :: 0 <= i < |es| ==> IsCastEvent(es[i], cast)
    ensures Live(Run(s, es).db, key) && Statuses(HistoryAfter(s, es, key)) == w
  {
    hide LawfulSystem, CanCreate, Run, ServedRun, Spelled;
    LanguageIsPath(key.kind, w);
    es := SpellPath(s, key, code, w, cast);
    SpelledIsHistory(Run(s, es), key, w, cast);
  }

  lemma EventsOfTheCast(key: Key, code: string, w: seq<Status>, to: Status, cast: Cast)
    ensures IsCastEvent(Creation(key, code, cast), cast)
    ensures w != [] ==> forall i :: 0 <= i < |Advance(key, w, to, cast)|
                                    ==> IsCastEvent(Advance(key, w, to, cast)[i], cast)
  {
  }

  lemma SpelledIsHistory(t: System, key: Key, w: seq<Status>, cast: Cast)
    requires Spelled(t, key, w, cast)
    ensures Live(t.db, key) && Statuses(History(t.db.revisions, key)) == w
  {
  }

  lemma {:induction false} SpellPath(s: System, key: Key, code: string, w: seq<Status>, cast: Cast)
    returns (es: seq<Event>)
    requires LawfulSystem(s) && CanCreate(s, key, code, cast) && cast.operator != cast.reviewer
    requires IsPath(key.kind, w)
    ensures ServedRun(s, es) && forall i :: 0 <= i < |es| ==> IsCastEvent(es[i], cast)
    ensures Spelled(Run(s, es), key, w, cast)
    ensures key in Run(s, es).db.rows && Run(s, es).db.rows[key].code == CodeOf(code)
  {
    hide LawfulSystem, CodeExists, Run, ServedRun, CodeOf, IsBlank, Follows, Creation, Advance;
    var n := |w| - 1;
    EventsOfTheCast(key, code, w[..n], w[n], cast);
    if n == 0 {
      es := [Creation(key, code, cast)];
      CreateSpells(s, key, code, cast);
      assert w == [Draft];
    } else {
      var u := w[..n];
      var fs := SpellPath(s, key, code, u, cast);
      var t := Run(s, fs);
      CodeStaysPresent(code);
      assert Follows(key.kind, w[n - 1], w[n]);
      AdvanceSpells(t, key, u, w[n], cast);
      es := fs + Advance(key, u, w[n], cast);
      ServedConcat(s, fs, Advance(key, u, w[n], cast));
      RunConcat(s, fs, Advance(key, u, w[n], cast));
      assert u + [w[n]] == w;
    }
  }
}
