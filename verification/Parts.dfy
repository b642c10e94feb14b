/**
 Aircraft parts: the same conditional update, but with the audit row written afterwards and
 outside any transaction. What that costs is stated as a conservation law over every run.
 */
module Parts {
  import opened Results
  import opened Lifecycle
  import opened Records
  import opened Service
  import opened Rules
  import opened Text

  datatype PartState = Received | Inspection | Hold | Released | Retired

  const AIRCRAFT_PART_TRANSITIONS: map<PartState, set<PartState>> :=
    map[Received := {Inspection, Hold}, Inspection := {Hold, Released, Received},
        Hold := {Released, Retired, Inspection}, Released := {Retired, Hold}, Retired := {Released}]

  datatype Part = Part(code: string, status: PartState, version: nat, fields: Fields, deleted: bool)

  datatype PartAudit = PartAudit(
    id: nat, action: Action, actor: string, before: Option<PartState>, after: Option<PartState>)

  datatype PartRequest =
    | Edit(id: nat, expected: nat, fields: Fields, actor: string)
    | Move(id: nat, expected: nat, target: Option<PartState>, actor: string)

  /** The local state of a request between two of its statements. */
  datatype PartPending =
    | Edited(base: Part, request: PartRequest, item: Part)
    | Unaudited(audit: PartAudit)
    | Answered(error: Option<Error>)

  /** `lost` records, for the law below only, the id of every write whose audit row never came. */
  datatype PartSystem = PartSystem(
    parts: map<nat, Part>, audits: seq<PartAudit>, inflight: map<nat, PartPending>, lost: seq<nat>)

  datatype PartEvent =
    | NewPart(client: nat, id: nat, code: string, fields: Fields, actor: string, fails: bool)
    | Fetch(client: nat, request: PartRequest)
    | Store(client: nat, fails: bool)
    | WriteAudit(client: nat, fails: bool)
    | Remove(client: nat, id: nat, actor: string, fails: bool)

  predicate LivePart(s: PartSystem, id: nat) {
    id in s.parts && !s.parts[id].deleted
  }

  function PrepareEdit(base: Part, r: PartRequest): Result<Part>
    requires r.Edit?
  {
    if MissingBusinessField(base.code, r.fields) then Err(InvalidInput)
    else Ok(base.(fields := Normalize(r.fields), version := r.expected + 1))
  }

  function PrepareMove(base: Part, r: PartRequest): Result<Part>
    requires r.Move?
  {
    if r.target.None? || !CanTransition(AIRCRAFT_PART_TRANSITIONS, base.status, r.target.value)
    then Err(InvalidTransition)
    else Ok(base.(status := r.target.value, version := r.expected + 1))
  }

  function PreparePart(base: Part, r: PartRequest): Result<Part> {
    if r.Edit? then PrepareEdit(base, r) else PrepareMove(base, r)
  }

  function AuditOfRequest(base: Part, r: PartRequest, item: Part): PartAudit {
    PartAudit(r.id, if r.Edit? then Updated else Transitioned, r.actor, Some(base.status), Some(item.status))
  }

  predicate Counted(a: PartAudit, id: nat) {
    a.id == id && a.action != Deleted
  }

  /** Move a client on; a write it had not audited yet is lost with it. */
  function Answer(s: PartSystem, c: nat, p: PartPending): PartSystem {
    s.(inflight := s.inflight[c := p],
       lost := if c in s.inflight && s.inflight[c].Unaudited? && s.inflight[c].audit.action != Deleted
               then s.lost + [s.inflight[c].audit.id] else s.lost)
  }

  function StepStore(s: PartSystem, c: nat, fails: bool): PartSystem {
    if c !in s.inflight || !s.inflight[c].Edited? then s
    else
      var p := s.inflight[c];
      if fails then Answer(s, c, Answered(Some(StatementFailed)))
      else if !LivePart(s, p.request.id) || s.parts[p.request.id].version != p.request.expected
      then Answer(s, c, Answered(Some(VersionConflict)))
      else
        var stored := s.parts[p.request.id];
        var item := p.item.(code := stored.code, deleted := stored.deleted);
        Answer(s.(parts := s.parts[p.request.id := item]), c, Unaudited(AuditOfRequest(p.base, p.request, p.item)))
  }

  /** Only a failing audit of a transition or of a delete is reported. */
  function AuditError(a: PartAudit): Option<Error> {
    if a.action == Transitioned || a.action == Deleted then Some(StatementFailed) else None
  }

  function StepAudit(s: PartSystem, c: nat, fails: bool): PartSystem {
    if c !in s.inflight || !s.inflight[c].Unaudited? then s
    else
      var a := s.inflight[c].audit;
      if fails then Answer(s, c, Answered(AuditError(a)))
      else s.(audits := s.audits + [a], inflight := s.inflight[c := Answered(None)])
  }

  function PartStep(s: PartSystem, e: PartEvent): PartSystem {
    match e
    case NewPart(c, id, code, fields, actor, fails) =>
      if MissingBusinessField(code, fields) then Answer(s, c, Answered(Some(InvalidInput)))
      else if fails then Answer(s, c, Answered(Some(StatementFailed)))
      else if id in s.parts || (exists k :: k in s.parts && s.parts[k].code == CodeOf(code))
      then Answer(s, c, Answered(Some(Duplicate)))
      else
        Answer(s.(parts := s.parts[id := Part(CodeOf(code), Received, 1, Normalize(fields), false)]),
               c, Unaudited(PartAudit(id, Created, actor, None, Some(Received))))
    case Fetch(c, r) =>
      if !LivePart(s, r.id) then Answer(s, c, Answered(Some(NotFound)))
      else
        (match PreparePart(s.parts[r.id], r)
         case Err(error) => Answer(s, c, Answered(Some(error)))
         case Ok(item) => Answer(s, c, Edited(s.parts[r.id], r, item)))
    case Store(c, fails) => StepStore(s, c, fails)
    case WriteAudit(c, fails) => StepAudit(s, c, fails)
    case Remove(c, id, actor, fails) =>
      if !LivePart(s, id) then Answer(s, c, Answered(Some(NotFound)))
      else if fails then Answer(s, c, Answered(Some(StatementFailed)))
      else
        Answer(s.(parts := s.parts[id := s.parts[id].(deleted := true)]),
               c, Unaudited(PartAudit(id, Deleted, actor, Some(s.parts[id].status), None)))
  }

  function PartRun(s: PartSystem, es: seq<PartEvent>): PartSystem {
    if es == [] then s else PartStep(PartRun(s, es[..|es| - 1]), es[|es| - 1])
  }

  // ---- What each step answers and stores ----

  /** The moves of a part. */
  predicate PartMove(from: PartState, to: PartState) {
    || (from == Received && (to == Inspection || to == Hold))
    || (from == Inspection && (to == Hold || to == Released || to == Received))
    || (from == Hold && (to == Released || to == Retired || to == Inspection))
    || (from == Released && (to == Retired || to == Hold))
    || (from == Retired && to == Released)
  }

  /** What an accepted request makes of its copy: an edit the fields, a move the status. */
  ghost predicate PartEdited(base: Part, r: PartRequest, item: Part) {
    && item.version == r.expected + 1 && item.code == base.code && item.deleted == base.deleted
    && match r
       case Edit(_, _, fields, _) => item.status == base.status && FieldsFit(item.fields, fields)
       case Move(_, _, target, _) => target == Some(item.status) && item.fields == base.fields
  }

  /** The first step: no table changes, and the copy is accepted exactly if it is complete, or the move allowed. */
  lemma FetchAnswer(s: PartSystem, c: nat, r: PartRequest)
    ensures var t := PartStep(s, Fetch(c, r));
            var found := r.id in s.parts && !s.parts[r.id].deleted;
            && t.parts == s.parts && t.audits == s.audits && c in t.inflight
            && (!found ==> t.inflight[c] == Answered(Some(NotFound)))
            && (found ==>
                  var base := s.parts[r.id];
                  var accepted := match r
                                  case Edit(_, _, fields, _) => !IsIncomplete(base.code, fields)
                                  case Move(_, _, target, _) => target.Some? && PartMove(base.status, target.value);
                  if accepted
                  then
                    && t.inflight[c].Edited? && t.inflight[c].base == base && t.inflight[c].request == r
                    && PartEdited(base, r, t.inflight[c].item)
                  else t.inflight[c] == Answered(Some(if r.Edit? then InvalidInput else InvalidTransition)))
  {
    hide MissingBusinessField, IsIncomplete, FieldsFit, Normalize;
    if r.id in s.parts && r.Edit? {
      MissingExactlyWhen(s.parts[r.id].code, r.fields);
      NormalizedExactlyWhen(Normalize(r.fields), r.fields);
    }
  }

  /**
   The second step stores the copy exactly if the part is there at the version the caller sent and
   the statement goes through, and owes one audit row: of the caller, from the copied status to the
   stored one.
   */
  lemma StoreAnswer(s: PartSystem, c: nat, fails: bool)
    requires c in s.inflight && s.inflight[c].Edited?
    ensures var p, t := s.inflight[c], PartStep(s, Store(c, fails));
            var r := p.request;
            var matches := r.id in s.parts && !s.parts[r.id].deleted && s.parts[r.id].version == r.expected;
            && t.audits == s.audits && c in t.inflight
            && (if matches && !fails
                then
                  && t.parts == s.parts[r.id := p.item.(code := s.parts[r.id].code, deleted := false)]
                  && t.inflight[c] == Unaudited(PartAudit(r.id, if r.Edit? then Updated else Transitioned, r.actor,
                                                          Some(p.base.status), Some(t.parts[r.id].status)))
                else
                  && t.parts == s.parts
                  && t.inflight[c] == Answered(Some(if fails then StatementFailed else VersionConflict)))
  {
  }

  /** The audit step appends what is owed; if it fails, only a transition or a delete is told. */
  lemma AuditAnswer(s: PartSystem, c: nat, fails: bool)
    requires c in s.inflight && s.inflight[c].Unaudited?
    ensures var a, t := s.inflight[c].audit, PartStep(s, WriteAudit(c, fails));
            && t.parts == s.parts && c in t.inflight
            && t.audits == (if fails then s.audits else s.audits + [a])
            && t.inflight[c] == Answered(if fails && (a.action == Transitioned || a.action == Deleted)
                                         then Some(StatementFailed) else None)
  {
  }

  /** A new part is received at version 1, exactly if its fields hold text and its code and id are free. */
  lemma NewPartAnswer(s: PartSystem, e: PartEvent)
    requires e.NewPart?
    ensures var t := PartStep(s, e);
            var taken := e.id in s.parts || exists k :: k in s.parts && IsCodeOf(s.parts[k].code, e.code);
            && t.audits == s.audits && e.client in t.inflight
            && (if IsIncomplete(e.code, e.fields) || e.fails || taken
                then
                  && t.parts == s.parts
                  && t.inflight[e.client] == Answered(Some(if IsIncomplete(e.code, e.fields) then InvalidInput
                                                           else if e.fails then StatementFailed else Duplicate))
                else
                  && e.id in t.parts && t.parts == s.parts[e.id := t.parts[e.id]]
                  && IsCodeOf(t.parts[e.id].code, e.code) && FieldsFit(t.parts[e.id].fields, e.fields)
                  && t.parts[e.id].status == Received && t.parts[e.id].version == 1 && !t.parts[e.id].deleted
                  && t.inflight[e.client] == Unaudited(PartAudit(e.id, Created, e.actor, None, Some(Received))))
  {
    hide MissingBusinessField, IsIncomplete, FieldsFit, Normalize, CodeOf, IsCodeOf;
    MissingExactlyWhen(e.code, e.fields);
    NormalizedExactlyWhen(Normalize(e.fields), e.fields);
    CodeIsStrippedAndUpper(e.code);
    forall k | k in s.parts && IsCodeOf(s.parts[k].code, e.code) ensures s.parts[k].code == CodeOf(e.code) {
      CodeIsUnique(s.parts[k].code, e.code);
    }
  }

  /** A delete marks the part, whatever its status, and owes an audit row from that status. */
  lemma RemoveAnswer(s: PartSystem, e: PartEvent)
    requires e.Remove?
    ensures var t := PartStep(s, e);
            var found := e.id in s.parts && !s.parts[e.id].deleted;
            && t.audits == s.audits && e.client in t.inflight
            && (if found && !e.fails
                then
                  && t.parts == s.parts[e.id := s.parts[e.id].(deleted := true)]
                  && t.inflight[e.client]
                     == Unaudited(PartAudit(e.id, Deleted, e.actor, Some(s.parts[e.id].status), None))
                else
                  && t.parts == s.parts
                  && t.inflight[e.client] == Answered(Some(if found then StatementFailed else NotFound)))
  {
  }

  // ---- The conservation law ----

  function Recorded(audits: seq<PartAudit>, id: nat): nat {
    if audits == [] then 0
    else Recorded(audits[..|audits| - 1], id) + if Counted(audits[|audits| - 1], id) then 1 else 0
  }

  function Lost(lost: seq<nat>, id: nat): nat {
    if lost == [] then 0
    else Lost(lost[..|lost| - 1], id) + if lost[|lost| - 1] == id then 1 else 0
  }

  predicate Awaits(p: PartPending, id: nat) {
    p.Unaudited? && Counted(p.audit, id)
  }

  /** The clients that have stored a version of the part and not yet written its audit row. */
  function Awaiting(inflight: map<nat, PartPending>, id: nat): set<nat> {
    set c | c in inflight && Awaits(inflight[c], id)
  }

  function VersionOf(parts: map<nat, Part>, id: nat): nat {
    if id in parts then parts[id].version else 0
  }

  /** The versions of a part that are neither audited, nor lost to the audit, nor still to be audited. */
  function Unexplained(s: PartSystem, id: nat): int {
    VersionOf(s.parts, id) - Recorded(s.audits, id) - Lost(s.lost, id) - |Awaiting(s.inflight, id)|
  }

  predicate EditFits(p: PartPending) {
    p.Edited? ==> p.item.version == p.request.expected + 1
  }

  /** Each copy in flight carries the version its request asks for. */
  predicate EditsFit(s: PartSystem) {
    forall c :: c in s.inflight ==> EditFits(s.inflight[c])
  }

  ghost predicate Conserves(s: PartSystem, s': PartSystem) {
    EditsFit(s') && forall id: nat :: Unexplained(s', id) == Unexplained(s, id)
  }

  lemma RecordedAppend(audits: seq<PartAudit>, a: PartAudit, id: nat)
    ensures Recorded(audits + [a], id) == Recorded(audits, id) + if Counted(a, id) then 1 else 0
  {
    assert (audits + [a])[..|audits|] == audits;
  }

  lemma LostAppend(lost: seq<nat>, x: nat, id: nat)
    ensures Lost(lost + [x], id) == Lost(lost, id) + if x == id then 1 else 0
  {
    assert (lost + [x])[..|lost|] == lost;
  }

  /** Moving one client on changes the number of awaited audits by that client's share. */
  lemma AwaitingUpdate(inflight: map<nat, PartPending>, c: nat, p: PartPending, id: nat)
    ensures |Awaiting(inflight[c := p], id)|
         == |Awaiting(inflight, id)|
            - (if c in inflight && Awaits(inflight[c], id) then 1 else 0) + (if Awaits(p, id) then 1 else 0)
  {
    var others := Awaiting(inflight, id) - {c};
    assert Awaiting(inflight, id) == if c in inflight && Awaits(inflight[c], id) then others + {c} else others;
    assert Awaiting(inflight[c := p], id) == if Awaits(p, id) then others + {c} else others;
  }

  /** A client that moves on to `p` adds the audit `p` awaits; what it drops itself counts as lost. */
  lemma AnswerBalance(s: PartSystem, c: nat, p: PartPending, id: nat)
    ensures var s' := Answer(s, c, p);
            Lost(s'.lost, id) + |Awaiting(s'.inflight, id)|
            == Lost(s.lost, id) + |Awaiting(s.inflight, id)| + if Awaits(p, id) then 1 else 0
  {
    AwaitingUpdate(s.inflight, c, p, id);
    if c in s.inflight && s.inflight[c].Unaudited? {
      LostAppend(s.lost, s.inflight[c].audit.id, id);
    }
  }

  /** A step that raises exactly the versions it leaves to be audited keeps the law. */
  lemma AnswerConserves(s: PartSystem, parts': map<nat, Part>, c: nat, p: PartPending)
    requires EditsFit(s) && EditFits(p)
    requires forall id: nat :: VersionOf(parts', id) == VersionOf(s.parts, id) + if Awaits(p, id) then 1 else 0
    ensures Conserves(s, Answer(s.(parts := parts'), c, p))
  {
    hide Lost, Recorded, Awaiting, Awaits, VersionOf;
    var t := s.(parts := parts');
    var s' := Answer(t, c, p);
    forall id: nat ensures Unexplained(s', id) == Unexplained(s, id) {
      AnswerBalance(t, c, p, id);
    }
  }

  lemma StoreConserves(s: PartSystem, c: nat, fails: bool)
    requires EditsFit(s)
    ensures Conserves(s, StepStore(s, c, fails))
  {
    hide Unexplained, Answer;
    if c in s.inflight && s.inflight[c].Edited? {
      var p := s.inflight[c];
      if fails {
        AnswerConserves(s, s.parts, c, Answered(Some(StatementFailed)));
      } else if !LivePart(s, p.request.id) || s.parts[p.request.id].version != p.request.expected {
        AnswerConserves(s, s.parts, c, Answered(Some(VersionConflict)));
      } else {
        var stored := s.parts[p.request.id];
        var parts' := s.parts[p.request.id := p.item.(code := stored.code, deleted := stored.deleted)];
        AnswerConserves(s, parts', c, Unaudited(AuditOfRequest(p.base, p.request, p.item)));
      }
    }
  }

  lemma AuditConserves(s: PartSystem, c: nat, fails: bool)
    requires EditsFit(s)
    ensures Conserves(s, StepAudit(s, c, fails))
  {
    hide Lost, Recorded, Awaiting, VersionOf;
    if c in s.inflight && s.inflight[c].Unaudited? {
      var a := s.inflight[c].audit;
      if fails {
        AnswerConserves(s, s.parts, c, Answered(AuditError(a)));
      } else {
        forall id: nat ensures Unexplained(StepAudit(s, c, fails), id) == Unexplained(s, id) {
          RecordedAppend(s.audits, a, id);
          AwaitingUpdate(s.inflight, c, Answered(None), id);
        }
      }
    }
  }

  lemma OtherStepsConserve(s: PartSystem, e: PartEvent)
    requires EditsFit(s) && !e.Store? && !e.WriteAudit?
    ensures Conserves(s, PartStep(s, e))
  {
    hide EditsFit, Conserves, Answer, Normalize, CodeOf, MissingBusinessField;
    match e
    case NewPart(c, id, code, fields, actor, fails) =>
      if MissingBusinessField(code, fields) {
        AnswerConserves(s, s.parts, c, Answered(Some(InvalidInput)));
      } else if fails {
        AnswerConserves(s, s.parts, c, Answered(Some(StatementFailed)));
      } else if id in s.parts || exists k :: k in s.parts && s.parts[k].code == CodeOf(code) {
        AnswerConserves(s, s.parts, c, Answered(Some(Duplicate)));
      } else {
        AnswerConserves(s, s.parts[id := Part(CodeOf(code), Received, 1, Normalize(fields), false)], c,
                        Unaudited(PartAudit(id, Created, actor, None, Some(Received))));
      }
    case Fetch(c, r) =>
      if !LivePart(s, r.id) {
        AnswerConserves(s, s.parts, c, Answered(Some(NotFound)));
      } else {
        match PreparePart(s.parts[r.id], r)
        case Err(error) => AnswerConserves(s, s.parts, c, Answered(Some(error)));
        case Ok(item) => AnswerConserves(s, s.parts, c, Edited(s.parts[r.id], r, item));
      }
    case Remove(c, id, actor, fails) =>
      if !LivePart(s, id) {
        AnswerConserves(s, s.parts, c, Answered(Some(NotFound)));
      } else if fails {
        AnswerConserves(s, s.parts, c, Answered(Some(StatementFailed)));
      } else {
        AnswerConserves(s, s.parts[id := s.parts[id].(deleted := true)], c,
                        Unaudited(PartAudit(id, Deleted, actor, Some(s.parts[id].status), None)));
      }
  }

  lemma PartStepConserves(s: PartSystem, e: PartEvent)
    requires EditsFit(s)
    ensures Conserves(s, PartStep(s, e))
  {
    hide EditsFit, Conserves, StepStore, StepAudit;
    match e
    case Store(c, fails) => StoreConserves(s, c, fails);
    case WriteAudit(c, fails) => AuditConserves(s, c, fails);
    case _ => OtherStepsConserve(s, e);
  }

  /**
   Conservation, from any start and in every run: each version a run adds to a part is one audit
   row, one lost audit or one audit still to be written.
   */
  lemma {:induction false} VersionsAreAuditedLostOrPending(s: PartSystem, es: seq<PartEvent>)
    requires EditsFit(s)
    ensures EditsFit(PartRun(s, es))
    ensures forall id: nat :: Unexplained(PartRun(s, es), id) == Unexplained(s, id)
  {
    hide PartStep, Unexplained, EditsFit;
    if es != [] {
      var n := |es| - 1;
      VersionsAreAuditedLostOrPending(s, es[..n]);
      PartStepConserves(PartRun(s, es[..n]), es[n]);
    }
  }

  /** Start-up stores the demonstration parts, if the table is empty, without an audit row. */
  function StartUp(seeds: map<nat, Part>): PartSystem {
    PartSystem(seeds, [], map[], [])
  }

  /** At start-up, only the seeded versions are unexplained. */
  lemma SeedsAreUnexplained(seeds: map<nat, Part>, id: nat)
    ensures EditsFit(StartUp(seeds)) && Unexplained(StartUp(seeds), id) == VersionOf(seeds, id)
  {
    assert Awaiting(map[], id) == {};
  }

  /**
   After start-up, in every run, the version of a part is its seeded version, its audit rows, its
   lost audits and its pending ones; so no audit row is ever in excess, and none is missing exactly
   when no audit was lost and none is pending.
   */
  lemma VersionsFromStartUp(seeds: map<nat, Part>, es: seq<PartEvent>, id: nat)
    ensures var t := PartRun(StartUp(seeds), es);
            var written := VersionOf(t.parts, id) - VersionOf(seeds, id);
            && written == Recorded(t.audits, id) + Lost(t.lost, id) + |Awaiting(t.inflight, id)|
            && Recorded(t.audits, id) <= written
            && (Recorded(t.audits, id) == written
                <==> Lost(t.lost, id) == 0 && forall c :: c in t.inflight ==> !Awaits(t.inflight[c], id))
  {
    hide PartRun, EditsFit, StartUp, VersionOf, Awaits, Recorded, Lost;
    SeedsAreUnexplained(seeds, id);
    VersionsAreAuditedLostOrPending(StartUp(seeds), es);
    var t := PartRun(StartUp(seeds), es);
    if Awaiting(t.inflight, id) != {} {
      var c :| c in Awaiting(t.inflight, id);
      assert c in t.inflight && Awaits(t.inflight[c], id);
      assert |Awaiting(t.inflight, id)| > 0;
    } else {
      forall c | c in t.inflight ensures !Awaits(t.inflight[c], id) {
        assert c !in Awaiting(t.inflight, id);
      }
    }
  }

  /** One transition with nothing in between its three statements. */
  function TransitionSteps(s: PartSystem, c: nat, r: PartRequest, storeFails: bool, auditFails: bool): PartSystem {
    PartStep(PartStep(PartStep(s, Fetch(c, r)), Store(c, storeFails)), WriteAudit(c, auditFails))
  }

  lemma TransitionConserves(s: PartSystem, c: nat, r: PartRequest, storeFails: bool, auditFails: bool)
    requires EditsFit(s)
    ensures Conserves(s, TransitionSteps(s, c, r, storeFails, auditFails))
  {
    hide PartStep, EditsFit, Unexplained;
    PartStepConserves(s, Fetch(c, r));
    PartStepConserves(PartStep(s, Fetch(c, r)), Store(c, storeFails));
    PartStepConserves(PartStep(PartStep(s, Fetch(c, r)), Store(c, storeFails)), WriteAudit(c, auditFails));
  }

  /**
   A failing audit is reported although the new row is stored; only then do the stored row and the
   answer disagree.
   */
  lemma TransitionOutcome(s: PartSystem, c: nat, r: PartRequest, storeFails: bool, auditFails: bool)
    requires r.Move?
    ensures var t := TransitionSteps(s, c, r, storeFails, auditFails);
            c in t.inflight && t.inflight[c].Answered? &&
            var error := t.inflight[c].error;
            var changed := r.id in s.parts && r.id in t.parts && t.parts[r.id] != s.parts[r.id];
            && (error == None ==> changed && |t.audits| == |s.audits| + 1)
            && (changed ==> t.parts[r.id].version == r.expected + 1 && r.target == Some(t.parts[r.id].status)
                            && (error == None <==> !auditFails))
            && (changed && error.Some? ==> error == Some(StatementFailed) && t.audits == s.audits)
  {
    hide MissingBusinessField, Normalize, CodeOf, CanTransition;
    var fetched := PartStep(s, Fetch(c, r));
    assert fetched.parts == s.parts && fetched.audits == s.audits;
    if LivePart(s, r.id) && PreparePart(s.parts[r.id], r).Ok? {
      assert fetched.inflight[c] == Edited(s.parts[r.id], r, PreparePart(s.parts[r.id], r).value);
    } else {
      assert fetched.inflight[c].Answered? && fetched.inflight[c].error.Some?;
    }
  }

  // ---- The running service ----

  class PartServer {
    var parts: map<nat, Part>
    var audits: seq<PartAudit>
    var inflight: map<nat, PartPending>
    ghost var lost: seq<nat>

    ghost function State(): PartSystem
      reads this
    {
      PartSystem(parts, audits, inflight, lost)
    }

    constructor (seeds: map<nat, Part>)
      ensures State() == StartUp(seeds)
    {
      parts, audits, inflight, lost := seeds, [], map[], [];
    }

    /** A client's local state moves on; a write it had not audited is lost. */
    method MoveOn(c: nat, p: PartPending)
      modifies this`inflight, this`lost
      ensures State() == Answer(old(State()), c, p)
    {
      if c in inflight && inflight[c].Unaudited? && inflight[c].audit.action != Deleted {
        lost := lost + [inflight[c].audit.id];
      }
      inflight := inflight[c := p];
    }

    method FetchAndEdit(c: nat, r: PartRequest)
      modifies this`inflight, this`lost
      ensures State() == PartStep(old(State()), Fetch(c, r))
    {
      hide Trim, IsBlank, Answer;
      if r.id !in parts || parts[r.id].deleted {
        MoveOn(c, Answered(Some(NotFound)));
        return;
      }
      var base := parts[r.id];
      var current := base;
      if r.Edit? {
        if MissingBusinessField(current.code, r.fields) {
          MoveOn(c, Answered(Some(InvalidInput)));
          return;
        }
        current := current.(fields := Normalize(r.fields));
      } else {
        if r.target.None? || !CanTransition(AIRCRAFT_PART_TRANSITIONS, current.status, r.target.value) {
          MoveOn(c, Answered(Some(InvalidTransition)));
          return;
        }
        current := current.(status := r.target.value);
      }
      current := current.(version := r.expected + 1);
      MoveOn(c, Edited(base, r, current));
    }

    method StoreRow(c: nat, fails: bool)
      modifies this`parts, this`inflight, this`lost
      ensures State() == PartStep(old(State()), Store(c, fails))
    {
      hide Answer;
      if c in inflight && inflight[c].Edited? {
        var p := inflight[c];
        var id := p.request.id;
        if fails {
          MoveOn(c, Answered(Some(StatementFailed)));
        } else if id !in parts || parts[id].deleted || parts[id].version != p.request.expected {
          MoveOn(c, Answered(Some(VersionConflict)));
        } else {
          var stored := parts[id];
          parts := parts[id := p.item.(code := stored.code, deleted := stored.deleted)];
          MoveOn(c, Unaudited(AuditOfRequest(p.base, p.request, p.item)));
        }
      }
    }

    method AppendAudit(c: nat, fails: bool)
      modifies this`audits, this`inflight, this`lost
      ensures State() == PartStep(old(State()), WriteAudit(c, fails))
    {
      if c in inflight && inflight[c].Unaudited? {
        var a := inflight[c].audit;
        if fails {
          MoveOn(c, Answered(AuditError(a)));
        } else {
          audits := audits + [a];
          inflight := inflight[c := Answered(None)];
        }
      }
    }

    /** One transition with nothing in between its statements, and what its answer says. */
    method Transition(c: nat, id: nat, expected: nat, target: Option<PartState>, actor: string,
                      storeFails: bool, auditFails: bool) returns (error: Option<Error>)
      modifies this
      ensures State() == TransitionSteps(old(State()), c, Move(id, expected, target, actor), storeFails, auditFails)
      ensures EditsFit(old(State())) ==> Conserves(old(State()), State())
      ensures var changed := id in old(parts) && id in parts && parts[id] != old(parts)[id];
              && (error == None ==> changed && |audits| == |old(audits)| + 1)
              && (changed ==> parts[id].version == expected + 1 && target == Some(parts[id].status)
                              && (error == None <==> !auditFails))
              && (changed && error.Some? ==> error == Some(StatementFailed) && audits == old(audits))
    {
      hide PartStep, EditsFit, Conserves;
      ghost var r := Move(id, expected, target, actor);
      FetchAndEdit(c, Move(id, expected, target, actor));
      StoreRow(c, storeFails);
      AppendAudit(c, auditFails);
      TransitionOutcome(old(State()), c, r, storeFails, auditFails);
      if EditsFit(old(State())) {
        TransitionConserves(old(State()), c, r, storeFails, auditFails);
      }
      error := inflight[c].error;
    }
  }
}
