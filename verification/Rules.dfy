/**
 The rules of the services in plain terms: which edges, roles and names let a request through, the
 error in every other case, and each column of what is stored, without the tables and functions
 the services compute them by.
 */
module Rules {
  import opened Results
  import opened Lifecycle
  import opened Records
  import opened Service
  import opened Text

  // ---- Edges and roles ----

  /** The edges of an authorization: where it is, what the request says, where it goes. */
  predicate AuthorizationMove(from: Status, said: string, to: Status) {
    || (from == Draft && said == "review" && to == Review)
    || (from == Review && said == "approved" && to == Approved)
    || (from == Review && said == "restricted" && to == Restricted)
    || (from == Review && said == "draft" && to == Draft)
    || (from == Approved && said == "restricted" && to == Restricted)
    || (from == Approved && said == "revoked" && to == Revoked)
    || (from == Restricted && said == "revoked" && to == Revoked)
  }

  predicate CertificateMove(from: Status, said: string, to: Status) {
    || (from == Draft && said == "valid" && to == Valid)
    || (from == Valid && said == "expired" && to == Expired)
    || (from == Valid && said == "revoked" && to == Revoked)
    || (from == Expired && said == "revoked" && to == Revoked)
  }

  predicate Move(kind: Kind, from: Status, said: string, to: Status) {
    match kind
    case Authorization => AuthorizationMove(from, said, to)
    case Certificate => CertificateMove(from, said, to)
  }

  const OPERATORS: set<string> := {"operator", "reviewer", "admin"}
  const REVIEWERS: set<string> := {"reviewer", "admin"}

  /** All but sending for review and letting expire is for reviewers. */
  predicate MayMove(kind: Kind, to: Status, role: string) {
    && role in OPERATORS
    && (kind.Authorization? && to != Review ==> role in REVIEWERS)
    && (kind.Certificate? && to != Expired ==> role in REVIEWERS)
  }

  /** The reviewer's own work: a submission under a name, or any preparation. */
  predicate IsOwnWork(to: Status, c: Control, actor: string) {
    match c
    case ReleaseControl(submittedBy, _, _) => to != Review && submittedBy != "" && actor == submittedBy
    case CertificateControl(preparedBy, _) => to != Expired && actor == preparedBy
  }

  lemma StatusesAre(kind: Kind, from: Status, s: string)
    ensures Parse(s).Some? && CanTransition(Graph(kind), from, Parse(s).value)
            ==> Move(kind, from, s, Parse(s).value)
    ensures forall to :: Move(kind, from, s, to) ==>
              Parse(s) == Some(to) && CanTransition(Graph(kind), from, to)
  {
    assert "valid"[0] != "draft"[0];
    assert "revoked"[2] != "expired"[2];
  }

  lemma RolesAre(kind: Kind, from: Status, said: string, to: Status, role: string)
    requires Move(kind, from, said, to)
    ensures IsOperatorRole(role) <==> role in OPERATORS
    ensures IsReviewerRole(role) <==> role in REVIEWERS
    ensures kind.Authorization? ==> (IsDecision(to) <==> to != Review)
    ensures kind.Certificate? ==> (IsPublication(to) <==> to != Expired)
  {
  }

  /** What a transition stores: the new status, who acted, and nothing else but version and time. */
  ghost predicate TransitionStores(row: Row, r: Request, to: Status, item: Row)
    requires r.TransitionRequest?
  {
    && item.status == to && item.version == r.expected + 1 && item.updatedAt == r.now
    && item.code == row.code && item.fields == row.fields && item.deleted == row.deleted
    && match row.control
       case ReleaseControl(submittedBy, _, _) =>
         if to == Review then item.control == ReleaseControl(r.actor, "", "")
         else
           && item.control.ReleaseControl?
           && item.control.submittedBy == submittedBy && item.control.reviewedBy == r.actor
           && IsTrimOf(item.control.reviewReason, r.reason)
       case CertificateControl(preparedBy, verifiedBy) =>
         item.control == CertificateControl(preparedBy, if to == Expired then verifiedBy else r.actor)
  }

  /**
   A transition is accepted exactly along an edge of its kind, under a sufficient role, by another
   than the one whose work it reviews; otherwise the first of these that fails gives the error.
   */
  ghost predicate TransitionRuled(kind: Kind, row: Row, r: Request, said: string, out: Result<Row>)
    requires r.TransitionRequest?
  {
    && (out == Err(InvalidTransition) <==> forall to :: !Move(kind, row.status, said, to))
    && forall to :: Move(kind, row.status, said, to) ==>
         && (out == Err(Forbidden) <==> !MayMove(kind, to, r.role))
         && (out == Err(SeparationOfDuty) <==> MayMove(kind, to, r.role) && IsOwnWork(to, row.control, r.actor))
         && (out.Ok? <==> MayMove(kind, to, r.role) && !IsOwnWork(to, row.control, r.actor))
         && (out.Ok? ==> TransitionStores(row, r, to, out.value))
  }

  lemma MoveOutcome(kind: Kind, row: Row, r: Request, said: string)
    requires r.TransitionRequest? && KindMatches(kind, row.control) && IsTrimOf(said, r.target)
    ensures TransitionRuled(kind, row, r, said, Prepare(row, r))
  {
    hide Trim, Parse, IsTrimOf, Move, MayMove, IsOwnWork, CanTransition, TransitionStores, PrepareAuthorization,
         PrepareCertificate;
    TrimIsUnique(said, r.target);
    TrimStrips(r.reason);
    StatusesAre(kind, row.status, said);
    if to :| Move(kind, row.status, said, to) {
      RolesAre(kind, row.status, said, to, r.role);
      AlongEdge(kind, row, r, said, to);
    } else {
      NoEdge(kind, row, r, said);
    }
  }

  lemma AlongEdge(kind: Kind, row: Row, r: Request, said: string, to: Status)
    requires r.TransitionRequest? && KindMatches(kind, row.control) && Trim(r.target) == said
    requires Move(kind, row.status, said, to) && Parse(said) == Some(to) && CanTransition(Graph(kind), row.status, to)
    requires IsTrimOf(Trim(r.reason), r.reason)
    ensures var out := Prepare(row, r);
            && out != Err(InvalidTransition)
            && (out == Err(Forbidden) <==> !MayMove(kind, to, r.role))
            && (out == Err(SeparationOfDuty) <==> MayMove(kind, to, r.role) && IsOwnWork(to, row.control, r.actor))
            && (out.Ok? <==> MayMove(kind, to, r.role) && !IsOwnWork(to, row.control, r.actor))
            && (out.Ok? ==> TransitionStores(row, r, to, out.value))
  {
    hide Trim, Parse, IsTrimOf, Move, CanTransition, IsOperatorRole, IsReviewerRole, IsDecision, IsPublication;
    RolesAre(kind, row.status, said, to, r.role);
    assert "reviewer" in OPERATORS && "admin" in OPERATORS;
  }

  lemma NoEdge(kind: Kind, row: Row, r: Request, said: string)
    requires r.TransitionRequest? && KindMatches(kind, row.control) && Trim(r.target) == said
    requires Parse(said).None? || !CanTransition(Graph(kind), row.status, Parse(said).value)
    ensures Prepare(row, r) == Err(InvalidTransition)
  {
    hide Trim, Parse, CanTransition;
  }

  // ---- Fields ----

  /** Each column holds what was submitted for it: texts stripped, the related code canonical. */
  ghost predicate FieldsFit(stored: Fields, submitted: Fields) {
    && IsTrimOf(stored.name, submitted.name)
    && IsTrimOf(stored.description, submitted.description)
    && IsTrimOf(stored.facility, submitted.facility)
    && IsTrimOf(stored.owner, submitted.owner)
    && IsTrimOf(stored.category, submitted.category)
    && stored.riskLevel == submitted.riskLevel
    && stored.metricValue == submitted.metricValue
    && IsTrimOf(stored.metricUnit, submitted.metricUnit)
    && stored.effectiveAt == submitted.effectiveAt
    && IsTrimOf(stored.evidence, submitted.evidence)
    && IsCodeOf(stored.relatedCode, submitted.relatedCode)
  }

  /** Normalising is the only way to fit. */
  lemma NormalizedExactlyWhen(stored: Fields, submitted: Fields)
    ensures stored == Normalize(submitted) <==> FieldsFit(stored, submitted)
  {
    hide Trim, IsTrimOf, CodeWith;
    TrimStrips(submitted.name);
    TrimStrips(submitted.description);
    TrimStrips(submitted.facility);
    TrimStrips(submitted.owner);
    TrimStrips(submitted.category);
    TrimStrips(submitted.metricUnit);
    TrimStrips(submitted.evidence);
    CodeIsStrippedAndUpper(submitted.relatedCode);
    if FieldsFit(stored, submitted) {
      TrimIsUnique(stored.name, submitted.name);
      TrimIsUnique(stored.description, submitted.description);
      TrimIsUnique(stored.facility, submitted.facility);
      TrimIsUnique(stored.owner, submitted.owner);
      TrimIsUnique(stored.category, submitted.category);
      TrimIsUnique(stored.metricUnit, submitted.metricUnit);
      TrimIsUnique(stored.evidence, submitted.evidence);
      CodeIsUnique(stored.relatedCode, submitted.relatedCode);
    }
  }

  /** A mandatory field is missing: it is empty or white space. */
  predicate IsIncomplete(code: string, f: Fields) {
    AllSpace(code) || AllSpace(f.name) || AllSpace(f.facility) || AllSpace(f.owner)
  }

  lemma MissingExactlyWhen(code: string, f: Fields)
    ensures MissingBusinessField(code, f) <==> IsIncomplete(code, f)
  {
    hide IsBlank, AllSpace;
    BlankExactlyWhen(code);
    BlankExactlyWhen(f.name);
    BlankExactlyWhen(f.facility);
    BlankExactlyWhen(f.owner);
  }

  // ---- Draft edits and creates ----

  /** An edit changes the fields, version and time; on a certificate also who prepared and verified it. */
  ghost predicate UpdateStores(row: Row, r: Request, item: Row)
    requires r.UpdateRequest?
  {
    && FieldsFit(item.fields, r.fields)
    && item.status == row.status == Draft && item.version == r.expected + 1 && item.updatedAt == r.now
    && item.code == row.code && item.deleted == row.deleted
    && item.control == if row.control.ReleaseControl? then row.control else CertificateControl(r.actor, "")
  }

  /** An edit is refused exactly outside draft, or if it leaves a mandatory field without text. */
  ghost predicate UpdateRuled(row: Row, r: Request, out: Result<Row>)
    requires r.UpdateRequest?
  {
    && (out == Err(Locked) <==> row.status != Draft)
    && (out == Err(InvalidInput) <==> row.status == Draft && IsIncomplete(row.code, r.fields))
    && (out.Ok? <==> row.status == Draft && !IsIncomplete(row.code, r.fields))
    && (out.Ok? ==> UpdateStores(row, r, out.value))
  }

  lemma UpdateOutcome(row: Row, r: Request)
    requires r.UpdateRequest?
    ensures UpdateRuled(row, r, Prepare(row, r))
  {
    hide MissingBusinessField, IsIncomplete, Normalize, FieldsFit;
    MissingExactlyWhen(row.code, r.fields);
    NormalizedExactlyWhen(Normalize(r.fields), r.fields);
  }

  /** What the rules make of a request on a row. */
  ghost predicate Ruled(kind: Kind, row: Row, r: Request, out: Result<Row>) {
    if r.UpdateRequest? then UpdateRuled(row, r, out)
    else forall said: string :: IsTrimOf(said, r.target) ==> TransitionRuled(kind, row, r, said, out)
  }

  lemma PrepareIsRuled(kind: Kind, row: Row, r: Request)
    requires KindMatches(kind, row.control)
    ensures Ruled(kind, row, r, Prepare(row, r))
  {
    hide Prepare, UpdateRuled, TransitionRuled, IsTrimOf;
    if r.UpdateRequest? {
      UpdateOutcome(row, r);
    } else {
      forall said: string | IsTrimOf(said, r.target) ensures TransitionRuled(kind, row, r, said, Prepare(row, r)) {
        MoveOutcome(kind, row, r, said);
      }
    }
  }

  /** A new record: in draft, at version 1, under its code; a certificate names its preparer. */
  ghost predicate CreateStores(kind: Kind, code: string, f: Fields, actor: string, now: int, item: Row) {
    && IsCodeOf(item.code, code) && FieldsFit(item.fields, f)
    && item.status == Draft && item.version == 1 && item.updatedAt == now && !item.deleted
    && item.control == if kind.Authorization? then ReleaseControl("", "", "") else CertificateControl(actor, "")
  }

  lemma CreateOutcome(kind: Kind, code: string, f: Fields, actor: string, now: int)
    ensures var out := PrepareCreate(kind, code, f, actor, now);
            && (out == Err(InvalidInput) <==> IsIncomplete(code, f))
            && (out.Ok? <==> !IsIncomplete(code, f))
            && (out.Ok? ==> CreateStores(kind, code, f, actor, now, out.value))
  {
    hide MissingBusinessField, IsIncomplete, Normalize, FieldsFit, CodeOf, IsCodeOf;
    MissingExactlyWhen(code, f);
    NormalizedExactlyWhen(Normalize(f), f);
    CodeIsStrippedAndUpper(code);
  }
}
