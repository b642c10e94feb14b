/** The services' checks and edits on the private copy a request fetched. */
module Service {
  import opened Results
  import opened Lifecycle
  import opened Records
  import opened Repository
  import opened Text

  datatype Request =
    | UpdateRequest(key: Key, expected: nat, fields: Fields, actor: string, requestId: string, now: int)
    | TransitionRequest(key: Key, expected: nat, target: string, reason: string,
                        actor: string, role: string, requestId: string, now: int)

  predicate IsOperatorRole(role: string) {
    role == "operator" || role == "reviewer" || role == "admin"
  }

  predicate IsReviewerRole(role: string) {
    role == "reviewer" || role == "admin"
  }

  predicate MissingBusinessField(code: string, f: Fields) {
    IsBlank(code) || IsBlank(f.name) || IsBlank(f.facility) || IsBlank(f.owner)
  }

  /** Text fields are stored trimmed, the related code in canonical form. */
  function NormalizeWith(up: char -> char, f: Fields): Fields {
    f.(name := Trim(f.name), description := Trim(f.description), facility := Trim(f.facility),
       owner := Trim(f.owner), category := Trim(f.category), metricUnit := Trim(f.metricUnit),
       evidence := Trim(f.evidence), relatedCode := CodeWith(up, f.relatedCode))
  }

  function Normalize(f: Fields): Fields {
    NormalizeWith(UpperChar, f)
  }

  /** A certificate edit names a new preparer and drops the verifier; an authorization edit does neither. */
  function ControlAfterEdit(c: Control, actor: string): Control {
    match c
    case ReleaseControl(_, _, _) => c
    case CertificateControl(_, _) => CertificateControl(actor, "")
  }

  function PrepareUpdate(row: Row, r: Request): Result<Row>
    requires r.UpdateRequest?
  {
    if row.status != Draft then Err(Locked)
    else if MissingBusinessField(row.code, r.fields) then Err(InvalidInput)
    else Ok(row.(fields := Normalize(r.fields), control := ControlAfterEdit(row.control, r.actor),
                 version := r.expected + 1, updatedAt := r.now))
  }

  /** The targets of an authorization that only an independent reviewer may choose. */
  predicate IsDecision(s: Status) {
    s == Approved || s == Restricted || s == Revoked || s == Draft
  }

  function PrepareAuthorization(row: Row, r: Request): Result<Row>
    requires r.TransitionRequest? && row.control.ReleaseControl?
  {
    var target := Parse(Trim(r.target));
    if target.None? || !CanTransition(RELEASE_AUTHORIZATION_TRANSITIONS, row.status, target.value)
    then Err(InvalidTransition)
    else if !IsOperatorRole(r.role) then Err(Forbidden)
    else
      var submitted := if target.value == Review then ReleaseControl(r.actor, "", "") else row.control;
      if IsDecision(target.value) && !IsReviewerRole(r.role) then Err(Forbidden)
      else if IsDecision(target.value) && submitted.submittedBy != "" && r.actor == submitted.submittedBy
      then Err(SeparationOfDuty)
      else
        var decided := if IsDecision(target.value)
                       then submitted.(reviewedBy := r.actor, reviewReason := Trim(r.reason))
                       else submitted;
        Ok(row.(status := target.value, control := decided, version := r.expected + 1, updatedAt := r.now))
  }

  /** The targets of a certificate that only an independent reviewer may choose. */
  predicate IsPublication(s: Status) {
    s == Valid || s == Revoked
  }

  function PrepareCertificate(row: Row, r: Request): Result<Row>
    requires r.TransitionRequest? && row.control.CertificateControl?
  {
    var target := Parse(Trim(r.target));
    if target.None? || !CanTransition(CERTIFICATE_TRANSITIONS, row.status, target.value)
    then Err(InvalidTransition)
    else if !IsOperatorRole(r.role) then Err(Forbidden)
    else if IsPublication(target.value) && !IsReviewerRole(r.role) then Err(Forbidden)
    else if IsPublication(target.value) && r.actor == row.control.preparedBy then Err(SeparationOfDuty)
    else
      var verified := if IsPublication(target.value) then row.control.(verifiedBy := r.actor) else row.control;
      Ok(row.(status := target.value, control := verified, version := r.expected + 1, updatedAt := r.now))
  }

  /** The edited copy a request would store over `row`, or the error it stops with. */
  function Prepare(row: Row, r: Request): Result<Row> {
    if r.UpdateRequest? then PrepareUpdate(row, r)
    else if row.control.ReleaseControl? then PrepareAuthorization(row, r)
    else PrepareCertificate(row, r)
  }

  /** The call of `UpdateVersion` a request makes with its edited copy. */
  function WriteOf(base: Row, r: Request, item: Row): Write {
    if r.UpdateRequest? then
      var reason := if base.control.ReleaseControl? then "draft authorization fields updated"
                    else "draft certificate fields updated";
      Write(r.key, r.expected, item, r.actor, r.requestId, Updated, item.status, reason)
    else
      Write(r.key, r.expected, item, r.actor, r.requestId, Transitioned, base.status, Trim(r.reason))
  }

  /** The row `Create` asks for, or its validation error. */
  function PrepareCreate(kind: Kind, code: string, f: Fields, actor: string, now: int): Result<Row> {
    if MissingBusinessField(code, f) then Err(InvalidInput)
    else
      var control := if kind.Authorization? then ReleaseControl("", "", "") else CertificateControl(actor, "");
      Ok(Row(CodeOf(code), Draft, 1, Normalize(f), control, now, false))
  }

  /** Any accepted edit keeps the code and the kind, and carries the version the caller expects next. */
  lemma PrepareKeeps(row: Row, r: Request)
    requires Prepare(row, r).Ok?
    ensures var item := Prepare(row, r).value;
            && item.version == r.expected + 1 && item.code == row.code && item.deleted == row.deleted
            && (item.control.ReleaseControl? <==> row.control.ReleaseControl?)
  {
  }

  /** Sending back the fields a record already stores changes none of them, under any case mapping. */
  lemma NormalizeWithIsIdempotent(up: char -> char, f: Fields)
    requires IsCaseMapping(up)
    ensures NormalizeWith(up, NormalizeWith(up, f)) == NormalizeWith(up, f)
  {
    TrimIsIdempotent(f.name);
    TrimIsIdempotent(f.description);
    TrimIsIdempotent(f.facility);
    TrimIsIdempotent(f.owner);
    TrimIsIdempotent(f.category);
    TrimIsIdempotent(f.metricUnit);
    TrimIsIdempotent(f.evidence);
    CodeWithIsIdempotent(up, f.relatedCode);
  }
}
