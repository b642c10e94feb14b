/**
 The database with every request in flight. A request takes its private copy in one step and
 writes it back in a later one; between the two, any other client may run. Each step of each
 client is an event, and a run is any sequence of events: an event that does not apply leaves
 the system unchanged, and a client that begins again abandons its previous request.
 */
module Protocol {
  import opened Results
  import opened Lifecycle
  import opened Records
  import opened Repository
  import opened Service

  type Client = nat

  /** The local state of a request between two of its database calls. */
  datatype Pending =
    | Checked(base: Row, request: Request, item: Row)         // copy fetched, checked and edited
    | Stored(revision: Revision)                              // write committed, final Get to come
    | RowRead(revision: Revision, row: Row)                   // row of the final Get read, revisions to come
    | DeleteChecked(key: Key, actor: string, requestId: string, before: Status)
    | DeleteStored(key: Key, actor: string, requestId: string, before: Status)
    | Returned(result: Result<Loaded>)
    | DeleteReturned(error: Option<Error>)

  datatype System = System(db: Db, inflight: map<Client, Pending>)

  datatype Event =
    | Create(client: Client, key: Key, code: string, fields: Fields,
             actor: string, requestId: string, now: int, fault: Fault)
    | Begin(client: Client, request: Request)
    | Commit(client: Client, fault: Fault)
    | ReadRow(client: Client)
    | ReadRevisions(client: Client)
    | BeginDelete(client: Client, key: Key, actor: string, requestId: string)
    | CommitDelete(client: Client, fails: bool)
    | AuditDelete(client: Client, fails: bool)

  function Remember(s: System, c: Client, p: Pending): System {
    s.(inflight := s.inflight[c := p])
  }

  function Fail(s: System, c: Client, e: Error): System {
    Remember(s, c, Returned(Err(e)))
  }

  function StepCreate(s: System, e: Event): System
    requires e.Create?
  {
    match PrepareCreate(e.key.kind, e.code, e.fields, e.actor, e.now)
    case Err(error) => Fail(s, e.client, error)
    case Ok(item) =>
      match CreateVersion(s.db, e.key, item, e.actor, e.requestId, e.fault)
      case RolledBack(error) => Fail(s, e.client, error)
      case Committed(db) =>
        Remember(s.(db := db), e.client, Stored(CreateRevision(e.key, item, e.actor, e.requestId)))
  }

  function StepBegin(s: System, c: Client, r: Request): System {
    match FindRow(s.db, r.key)
    case Err(error) => Fail(s, c, error)
    case Ok(current) =>
      match Prepare(current, r)
      case Err(error) => Fail(s, c, error)
      case Ok(item) => Remember(s, c, Checked(current, r, item))
  }

  /** The write a checked request is about to make. */
  function PendingWrite(p: Pending): Write
    requires p.Checked?
  {
    WriteOf(p.base, p.request, p.item)
  }

  function StepCommit(s: System, c: Client, fault: Fault): System {
    if c in s.inflight && s.inflight[c].Checked? then
      var w := PendingWrite(s.inflight[c]);
      match UpdateVersion(s.db, w, fault)
      case RolledBack(error) => Fail(s, c, error)
      case Committed(db) => Remember(s.(db := db), c, Stored(WriteRevision(w)))
    else s
  }

  /** The final Get reads the row first; the record may have been deleted by then. */
  function StepReadRow(s: System, c: Client): System {
    if c in s.inflight && s.inflight[c].Stored? then
      var own := s.inflight[c].revision;
      match FindRow(s.db, own.key)
      case Err(error) => Fail(s, c, error)
      case Ok(row) => Remember(s, c, RowRead(own, row))
    else s
  }

  /** Then, in a statement of its own, the revisions. */
  function StepReadRevisions(s: System, c: Client): System {
    if c in s.inflight && s.inflight[c].RowRead? then
      var p := s.inflight[c];
      Remember(s, c, Returned(Ok(Loaded(p.row, FindRevisions(s.db, p.revision.key)))))
    else s
  }

  function StepBeginDelete(s: System, e: Event): System
    requires e.BeginDelete?
  {
    match FindRow(s.db, e.key)
    case Err(error) => Remember(s, e.client, DeleteReturned(Some(error)))
    case Ok(current) =>
      if current.status != Draft then Remember(s, e.client, DeleteReturned(Some(Locked)))
      else Remember(s, e.client, DeleteChecked(e.key, e.actor, e.requestId, current.status))
  }

  function StepCommitDelete(s: System, c: Client, fails: bool): System {
    if c in s.inflight && s.inflight[c].DeleteChecked? then
      var p := s.inflight[c];
      match Delete(s.db, p.key, fails)
      case RolledBack(error) => Remember(s, c, DeleteReturned(Some(error)))
      case Committed(db) => Remember(s.(db := db), c, DeleteStored(p.key, p.actor, p.requestId, p.before))
    else s
  }

  function StepAuditDelete(s: System, c: Client, fails: bool): System {
    if c in s.inflight && s.inflight[c].DeleteStored? then
      var p := s.inflight[c];
      if fails then Remember(s, c, DeleteReturned(Some(StatementFailed)))
      else Remember(s.(db := s.db.(audits := s.db.audits + [DeleteAudit(p.key, p.actor, p.requestId, p.before)])),
                    c, DeleteReturned(None))
    else s
  }

  function Step(s: System, e: Event): System {
    match e
    case Create(_, _, _, _, _, _, _, _) => StepCreate(s, e)
    case Begin(c, r) => StepBegin(s, c, r)
    case Commit(c, fault) => StepCommit(s, c, fault)
    case ReadRow(c) => StepReadRow(s, c)
    case ReadRevisions(c) => StepReadRevisions(s, c)
    case BeginDelete(_, _, _, _) => StepBeginDelete(s, e)
    case CommitDelete(c, fails) => StepCommitDelete(s, c, fails)
    case AuditDelete(c, fails) => StepAuditDelete(s, c, fails)
  }

  /** The system after a whole run. */
  function Run(s: System, es: seq<Event>): System {
    if es == [] then s else Step(Run(s, es[..|es| - 1]), es[|es| - 1])
  }

  lemma RunAppend(s: System, es: seq<Event>, e: Event)
    ensures Run(s, es + [e]) == Step(Run(s, es), e)
  {
    assert (es + [e])[..|es|] == es;
  }

  lemma {:induction false} RunConcat(s: System, es: seq<Event>, fs: seq<Event>)
    ensures Run(s, es + fs) == Run(Run(s, es), fs)
  {
    hide Step;
    if fs == [] {
      assert es + fs == es;
    } else {
      var n := |fs| - 1;
      RunConcat(s, es, fs[..n]);
      assert es + fs == (es + fs[..n]) + [fs[n]];
      RunAppend(s, es + fs[..n], fs[n]);
    }
  }

  /** The client whose request an event belongs to is `e.client`. */
  predicate ByOthers(es: seq<Event>, c: Client) {
    forall i :: 0 <= i < |es| ==> es[i].client != c
  }

  lemma OneOtherLeavesMine(s: System, e: Event, c: Client)
    requires e.client != c && c in s.inflight
    ensures c in Step(s, e).inflight && Step(s, e).inflight[c] == s.inflight[c]
  {
    hide FindRow, FindRevisions, Prepare, PrepareCreate, CreateVersion, UpdateVersion, Delete, DeleteAudit,
         PendingWrite;
  }

  /** A request's local state is its own: no run of other clients touches it. */
  lemma {:induction false} OthersLeaveMine(s: System, es: seq<Event>, c: Client)
    requires ByOthers(es, c) && c in s.inflight
    ensures c in Run(s, es).inflight && Run(s, es).inflight[c] == s.inflight[c]
  {
    if es != [] {
      var n := |es| - 1;
      OthersLeaveMine(s, es[..n], c);
      OneOtherLeavesMine(Run(s, es[..n]), es[n], c);
    }
  }

  /**
   The premise under which callers send only versions they were served: when a request's first
   Get finds the row, the version it expects has already been stored.
   */
  predicate Served(s: System, e: Event) {
    e.Begin? && Live(s.db, e.request.key) ==> e.request.expected <= s.db.rows[e.request.key].version
  }

  predicate ServedRun(s: System, es: seq<Event>) {
    es == [] || (ServedRun(s, es[..|es| - 1]) && Served(Run(s, es[..|es| - 1]), es[|es| - 1]))
  }

  /**
   What an event adds to the revision table, with the update or transition that caused it and
   the business fields it submitted, if any.
   */
  datatype Stamp = Stamp(revision: Revision, request: Option<Request>, edit: Option<Fields>)

  function EditOf(r: Request): Option<Fields> {
    if r.UpdateRequest? then Some(r.fields) else None
  }

  /** The commit an event performs, if it performs one. */
  function StampOf(s: System, e: Event): Option<Stamp> {
    match e
    case Create(_, key, code, fields, actor, requestId, now, fault) =>
      (match PrepareCreate(key.kind, code, fields, actor, now)
       case Err(_) => None
       case Ok(item) =>
         if CreateVersion(s.db, key, item, actor, requestId, fault).Committed?
         then Some(Stamp(CreateRevision(key, item, actor, requestId), None, Some(fields)))
         else None)
    case Commit(c, fault) =>
      if c in s.inflight && s.inflight[c].Checked?
         && UpdateVersion(s.db, PendingWrite(s.inflight[c]), fault).Committed?
      then
        var r := s.inflight[c].request;
        Some(Stamp(WriteRevision(PendingWrite(s.inflight[c])), Some(r), EditOf(r)))
      else None
    case _ => None
  }

  /** The commits a run performs on one record, in order. */
  function Commits(s: System, es: seq<Event>, key: Key): seq<Stamp> {
    if es == [] then []
    else
      var before := Run(s, es[..|es| - 1]);
      var stamp := StampOf(before, es[|es| - 1]);
      var earlier := Commits(s, es[..|es| - 1], key);
      if stamp.Some? && stamp.value.revision.key == key then earlier + [stamp.value] else earlier
  }
}
