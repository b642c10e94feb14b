/**
 The same requests executed one at a time, and the refinement: as long as callers send versions
 they were served, every interleaved run leaves the tables exactly as its committed requests
 executed atomically in commit order.
 */
module Refinement {
  import opened Results
  import opened Lifecycle
  import opened Records
  import opened Repository
  import opened Service
  import opened Protocol
  import opened Invariant
  import opened Text

  /** A whole request executed at once. Deleting stays the two separate statements it is. */
  datatype Op =
    | CreateOp(key: Key, code: string, fields: Fields, actor: string, requestId: string, now: int)
    | WriteOp(request: Request)
    | DeleteOp(key: Key)
    | AuditOp(key: Key, actor: string, requestId: string, before: Status)

  /** Fetch, check, edit and store with nothing in between. */
  function ExecuteRequest(db: Db, r: Request): Transaction {
    match FindRow(db, r.key)
    case Err(error) => RolledBack(error)
    case Ok(current) =>
      match Prepare(current, r)
      case Err(error) => RolledBack(error)
      case Ok(item) => UpdateVersion(db, WriteOf(current, r, item), NoFault)
  }

  function Execute(db: Db, op: Op): Transaction {
    match op
    case CreateOp(key, code, fields, actor, requestId, now) =>
      (match PrepareCreate(key.kind, code, fields, actor, now)
       case Err(error) => RolledBack(error)
       case Ok(item) => CreateVersion(db, key, item, actor, requestId, NoFault))
    case WriteOp(r) => ExecuteRequest(db, r)
    case DeleteOp(key) => Delete(db, key, false)
    case AuditOp(key, actor, requestId, before) =>
      Committed(db.(audits := db.audits + [DeleteAudit(key, actor, requestId, before)]))
  }

  /** The tables after executing every operation, or the first error. */
  function ExecuteAll(db: Db, ops: seq<Op>): Transaction
    decreases |ops|
  {
    if ops == [] then Committed(db)
    else
      match ExecuteAll(db, ops[..|ops| - 1])
      case RolledBack(error) => RolledBack(error)
      case Committed(mid) => Execute(mid, ops[|ops| - 1])
  }

  /** The operation an event completes, if it changes the tables. */
  function Effect(s: System, e: Event): Option<Op> {
    match e
    case Create(_, key, code, fields, actor, requestId, now, fault) =>
      (match PrepareCreate(key.kind, code, fields, actor, now)
       case Err(_) => None
       case Ok(item) =>
         if CreateVersion(s.db, key, item, actor, requestId, fault).Committed?
         then Some(CreateOp(key, code, fields, actor, requestId, now)) else None)
    case Commit(c, fault) =>
      if c in s.inflight && s.inflight[c].Checked?
         && UpdateVersion(s.db, PendingWrite(s.inflight[c]), fault).Committed?
      then Some(WriteOp(s.inflight[c].request)) else None
    case CommitDelete(c, fails) =>
      if c in s.inflight && s.inflight[c].DeleteChecked? && Delete(s.db, s.inflight[c].key, fails).Committed?
      then Some(DeleteOp(s.inflight[c].key)) else None
    case AuditDelete(c, fails) =>
      if c in s.inflight && s.inflight[c].DeleteStored? && !fails
      then var p := s.inflight[c]; Some(AuditOp(p.key, p.actor, p.requestId, p.before)) else None
    case _ => None
  }

  /** The completed operations of a run, in the order in which they took effect. */
  function Linearization(s: System, es: seq<Event>): seq<Op> {
    if es == [] then []
    else
      var earlier := Linearization(s, es[..|es| - 1]);
      match Effect(Run(s, es[..|es| - 1]), es[|es| - 1])
      case None => earlier
      case Some(op) => earlier + [op]
  }

  /** Every request in flight sent a version that was stored when it took its copy. */
  ghost predicate PendingServed(s: System) {
    forall c :: c in s.inflight && s.inflight[c].Checked? ==>
      s.inflight[c].request.expected <= s.inflight[c].base.version
  }

  lemma StepKeepsServed(s: System, e: Event)
    requires PendingServed(s) && Served(s, e)
    ensures PendingServed(Step(s, e))
  {
    hide Prepare, PrepareCreate, CreateVersion, UpdateVersion, PendingWrite, DeleteAudit, OrderByVersion, Delete;
  }

  lemma CommitIsAtomic(s: System, c: Client, fault: Fault)
    requires SystemValid(s) && PendingServed(s)
    requires Effect(s, Commit(c, fault)).Some?
    ensures Execute(s.db, Effect(s, Commit(c, fault)).value) == Committed(StepCommit(s, c, fault).db)
  {
    hide DbValid, RevisionExists, Prepare, OrderByVersion, WriteAudit;
    var p := s.inflight[c];
    assert PendingValid(s.db, p);
    assert p.base == s.db.rows[p.request.key];
  }

  lemma StepIsAtomic(s: System, e: Event)
    requires SystemValid(s) && PendingServed(s)
    ensures match Effect(s, e)
            case None => Step(s, e).db == s.db
            case Some(op) => Execute(s.db, op) == Committed(Step(s, e).db)
  {
    hide SystemValid, PendingServed, Prepare, OrderByVersion, CodeExists, RevisionExists, CreateAudit, IsBlank, Trim;
    if e.Commit? && Effect(s, e).Some? {
      CommitIsAtomic(s, e.client, e.fault);
    }
  }

  /** Interleaved runs refine atomic ones, as long as callers send versions they were served. */
  lemma {:induction false} RunRefinesAtomic(s: System, es: seq<Event>)
    requires SystemValid(s) && PendingServed(s) && ServedRun(s, es)
    ensures ExecuteAll(s.db, Linearization(s, es)) == Committed(Run(s, es).db)
    ensures PendingServed(Run(s, es))
  {
    hide SystemValid, PendingServed, Step, Effect, Execute, Served;
    if es != [] {
      var n := |es| - 1;
      var t := Run(s, es[..n]);
      RunRefinesAtomic(s, es[..n]);
      RunKeepsValid(s, es[..n]);
      StepIsAtomic(t, es[n]);
      StepKeepsServed(t, es[n]);
      var earlier := Linearization(s, es[..n]);
      if Effect(t, es[n]).Some? {
        var op := Effect(t, es[n]).value;
        assert (earlier + [op])[..|earlier|] == earlier;
      }
    }
  }

  /** A request that runs with nothing in between needs no premise to be atomic. */
  lemma SequentialIsAtomic(s: System, c: Client, r: Request, fault: Fault)
    requires fault.NoFault?
    ensures Run(s, [Begin(c, r), Commit(c, fault)]).db
         == match ExecuteRequest(s.db, r) case Committed(db) => db case RolledBack(_) => s.db
  {
    hide Prepare, OrderByVersion, UpdateVersion, WriteOf;
    RunAppend(s, [], Begin(c, r));
    RunAppend(s, [Begin(c, r)], Commit(c, fault));
    assert [] + [Begin(c, r)] == [Begin(c, r)];
    assert [Begin(c, r)] + [Commit(c, fault)] == [Begin(c, r), Commit(c, fault)];
  }
}
