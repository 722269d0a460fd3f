/**
 The approval store of `approvals.py`: HMAC-bound rows in one table, changed by
 transactions that commit or roll back as a whole.  Times are integer
 microseconds and come from a clock that may do anything unless a lemma says
 otherwise.
 */
module Approvals {
  import opened Outcomes

  datatype Phase = Pending | Approved | Denied | Consumed

  /** What a task asks for (`approval_request_payload`, which the digest covers) and the fields copied from it into the row. */
  datatype Task = Task(payload: nat, taskId: string, capability: string, provider: string, model: Option<string>)

  datatype Body = Body(
    id: string,
    request: string,
    taskId: string,
    capability: string,
    provider: string,
    model: Option<string>,
    phase: Phase,
    created: int,
    expires: int,
    decided: Option<int>,
    consumed: Option<int>)

  datatype Row = Row(body: Body, hmac: string)

  type Table = map<string, Row>

  /** The keyed digests of a request and of a row, and the store's limits. */
  datatype Config = Config(digest: nat -> string, seal: Body -> string, maxEntries: nat, ttlSeconds: nat)

  datatype Reply =
    | Granted(body: Body)
    | Listed(pending: set<Body>)
    | Opened
    | NotFound
    | Corrupt
    | Expired
    | Mismatch
    | StillPending
    | WasDenied
    | AlreadyConsumed
    | WrongState(phase: Phase)
    | CapacityExhausted

  datatype Effect = Effect(table: Table, reply: Reply)

  // ----- Rows -----

  function Sealed(cfg: Config, b: Body): Row {
    Row(b, cfg.seal(b))
  }

  /** `_verify_stored`. */
  predicate Verified(cfg: Config, r: Row) {
    r.body.created < r.body.expires && r.hmac == cfg.seal(r.body)
  }

  function NewBody(cfg: Config, t: Task, id: string, now: int): Body {
    Body(id, cfg.digest(t.payload), t.taskId, t.capability, t.provider, t.model, Pending,
         now, now + cfg.ttlSeconds * 1_000_000, None, None)
  }

  predicate IsOpen(r: Row) {
    r.body.phase.Pending? || r.body.phase.Approved?
  }

  // ----- Transactions -----

  function Prune(t: Table, now: int): Table {
    map id | id in t && t[id].body.expires > now :: t[id]
  }

  ghost predicate Matches(t: Table, request: string, id: string) {
    id in t && t[id].body.request == request && IsOpen(t[id])
  }

  ghost function Create(cfg: Config, t: Table, task: Task, newId: string, now: int): Effect {
    var kept := Prune(t, now);
    if existing :| Matches(kept, cfg.digest(task.payload), existing) then
      if Verified(cfg, kept[existing]) then Effect(kept, Granted(kept[existing].body)) else Effect(t, Corrupt)
    else if |kept| >= cfg.maxEntries then Effect(t, CapacityExhausted)
    else
      var b := NewBody(cfg, task, newId, now);
      Effect(kept[newId := Sealed(cfg, b)], Granted(b))
  }

  function PendingIds(t: Table): set<string> {
    set id | id in t && t[id].body.phase.Pending?
  }

  function BodiesOf(t: Table, ids: set<string>): set<Body> {
    set id | id in ids && id in t :: t[id].body
  }

  function PendingBodies(t: Table): set<Body> {
    BodiesOf(t, PendingIds(t))
  }

  function ListPending(cfg: Config, t: Table, now: int): Effect {
    var kept := Prune(t, now);
    if forall id :: id in kept && kept[id].body.phase.Pending? ==> Verified(cfg, kept[id])
    then Effect(kept, Listed(PendingBodies(kept)))
    else Effect(t, Corrupt)
  }

  /** `_load` and the checks that follow it in `inspect`, `_decide` and `consume`. */
  function Load(cfg: Config, t: Table, id: string, task: Option<Task>, now: int): Result<Body, Reply> {
    if id !in t then Failure(NotFound)
    else if !Verified(cfg, t[id]) then Failure(Corrupt)
    else if t[id].body.expires <= now then Failure(Expired)
    else if task.Some? && t[id].body.request != cfg.digest(task.value.payload) then Failure(Mismatch)
    else Success(t[id].body)
  }

  function Inspect(cfg: Config, t: Table, id: string, task: Task, now: int): Effect {
    match Load(cfg, t, id, Some(task), now)
    case Failure(reply) => Effect(t, reply)
    case Success(b) => Effect(t, Granted(b))
  }

  function Decide(cfg: Config, t: Table, id: string, decision: Phase, task: Option<Task>, now: int): Effect {
    match Load(cfg, t, id, task, now)
    case Failure(reply) => Effect(t, reply)
    case Success(b) =>
      if b.phase == decision then Effect(t, Granted(b))
      else if !b.phase.Pending? then Effect(t, WrongState(b.phase))
      else
        var b' := b.(phase := decision, decided := Some(now));
        Effect(t[id := Sealed(cfg, b')], Granted(b'))
  }

  function Consume(cfg: Config, t: Table, id: string, task: Task, now: int): Effect {
    match Load(cfg, t, id, Some(task), now)
    case Failure(reply) => Effect(t, reply)
    case Success(b) =>
      match b.phase
      case Pending => Effect(t, StillPending)
      case Denied => Effect(t, WasDenied)
      case Consumed => Effect(t, AlreadyConsumed)
      case Approved =>
        var b' := b.(phase := Consumed, consumed := Some(now));
        Effect(t[id := Sealed(cfg, b')], Granted(b'))
  }

  // ----- The table invariant -----

  /** Timestamps are present exactly as the phase requires, and the row verifies. */
  predicate RowOk(cfg: Config, id: string, r: Row) {
    && r.body.id == id
    && Verified(cfg, r)
    && r.body.expires == r.body.created + cfg.ttlSeconds * 1_000_000
    && (r.body.decided.Some? <==> !r.body.phase.Pending?)
    && (r.body.consumed.Some? <==> r.body.phase.Consumed?)
  }

  ghost predicate RowsOk(cfg: Config, t: Table) {
    forall id :: id in t ==> RowOk(cfg, id, t[id])
  }

  /** No two pending or approved rows share a request. */
  ghost predicate OneOpenRowPerRequest(t: Table) {
    forall a, b :: a in t && b in t && a != b && IsOpen(t[a]) && IsOpen(t[b]) ==> t[a].body.request != t[b].body.request
  }

  ghost predicate TableOk(cfg: Config, t: Table) {
    RowsOk(cfg, t) && OneOpenRowPerRequest(t) && |t| <= cfg.maxEntries
  }

  predicate GoodConfig(cfg: Config) {
    cfg.maxEntries >= 1 && cfg.ttlSeconds >= 30
  }

  lemma PruneShrinks(t: Table, now: int)
    ensures |Prune(t, now)| <= |t|
  {
    assert Prune(t, now).Keys <= t.Keys;
    assert t.Keys == Prune(t, now).Keys + (t.Keys - Prune(t, now).Keys);
  }

  lemma PruneKeepsTable(cfg: Config, t: Table, now: int)
    requires TableOk(cfg, t)
    ensures TableOk(cfg, Prune(t, now))
  {
    PruneShrinks(t, now);
  }

  lemma UpdateKeepsTable(cfg: Config, t: Table, id: string, b: Body)
    requires TableOk(cfg, t) && id in t
    requires RowOk(cfg, id, Sealed(cfg, b)) && b.request == t[id].body.request
    requires IsOpen(Sealed(cfg, b)) ==> IsOpen(t[id])
    ensures TableOk(cfg, t[id := Sealed(cfg, b)])
  {
    hide RowOk;
    assert t[id := Sealed(cfg, b)].Keys == t.Keys;
  }

  lemma InsertKeepsTable(cfg: Config, t: Table, b: Body)
    requires TableOk(cfg, t) && |t| < cfg.maxEntries && b.id !in t
    requires RowOk(cfg, b.id, Sealed(cfg, b))
    requires forall id :: !Matches(t, b.request, id)
    ensures TableOk(cfg, t[b.id := Sealed(cfg, b)])
  {
    hide RowOk;
    var t' := t[b.id := Sealed(cfg, b)];
    assert t'.Keys == t.Keys + {b.id};
    forall x, y | x in t' && y in t' && x != y && IsOpen(t'[x]) && IsOpen(t'[y])
      ensures t'[x].body.request != t'[y].body.request
    {
      assert !Matches(t, b.request, x) && !Matches(t, b.request, y);
    }
  }

  lemma CreateKeepsTable(cfg: Config, t: Table, task: Task, newId: string, now: int)
    requires GoodConfig(cfg) && TableOk(cfg, t) && newId !in t
    ensures TableOk(cfg, Create(cfg, t, task, newId, now).table)
  {
    PruneKeepsTable(cfg, t, now);
    var kept := Prune(t, now);
    var b := NewBody(cfg, task, newId, now);
    assert RowOk(cfg, newId, Sealed(cfg, b));
    hide TableOk;
    if |kept| < cfg.maxEntries && forall id :: !Matches(kept, cfg.digest(task.payload), id) {
      InsertKeepsTable(cfg, kept, b);
    }
  }

  lemma DecideKeepsTable(cfg: Config, t: Table, id: string, decision: Phase, task: Option<Task>, now: int)
    requires TableOk(cfg, t) && (decision.Approved? || decision.Denied?)
    ensures TableOk(cfg, Decide(cfg, t, id, decision, task, now).table)
  {
    if id in t && t[id].body.phase.Pending? {
      assert RowOk(cfg, id, t[id]);
      hide TableOk;
      UpdateKeepsTable(cfg, t, id, t[id].body.(phase := decision, decided := Some(now)));
    }
  }

  lemma ConsumeKeepsTable(cfg: Config, t: Table, id: string, task: Task, now: int)
    requires TableOk(cfg, t)
    ensures TableOk(cfg, Consume(cfg, t, id, task, now).table)
  {
    if id in t && t[id].body.phase.Approved? {
      assert RowOk(cfg, id, t[id]);
      hide TableOk;
      UpdateKeepsTable(cfg, t, id, t[id].body.(phase := Consumed, consumed := Some(now)));
    }
  }

  lemma PendingAreVerified(cfg: Config, t: Table)
    ensures TableOk(cfg, t) ==> forall id :: id in t && t[id].body.phase.Pending? ==> Verified(cfg, t[id])
  {
    hide OneOpenRowPerRequest, Verified;
  }

  /** The loop of `list_pending`: the pending rows, or `None` when one fails verification. */
  method VerifyPending(cfg: Config, t: Table) returns (pending: Option<set<Body>>)
    ensures pending == if forall id :: id in t && t[id].body.phase.Pending? ==> Verified(cfg, t[id]) then Some(PendingBodies(t)) else None
  {
    hide Verified, BodiesOf;
    var todo := PendingIds(t);
    var done: set<string>, bodies: set<Body> := {}, {};
    NoBodies(t);
    while todo != {}
      invariant done + todo == PendingIds(t)
      invariant forall id :: id in done ==> id in t && Verified(cfg, t[id])
      invariant bodies == BodiesOf(t, done)
      decreases |todo|
    {
      var id :| id in todo;
      assert id in PendingIds(t);
      if !Verified(cfg, t[id]) {
        return None;
      }
      OneMoreBody(t, done, id);
      bodies := bodies + {t[id].body};
      todo, done := todo - {id}, done + {id};
    }
    return Some(bodies);
  }

  lemma NoBodies(t: Table)
    ensures BodiesOf(t, {}) == {}
  {
  }

  lemma OneMoreBody(t: Table, ids: set<string>, id: string)
    requires id in t
    ensures BodiesOf(t, ids + {id}) == BodiesOf(t, ids) + {t[id].body}
  {
  }

  /** The store: one table, changed only by whole transactions. */
  class ApprovalStore {
    const cfg: Config
    var rows: Table

    ghost predicate Valid()
      reads this
    {
      GoodConfig(cfg) && TableOk(cfg, rows)
    }

    constructor (cfg: Config)
      requires GoodConfig(cfg)
      ensures Valid() && this.cfg == cfg && rows == map[]
    {
      this.cfg := cfg;
      rows := map[];
    }

    method CreateApproval(task: Task, newId: string, now: int) returns (reply: Reply)
      requires Valid() && newId !in rows
      modifies this
      ensures Valid()
      ensures Effect(rows, reply) == Create(cfg, old(rows), task, newId, now)
      ensures forall id :: id in old(rows) && old(rows)[id].body.expires > now ==> id in rows && rows[id] == old(rows)[id]
    {
      hide Verified, RowsOk;
      CreateKeepsTable(cfg, rows, task, newId, now);
      PruneKeepsTable(cfg, rows, now);
      var request := cfg.digest(task.payload);
      var before := rows;
      rows := Prune(rows, now);
      var matching := set id | id in rows && rows[id].body.request == request && IsOpen(rows[id]);
      if matching != {} {
        var existing :| existing in matching;
        assert Matches(rows, request, existing);
        assert forall id :: Matches(rows, request, id) ==> id == existing;
        if !Verified(cfg, rows[existing]) {
          rows := before;
          return Corrupt;
        }
        return Granted(rows[existing].body);
      }
      assert forall id :: Matches(rows, request, id) ==> id in matching;
      if |rows| >= cfg.maxEntries {
        rows := before;
        return CapacityExhausted;
      }
      var b := NewBody(cfg, task, newId, now);
      rows := rows[newId := Sealed(cfg, b)];
      reply := Granted(b);
    }

    /** Rows that fail verification are reported, and the pruning is then rolled back. */
    method Pendings(now: int) returns (reply: Reply)
      modifies this
      ensures Effect(rows, reply) == ListPending(cfg, old(rows), now)
      ensures old(Valid()) ==> Valid() && reply.Listed?
    {
      if Valid() {
        PruneKeepsTable(cfg, rows, now);
      }
      hide RowOk, Verified, OneOpenRowPerRequest, PendingBodies;
      var kept := Prune(rows, now);
      var pending := VerifyPending(cfg, kept);
      if pending.None? {
        assert !Valid() by {
          PendingAreVerified(cfg, kept);
        }
        return Corrupt;
      }
      rows := kept;
      reply := Listed(pending.value);
    }

    method DecideApproval(id: string, decision: Phase, task: Option<Task>, now: int) returns (reply: Reply)
      requires decision.Approved? || decision.Denied?
      modifies this
      ensures Effect(rows, reply) == Decide(cfg, old(rows), id, decision, task, now)
      ensures old(Valid()) ==> Valid()
    {
      if Valid() {
        DecideKeepsTable(cfg, rows, id, decision, task, now);
      }
      hide TableOk;
      var loaded := Load(cfg, rows, id, task, now);
      if loaded.Failure? {
        return loaded.error;
      }
      var b := loaded.value;
      if b.phase == decision {
        return Granted(b);
      }
      if !b.phase.Pending? {
        return WrongState(b.phase);
      }
      b := b.(phase := decision, decided := Some(now));
      rows := rows[id := Sealed(cfg, b)];
      reply := Granted(b);
    }

    method ConsumeApproval(id: string, task: Task, now: int) returns (reply: Reply)
      modifies this
      ensures Effect(rows, reply) == Consume(cfg, old(rows), id, task, now)
      ensures old(Valid()) ==> Valid()
    {
      if Valid() {
        ConsumeKeepsTable(cfg, rows, id, task, now);
      }
      hide TableOk;
      var loaded := Load(cfg, rows, id, Some(task), now);
      if loaded.Failure? {
        return loaded.error;
      }
      var b := loaded.value;
      match b.phase {
        case Pending => return StillPending;
        case Denied => return WasDenied;
        case Consumed => return AlreadyConsumed;
        case Approved =>
      }
      b := b.(phase := Consumed, consumed := Some(now));
      rows := rows[id := Sealed(cfg, b)];
      reply := Granted(b);
    }
  }
}
