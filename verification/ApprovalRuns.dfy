/** Whole-run properties of the approval store. */
module ApprovalRuns {
  import opened Outcomes
  import opened Approvals

  datatype Call =
    | OpenCall
    | CreateCall(task: Task, newId: string)
    | ListCall
    | InspectCall(id: string, task: Task)
    | ApproveCall(id: string, task: Task)
    | DenyCall(id: string)
    | ConsumeCall(id: string, task: Task)

  datatype Step = Step(call: Call, now: int)

  ghost function Do(cfg: Config, t: Table, s: Step): Effect {
    match s.call
    case OpenCall => Effect(Prune(t, s.now), Opened)
    case CreateCall(task, newId) => Create(cfg, t, task, newId, s.now)
    case ListCall => ListPending(cfg, t, s.now)
    case InspectCall(id, task) => Inspect(cfg, t, id, task, s.now)
    case ApproveCall(id, task) => Decide(cfg, t, id, Approved, Some(task), s.now)
    case DenyCall(id) => Decide(cfg, t, id, Denied, None, s.now)
    case ConsumeCall(id, task) => Consume(cfg, t, id, task, s.now)
  }

  ghost function TableAt(cfg: Config, run: seq<Step>, i: nat): Table
    requires i <= |run|
  {
    if i == 0 then map[] else Do(cfg, TableAt(cfg, run, i - 1), run[i - 1]).table
  }

  ghost function ReplyAt(cfg: Config, run: seq<Step>, i: nat): Reply
    requires i < |run|
  {
    Do(cfg, TableAt(cfg, run, i), run[i]).reply
  }

  /** What `secrets.token_urlsafe` is trusted for: every id that is drawn is new. */
  ghost predicate DrawsNewIds(run: seq<Step>) {
    forall i, j :: 0 <= i < j < |run| && run[i].call.CreateCall? && run[j].call.CreateCall? ==>
      run[i].call.newId != run[j].call.newId
  }

  ghost predicate ClockAdvances(run: seq<Step>) {
    forall i, j :: 0 <= i < j < |run| ==> run[i].now <= run[j].now
  }

  // ----- What one step can do to a row -----

  ghost predicate Inserted(cfg: Config, t: Table, s: Step, id: string, b: Body) {
    s.call.CreateCall? && s.call.newId == id && b == NewBody(cfg, s.call.task, id, s.now)
  }

  ghost predicate ApprovedBy(cfg: Config, t: Table, s: Step, id: string, b: Body) {
    && s.call.ApproveCall? && s.call.id == id && id in t
    && t[id].body.phase.Pending? && t[id].body.request == cfg.digest(s.call.task.payload)
    && s.now < t[id].body.expires
    && b == t[id].body.(phase := Approved, decided := Some(s.now))
  }

  ghost predicate DeniedBy(t: Table, s: Step, id: string, b: Body) {
    && s.call.DenyCall? && s.call.id == id && id in t && t[id].body.phase.Pending?
    && b == t[id].body.(phase := Denied, decided := Some(s.now))
  }

  ghost predicate ConsumedBy(cfg: Config, t: Table, s: Step, id: string, b: Body) {
    && s.call.ConsumeCall? && s.call.id == id && id in t
    && t[id].body.phase.Approved? && t[id].body.request == cfg.digest(s.call.task.payload)
    && s.now < t[id].body.expires
    && b == t[id].body.(phase := Consumed, consumed := Some(s.now))
  }

  lemma StepEffect(cfg: Config, t: Table, s: Step, id: string)
    requires id in Do(cfg, t, s).table
    ensures var b := Do(cfg, t, s).table[id].body;
            || (id in t && t[id] == Do(cfg, t, s).table[id])
            || Inserted(cfg, t, s, id, b)
            || ApprovedBy(cfg, t, s, id, b)
            || DeniedBy(t, s, id, b)
            || ConsumedBy(cfg, t, s, id, b)
    ensures var b := Do(cfg, t, s).table[id].body;
            ApprovedBy(cfg, t, s, id, b) ==> Do(cfg, t, s).reply == Granted(b)
  {
  }

  lemma GrantedConsumption(cfg: Config, t: Table, s: Step)
    requires s.call.ConsumeCall? && Do(cfg, t, s).reply.Granted?
    ensures var id := s.call.id;
            && id in Do(cfg, t, s).table
            && Do(cfg, t, s).table[id].body == Do(cfg, t, s).reply.body
            && ConsumedBy(cfg, t, s, id, Do(cfg, t, s).reply.body)
  {
  }

  /** The table invariant holds in every reachable state, whatever the clock does. */
  lemma {:induction false} TableAlwaysOk(cfg: Config, run: seq<Step>, i: nat)
    requires GoodConfig(cfg) && DrawsNewIds(run) && i <= |run|
    ensures TableOk(cfg, TableAt(cfg, run, i))
  {
    if i > 0 {
      TableAlwaysOk(cfg, run, i - 1);
      var t, s := TableAt(cfg, run, i - 1), run[i - 1];
      if s.call.CreateCall? && s.call.newId in t {
        var c := Origin(cfg, run, i - 1, s.call.newId);
        assert false;
      }
      StepKeepsTable(cfg, t, s);
    }
  }

  lemma StepKeepsTable(cfg: Config, t: Table, s: Step)
    requires GoodConfig(cfg) && TableOk(cfg, t)
    requires s.call.CreateCall? ==> s.call.newId !in t
    ensures TableOk(cfg, Do(cfg, t, s).table)
  {
    hide TableOk, Create, Decide, Consume;
    PruneKeepsTable(cfg, t, s.now);
    match s.call
    case CreateCall(task, newId) =>
      CreateKeepsTable(cfg, t, task, newId, s.now);
    case ListCall =>
      assert ListPending(cfg, t, s.now).table in {t, Prune(t, s.now)};
    case InspectCall(id, task) =>
      assert Inspect(cfg, t, id, task, s.now).table == t;
    case ApproveCall(id, task) =>
      DecideKeepsTable(cfg, t, id, Approved, Some(task), s.now);
    case DenyCall(id) =>
      DecideKeepsTable(cfg, t, id, Denied, None, s.now);
    case ConsumeCall(id, task) =>
      ConsumeKeepsTable(cfg, t, id, task, s.now);
    case OpenCall =>
  }

  // ----- Provenance -----

  /** Every stored row was inserted by a create that drew its id, with the request of that create's task. */
  lemma {:induction false} Origin(cfg: Config, run: seq<Step>, k: nat, id: string) returns (c: nat)
    requires k <= |run| && id in TableAt(cfg, run, k)
    ensures c < k && run[c].call.CreateCall? && run[c].call.newId == id
    ensures var b := TableAt(cfg, run, k)[id].body;
            b.request == cfg.digest(run[c].call.task.payload) && b.created == run[c].now
            && b.expires == run[c].now + cfg.ttlSeconds * 1_000_000
    decreases k
  {
    var t, s := TableAt(cfg, run, k - 1), run[k - 1];
    StepEffect(cfg, t, s, id);
    if id in t && !Inserted(cfg, t, s, id, TableAt(cfg, run, k)[id].body) {
      c := Origin(cfg, run, k - 1, id);
    } else {
      c := k - 1;
    }
  }

  /** A row that is approved or consumed was approved, by a granted call for the same request, after it was created. */
  lemma {:induction false} Approval(cfg: Config, run: seq<Step>, k: nat, id: string) returns (c: nat, a: nat)
    requires k <= |run| && id in TableAt(cfg, run, k)
    requires var b := TableAt(cfg, run, k)[id].body; b.phase.Approved? || b.phase.Consumed?
    ensures c < a < k && run[c].call.CreateCall? && run[c].call.newId == id
    ensures run[a].call.ApproveCall? && run[a].call.id == id && ReplyAt(cfg, run, a).Granted?
    ensures var b := TableAt(cfg, run, k)[id].body;
            && b.request == cfg.digest(run[c].call.task.payload) == cfg.digest(run[a].call.task.payload)
            && b.created == run[c].now && b.decided == Some(run[a].now)
    decreases k
  {
    hide Do;
    var t, s := TableAt(cfg, run, k - 1), run[k - 1];
    var b := TableAt(cfg, run, k)[id].body;
    StepEffect(cfg, t, s, id);
    if ApprovedBy(cfg, t, s, id, b) {
      c := Origin(cfg, run, k - 1, id);
      a := k - 1;
    } else {
      c, a := Approval(cfg, run, k - 1, id);
    }
  }

  /** No two requests among these tasks' payloads have the same digest. */
  ghost predicate CollisionFree(cfg: Config, payloads: set<nat>) {
    forall p, q :: p in payloads && q in payloads && cfg.digest(p) == cfg.digest(q) ==> p == q
  }

  ghost predicate AsksWithin(s: Step, payloads: set<nat>) {
    s.call.CreateCall? || s.call.ApproveCall? || s.call.ConsumeCall? ==> s.call.task.payload in payloads
  }

  /**
   Provenance: every successful consume was preceded by the create of that id and
   by a granted approve of it, both for the same request; and when the clock does
   not go back, created <= decided <= consumed < expires.
   */
  lemma ConsumeProvenance(cfg: Config, run: seq<Step>, k: nat, payloads: set<nat>) returns (c: nat, a: nat)
    requires k < |run| && run[k].call.ConsumeCall? && ReplyAt(cfg, run, k).Granted?
    requires CollisionFree(cfg, payloads) && forall i :: 0 <= i < |run| ==> AsksWithin(run[i], payloads)
    ensures c < a < k
    ensures run[c].call.CreateCall? && run[c].call.newId == run[k].call.id
    ensures run[a].call.ApproveCall? && run[a].call.id == run[k].call.id && ReplyAt(cfg, run, a).Granted?
    ensures run[c].call.task.payload == run[a].call.task.payload == run[k].call.task.payload
    ensures var b := ReplyAt(cfg, run, k).body;
            && b.created == run[c].now && b.decided == Some(run[a].now) && b.consumed == Some(run[k].now)
            && run[k].now < b.expires
            && (ClockAdvances(run) ==> run[c].now <= run[a].now <= run[k].now)
  {
    hide Do;
    var t := TableAt(cfg, run, k);
    GrantedConsumption(cfg, t, run[k]);
    c, a := Approval(cfg, run, k, run[k].call.id);
    assert AsksWithin(run[c], payloads) && AsksWithin(run[a], payloads) && AsksWithin(run[k], payloads);
  }

  /** Once consumed, a row stays consumed for as long as it is stored. */
  lemma {:induction false} ConsumedStays(cfg: Config, run: seq<Step>, i: nat, k: nat)
    requires DrawsNewIds(run) && i < k <= |run|
    requires run[i].call.ConsumeCall? && ReplyAt(cfg, run, i).Granted?
    ensures var t := TableAt(cfg, run, k);
            run[i].call.id in t ==> t[run[i].call.id].body.phase.Consumed?
    decreases k
  {
    hide Do;
    var id := run[i].call.id;
    GrantedConsumption(cfg, TableAt(cfg, run, i), run[i]);
    if k > i + 1 && id in TableAt(cfg, run, k) {
      var t, s := TableAt(cfg, run, k - 1), run[k - 1];
      ConsumedStays(cfg, run, i, k - 1);
      StepEffect(cfg, t, s, id);
      if Inserted(cfg, t, s, id, TableAt(cfg, run, k)[id].body) {
        var c := Origin(cfg, run, i, id);
        assert false;
      }
    }
  }

  /** Each approval is consumed at most once in any run, whatever the clock does. */
  lemma ConsumedAtMostOnce(cfg: Config, run: seq<Step>, i: nat, j: nat)
    requires DrawsNewIds(run) && i < j < |run|
    requires run[i].call.ConsumeCall? && ReplyAt(cfg, run, i).Granted?
    requires run[j].call.ConsumeCall? && ReplyAt(cfg, run, j).Granted?
    ensures run[i].call.id != run[j].call.id
  {
    hide Do;
    GrantedConsumption(cfg, TableAt(cfg, run, j), run[j]);
    ConsumedStays(cfg, run, i, j);
  }

  /** A create never drops or changes a row that has not expired. */
  lemma CreateKeepsLiveRows(cfg: Config, t: Table, task: Task, newId: string, now: int, id: string)
    requires newId !in t && id in t && t[id].body.expires > now
    ensures id in Create(cfg, t, task, newId, now).table && Create(cfg, t, task, newId, now).table[id] == t[id]
  {
  }

  lemma VerifiedRowsAreNotCorrupt(cfg: Config, t: Table, s: Step)
    requires RowsOk(cfg, t)
    ensures Do(cfg, t, s).reply != Corrupt
  {
    assert forall id :: id in t ==> RowOk(cfg, id, t[id]);
  }

  /** In every reachable state every row verifies, so no call is ever refused as corrupt. */
  lemma NeverCorrupt(cfg: Config, run: seq<Step>, i: nat)
    requires GoodConfig(cfg) && DrawsNewIds(run) && i < |run|
    ensures ReplyAt(cfg, run, i) != Corrupt
  {
    hide Do;
    TableAlwaysOk(cfg, run, i);
    VerifiedRowsAreNotCorrupt(cfg, TableAt(cfg, run, i), run[i]);
  }
}
