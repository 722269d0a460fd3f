/**
 * Every interleaving of the attachment authority's calls. A call takes the lock once or several times and
 * runs callbacks and hashing outside it; each event below is one critical section.
 */
module LeaseRuns {
  import opened Outcomes
  import opened Bytes
  import opened LeaseStore

  /** Where a clone call stands after its copies were inserted. */
  datatype Phase =
    | Copied
    | Opened
    | Hashed(manifest: Manifest)
    | Aborting
    | Diverging(cancelled: nat)

  datatype Call =
    | Entered
    | Hashing(manifest: Manifest, purpose: string)
    | Inspecting(manifest: Manifest, at: int)
    | Consuming(manifest: Manifest, approval: Approval, at: int)
    | Cloning(source: Manifest, names: seq<LeaseId>, purpose: string, at: int, phase: Phase)

  datatype Completion = Completion(manifest: Manifest, approval: Approval, startedAt: int, completedAt: int)

  /**
   * The store and the calls in flight, with the history of the run: every record as it was issued, the line of
   * clones that leads to it, the ids returned to callers, what consumers received, the manifests and approvals
   * made, and the consumptions that succeeded.
   */
  datatype World = World(
    store: Store,
    calls: map<nat, Call>,
    issued: map<LeaseId, Record>,
    lineage: map<LeaseId, seq<LeaseId>>,
    published: set<LeaseId>,
    delivered: seq<(LeaseId, seq<byte>)>,
    made: set<Manifest>,
    approvals: set<(Manifest, Approval)>,
    completed: seq<Completion>)

  datatype Event =
    | Enter(call: nat)
    | Select(call: nat, id: LeaseId, attachment: string, content: seq<byte>, at: int, ttl: int)
    | Prepare(call: nat, ids: seq<LeaseId>, manifestId: ManifestId, purpose: string, at: int, canonical: bool)
    | Publish(call: nat)
    | ApproveManifest(call: nat, manifest: Manifest, at: int, ttl: int)
    | Inspect(call: nat, manifest: Manifest, at: int, intact: set<LeaseId>)
    | InspectorDone(call: nat, ending: Ending, elapsed: nat, intact: set<LeaseId>)
    | Consume(call: nat, manifest: Manifest, approval: Approval, at: int, intact: set<LeaseId>)
    | ConsumerDone(call: nat, ending: Ending, elapsed: nat, intact: set<LeaseId>)
    | Clone(call: nat, manifest: Manifest, at: int, ttl: int, names: seq<LeaseId>, intact: set<LeaseId>)
    | CloneEnters(call: nat)
    | ClonePrepares(call: nat, manifestId: ManifestId, canonical: bool)
    | ClonePublishes(call: nat)
    | CloneAborts(call: nat)
    | CloneCancels(call: nat)
    | Cancel(id: LeaseId, at: int)
    | ExpireDue(at: int)
    | CancelEverything(at: int)
    | CloseStore(at: int)

  ghost function Start(): World {
    World(Store(map[], map[], map[], false), map[], map[], map[], {}, [], {}, {}, [])
  }

  /** Callers name only ids that were returned to them, or that are not live. */
  ghost predicate Nameable(w: World, ids: seq<LeaseId>) {
    forall id :: id in ids && id in w.store.leases ==> id in w.published
  }

  /** The event can happen. Ids come from a source of randomness, so a new id was never issued before. */
  ghost predicate Enabled(w: World, e: Event) {
    match e
    case Enter(c) => c !in w.calls && !w.store.closed
    case Select(c, id, _, content, _, _) => c in w.calls && w.calls[c].Entered? && id !in w.issued && content != []
    case Prepare(c, ids, _, _, _, _) => c in w.calls && w.calls[c].Entered? && Nameable(w, ids)
    case Publish(c) => c in w.calls && w.calls[c].Hashing?
    case ApproveManifest(c, m, _, _) => c in w.calls && w.calls[c].Entered? && Nameable(w, m.body.leaseIds)
    case Inspect(c, m, _, _) => c in w.calls && w.calls[c].Entered? && Nameable(w, m.body.leaseIds)
    case InspectorDone(c, _, _, _) => c in w.calls && w.calls[c].Inspecting?
    case Consume(c, m, _, _, _) => c in w.calls && w.calls[c].Entered? && Nameable(w, m.body.leaseIds)
    case ConsumerDone(c, _, _, _) => c in w.calls && w.calls[c].Consuming?
    case Clone(c, m, _, _, names, _) =>
      && c in w.calls && w.calls[c].Entered? && Nameable(w, m.body.leaseIds)
      && |names| == |m.body.leaseIds| && Distinct(names) && forall id :: id in names ==> id !in w.issued
    case CloneEnters(c) => c in w.calls && w.calls[c].Cloning? && w.calls[c].phase.Copied?
    case ClonePrepares(c, _, _) => c in w.calls && w.calls[c].Cloning? && w.calls[c].phase.Opened?
    case ClonePublishes(c) => c in w.calls && w.calls[c].Cloning? && w.calls[c].phase.Hashed?
    case CloneAborts(c) => c in w.calls && w.calls[c].Cloning? && w.calls[c].phase.Aborting?
    case CloneCancels(c) => c in w.calls && w.calls[c].Cloning? && w.calls[c].phase.Diverging?
    case Cancel(id, _) => Nameable(w, [id])
    case ExpireDue(_) => true
    case CancelEverything(_) => true
    case CloseStore(_) => true
  }

  ghost function Finish(w: World, c: nat, s: Store): World {
    w.(store := s, calls := w.calls - {c})
  }

  ghost function AfterSelect(env: Env, w: World, e: Event): World
    requires e.Select?
  {
    var r := Record(Lease(e.id, Descriptor(e.attachment, env.inspect(e.content)), e.at, e.at + e.ttl), e.content, false);
    var (problem, s) := CommitSelection(w.store, r);
    if !TtlOk(e.ttl, env.maxLease) || problem.Some? then Finish(w, e.call, w.store)
    else Finish(w, e.call, s).(issued := w.issued[e.id := r], lineage := w.lineage[e.id := [e.id]], published := w.published + {e.id})
  }

  ghost function AfterPrepare(env: Env, w: World, e: Event): World
    requires e.Prepare?
  {
    var (result, s) := PrepareManifest(env, w.store, e.ids, e.manifestId, e.purpose, e.at, e.canonical);
    if result.Failure? then Finish(w, e.call, s)
    else w.(store := s, calls := w.calls[e.call := Hashing(result.value, e.purpose)])
  }

  ghost function AfterPublish(w: World, c: nat): World
    requires c in w.calls && w.calls[c].Hashing?
  {
    var (problem, s) := PublishManifest(w.store, w.calls[c].manifest, w.calls[c].purpose);
    if problem.Some? then Finish(w, c, s) else Finish(w, c, s).(made := w.made + {w.calls[c].manifest})
  }

  ghost function AfterApprove(env: Env, w: World, e: Event): World
    requires e.ApproveManifest?
  {
    var (result, s) := Approve(env, w.store, e.manifest, e.at, e.ttl);
    if result.Failure? then Finish(w, e.call, s)
    else Finish(w, e.call, s).(approvals := w.approvals + {(e.manifest, result.value)})
  }

  ghost function AfterInspect(env: Env, w: World, e: Event): World
    requires e.Inspect?
  {
    var (result, s) := BeginInspection(env, w.store, e.manifest, e.at, e.intact);
    if result.Failure? then Finish(w, e.call, s)
    else w.(store := s, calls := w.calls[e.call := Inspecting(e.manifest, e.at)])
  }

  ghost function AfterConsume(env: Env, w: World, e: Event): World
    requires e.Consume?
  {
    var (result, s) := BeginConsumption(env, w.store, e.manifest, e.approval, e.at, e.intact);
    if result.Failure? then Finish(w, e.call, s)
    else w.(store := s, calls := w.calls[e.call := Consuming(e.manifest, e.approval, e.at)], delivered := w.delivered + result.value)
  }

  /** The leases of a running callback; `HeldOk` below makes the test always true. */
  ghost predicate AllLive(s: Store, ids: seq<LeaseId>) {
    forall id :: id in ids ==> id in s.leases
  }

  ghost function AfterInspector(env: Env, w: World, e: Event): World
    requires e.InspectorDone? && Enabled(w, e) && AllLive(w.store, w.calls[e.call].manifest.body.leaseIds)
  {
    var call := w.calls[e.call];
    Finish(w, e.call, EndInspection(env, w.store, call.manifest, e.ending, call.at + e.elapsed, e.intact).1)
  }

  ghost function AfterConsumer(env: Env, w: World, e: Event): World
    requires e.ConsumerDone? && Enabled(w, e) && AllLive(w.store, w.calls[e.call].manifest.body.leaseIds)
  {
    var call := w.calls[e.call];
    var completedAt := call.at + e.elapsed;
    var (problem, s) := EndConsumption(env, w.store, call.manifest, call.approval, e.ending, completedAt, e.intact);
    if problem.Some? then Finish(w, e.call, s)
    else Finish(w, e.call, s).(completed := w.completed + [Completion(call.manifest, call.approval, call.at, completedAt)])
  }

  /** Each name continues the line of the lease it copies. */
  ghost function Continued(lineage: map<LeaseId, seq<LeaseId>>, ids: seq<LeaseId>, names: seq<LeaseId>): map<LeaseId, seq<LeaseId>>
    requires |ids| == |names|
  {
    if ids == [] then lineage
    else
      var n := |ids| - 1;
      Continued(lineage, ids[..n], names[..n])[names[n] := (if ids[n] in lineage then lineage[ids[n]] else []) + [names[n]]]
  }

  ghost function AfterClone(env: Env, w: World, e: Event): World
    requires e.Clone? && Enabled(w, e)
  {
    var (result, s) := CloneLeases(env, w.store, e.manifest, e.at, e.ttl, e.names, e.intact);
    if result.Failure? then Finish(w, e.call, s)
    else
      w.(store := s,
         calls := w.calls[e.call := Cloning(e.manifest, e.names, result.value.0, e.at, Copied)],
         issued := Inserted(w.issued, result.value.1),
         lineage := Continued(w.lineage, e.manifest.body.leaseIds, e.names))
  }

  ghost function ToPhase(w: World, c: nat, s: Store, phase: Phase): World
    requires c in w.calls && w.calls[c].Cloning?
  {
    w.(store := s, calls := w.calls[c := w.calls[c].(phase := phase)])
  }

  ghost function AfterClonePrepares(env: Env, w: World, e: Event): World
    requires e.ClonePrepares? && Enabled(w, e)
  {
    var call := w.calls[e.call];
    var (result, s) := PrepareManifest(env, w.store, call.names, e.manifestId, call.purpose, call.at, e.canonical);
    ToPhase(w, e.call, s, if result.Failure? then Aborting else Hashed(result.value))
  }

  ghost function AfterClonePublishes(w: World, c: nat): World
    requires c in w.calls && w.calls[c].Cloning? && w.calls[c].phase.Hashed?
  {
    var call := w.calls[c];
    var m := call.phase.manifest;
    var (problem, s) := PublishManifest(w.store, m, call.purpose);
    if problem.Some? then ToPhase(w, c, s, Aborting)
    else if m.body.attachments != call.source.body.attachments || m.body.purposeSha != call.source.body.purposeSha
    then ToPhase(w, c, s, Diverging(0)).(made := w.made + {m})
    else Finish(w, c, s).(made := w.made + {m}, published := w.published + Elements(call.names))
  }

  ghost function AfterCloneAborts(w: World, c: nat): World
    requires c in w.calls && w.calls[c].Cloning?
  {
    Finish(w, c, Cleaned(w.store, Elements(w.calls[c].names), Cancelled, w.calls[c].at))
  }

  /** One `cancel_lease` of the diverging branch; its failure ends the call. */
  ghost function AfterCloneCancels(w: World, c: nat): World
    requires c in w.calls && w.calls[c].Cloning? && w.calls[c].phase.Diverging?
  {
    var call := w.calls[c];
    var k := call.phase.cancelled;
    if k >= |call.names| then Finish(w, c, w.store)
    else
      var (problem, s) := CancelLease(w.store, call.names[k], call.at);
      if problem.Some? then Finish(w, c, s) else ToPhase(w, c, s, Diverging(k + 1))
  }

  ghost function Next(env: Env, w: World, e: Event): World
    requires Enabled(w, e)
    requires e.InspectorDone? || e.ConsumerDone? ==> AllLive(w.store, w.calls[e.call].manifest.body.leaseIds)
  {
    match e
    case Enter(c) => w.(calls := w.calls[c := Entered])
    case Select(_, _, _, _, _, _) => AfterSelect(env, w, e)
    case Prepare(_, _, _, _, _, _) => AfterPrepare(env, w, e)
    case Publish(c) => AfterPublish(w, c)
    case ApproveManifest(_, _, _, _) => AfterApprove(env, w, e)
    case Inspect(_, _, _, _) => AfterInspect(env, w, e)
    case InspectorDone(_, _, _, _) => AfterInspector(env, w, e)
    case Consume(_, _, _, _, _) => AfterConsume(env, w, e)
    case ConsumerDone(_, _, _, _) => AfterConsumer(env, w, e)
    case Clone(_, _, _, _, _, _) => AfterClone(env, w, e)
    case CloneEnters(c) => ToPhase(w, c, w.store, if w.store.closed then Aborting else Opened)
    case ClonePrepares(_, _, _) => AfterClonePrepares(env, w, e)
    case ClonePublishes(c) => AfterClonePublishes(w, c)
    case CloneAborts(c) => AfterCloneAborts(w, c)
    case CloneCancels(c) => AfterCloneCancels(w, c)
    case Cancel(id, at) => w.(store := CancelLease(w.store, id, at).1)
    case ExpireDue(at) => w.(store := LeaseStore.Expire(w.store, at))
    case CancelEverything(at) => w.(store := CancelAll(w.store, at).1)
    case CloseStore(at) => w.(store := Close(w.store, at).1)
  }
}
