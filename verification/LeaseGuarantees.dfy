/** What the attachment authority guarantees over every run. */
module LeaseGuarantees {
  import opened Outcomes
  import opened LeaseStore
  import opened LeaseSections
  import opened LeaseRuns
  import opened LeaseInvariant
  import opened LeaseSafety
  import opened LeaseClones

  /** A callback that ends finds its leases live; `EnabledMeansRunnable` shows that this always holds. */
  ghost predicate Runnable(w: World, e: Event) {
    Enabled(w, e) && (e.InspectorDone? || e.ConsumerDone? ==> AllLive(w.store, w.calls[e.call].manifest.body.leaseIds))
  }

  /** The world after a sequence of events; an event that cannot happen is skipped. */
  ghost function After(env: Env, events: seq<Event>): World {
    if events == [] then Start()
    else
      var w := After(env, events[..|events| - 1]);
      var e := events[|events| - 1];
      if Runnable(w, e) then Next(env, w, e) else w
  }

  lemma EnabledMeansRunnable(env: Env, events: seq<Event>, e: Event)
    requires Enabled(After(env, events), e)
    ensures Runnable(After(env, events), e)
  {
    AlwaysInv(env, events);
    hide Inv, After;
    if e.InspectorDone? || e.ConsumerDone? {
      HeldIsLive(env, After(env, events), e.call);
    }
  }

  lemma EnterKeepsInv(env: Env, w: World, c: nat)
    requires Inv(env, w) && c !in w.calls
    ensures Inv(env, w.(calls := w.calls[c := Entered]))
  {
    hide Inv;
    MoveKeepsInv(env, w, w.calls[c := Entered], c);
  }

  lemma NextKeepsInv(env: Env, w: World, e: Event)
    requires Inv(env, w) && Runnable(w, e)
    ensures Inv(env, Next(env, w, e))
  {
    hide Inv, AfterSelect, AfterPrepare, AfterPublish, AfterApprove, AfterInspect, AfterInspector, AfterConsume, AfterConsumer,
      AfterClone, AfterClonePrepares, AfterClonePublishes, AfterCloneAborts, AfterCloneCancels, CancelLease, CancelAll, Close,
      LeaseStore.Expire, AllLive, Nameable, Distinct;
    match e
    case Enter(c) => EnterKeepsInv(env, w, c);
    case Select(_, _, _, _, _, _) => SelectKeepsInv(env, w, e);
    case Prepare(_, _, _, _, _, _) => PrepareKeepsInv(env, w, e);
    case Publish(c) => PublishKeepsInv(env, w, c);
    case ApproveManifest(_, _, _, _) => ApproveKeepsInv(env, w, e);
    case Inspect(_, _, _, _) => InspectKeepsInv(env, w, e);
    case InspectorDone(_, _, _, _) => InspectorKeepsInv(env, w, e);
    case Consume(_, _, _, _, _) => ConsumeKeepsInv(env, w, e);
    case ConsumerDone(_, _, _, _) => ConsumerKeepsInv(env, w, e);
    case Clone(_, _, _, _, _, _) => CloneKeepsInv(env, w, e);
    case CloneEnters(c) => PhaseKeepsInv(env, w, c, if w.store.closed then Aborting else Opened);
    case ClonePrepares(_, _, _) => ClonePreparesKeepsInv(env, w, e);
    case ClonePublishes(c) => ClonePublishesKeepsInv(env, w, c);
    case CloneAborts(c) => CloneAbortsKeepsInv(env, w, c);
    case CloneCancels(c) => CloneCancelsKeepsInv(env, w, c);
    case Cancel(id, at) => CancelKeepsInv(env, w, id, at);
    case ExpireDue(at) => ExpireKeepsInv(env, w, at);
    case CancelEverything(at) => CancelAllKeepsInv(env, w, at);
    case CloseStore(at) => CloseKeepsInv(env, w, at);
  }

  lemma {:induction false} AlwaysInv(env: Env, events: seq<Event>)
    ensures Inv(env, After(env, events))
  {
    if events != [] {
      hide Next, Enabled, Inv;
      AlwaysInv(env, events[..|events| - 1]);
      var w, e := After(env, events[..|events| - 1]), events[|events| - 1];
      if Runnable(w, e) {
        NextKeepsInv(env, w, e);
      }
    }
  }

  // ----- One event -----

  /** The critical section that an event is, if it is one. */
  ghost function SectionOf(env: Env, w: World, e: Event): Option<Section>
    requires Runnable(w, e)
  {
    match e
    case Enter(_) => None
    case Select(_, id, attachment, content, at, ttl) =>
      if !TtlOk(ttl, env.maxLease) then None
      else Some(CommitSection(Record(Lease(id, Descriptor(attachment, env.inspect(content)), at, at + ttl), content, false)))
    case Prepare(_, ids, id, purpose, at, canonical) => Some(PrepareSection(ids, id, purpose, at, canonical))
    case Publish(c) => Some(PublishSection(w.calls[c].manifest, w.calls[c].purpose))
    case ApproveManifest(_, m, at, ttl) => Some(ApproveSection(m, at, ttl))
    case Inspect(_, m, at, intact) => Some(InspectSection(m, at, intact))
    case InspectorDone(c, ending, elapsed, intact) =>
      Some(InspectedSection(w.calls[c].manifest, ending, w.calls[c].at + elapsed, intact))
    case Consume(_, m, a, at, intact) => Some(ConsumeSection(m, a, at, intact))
    case ConsumerDone(c, ending, elapsed, intact) =>
      Some(ConsumedSection(w.calls[c].manifest, w.calls[c].approval, ending, w.calls[c].at + elapsed, intact))
    case Clone(_, m, at, ttl, names, intact) => Some(CloneSection(m, at, ttl, names, intact))
    case CloneEnters(_) => None
    case ClonePrepares(c, id, canonical) =>
      Some(PrepareSection(w.calls[c].names, id, w.calls[c].purpose, w.calls[c].at, canonical))
    case ClonePublishes(c) => Some(PublishSection(w.calls[c].phase.manifest, w.calls[c].purpose))
    case CloneAborts(c) => Some(AbortSection(w.calls[c].names, w.calls[c].at))
    case CloneCancels(c) =>
      var call := w.calls[c];
      if call.phase.cancelled >= |call.names| then None else Some(CancelSection(call.names[call.phase.cancelled], call.at))
    case Cancel(id, at) => Some(CancelSection(id, at))
    case ExpireDue(at) => Some(ExpireSection(at))
    case CancelEverything(at) => Some(CancelAllSection(at))
    case CloseStore(at) => Some(CloseSection(at))
  }

  lemma NewIsNew(env: Env, w: World, id: LeaseId)
    requires TablesOk(env, w.store, w.issued) && id !in w.issued
    ensures IsNew(w.store, id)
  {
    hide RecordOk, ReceiptOk;
  }

  /** What an event does to the tables, by the section it is. */
  ghost predicate IsSection(env: Env, w: World, e: Event)
    requires Runnable(w, e)
  {
    var x := SectionOf(env, w, e);
    Next(env, w, e).store == if x.None? then w.store else Do(env, w.store, x.value)
  }

  lemma CloneEventIsSection(env: Env, w: World, e: Event)
    requires Runnable(w, e)
    requires e.Clone? || e.CloneEnters? || e.ClonePrepares? || e.ClonePublishes? || e.CloneAborts? || e.CloneCancels?
    requires e.Clone? ==> forall id :: id in e.names ==> IsNew(w.store, id)
    ensures IsSection(env, w, e)
  {
    hide Inserted, Continued, CloneLeases, PrepareManifest, PublishManifest, Approve, BeginInspection, BeginConsumption,
      EndInspection, EndConsumption, CancelLease, LeaseStore.Expire, CancelAll, Close, Nameable, Cleaned, Distinct, IsNew, CommitSelection;
  }

  lemma CallbackIsSection(env: Env, w: World, e: Event)
    requires Runnable(w, e) && (e.Inspect? || e.InspectorDone? || e.Consume? || e.ConsumerDone?)
    ensures IsSection(env, w, e)
  {
    hide Inserted, Continued, CloneLeases, PrepareManifest, PublishManifest, Approve, BeginInspection, BeginConsumption,
      EndInspection, EndConsumption, CancelLease, LeaseStore.Expire, CancelAll, Close, Nameable, Cleaned, Distinct, IsNew, CommitSelection;
  }

  lemma OtherIsSection(env: Env, w: World, e: Event)
    requires Runnable(w, e)
    requires e.Enter? || e.Prepare? || e.Publish? || e.ApproveManifest? || e.Cancel? || e.ExpireDue? || e.CancelEverything? || e.CloseStore?
    ensures IsSection(env, w, e)
  {
    hide Inserted, Continued, CloneLeases, PrepareManifest, PublishManifest, Approve, BeginInspection, BeginConsumption,
      EndInspection, EndConsumption, CancelLease, LeaseStore.Expire, CancelAll, Close, Nameable, Cleaned, Distinct, IsNew, CommitSelection;
  }

  /** An event does to the tables what its section does. */
  lemma NextIsSection(env: Env, w: World, e: Event)
    requires Inv(env, w) && Runnable(w, e)
    ensures IsSection(env, w, e)
  {
    hide Inv, TablesOk, IsNew, IsSection;
    InvTables(env, w);
    if e.Select? {
      NewIsNew(env, w, e.id);
      SelectIsSection(env, w, e);
    } else if e.Clone? || e.CloneEnters? || e.ClonePrepares? || e.ClonePublishes? || e.CloneAborts? || e.CloneCancels? {
      if e.Clone? {
        forall id | id in e.names
          ensures IsNew(w.store, id)
        {
          NewIsNew(env, w, id);
        }
      }
      hide Enabled;
      CloneEventIsSection(env, w, e);
    } else if e.Inspect? || e.InspectorDone? || e.Consume? || e.ConsumerDone? {
      CallbackIsSection(env, w, e);
    } else {
      OtherIsSection(env, w, e);
    }
  }

  lemma SelectIsSection(env: Env, w: World, e: Event)
    requires e.Select? && Runnable(w, e) && IsNew(w.store, e.id)
    ensures IsSection(env, w, e)
  {
    hide IsNew;
  }

  lemma NextKeeps(env: Env, w: World, e: Event)
    requires Inv(env, w) && Runnable(w, e)
    ensures Keeps(w.store, Next(env, w, e).store)
  {
    hide Inv, Next, Enabled, Do, SectionOf, TablesOk, Keeps;
    NextIsSection(env, w, e);
    assert IsSection(env, w, e);
    InvTables(env, w);
    TablesAreDisjoint(env, w);
    var x := SectionOf(env, w, e);
    if x.None? {
      RestKeeps(w.store, w.store);
    } else {
      DoKeeps(env, w.store, x.value);
    }
  }

  lemma TablesAreDisjoint(env: Env, w: World)
    requires TablesOk(env, w.store, w.issued)
    ensures Disjoint(w.store)
  {
    hide RecordOk, ReceiptOk;
  }

  /** The critical sections of a run, in order. */
  ghost function SectionsOf(env: Env, events: seq<Event>): seq<Section> {
    if events == [] then []
    else
      var w := After(env, events[..|events| - 1]);
      var e := events[|events| - 1];
      var before := SectionsOf(env, events[..|events| - 1]);
      if !Runnable(w, e) || SectionOf(env, w, e).None? then before else before + [SectionOf(env, w, e).value]
  }

  /** The tables after any run are those that its critical sections make of an empty store, one after the other. */
  lemma {:induction false} RunIsSections(env: Env, events: seq<Event>)
    ensures After(env, events).store == DoAll(env, EMPTY, SectionsOf(env, events))
  {
    if events != [] {
      hide Next, Enabled, Inv, Do, SectionOf;
      var n := |events| - 1;
      RunIsSections(env, events[..n]);
      AlwaysInv(env, events[..n]);
      var w, e, before := After(env, events[..n]), events[n], SectionsOf(env, events[..n]);
      if Runnable(w, e) {
        NextIsSection(env, w, e);
        if SectionOf(env, w, e).Some? {
          assert (before + [SectionOf(env, w, e).value])[..|before|] == before;
        }
      }
    }
  }

  /** Nothing issued is ever issued again or altered in the record. */
  lemma NextIssues(env: Env, w: World, e: Event)
    requires Inv(env, w) && Runnable(w, e)
    ensures forall id :: id in w.issued ==> id in Next(env, w, e).issued && Next(env, w, e).issued[id] == w.issued[id]
  {
    hide Inv, Inserted, Continued, CloneLeases, PrepareManifest, PublishManifest, Approve, BeginInspection, BeginConsumption,
      EndInspection, EndConsumption, CancelLease, LeaseStore.Expire, CancelAll, Close, AllLive, Nameable, Cleaned;
    if e.Clone? {
      var (result, t) := CloneLeases(env, w.store, e.manifest, e.at, e.ttl, e.names, e.intact);
      if result.Success? {
        CloneOutcome(env, w.store, e.manifest, e.at, e.ttl, e.names, e.intact);
        InsertedExtends(w.issued, result.value.1, e.names);
        assert forall id :: id in Elements(e.names) ==> id !in w.issued;
      }
    }
  }

  /** An event moves only its own call. */
  lemma NextMoves(env: Env, w: World, e: Event, c: nat)
    requires Runnable(w, e) && c in w.calls && (w.calls[c].Inspecting? || w.calls[c].Consuming?)
    requires !(e.InspectorDone? && e.call == c) && !(e.ConsumerDone? && e.call == c)
    ensures c in Next(env, w, e).calls && Next(env, w, e).calls[c] == w.calls[c]
  {
    hide Inserted, Continued, CloneLeases, PrepareManifest, PublishManifest, Approve, BeginInspection, BeginConsumption,
      EndInspection, EndConsumption, CancelLease, LeaseStore.Expire, CancelAll, Close, AllLive, Nameable, Cleaned, Elements,
      Distinct, TtlOk;
    if !(e.Cancel? || e.ExpireDue? || e.CancelEverything? || e.CloseStore?) {
      assert e.call != c;
      hide Enabled;
    }
  }

  /**
   * While a callback runs, no event but its own end touches its leases: not cancel, expire, clone, close or
   * another call.
   */
  lemma ReservedIsUntouched(env: Env, w: World, e: Event, c: nat, id: LeaseId)
    requires Inv(env, w) && Runnable(w, e) && id in Held(w.calls, c)
    requires !(e.InspectorDone? && e.call == c) && !(e.ConsumerDone? && e.call == c)
    ensures var v := Next(env, w, e);
            && id in Held(v.calls, c)
            && id in w.store.leases && id in v.store.leases
            && w.store.leases[id].consuming && v.store.leases[id] == w.store.leases[id]
  {
    hide Inv, Next, Enabled, TablesOk;
    var v := Next(env, w, e);
    NextKeepsInv(env, w, e);
    NextIssues(env, w, e);
    NextMoves(env, w, e, c);
    HeldRecord(env, w, c, id);
    HeldRecord(env, v, c, id);
  }

  lemma HeldRecord(env: Env, w: World, c: nat, id: LeaseId)
    requires Inv(env, w) && id in Held(w.calls, c)
    ensures id in w.issued && id in w.store.leases && w.store.leases[id] == w.issued[id].(consuming := true)
  {
    hide DeliveredOk, ClonesOk, NoLeak, LineageOk, ApprovalsOk, CompletedOk, ManifestsOk, Held, RecordOk, ReceiptOk;
  }

  /** A reserved lease's payload never reads back changed: only its source file can be the reason for a rejection. */
  lemma PayloadsStayIntact(env: Env, w: World, ids: seq<LeaseId>, intact: set<LeaseId>)
    requires Inv(env, w) && forall id :: id in ids ==> id in w.store.leases
    ensures Rejection(env, w.store, ids, intact) == if forall id :: id in ids ==> id in intact then None else Some(FileChanged)
  {
    forall id | id in ids
      ensures PayloadIntact(env, w.store.leases[id])
    {
      hide HeldOk, DeliveredOk, ClonesOk, NoLeak, LineageOk, ApprovalsOk, CompletedOk, ManifestsOk, ReceiptOk;
      assert w.store.leases[id].(consuming := false) == w.issued[id];
      assert RecordOk(env, id, w.issued[id]);
    }
    OnlyTheFileIsRejected(env, w.store, ids, intact);
  }

  /** However a consumer ends, each of its leases is terminal from then on, in the state that says how it ended. */
  lemma ConsumptionIsFinal(env: Env, w: World, e: Event, id: LeaseId)
    requires Inv(env, w) && e.ConsumerDone? && Runnable(w, e) && id in Held(w.calls, e.call)
    ensures var v := Next(env, w, e);
            var call := w.calls[e.call];
            var completedAt := call.at + e.elapsed;
            && id !in v.store.leases && id in v.store.terminal
            && v.store.terminal[id].cleanedAt == completedAt
            && v.store.terminal[id].state ==
               (if e.ending == Raised then ConsumerFailed
                else if completedAt >= call.manifest.body.expiresAt || completedAt >= call.approval.expiresAt then Expired
                else if forall x :: x in call.manifest.body.leaseIds ==> x in e.intact then Consumed
                else IntegrityRejected)
  {
    hide Inv, Rejection, TablesOk, Cleaned, Elements;
    var call := w.calls[e.call];
    var ids, at := call.manifest.body.leaseIds, call.at + e.elapsed;
    HeldRecord(env, w, e.call, id);
    PayloadsStayIntact(env, w, ids, e.intact);
    var state := EndConsumptionOutcome(env, w.store, call.manifest, call.approval, e.ending, at, e.intact);
    assert Next(env, w, e).store == Cleaned(w.store, Elements(ids), state, at);
    CleanedReceipt(w.store, Elements(ids), state, at, id);
  }

  lemma CleanedReceipt(s: Store, ids: set<LeaseId>, state: TerminalState, at: int, id: LeaseId)
    requires id in ids && id in s.leases
    ensures var t := Cleaned(s, ids, state, at);
            id !in t.leases && id in t.terminal && t.terminal[id].state == state && t.terminal[id].cleanedAt == at
  {
  }

  /**
   * A callback starts exactly for a valid, bound and unexpired approval of live, unreserved, unexpired and
   * unchanged leases.
   */
  lemma ConsumptionStartsIff(env: Env, w: World, m: Manifest, a: Approval, at: int, intact: set<LeaseId>)
    requires Inv(env, w)
    ensures BeginConsumption(env, w.store, m, a, at, intact).0.Success? <==>
            && ManifestOk(env, m) && ApprovalOk(a) && Binds(a, m)
            && a.approvedAt <= at < a.expiresAt && at < m.body.expiresAt
            && ReadyFor(w, m, at) && forall id :: id in m.body.leaseIds ==> id in intact
  {
    hide Inv, ManifestOk, ApprovalOk, Binds;
    ReserveSucceedsIff(env, w, m, at, intact);
    hide Reserve, Cleaned, ReadyFor;
  }

  /** The manifest's leases are live, unreserved and unexpired, and are the ones that it describes. */
  ghost predicate ReadyFor(w: World, m: Manifest, at: int) {
    && |m.body.attachments| == |m.body.leaseIds|
    && forall i :: 0 <= i < |m.body.leaseIds| ==>
         Active(w.store, m.body.leaseIds[i], at) && w.store.leases[m.body.leaseIds[i]].lease.descriptor == m.body.attachments[i]
  }

  lemma ReserveSucceedsIff(env: Env, w: World, m: Manifest, at: int, intact: set<LeaseId>)
    requires Inv(env, w)
    ensures Reserve(env, w.store, m, at, intact).0.Success? <==>
            ReadyFor(w, m, at) && forall id :: id in m.body.leaseIds ==> id in intact
  {
    hide Inv, Activate, Cleaned, Marked, Rejection, Payloads;
    var ids := m.body.leaseIds;
    ActivateOutcome(w.store, ids, at);
    assert forall i :: 0 <= i < |ids| ==> ids[i] in ids;
    if forall id :: id in ids ==> Active(w.store, id, at) {
      PayloadsStayIntact(env, w, ids, intact);
      if ReadyFor(w, m, at) {
        assert Descriptors(w.store, ids) == m.body.attachments;
      }
      if Descriptors(w.store, ids) == m.body.attachments {
        assert forall i :: 0 <= i < |ids| ==> Descriptors(w.store, ids)[i] == m.body.attachments[i];
      }
    }
  }

  /** A terminal lease is refused by everything that takes lease ids, for ever after. */
  lemma TerminalIsRefused(env: Env, w: World, id: LeaseId, m: Manifest, a: Approval, at: int, intact: set<LeaseId>)
    requires id in w.store.terminal && id in m.body.leaseIds
    ensures CancelLease(w.store, id, at).0 == Some(LeaseTerminal)
    ensures BeginConsumption(env, w.store, m, a, at, intact).0.Failure? && BeginInspection(env, w.store, m, at, intact).0.Failure?
    ensures forall ttl :: Approve(env, w.store, m, at, ttl).0.Failure?
    ensures forall ttl, names :: |names| == |m.body.leaseIds| ==> CloneLeases(env, w.store, m, at, ttl, names, intact).0.Failure?
    ensures forall other, purpose, canonical :: PrepareManifest(env, w.store, m.body.leaseIds, other, purpose, at, canonical).0.Failure?
  {
    hide Activate, Cleaned, ReserveActive, CloneActive, Draft, ManifestOk, ApprovalOk, Binds;
    ActivateOutcome(w.store, m.body.leaseIds, at);
    assert !Active(w.store, id, at);
  }

  /** Expiring destroys exactly the unreserved leases that are due, and leaves no other trace. */
  lemma ExpireIsExact(env: Env, w: World, at: int, id: LeaseId)
    requires Inv(env, w) && id in w.store.leases
    ensures var r, t := w.store.leases[id], LeaseStore.Expire(w.store, at);
            if at < r.lease.expiresAt || r.consuming then id in t.leases && t.leases[id] == r && id !in t.terminal
            else id !in t.leases && id in t.terminal && t.terminal[id] == Receipt(id, r.lease.descriptor, Expired, |r.content|, at)
  {
    InvTables(env, w);
    hide Inv, RecordOk, ReceiptOk;
    NotTerminal(env, w, id);
    RecordsAreNamed(env, w, id);
    hide TablesOk;
  }

  lemma RecordsAreNamed(env: Env, w: World, id: LeaseId)
    requires TablesOk(env, w.store, w.issued) && id in w.store.leases
    ensures w.store.leases[id].lease.id == id
  {
    assert w.store.leases[id].(consuming := false) == w.issued[id];
    assert RecordOk(env, id, w.issued[id]);
  }

  /** Closing succeeds exactly when no callback is running, and then nothing is left. */
  lemma CloseSucceedsIff(env: Env, w: World, at: int)
    requires Inv(env, w) && !w.store.closed
    ensures var (problem, t) := Close(w.store, at);
            && (problem == None <==> forall c :: Held(w.calls, c) == {})
            && (problem == None ==> t.closed && t.leases == map[] && t.purposes == map[] && t.terminal.Keys == w.issued.Keys)
            && (problem != None ==> t == w.store)
  {
    hide DeliveredOk, ClonesOk, NoLeak, LineageOk, ApprovalsOk, CompletedOk, ManifestsOk, Held, RecordOk, ReceiptOk;
    if AnyReserved(w.store) {
      var id :| id in w.store.leases && w.store.leases[id].consuming;
      var c :| id in Held(w.calls, c);
      assert Held(w.calls, c) != {};
    } else {
      forall c
        ensures Held(w.calls, c) == {}
      {
        HeldMeansReserved(env, w, c);
      }
    }
  }

  lemma HeldMeansReserved(env: Env, w: World, c: nat)
    requires Inv(env, w)
    ensures Held(w.calls, c) != {} ==> AnyReserved(w.store)
  {
    hide Inv, Held;
    if Held(w.calls, c) != {} {
      var id :| id in Held(w.calls, c);
      HeldRecord(env, w, c, id);
    }
  }

  // ----- Whole runs -----

  /** The issued ids are the disjoint union of the live and terminal ones, and a receipt records the released length. */
  lemma LeasesAreConserved(env: Env, events: seq<Event>)
    ensures var w := After(env, events);
            && w.issued.Keys == w.store.leases.Keys + w.store.terminal.Keys
            && w.store.leases.Keys !! w.store.terminal.Keys
            && (forall id :: id in w.store.terminal ==>
                  w.store.terminal[id].lease == id && w.store.terminal[id].released == |w.issued[id].content| >= 1)
            && (forall id :: id in w.store.leases ==> w.store.leases[id].content == w.issued[id].content)
  {
    AlwaysInv(env, events);
    InvTables(env, After(env, events));
    hide After, Inv, PayloadIntact;
    var w := After(env, events);
    forall id | id in w.store.terminal
      ensures id in w.issued && w.store.terminal[id].lease == id && w.store.terminal[id].released == |w.issued[id].content| >= 1
    {
      assert RecordOk(env, id, w.issued[id]);
    }
    forall id | id in w.store.leases
      ensures id in w.issued && w.store.leases[id].content == w.issued[id].content
    {
      assert w.store.leases[id].(consuming := false) == w.issued[id];
    }
  }

  /** Receipts and issued records never change, and once closed the authority stays closed, without leases or purposes. */
  lemma {:induction false} HistoryIsPermanent(env: Env, earlier: seq<Event>, later: seq<Event>)
    ensures var w, v := After(env, earlier), After(env, earlier + later);
            && ReceiptsStay(w.store.terminal, v.store.terminal)
            && (forall id :: id in w.issued ==> id in v.issued && v.issued[id] == w.issued[id])
            && (w.store.closed ==> v.store.closed && v.store.leases == map[] && v.store.purposes == map[])
    decreases |later|
  {
    hide Inv, TablesOk, Next, Enabled;
    AlwaysInv(env, earlier + later);
    InvTables(env, After(env, earlier + later));
    if later == [] {
      assert earlier + later == earlier;
      ClosedIsEmpty(env, After(env, earlier));
    } else {
      var n := |later| - 1;
      HistoryIsPermanent(env, earlier, later[..n]);
      assert (earlier + later)[..|earlier + later| - 1] == earlier + later[..n];
      AlwaysInv(env, earlier + later[..n]);
      var u, e := After(env, earlier + later[..n]), later[n];
      if Runnable(u, e) {
        NextKeeps(env, u, e);
        NextIssues(env, u, e);
      }
      ClosedIsEmpty(env, After(env, earlier + later));
    }
  }

  lemma ClosedIsEmpty(env: Env, w: World)
    requires TablesOk(env, w.store, w.issued)
    ensures w.store.closed ==> w.store.leases == map[] && w.store.purposes == map[]
  {
    hide RecordOk, ReceiptOk;
  }

  /**
   * No lease reaches a consumer twice, and what reaches it are the bytes that the operator selected, through
   * any number of clones.
   */
  lemma DeliveredAtMostOnce(env: Env, events: seq<Event>)
    ensures var w := After(env, events);
            && (forall i, j :: 0 <= i < j < |w.delivered| ==> w.delivered[i].0 != w.delivered[j].0)
            && (forall i :: 0 <= i < |w.delivered| ==>
                  var (id, bytes) := w.delivered[i];
                  id in w.lineage && w.lineage[id] != [] && w.lineage[id][0] in w.issued && bytes == w.issued[w.lineage[id][0]].content)
  {
    AlwaysInv(env, events);
    var w := After(env, events);
    hide After, TablesOk, HeldOk, ClonesOk, NoLeak, ApprovalsOk, CompletedOk, ManifestsOk;
    forall i | 0 <= i < |w.delivered|
      ensures var (id, bytes) := w.delivered[i];
              id in w.lineage && w.lineage[id] != [] && w.lineage[id][0] in w.issued && bytes == w.issued[w.lineage[id][0]].content
    {
      var id := w.delivered[i].0;
      assert LineOk(w.issued, w.lineage, id);
    }
  }

  /** At most one callback has a lease, and it has it exactly while the lease is flagged. */
  lemma OneCallbackPerLease(env: Env, events: seq<Event>)
    ensures var w := After(env, events);
            && (forall c, d, id :: id in Held(w.calls, c) && id in Held(w.calls, d) ==> c == d)
            && (forall id :: id in w.store.leases ==> (w.store.leases[id].consuming <==> exists c :: id in Held(w.calls, c)))
  {
    AlwaysInv(env, events);
    hide After, TablesOk, DeliveredOk, ClonesOk, NoLeak, LineageOk, ApprovalsOk, CompletedOk, ManifestsOk, Held;
  }

  /** A clone does not outlive any lease of its line, and carries the same payload. */
  lemma ClonesNest(env: Env, events: seq<Event>, id: LeaseId, k: nat)
    requires var w := After(env, events); id in w.lineage && k < |w.lineage[id]|
    ensures var w := After(env, events);
            var ancestor := w.lineage[id][k];
            && id in w.issued && ancestor in w.issued && ancestor in w.lineage && w.lineage[ancestor] == w.lineage[id][..k + 1]
            && w.issued[id].lease.expiresAt <= w.issued[ancestor].lease.expiresAt
            && w.issued[id].content == w.issued[ancestor].content
  {
    AlwaysInv(env, events);
    InvLineage(env, After(env, events));
    hide After, Inv;
    var w := After(env, events);
    assert LineOk(w.issued, w.lineage, id);
  }

  /**
   * The authority's manifests outlive none of their leases, nor those the leases were cloned from; its
   * approvals none of their manifests.
   */
  lemma ExpiriesNest(env: Env, events: seq<Event>, m: Manifest, id: LeaseId, k: nat)
    requires var w := After(env, events); m in w.made && id in m.body.leaseIds && id in w.lineage && k < |w.lineage[id]|
    ensures var w := After(env, events);
            && w.lineage[id][k] in w.issued
            && m.body.expiresAt <= w.issued[w.lineage[id][k]].lease.expiresAt
            && forall a :: (m, a) in w.approvals ==> a.expiresAt <= m.body.expiresAt
  {
    AlwaysInv(env, events);
    ClonesNest(env, events, id, k);
    var w := After(env, events);
    hide After, TablesOk, HeldOk, DeliveredOk, ClonesOk, NoLeak, LineageOk, CompletedOk;
    assert Nested(w.issued, m);
    var i :| 0 <= i < |m.body.leaseIds| && m.body.leaseIds[i] == id;
  }

  // ----- Made-up manifests and approvals -----

  /** The consumer that call `c` runs ends now, after `elapsed`, and the consumption is reported as a success. */
  ghost predicate Completes(env: Env, w: World, c: nat, elapsed: nat, intact: set<LeaseId>) {
    var e := ConsumerDone(c, Returned, elapsed, intact);
    Runnable(w, e) && |Next(env, w, e).completed| > |w.completed|
  }

  /** The lease had expired at `at`. */
  ghost predicate Overdue(issued: map<LeaseId, Record>, m: Manifest, at: int) {
    exists id :: id in m.body.leaseIds && id in issued && issued[id].lease.expiresAt <= at
  }

  /** What the code checks when a consumer ends: the files, and the expiries written in the manifest and the approval. */
  lemma CompletesIff(env: Env, w: World, c: nat, elapsed: nat, intact: set<LeaseId>)
    requires Inv(env, w) && c in w.calls && w.calls[c].Consuming?
    ensures var call := w.calls[c];
            Completes(env, w, c, elapsed, intact) <==>
            && call.at + elapsed < Least(call.manifest.body.expiresAt, call.approval.expiresAt)
            && forall id :: id in call.manifest.body.leaseIds ==> id in intact
  {
    hide Inv, Rejection, Cleaned, Elements, EndConsumption;
    var call := w.calls[c];
    HeldIsLive(env, w, c);
    HeldByConsumer(w, c);
    PayloadsStayIntact(env, w, call.manifest.body.leaseIds, intact);
    var state := EndConsumptionOutcome(env, w.store, call.manifest, call.approval, Returned, call.at + elapsed, intact);
    CompletesWhenConsumed(env, w, c, elapsed, intact, state);
    hide Completes;
  }

  lemma CompletesWhenConsumed(env: Env, w: World, c: nat, elapsed: nat, intact: set<LeaseId>, state: TerminalState)
    requires c in w.calls && w.calls[c].Consuming? && AllLive(w.store, w.calls[c].manifest.body.leaseIds)
    requires var call := w.calls[c];
             EndConsumption(env, w.store, call.manifest, call.approval, Returned, call.at + elapsed, intact).0 == None <==> state == Consumed
    ensures Completes(env, w, c, elapsed, intact) <==> state == Consumed
  {
    hide EndConsumption, AllLive;
    var e := ConsumerDone(c, Returned, elapsed, intact);
    assert Next(env, w, e) == AfterConsumer(env, w, e);
  }

  /** One of the manifest's leases expires before both the manifest and the approval do. */
  ghost predicate Outlived(issued: map<LeaseId, Record>, m: Manifest, a: Approval) {
    Overdue(issued, m, Least(m.body.expiresAt, a.expiresAt) - 1)
  }

  lemma OverrunPossible(env: Env, w: World, c: nat) returns (elapsed: nat, intact: set<LeaseId>)
    requires Inv(env, w) && c in w.calls && w.calls[c].Consuming?
    requires Outlived(w.issued, w.calls[c].manifest, w.calls[c].approval)
    ensures Completes(env, w, c, elapsed, intact) && Overdue(w.issued, w.calls[c].manifest, w.calls[c].at + elapsed)
  {
    hide Inv, Completes, Overdue;
    var call := w.calls[c];
    ConsumerIsBound(env, w, c);
    elapsed := Least(call.manifest.body.expiresAt, call.approval.expiresAt) - 1 - call.at;
    intact := Elements(call.manifest.body.leaseIds);
    CompletesIff(env, w, c, elapsed, intact);
  }

  lemma OverrunNeedsOutliving(env: Env, w: World, c: nat, elapsed: nat, intact: set<LeaseId>)
    requires Inv(env, w) && c in w.calls && w.calls[c].Consuming?
    requires Completes(env, w, c, elapsed, intact) && Overdue(w.issued, w.calls[c].manifest, w.calls[c].at + elapsed)
    ensures Outlived(w.issued, w.calls[c].manifest, w.calls[c].approval)
  {
    hide Inv, Completes;
    CompletesIff(env, w, c, elapsed, intact);
  }

  /**
   * For any manifest and approval, made up or not: a consumption in flight can succeed after one of its leases expired
   * exactly when one of them expires before both the manifest and the approval do.
   */
  lemma OverrunIff(env: Env, events: seq<Event>, c: nat)
    requires c in After(env, events).calls && After(env, events).calls[c].Consuming?
    ensures var w := After(env, events);
            var call := w.calls[c];
            (exists elapsed, intact :: Completes(env, w, c, elapsed, intact) && Overdue(w.issued, call.manifest, call.at + elapsed)) <==>
            Outlived(w.issued, call.manifest, call.approval)
  {
    hide After, Inv, Completes, Overdue, Outlived;
    AlwaysInv(env, events);
    var w := After(env, events);
    if Outlived(w.issued, w.calls[c].manifest, w.calls[c].approval) {
      var elapsed, intact := OverrunPossible(env, w, c);
    }
    if elapsed, intact :| Completes(env, w, c, elapsed, intact) && Overdue(w.issued, w.calls[c].manifest, w.calls[c].at + elapsed) {
      OverrunNeedsOutliving(env, w, c, elapsed, intact);
    }
  }

  /** Every success was in time for each lease that does not expire before both the manifest and the approval, and for its line. */
  lemma CompletedInTime(env: Env, events: seq<Event>, i: nat, id: LeaseId, k: nat)
    requires var w := After(env, events);
             i < |w.completed| && id in w.completed[i].manifest.body.leaseIds && id in w.lineage && k < |w.lineage[id]|
             && id in w.issued
             && Least(w.completed[i].manifest.body.expiresAt, w.completed[i].approval.expiresAt) <= w.issued[id].lease.expiresAt
    ensures var w := After(env, events);
            && w.lineage[id][k] in w.issued
            && w.completed[i].completedAt < w.issued[w.lineage[id][k]].lease.expiresAt
            && id in w.store.terminal && w.store.terminal[id].state == Consumed
  {
    AlwaysInv(env, events);
    ClonesNest(env, events, id, k);
    var w := After(env, events);
    hide After, TablesOk, HeldOk, DeliveredOk, ClonesOk, NoLeak, LineageOk, ApprovalsOk, ManifestsOk;
    assert CompletionOk(w.store.terminal, w.completed[i]);
  }

  /** A consumption that succeeds with one of the authority's manifests ends before any lease of any line expires. */
  lemma ConsumedInTime(env: Env, events: seq<Event>, i: nat, id: LeaseId, k: nat)
    requires var w := After(env, events);
             i < |w.completed| && w.completed[i].manifest in w.made && id in w.completed[i].manifest.body.leaseIds
             && id in w.lineage && k < |w.lineage[id]|
    ensures var w := After(env, events);
            && w.lineage[id][k] in w.issued
            && w.completed[i].completedAt < w.issued[w.lineage[id][k]].lease.expiresAt
            && id in w.store.terminal && w.store.terminal[id].state == Consumed
  {
    hide After;
    LineEndsHere(env, events, id);
    var w := After(env, events);
    ExpiriesNest(env, events, w.completed[i].manifest, id, |w.lineage[id]| - 1);
    CompletedInTime(env, events, i, id, k);
  }

  lemma LineEndsHere(env: Env, events: seq<Event>, id: LeaseId)
    requires id in After(env, events).lineage
    ensures var w := After(env, events); var line := w.lineage[id]; line != [] && line[|line| - 1] == id && id in w.issued
  {
    hide After, Inv;
    AlwaysInv(env, events);
    InvLineage(env, After(env, events));
    assert LineOk(After(env, events).issued, After(env, events).lineage, id);
  }

  /** One lease that expires at 10, and a manifest and an approval for it that a caller wrote, expiring at 100. */
  function MadeUpManifest(env: Env): Manifest {
    var body := ManifestBody(ManifestId(0), "", [LeaseId(0)], [Descriptor("a", env.inspect([0]))], 0, 100);
    Manifest(body, env.manifestDigest(body))
  }

  function MadeUpApproval(env: Env): Approval {
    Approval(ManifestId(0), MadeUpManifest(env).sha, [LeaseId(0)], 0, 100)
  }

  function MadeUpRun(env: Env): seq<Event> {
    [Enter(0), Select(0, LeaseId(0), "a", [0], 0, 10), Enter(0), Consume(0, MadeUpManifest(env), MadeUpApproval(env), 5, {LeaseId(0)})]
  }

  /** Leases, manifest and approval of the run below satisfy every check at its start. */
  lemma MadeUpIsAccepted(env: Env, s: Store)
    requires s.leases == map[LeaseId(0) := Record(Lease(LeaseId(0), Descriptor("a", env.inspect([0])), 0, 10), [0], false)]
    requires s.terminal == map[]
    ensures BeginConsumption(env, s, MadeUpManifest(env), MadeUpApproval(env), 5, {LeaseId(0)}).0.Success?
  {
    var m := MadeUpManifest(env);
    var ids := m.body.leaseIds;
    assert ids[1..] == [];
    assert Activate(s, ids, 5) == (None, s);
    assert Descriptors(s, ids) == m.body.attachments;
    assert Rejection(env, s, ids, {LeaseId(0)}) == None;
  }

  lemma AfterOneMore(env: Env, events: seq<Event>, e: Event)
    requires Enabled(After(env, events), e)
    ensures Runnable(After(env, events), e) && After(env, events + [e]) == Next(env, After(env, events), e)
  {
    EnabledMeansRunnable(env, events, e);
    assert (events + [e])[..|events|] == events;
    hide Next, Enabled;
  }

  lemma MadeUpStarts(env: Env)
    requires env.maxLease >= 10
    ensures var w := After(env, MadeUpRun(env));
            && w.calls == map[0 := Consuming(MadeUpManifest(env), MadeUpApproval(env), 5)]
            && LeaseId(0) in w.issued && w.issued[LeaseId(0)].lease.expiresAt == 10
  {
    var run := MadeUpRun(env);
    assert After(env, []) == Start();
    AfterOneMore(env, [], run[0]);
    assert [] + [run[0]] == run[..1];
    AfterOneMore(env, run[..1], run[1]);
    assert run[..1] + [run[1]] == run[..2];
    AfterOneMore(env, run[..2], run[2]);
    assert run[..2] + [run[2]] == run[..3];
    var w := After(env, run[..3]);
    assert w.store.leases == map[LeaseId(0) := Record(Lease(LeaseId(0), Descriptor("a", env.inspect([0])), 0, 10), [0], false)];
    AfterOneMore(env, run[..3], run[3]);
    assert run[..3] + [run[3]] == run;
    MadeUpIsAccepted(env, w.store);
    hide BeginConsumption, After, MadeUpManifest, MadeUpApproval;
  }

  /** A caller's own manifest and approval let a consumption succeed at 99 on a lease that expired at 10. */
  lemma MadeUpManifestOverruns(env: Env)
    requires env.maxLease >= 10
    ensures var w := After(env, MadeUpRun(env));
            && LeaseId(0) in w.issued && w.issued[LeaseId(0)].lease.expiresAt == 10
            && 0 in w.calls && w.calls[0] == Consuming(MadeUpManifest(env), MadeUpApproval(env), 5)
            && Completes(env, w, 0, 94, {LeaseId(0)})
  {
    hide After, Inv, Completes, MadeUpRun;
    MadeUpStarts(env);
    AlwaysInv(env, MadeUpRun(env));
    CompletesIff(env, After(env, MadeUpRun(env)), 0, 94, {LeaseId(0)});
  }

  /** When no call is in flight, every live lease is one that a caller was given. */
  lemma NothingLeaks(env: Env, events: seq<Event>)
    requires After(env, events).calls == map[]
    ensures var w := After(env, events); forall id :: id in w.store.leases ==> id in w.published && !w.store.leases[id].consuming
  {
    AlwaysInv(env, events);
    hide After, TablesOk, DeliveredOk, ClonesOk, LineageOk, ApprovalsOk, CompletedOk, ManifestsOk;
  }
}
