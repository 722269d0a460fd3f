/** Every event of the attachment authority keeps the invariant. */
module LeaseSafety {
  import opened Outcomes
  import opened LeaseStore
  import opened LeaseRuns
  import opened LeaseInvariant

  // ----- A call moves on, the tables stay -----

  lemma MoveHeld(w: World, after: map<nat, Call>, c: nat)
    requires HeldOk(w.store.leases, w.calls, w.published) && DeliveredOk(w.delivered, w.store.terminal, w.calls, w.issued)
    requires SameElsewhere(w.calls, after, c) && Held(w.calls, c) == {} && Held(after, c) == {}
    ensures HeldOk(w.store.leases, after, w.published) && DeliveredOk(w.delivered, w.store.terminal, after, w.issued)
  {
    assert w.store.leases - {} == w.store.leases;
    DestroyHeld(w.store.leases, w.calls, after, w.published, c, {});
    DestroyDelivered(w, after, w.store.terminal, c);
  }

  lemma MoveOwned(w: World, after: map<nat, Call>, c: nat)
    requires ClonesOk(w.store.leases, w.issued, w.calls, w.published) && NoLeak(w.store.leases, w.issued, w.calls, w.published)
    requires SameElsewhere(w.calls, after, c) && Owned(after, c) == Owned(w.calls, c)
    requires c in after && after[c].Cloning? ==> CloneOk(w.store.leases, after[c])
    ensures ClonesOk(w.store.leases, w.issued, after, w.published) && NoLeak(w.store.leases, w.issued, after, w.published)
  {
    hide CloneOk;
    assert w.store.leases - {} == w.store.leases;
    DestroyClones(w, after, c, {});
    DestroyNoLeak(w, after, c, {});
  }

  lemma MoveKeepsInv(env: Env, w: World, after: map<nat, Call>, c: nat)
    requires Inv(env, w) && SameElsewhere(w.calls, after, c)
    requires Held(w.calls, c) == {} && Held(after, c) == {} && Owned(after, c) == Owned(w.calls, c)
    requires c in after && after[c].Cloning? ==> CloneOk(w.store.leases, after[c])
    requires c in after && Drafted(after[c]).Some? ==> Nested(w.issued, Drafted(after[c]).value)
    requires c in after ==> !after[c].Consuming?
    ensures Inv(env, w.(calls := after))
  {
    hide TablesOk, HeldOk, DeliveredOk, ClonesOk, NoLeak, LineageOk, ApprovalsOk, CompletionOk, CloneOk, Nested;
    MoveHeld(w, after, c);
    MoveOwned(w, after, c);
  }

  /** A call that holds and owns nothing ends. */
  lemma EndKeepsInv(env: Env, w: World, c: nat)
    requires Inv(env, w) && Held(w.calls, c) == {} && Owned(w.calls, c) == {}
    ensures Inv(env, Finish(w, c, w.store))
  {
    hide Inv;
    MoveKeepsInv(env, w, w.calls - {c}, c);
  }

  // ----- Leases destroyed on behalf of callers -----

  lemma {:induction false} Bound(keys: set<nat>) returns (bound: nat)
    ensures forall k :: k in keys ==> k < bound
  {
    if keys == {} {
      bound := 0;
    } else {
      var k :| k in keys;
      var b := Bound(keys - {k});
      bound := if k < b then b else k + 1;
      assert forall j :: j in keys ==> j == k || j in keys - {k};
    }
  }

  /** Neither a callback nor a clone call is affected when only unreserved leases outside the clone calls go. */
  lemma Harmless(env: Env, w: World, gone: set<LeaseId>, d: nat)
    requires Inv(env, w)
    requires forall id :: id in gone && id in w.store.leases ==> !w.store.leases[id].consuming
    ensures Held(w.calls, d) !! gone
    ensures (forall id :: id in Owned(w.calls, d) && id in w.store.leases ==>
             id !in gone) && d in w.calls && w.calls[d].Cloning? ==>
              CloneOk(w.store.leases - gone, w.calls[d])
  {
    hide TablesOk, DeliveredOk, NoLeak, LineageOk, ApprovalsOk, CompletedOk, ManifestsOk;
    if d in w.calls && w.calls[d].Cloning? {
      assert CloneOk(w.store.leases, w.calls[d]);
      assert forall i :: 0 <= i < |w.calls[d].names| ==> w.calls[d].names[i] in Owned(w.calls, d);
    }
  }

  /** A call that has just entered destroys unreserved leases that callers know, and fails. */
  lemma DestroyPublished(env: Env, w: World, c: nat, gone: set<LeaseId>, state: TerminalState, at: int)
    requires Inv(env, w) && (c in w.calls ==> w.calls[c].Entered?)
    requires forall id :: id in gone && id in w.store.leases ==> !w.store.leases[id].consuming && id in w.published
    ensures Inv(env, Finish(w, c, Cleaned(w.store, gone, state, at)))
  {
    assert forall d, id :: id in Owned(w.calls, d) ==> id !in w.published by {
      hide TablesOk, HeldOk, DeliveredOk, NoLeak, LineageOk, ApprovalsOk, CompletedOk, ManifestsOk, Owned, CloneOk;
    }
    hide Inv, Cleaned, CloneOk;
    forall d
      ensures Held(w.calls, d) !! gone
      ensures d in w.calls && w.calls[d].Cloning? ==> CloneOk(w.store.leases - gone, w.calls[d])
    {
      Harmless(env, w, gone, d);
    }
    DestroyKeepsInv(env, w, w.calls - {c}, c, gone, state, at);
  }

  /** Whatever checking named leases does to the store, the invariant is kept. */
  lemma ActivateKeepsInv(env: Env, w: World, c: nat, ids: seq<LeaseId>, at: int)
    requires Inv(env, w) && c in w.calls && w.calls[c].Entered? && Nameable(w, ids)
    ensures Inv(env, Finish(w, c, Activate(w.store, ids, at).1))
  {
    hide Inv, Cleaned, Activate;
    ActivateOutcome(w.store, ids, at);
    if Activate(w.store, ids, at).1 == w.store {
      EndKeepsInv(env, w, c);
    } else {
      var id :| id in ids && id in w.store.leases && !w.store.leases[id].consuming
                && Activate(w.store, ids, at) == (Some(LeaseExpired), Cleaned(w.store, {id}, Expired, at));
      DestroyPublished(env, w, c, {id}, Expired, at);
    }
  }

  // ----- Events without a call -----

  lemma CallFreeKeepsInv(env: Env, w: World, gone: set<LeaseId>, state: TerminalState, at: int)
    requires Inv(env, w)
    requires forall id :: id in gone && id in w.store.leases ==> !w.store.leases[id].consuming
    requires forall d :: d in w.calls && w.calls[d].Cloning? ==> CloneOk(w.store.leases - gone, w.calls[d])
    ensures Inv(env, w.(store := Cleaned(w.store, gone, state, at)))
  {
    hide Inv, Cleaned, CloneOk;
    forall d
      ensures Held(w.calls, d) !! gone
    {
      Harmless(env, w, gone, d);
    }
    var c := Bound(w.calls.Keys);
    DestroyKeepsInv(env, w, w.calls, c, gone, state, at);
    assert w.(store := Cleaned(w.store, gone, state, at), calls := w.calls) == w.(store := Cleaned(w.store, gone, state, at));
  }

  lemma CancelKeepsInv(env: Env, w: World, id: LeaseId, at: int)
    requires Inv(env, w) && Nameable(w, [id])
    ensures Inv(env, w.(store := CancelLease(w.store, id, at).1))
  {
    assert forall d :: id in w.published ==> id !in Owned(w.calls, d) by {
      hide TablesOk, HeldOk, DeliveredOk, NoLeak, LineageOk, ApprovalsOk, CompletedOk, ManifestsOk, Owned, CloneOk;
    }
    hide Inv, Cleaned, CloneOk;
    if CancelLease(w.store, id, at).0 == None {
      assert id in [id];
      forall d | d in w.calls && w.calls[d].Cloning?
        ensures CloneOk(w.store.leases - {id}, w.calls[d])
      {
        Harmless(env, w, {id}, d);
      }
      CallFreeKeepsInv(env, w, {id}, Cancelled, at);
    } else {
      assert w.(store := w.store) == w;
    }
  }

  lemma ExpireKeepsInv(env: Env, w: World, at: int)
    requires Inv(env, w)
    ensures Inv(env, w.(store := LeaseStore.Expire(w.store, at)))
  {
    var gone := Due(w.store, at);
    forall d | d in w.calls && w.calls[d].Cloning?
      ensures CloneOk(w.store.leases - gone, w.calls[d])
    {
      assert CloneOk(w.store.leases, w.calls[d]) by {
        hide TablesOk, HeldOk, DeliveredOk, NoLeak, LineageOk, ApprovalsOk, CompletedOk, ManifestsOk, CloneOk;
      }
      OwnedIsUnreserved(env, w, d);
      hide Inv;
    }
    hide Inv, Cleaned, CloneOk;
    CallFreeKeepsInv(env, w, gone, Expired, at);
  }

  lemma OwnedIsUnreserved(env: Env, w: World, d: nat)
    requires Inv(env, w) && d in w.calls && w.calls[d].Cloning?
    ensures forall i :: 0 <= i < |w.calls[d].names| && w.calls[d].names[i] in w.store.leases ==>
              !w.store.leases[w.calls[d].names[i]].consuming
  {
    hide TablesOk, DeliveredOk, NoLeak, LineageOk, ApprovalsOk, CompletedOk, ManifestsOk, CloneOk;
    assert forall i :: 0 <= i < |w.calls[d].names| ==> w.calls[d].names[i] in Owned(w.calls, d);
    hide Held, Owned;
  }

  lemma AllGoneIsOk(env: Env, w: World, d: nat)
    requires Inv(env, w) && d in w.calls && w.calls[d].Cloning?
    ensures CloneOk(w.store.leases - w.store.leases.Keys, w.calls[d])
  {
    assert CloneOk(w.store.leases, w.calls[d]) by {
      hide TablesOk, HeldOk, DeliveredOk, NoLeak, LineageOk, ApprovalsOk, CompletedOk, ManifestsOk, CloneOk;
    }
    hide Inv;
  }

  lemma CancelAllKeepsInv(env: Env, w: World, at: int)
    requires Inv(env, w)
    ensures Inv(env, w.(store := CancelAll(w.store, at).1))
  {
    hide Inv, Cleaned, CloneOk;
    if AnyReserved(w.store) {
      assert w.(store := w.store) == w;
    } else {
      forall d | d in w.calls && w.calls[d].Cloning?
        ensures CloneOk(w.store.leases - w.store.leases.Keys, w.calls[d])
      {
        AllGoneIsOk(env, w, d);
      }
      CallFreeKeepsInv(env, w, w.store.leases.Keys, Cancelled, at);
    }
  }

  lemma CloseKeepsInv(env: Env, w: World, at: int)
    requires Inv(env, w)
    ensures Inv(env, w.(store := Close(w.store, at).1))
  {
    CancelAllKeepsInv(env, w, at);
    if w.store.closed || AnyReserved(w.store) {
      assert w.(store := w.store) == w;
    } else {
      InvTables(env, w);
      InvTables(env, w.(store := CancelAll(w.store, at).1));
      hide TablesOk, HeldOk, DeliveredOk, ClonesOk, NoLeak, LineageOk, ApprovalsOk, CompletedOk, ManifestsOk, Cleaned;
      CloseEmpties(env, w, at);
    }
  }

  lemma CloseEmpties(env: Env, w: World, at: int)
    requires TablesOk(env, w.store, w.issued) && TablesOk(env, CancelAll(w.store, at).1, w.issued)
    requires !AnyReserved(w.store)
    ensures TablesOk(env, Close(w.store, at).1, w.issued)
  {
    hide RecordOk, ReceiptOk;
    if !w.store.closed {
      assert Close(w.store, at).1.leases == map[];
    }
  }

  // ----- Making manifests -----

  lemma InvTables(env: Env, w: World)
    requires Inv(env, w)
    ensures TablesOk(env, w.store, w.issued)
  {
    hide TablesOk, HeldOk, DeliveredOk, ClonesOk, NoLeak, LineageOk, ApprovalsOk, CompletedOk, ManifestsOk;
  }

  /** What a prepared manifest says of the leases, and that preparing one leaves the store alone. */
  lemma PreparedIsNested(env: Env, s: Store, issued: map<LeaseId, Record>, ids: seq<LeaseId>, id: ManifestId, purpose: string, at: int, canonical: bool)
    requires TablesOk(env, s, issued)
    ensures var (result, t) := PrepareManifest(env, s, ids, id, purpose, at, canonical);
            && (result.Success? ==> t == s && Nested(issued, result.value) && result.value.body.leaseIds == ids)
            && (result.Failure? ==> t == s || t == Activate(s, ids, at).1)
  {
    hide RecordOk, ReceiptOk, Activate;
    ActivateOutcome(s, ids, at);
    var (result, t) := PrepareManifest(env, s, ids, id, purpose, at, canonical);
    if result.Success? {
      assert ids[0] in ids;
      LeastExpiryIsLeast(s, ids, s.leases[ids[0]].lease.expiresAt);
      var m := result.value;
      forall i | 0 <= i < |ids|
        ensures ids[i] in issued && m.body.attachments[i] == issued[ids[i]].lease.descriptor
        ensures m.body.expiresAt <= issued[ids[i]].lease.expiresAt
      {
        assert ids[i] in ids;
        assert s.leases[ids[i]].(consuming := false) == issued[ids[i]];
      }
    }
  }

  lemma PrepareKeepsInv(env: Env, w: World, e: Event)
    requires Inv(env, w) && e.Prepare? && Enabled(w, e)
    ensures Inv(env, AfterPrepare(env, w, e))
  {
    hide Inv, PrepareManifest, Activate, Nested, TablesOk;
    InvTables(env, w);
    PreparedIsNested(env, w.store, w.issued, e.ids, e.manifestId, e.purpose, e.at, e.canonical);
    var (result, t) := PrepareManifest(env, w.store, e.ids, e.manifestId, e.purpose, e.at, e.canonical);
    if result.Success? {
      MoveKeepsInv(env, w, w.calls[e.call := Hashing(result.value, e.purpose)], e.call);
      assert AfterPrepare(env, w, e) == w.(calls := w.calls[e.call := Hashing(result.value, e.purpose)]);
    } else if t == w.store {
      EndKeepsInv(env, w, e.call);
    } else {
      ActivateKeepsInv(env, w, e.call, e.ids, e.at);
    }
  }

  /** A published manifest is recorded. */
  lemma RecordKeepsInv(env: Env, w: World, s: Store, m: Manifest)
    requires Inv(env, w) && !w.store.closed && Nested(w.issued, m) && s == w.store.(purposes := s.purposes)
    ensures Inv(env, w.(store := s, made := w.made + {m}))
  {
    assert TablesOk(env, s, w.issued) by {
      hide RecordOk, ReceiptOk;
    }
    hide TablesOk, HeldOk, DeliveredOk, ClonesOk, NoLeak, LineageOk, ApprovalsOk, CompletedOk, Nested;
  }

  lemma DraftIsNested(env: Env, w: World, c: nat)
    requires Inv(env, w) && c in w.calls && Drafted(w.calls[c]).Some?
    ensures Nested(w.issued, Drafted(w.calls[c]).value)
  {
    hide TablesOk, HeldOk, DeliveredOk, ClonesOk, NoLeak, LineageOk, ApprovalsOk, CompletedOk, Nested;
  }

  lemma PublishKeepsInv(env: Env, w: World, c: nat)
    requires Inv(env, w) && c in w.calls && w.calls[c].Hashing?
    ensures Inv(env, AfterPublish(w, c))
  {
    DraftIsNested(env, w, c);
    hide Inv, Nested;
    EndKeepsInv(env, w, c);
    if !w.store.closed {
      RecordKeepsInv(env, Finish(w, c, w.store), PublishManifest(w.store, w.calls[c].manifest, w.calls[c].purpose).1, w.calls[c].manifest);
    }
  }

  lemma ApproveKeepsInv(env: Env, w: World, e: Event)
    requires Inv(env, w) && e.ApproveManifest? && Enabled(w, e)
    ensures Inv(env, AfterApprove(env, w, e))
  {
    hide Inv, Activate;
    var m := e.manifest;
    ActivateOutcome(w.store, m.body.leaseIds, e.at);
    var (result, s) := Approve(env, w.store, m, e.at, e.ttl);
    if result.Success? {
      EndKeepsInv(env, w, e.call);
      ApprovalKeepsInv(env, Finish(w, e.call, w.store), m, result.value);
    } else if s == w.store {
      EndKeepsInv(env, w, e.call);
    } else {
      ActivateKeepsInv(env, w, e.call, m.body.leaseIds, e.at);
    }
  }

  lemma ApprovalKeepsInv(env: Env, w: World, m: Manifest, a: Approval)
    requires Inv(env, w) && Binds(a, m) && m.body.createdAt <= a.approvedAt < a.expiresAt <= m.body.expiresAt
    ensures Inv(env, w.(approvals := w.approvals + {(m, a)}))
  {
    hide TablesOk, HeldOk, DeliveredOk, ClonesOk, NoLeak, LineageOk, ManifestsOk, CompletedOk;
  }

  // ----- Callbacks -----

  /** What the section before a callback does. */
  lemma ReserveOutcome(env: Env, s: Store, m: Manifest, at: int, intact: set<LeaseId>)
    ensures var (result, t) := Reserve(env, s, m, at, intact);
            var ids := m.body.leaseIds;
            && (result.Success? ==>
                  && (forall id :: id in ids ==> Active(s, id, at))
                  && t == Marked(s, Elements(ids), true) && result.value == Payloads(s, ids))
            && (result.Failure? ==>
                  || t == s
                  || t == Activate(s, ids, at).1
                  || ((forall id :: id in ids ==> Active(s, id, at)) && t == Cleaned(s, Elements(ids), IntegrityRejected, at)))
  {
    hide Activate, Marked, Cleaned, Rejection;
    ActivateOutcome(s, m.body.leaseIds, at);
  }

  lemma ReserveFails(env: Env, w: World, c: nat, m: Manifest, at: int, intact: set<LeaseId>)
    requires Inv(env, w) && c in w.calls && w.calls[c].Entered? && Nameable(w, m.body.leaseIds)
    requires Reserve(env, w.store, m, at, intact).0.Failure?
    ensures Inv(env, Finish(w, c, Reserve(env, w.store, m, at, intact).1))
  {
    ReserveOutcome(env, w.store, m, at, intact);
    hide Inv, Reserve, Activate, Cleaned;
    var t := Reserve(env, w.store, m, at, intact).1;
    if t == w.store {
      EndKeepsInv(env, w, c);
    } else if t == Activate(w.store, m.body.leaseIds, at).1 {
      ActivateKeepsInv(env, w, c, m.body.leaseIds, at);
    } else {
      DestroyPublished(env, w, c, Elements(m.body.leaseIds), IntegrityRejected, at);
    }
  }

  lemma InspectKeepsInv(env: Env, w: World, e: Event)
    requires Inv(env, w) && e.Inspect? && Enabled(w, e)
    ensures Inv(env, AfterInspect(env, w, e))
  {
    hide Inv, Reserve, Payloads, Marked;
    var m := e.manifest;
    var (result, s) := BeginInspection(env, w.store, m, e.at, e.intact);
    if result.Success? {
      ReserveOutcome(env, w.store, m, e.at, e.intact);
      ReserveKeepsInv(env, w, e.call, Inspecting(m, e.at));
      assert w.delivered + [] == w.delivered;
    } else if Reserve(env, w.store, m, e.at, e.intact) == (result, s) {
      ReserveFails(env, w, e.call, m, e.at, e.intact);
    } else {
      EndKeepsInv(env, w, e.call);
    }
  }

  lemma ConsumeKeepsInv(env: Env, w: World, e: Event)
    requires Inv(env, w) && e.Consume? && Enabled(w, e)
    ensures Inv(env, AfterConsume(env, w, e))
  {
    hide Inv, Reserve, Payloads, Marked, Cleaned;
    var m := e.manifest;
    var (result, s) := BeginConsumption(env, w.store, m, e.approval, e.at, e.intact);
    if result.Success? {
      ReserveOutcome(env, w.store, m, e.at, e.intact);
      ReserveKeepsInv(env, w, e.call, Consuming(m, e.approval, e.at));
    } else if s == w.store {
      EndKeepsInv(env, w, e.call);
    } else if e.at >= m.body.expiresAt {
      DestroyPublished(env, w, e.call, Unreserved(w.store, Elements(m.body.leaseIds)), Expired, e.at);
    } else {
      ReserveFails(env, w, e.call, m, e.at, e.intact);
    }
  }

  /** A callback's own leases can be destroyed when it ends. */
  lemma DestroyHeldKeepsInv(env: Env, w: World, c: nat, state: TerminalState, at: int)
    requires Inv(env, w) && c in w.calls && (w.calls[c].Inspecting? || w.calls[c].Consuming?)
    ensures Inv(env, Finish(w, c, Cleaned(w.store, Held(w.calls, c), state, at)))
  {
    var gone := Held(w.calls, c);
    hide Inv, Cleaned, CloneOk;
    forall d
      ensures d != c ==> Held(w.calls, d) !! gone
      ensures d in w.calls && w.calls[d].Cloning? ==> CloneOk(w.store.leases - gone, w.calls[d])
    {
      HeldApart(env, w, c, d);
    }
    DestroyKeepsInv(env, w, w.calls - {c}, c, gone, state, at);
  }

  /** What one call's callback has is neither with another callback nor among the clones of a call. */
  lemma HeldIsApart(env: Env, w: World, c: nat, d: nat)
    requires Inv(env, w)
    ensures d != c ==> Held(w.calls, d) !! Held(w.calls, c)
    ensures Owned(w.calls, d) !! Held(w.calls, c)
    ensures d in w.calls && w.calls[d].Cloning? ==> CloneOk(w.store.leases, w.calls[d])
  {
    hide TablesOk, DeliveredOk, NoLeak, LineageOk, ApprovalsOk, CompletedOk, ManifestsOk, Held, Owned, CloneOk;
    assert forall id :: id in Held(w.calls, c) ==> id in w.published;
    assert forall id :: id in Owned(w.calls, d) ==> id !in w.published;
  }

  lemma HeldApart(env: Env, w: World, c: nat, d: nat)
    requires Inv(env, w)
    ensures d != c ==> Held(w.calls, d) !! Held(w.calls, c)
    ensures d in w.calls && w.calls[d].Cloning? ==> CloneOk(w.store.leases - Held(w.calls, c), w.calls[d])
  {
    HeldIsApart(env, w, c, d);
    hide Inv, Held;
    if d in w.calls && w.calls[d].Cloning? {
      assert forall i :: 0 <= i < |w.calls[d].names| ==> w.calls[d].names[i] in Owned(w.calls, d);
    }
  }

  lemma InspectorKeepsInv(env: Env, w: World, e: Event)
    requires Inv(env, w) && e.InspectorDone? && Enabled(w, e)
    ensures AllLive(w.store, w.calls[e.call].manifest.body.leaseIds) && Inv(env, AfterInspector(env, w, e))
  {
    hide Inv, Cleaned, Marked, Rejection;
    var at := w.calls[e.call].at + e.elapsed;
    HeldIsLive(env, w, e.call);
    DestroyHeldKeepsInv(env, w, e.call, Expired, at);
    DestroyHeldKeepsInv(env, w, e.call, IntegrityRejected, at);
    ReleaseKeepsInv(env, w, e.call);
  }

  lemma ConsumerKeepsInv(env: Env, w: World, e: Event)
    requires Inv(env, w) && e.ConsumerDone? && Enabled(w, e)
    ensures AllLive(w.store, w.calls[e.call].manifest.body.leaseIds) && Inv(env, AfterConsumer(env, w, e))
  {
    hide Inv, Cleaned, EndConsumption, Binds, Elements, AfterConsumer, Finish, Held;
    HeldIsLive(env, w, e.call);
    HeldByConsumer(w, e.call);
    ConsumerIsBound(env, w, e.call);
    ConsumerKeeps(env, w, e, w.calls[e.call]);
  }

  lemma ConsumerKeeps(env: Env, w: World, e: Event, call: Call)
    requires Inv(env, w) && e.ConsumerDone? && Enabled(w, e) && call == w.calls[e.call]
    requires AllLive(w.store, call.manifest.body.leaseIds) && Held(w.calls, e.call) == Elements(call.manifest.body.leaseIds)
    requires Started(call.manifest, call.approval, call.at)
    ensures Inv(env, AfterConsumer(env, w, e))
  {
    hide Inv, Cleaned, EndConsumption, Binds, Elements, AfterConsumer, Finish, Held;
    var at := call.at + e.elapsed;
    var state := EndConsumptionOutcome(env, w.store, call.manifest, call.approval, e.ending, at, e.intact);
    ConsumerEffect(env, w, e, state);
    DestroyHeldKeepsInv(env, w, e.call, state, at);
    if state == Consumed {
      var x := Completion(call.manifest, call.approval, call.at, at);
      CompletionKeepsInv(env, w, e.call, x);
      var v := Finish(w, e.call, Cleaned(w.store, Held(w.calls, e.call), state, at));
      assert AfterConsumer(env, w, e) == v.(completed := w.completed + [x]);
    }
  }

  lemma ConsumerEffect(env: Env, w: World, e: Event, state: TerminalState)
    requires e.ConsumerDone? && Enabled(w, e) && AllLive(w.store, w.calls[e.call].manifest.body.leaseIds)
    requires var call := w.calls[e.call];
             var (problem, t) := EndConsumption(env, w.store, call.manifest, call.approval, e.ending, call.at + e.elapsed, e.intact);
             t == Cleaned(w.store, Held(w.calls, e.call), state, call.at + e.elapsed) && (problem == None <==> state == Consumed)
    ensures var call := w.calls[e.call];
            var v := Finish(w, e.call, Cleaned(w.store, Held(w.calls, e.call), state, call.at + e.elapsed));
            AfterConsumer(env, w, e) ==
            if state == Consumed then v.(completed := w.completed + [Completion(call.manifest, call.approval, call.at, call.at + e.elapsed)])
            else v
  {
    hide Cleaned, EndConsumption, Held;
  }

  lemma HeldByConsumer(w: World, c: nat)
    requires c in w.calls && w.calls[c].Consuming?
    requires forall id :: id in Held(w.calls, c) ==> id in w.store.leases
    ensures Held(w.calls, c) == Elements(w.calls[c].manifest.body.leaseIds) && AllLive(w.store, w.calls[c].manifest.body.leaseIds)
  {
  }

  lemma ConsumerIsBound(env: Env, w: World, c: nat)
    requires Inv(env, w) && c in w.calls && w.calls[c].Consuming?
    ensures Started(w.calls[c].manifest, w.calls[c].approval, w.calls[c].at)
  {
    hide TablesOk, HeldOk, DeliveredOk, ClonesOk, NoLeak, LineageOk, ApprovalsOk, ManifestsOk, CompletionOk, Binds;
  }

  lemma HeldIsLive(env: Env, w: World, c: nat)
    requires Inv(env, w)
    ensures forall id :: id in Held(w.calls, c) ==> id in w.store.leases
  {
    hide TablesOk, DeliveredOk, ClonesOk, NoLeak, LineageOk, ApprovalsOk, CompletedOk, ManifestsOk, Held;
  }

  /** Whatever the outcome, the section after a consumer destroys every lease of the manifest. */
  lemma EndConsumptionOutcome(
    env: Env, s: Store, m: Manifest, a: Approval, ending: Ending, completedAt: int, intact: set<LeaseId>) returns (state: TerminalState)
    requires forall id :: id in m.body.leaseIds ==> id in s.leases
    ensures var (problem, t) := EndConsumption(env, s, m, a, ending, completedAt, intact);
            && t == Cleaned(s, Elements(m.body.leaseIds), state, completedAt)
            && (problem == None <==> state == Consumed)
    ensures state == if ending == Raised then ConsumerFailed
                     else if completedAt >= m.body.expiresAt || completedAt >= a.expiresAt then Expired
                     else if Rejection(env, s, m.body.leaseIds, intact).Some? then IntegrityRejected
                     else Consumed
  {
    hide Cleaned, Rejection;
    state :=
      if ending == Raised then ConsumerFailed
      else if completedAt >= m.body.expiresAt || completedAt >= a.expiresAt then Expired
      else if Rejection(env, s, m.body.leaseIds, intact).Some? then IntegrityRejected
      else Consumed;
  }

  lemma CompletionKeepsInv(env: Env, w: World, c: nat, x: Completion)
    requires Inv(env, w) && c in w.calls && w.calls[c].Consuming? && x.manifest == w.calls[c].manifest
    requires AllLive(w.store, x.manifest.body.leaseIds)
    requires Binds(x.approval, x.manifest) && x.approval.approvedAt <= x.startedAt <= x.completedAt < x.approval.expiresAt
    requires x.completedAt < x.manifest.body.expiresAt
    requires Inv(env, Finish(w, c, Cleaned(w.store, Held(w.calls, c), Consumed, x.completedAt)))
    ensures Inv(env, Finish(w, c, Cleaned(w.store, Held(w.calls, c), Consumed, x.completedAt)).(completed := w.completed + [x]))
  {
    CompletionIsOk(w, c, x);
    hide Cleaned, TablesOk, HeldOk, DeliveredOk, ClonesOk, NoLeak, LineageOk, ApprovalsOk, ManifestsOk, CompletionOk, Held;
  }

  lemma CompletionIsOk(w: World, c: nat, x: Completion)
    requires c in w.calls && w.calls[c].Consuming? && x.manifest == w.calls[c].manifest
    requires AllLive(w.store, x.manifest.body.leaseIds)
    requires Binds(x.approval, x.manifest) && x.approval.approvedAt <= x.startedAt <= x.completedAt < x.approval.expiresAt
    requires x.completedAt < x.manifest.body.expiresAt
    ensures CompletionOk(Cleaned(w.store, Held(w.calls, c), Consumed, x.completedAt).terminal, x)
  {
    hide Binds;
  }
}
