/** What every reachable state of the attachment authority satisfies. */
module LeaseInvariant {
  import opened Outcomes
  import opened Bytes
  import opened LeaseStore
  import opened LeaseSections
  import opened LeaseRuns

  // ----- Conservation -----

  ghost predicate RecordOk(env: Env, id: LeaseId, r: Record) {
    r.lease.id == id && r.content != [] && !r.consuming && PayloadIntact(env, r) && r.lease.createdAt < r.lease.expiresAt
  }

  ghost predicate ReceiptOk(id: LeaseId, r: Record, receipt: Receipt) {
    receipt.lease == id && receipt.descriptor == r.lease.descriptor && receipt.released == |r.content|
  }

  /** The issued ids are the disjoint union of the live and the terminal ones; a closed store is empty. */
  ghost predicate TablesOk(env: Env, s: Store, issued: map<LeaseId, Record>) {
    && (forall id :: id in issued ==> RecordOk(env, id, issued[id]) && (id in s.leases <==> id !in s.terminal))
    && (forall id :: id in s.leases ==> id in issued && s.leases[id].(consuming := false) == issued[id])
    && (forall id :: id in s.terminal ==> id in issued && ReceiptOk(id, issued[id], s.terminal[id]))
    && (s.closed ==> s.leases == map[] && s.purposes == map[])
  }

  // ----- Reservations -----

  /** The leases that a call in flight has handed to its callback. */
  ghost function Held(calls: map<nat, Call>, c: nat): set<LeaseId> {
    if c in calls && (calls[c].Inspecting? || calls[c].Consuming?) then Elements(calls[c].manifest.body.leaseIds) else {}
  }

  ghost function HeldToConsume(calls: map<nat, Call>, c: nat): set<LeaseId> {
    if c in calls && calls[c].Consuming? then Held(calls, c) else {}
  }

  /** A lease is flagged exactly while one callback has it. */
  ghost predicate HeldOk(leases: map<LeaseId, Record>, calls: map<nat, Call>, published: set<LeaseId>) {
    && (forall c, id :: id in Held(calls, c) ==> id in leases && leases[id].consuming && id in published)
    && (forall id :: id in leases && leases[id].consuming ==> exists c :: id in Held(calls, c))
    && (forall c, d, id :: id in Held(calls, c) && id in Held(calls, d) ==> c == d)
  }

  /** A consumer received the bytes issued under that id, never twice, and the lease is spent or still with the consumer. */
  ghost predicate DeliveredOk(
    delivered: seq<(LeaseId, seq<byte>)>, terminal: map<LeaseId, Receipt>, calls: map<nat, Call>, issued: map<LeaseId, Record>)
  {
    && (forall i :: 0 <= i < |delivered| ==>
          && delivered[i].0 in issued && delivered[i].1 == issued[delivered[i].0].content
          && (delivered[i].0 in terminal || exists c :: delivered[i].0 in HeldToConsume(calls, c)))
    && (forall i, j :: 0 <= i < j < |delivered| ==> delivered[i].0 != delivered[j].0)
  }

  // ----- Clones in flight -----

  /** The clones that a call has inserted and not yet returned. */
  ghost function Owned(calls: map<nat, Call>, c: nat): set<LeaseId> {
    if c in calls && calls[c].Cloning? then Elements(calls[c].names) else {}
  }

  ghost function CancelledSoFar(call: Call): nat
    requires call.Cloning?
  {
    if call.phase.Diverging? then call.phase.cancelled else 0
  }

  /**
   * Unless the call is aborting, its clones that it has not yet cancelled are all live, with one expiry, or
   * all terminal.
   */
  ghost predicate CloneOk(leases: map<LeaseId, Record>, call: Call)
    requires call.Cloning?
  {
    var names, k := call.names, CancelledSoFar(call);
    && Distinct(names) && k <= |names|
    && (forall i :: 0 <= i < k ==> names[i] !in leases)
    && (forall i, j :: !call.phase.Aborting? && k <= i < |names| && k <= j < |names| && names[i] in leases ==>
          names[j] in leases && leases[names[i]].lease.expiresAt == leases[names[j]].lease.expiresAt)
  }

  ghost predicate ClonesOk(leases: map<LeaseId, Record>, issued: map<LeaseId, Record>, calls: map<nat, Call>, published: set<LeaseId>) {
    && (forall c :: c in calls && calls[c].Cloning? ==> CloneOk(leases, calls[c]))
    && (forall c, id :: id in Owned(calls, c) ==> id in issued && id !in published)
    && (forall c, d, id :: id in Owned(calls, c) && id in Owned(calls, d) ==> c == d)
  }

  /** Every live lease is known to a caller or belongs to a clone call that is still running. */
  ghost predicate NoLeak(leases: map<LeaseId, Record>, issued: map<LeaseId, Record>, calls: map<nat, Call>, published: set<LeaseId>) {
    && (forall id :: id in leases ==> id in published || exists c :: id in Owned(calls, c))
    && (forall id :: id in published ==> id in issued)
  }

  // ----- Nesting -----

  /** A lease carries its ancestor's payload and does not outlive it. */
  ghost predicate Descends(r: Record, ancestor: Record) {
    r.content == ancestor.content && r.lease.descriptor == ancestor.lease.descriptor && r.lease.expiresAt <= ancestor.lease.expiresAt
  }

  ghost predicate LineOk(issued: map<LeaseId, Record>, lineage: map<LeaseId, seq<LeaseId>>, id: LeaseId)
    requires id in issued && id in lineage
  {
    var line := lineage[id];
    && line != [] && line[|line| - 1] == id
    && forall k :: 0 <= k < |line| ==>
         line[k] in issued && line[k] in lineage && lineage[line[k]] == line[..k + 1] && Descends(issued[id], issued[line[k]])
  }

  ghost predicate LineageOk(issued: map<LeaseId, Record>, lineage: map<LeaseId, seq<LeaseId>>) {
    && lineage.Keys == issued.Keys
    && forall id :: id in issued && id in lineage ==> LineOk(issued, lineage, id)
  }

  /** The manifest lists issued leases with their descriptors and outlives none of them. */
  ghost predicate Nested(issued: map<LeaseId, Record>, m: Manifest) {
    && |m.body.attachments| == |m.body.leaseIds|
    && forall i :: 0 <= i < |m.body.leaseIds| ==>
         && m.body.leaseIds[i] in issued
         && m.body.attachments[i] == issued[m.body.leaseIds[i]].lease.descriptor
         && m.body.expiresAt <= issued[m.body.leaseIds[i]].lease.expiresAt
  }

  /** The manifest that a call is about to publish. */
  ghost function Drafted(call: Call): Option<Manifest> {
    if call.Hashing? then Some(call.manifest)
    else if call.Cloning? && call.phase.Hashed? then Some(call.phase.manifest)
    else None
  }

  ghost predicate ManifestsOk(issued: map<LeaseId, Record>, calls: map<nat, Call>, made: set<Manifest>) {
    && (forall m :: m in made ==> Nested(issued, m))
    && (forall c :: c in calls && Drafted(calls[c]).Some? ==> Nested(issued, Drafted(calls[c]).value))
  }

  ghost predicate ApprovalsOk(approvals: set<(Manifest, Approval)>) {
    forall p :: p in approvals ==>
      && Binds(p.1, p.0)
      && p.0.body.createdAt <= p.1.approvedAt < p.1.expiresAt <= p.0.body.expiresAt
  }

  /** A consumption that succeeded was bound and in time, and destroyed every lease as consumed. */
  ghost predicate CompletionOk(terminal: map<LeaseId, Receipt>, x: Completion) {
    && Binds(x.approval, x.manifest)
    && x.approval.approvedAt <= x.startedAt <= x.completedAt < x.approval.expiresAt
    && x.completedAt < x.manifest.body.expiresAt
    && forall id :: id in x.manifest.body.leaseIds ==>
         id in terminal && terminal[id].state == Consumed && terminal[id].cleanedAt == x.completedAt
  }

  /** A consumer was started for an approval that binds the manifest and was active, as the manifest was. */
  ghost predicate Started(m: Manifest, a: Approval, at: int) {
    Binds(a, m) && a.approvedAt <= at < a.expiresAt && at < m.body.expiresAt
  }

  ghost predicate CompletedOk(terminal: map<LeaseId, Receipt>, calls: map<nat, Call>, completed: seq<Completion>) {
    && (forall i :: 0 <= i < |completed| ==> CompletionOk(terminal, completed[i]))
    && (forall c :: c in calls && calls[c].Consuming? ==>
          Started(calls[c].manifest, calls[c].approval, calls[c].at))
  }

  ghost predicate Inv(env: Env, w: World) {
    && TablesOk(env, w.store, w.issued)
    && HeldOk(w.store.leases, w.calls, w.published)
    && DeliveredOk(w.delivered, w.store.terminal, w.calls, w.issued)
    && ClonesOk(w.store.leases, w.issued, w.calls, w.published)
    && NoLeak(w.store.leases, w.issued, w.calls, w.published)
    && LineageOk(w.issued, w.lineage)
    && ManifestsOk(w.issued, w.calls, w.made)
    && ApprovalsOk(w.approvals)
    && CompletedOk(w.store.terminal, w.calls, w.completed)
  }

  // ----- Leases destroyed -----

  ghost predicate SameElsewhere(before: map<nat, Call>, after: map<nat, Call>, c: nat) {
    forall d :: d != c ==> (d in before <==> d in after) && (d in before && d in after ==> before[d] == after[d])
  }

  /** The call neither has a callback nor a manifest to publish. */
  ghost predicate Idle(calls: map<nat, Call>, c: nat) {
    c in calls ==> calls[c].Entered? || (calls[c].Cloning? && !calls[c].phase.Hashed?)
  }

  lemma CleanedTables(env: Env, s: Store, issued: map<LeaseId, Record>, gone: set<LeaseId>, state: TerminalState, at: int)
    requires TablesOk(env, s, issued)
    ensures TablesOk(env, Cleaned(s, gone, state, at), issued)
  {
    var t := Cleaned(s, gone, state, at);
    hide PayloadIntact;
    assert s.closed ==> t.leases == map[];
    forall id | id in t.terminal
      ensures id in issued && ReceiptOk(id, issued[id], t.terminal[id])
    {
      if id in gone && id in s.leases {
        assert t.terminal[id] == ReceiptFor(s.leases[id], state, at);
      }
    }
  }

  lemma CleanedShape(env: Env, s: Store, issued: map<LeaseId, Record>, gone: set<LeaseId>, state: TerminalState, at: int)
    requires TablesOk(env, s, issued)
    ensures var t := Cleaned(s, gone, state, at);
            && t.leases == s.leases - gone
            && ReceiptsStay(s.terminal, t.terminal)
            && (forall id :: id in gone && id in issued ==> id in t.terminal)
            && (forall id :: id in t.terminal && id !in s.terminal ==> t.terminal[id] == ReceiptFor(s.leases[id], state, at))
  {
    hide RecordOk, ReceiptOk;
  }

  lemma DestroyHeld(
    leases: map<LeaseId, Record>, before: map<nat, Call>, after: map<nat, Call>, published: set<LeaseId>, c: nat, gone: set<LeaseId>)
    requires HeldOk(leases, before, published) && SameElsewhere(before, after, c)
    requires Held(after, c) == {} && Held(before, c) <= gone
    requires forall d :: d != c ==> Held(before, d) !! gone
    ensures HeldOk(leases - gone, after, published)
  {
    assert forall d :: d != c ==> Held(after, d) == Held(before, d);
    forall id | id in leases - gone && (leases - gone)[id].consuming
      ensures exists d :: id in Held(after, d)
    {
      var d :| id in Held(before, d);
      assert id in Held(after, d);
    }
  }

  lemma DestroyDelivered(w: World, after: map<nat, Call>, terminal: map<LeaseId, Receipt>, c: nat)
    requires DeliveredOk(w.delivered, w.store.terminal, w.calls, w.issued)
    requires SameElsewhere(w.calls, after, c) && ReceiptsStay(w.store.terminal, terminal)
    requires forall id :: id in Held(w.calls, c) ==> id in terminal
    ensures DeliveredOk(w.delivered, terminal, after, w.issued)
  {
    forall i | 0 <= i < |w.delivered|
      ensures w.delivered[i].0 in terminal || exists d :: w.delivered[i].0 in HeldToConsume(after, d)
    {
      var id := w.delivered[i].0;
      if id !in w.store.terminal {
        var d :| id in HeldToConsume(w.calls, d);
        if d != c {
          assert id in HeldToConsume(after, d);
        }
      }
    }
  }

  lemma DestroyClones(w: World, after: map<nat, Call>, c: nat, gone: set<LeaseId>)
    requires ClonesOk(w.store.leases, w.issued, w.calls, w.published) && SameElsewhere(w.calls, after, c)
    requires forall d :: d in after && after[d].Cloning? ==> CloneOk(w.store.leases - gone, after[d])
    requires Owned(after, c) <= Owned(w.calls, c)
    ensures ClonesOk(w.store.leases - gone, w.issued, after, w.published)
  {
    hide CloneOk;
    assert forall d :: d != c ==> Owned(after, d) == Owned(w.calls, d);
  }

  lemma DestroyNoLeak(w: World, after: map<nat, Call>, c: nat, gone: set<LeaseId>)
    requires NoLeak(w.store.leases, w.issued, w.calls, w.published) && SameElsewhere(w.calls, after, c)
    requires forall id :: id in Owned(w.calls, c) && id in w.store.leases && id !in gone ==> id in Owned(after, c)
    ensures NoLeak(w.store.leases - gone, w.issued, after, w.published)
  {
    forall id | id in w.store.leases - gone && id !in w.published
      ensures exists d :: id in Owned(after, d)
    {
      var d :| id in Owned(w.calls, d);
      assert id in Owned(after, d);
    }
  }

  lemma DestroyCompleted(w: World, after: map<nat, Call>, terminal: map<LeaseId, Receipt>, c: nat)
    requires CompletedOk(w.store.terminal, w.calls, w.completed)
    requires SameElsewhere(w.calls, after, c) && Idle(after, c) && ReceiptsStay(w.store.terminal, terminal)
    ensures CompletedOk(terminal, after, w.completed)
  {
    forall i | 0 <= i < |w.completed|
      ensures CompletionOk(terminal, w.completed[i])
    {
      assert CompletionOk(w.store.terminal, w.completed[i]);
    }
  }

  /**
   * Destroying leases, and moving one call on, keeps the invariant when no other call's callback is hit and
   * no clone call is hit halfway.
   */
  lemma DestroyKeepsInv(env: Env, w: World, after: map<nat, Call>, c: nat, gone: set<LeaseId>, state: TerminalState, at: int)
    requires Inv(env, w) && SameElsewhere(w.calls, after, c) && Idle(after, c)
    requires Held(w.calls, c) <= gone
    requires forall d :: d != c ==> Held(w.calls, d) !! gone
    requires Owned(after, c) <= Owned(w.calls, c)
    requires forall d :: d in after && after[d].Cloning? ==> CloneOk(w.store.leases - gone, after[d])
    requires forall id :: id in Owned(w.calls, c) && id in w.store.leases && id !in gone ==> id in Owned(after, c)
    ensures Inv(env, w.(store := Cleaned(w.store, gone, state, at), calls := after))
  {
    var s := Cleaned(w.store, gone, state, at);
    hide Cleaned, TablesOk, HeldOk, DeliveredOk, ClonesOk, NoLeak, LineageOk, ApprovalsOk, CompletedOk, CloneOk;
    CleanedTables(env, w.store, w.issued, gone, state, at);
    CleanedShape(env, w.store, w.issued, gone, state, at);
    HeldIsIssued(env, w, c);
    DestroyHeld(w.store.leases, w.calls, after, w.published, c, gone);
    DestroyDelivered(w, after, s.terminal, c);
    DestroyClones(w, after, c, gone);
    DestroyNoLeak(w, after, c, gone);
    DestroyCompleted(w, after, s.terminal, c);
  }

  lemma HeldIsIssued(env: Env, w: World, c: nat)
    requires TablesOk(env, w.store, w.issued) && HeldOk(w.store.leases, w.calls, w.published)
    ensures forall id :: id in Held(w.calls, c) ==> id in w.store.leases && id in w.issued
  {
    hide Held;
  }

  // ----- Leases reserved and released -----

  ghost predicate SameLeases(before: map<LeaseId, Record>, after: map<LeaseId, Record>) {
    forall id :: (id in before <==> id in after) && (id in before && id in after ==> before[id].lease == after[id].lease)
  }

  lemma MarkedTables(env: Env, s: Store, issued: map<LeaseId, Record>, ids: set<LeaseId>, flag: bool)
    requires TablesOk(env, s, issued)
    ensures TablesOk(env, Marked(s, ids, flag), issued) && SameLeases(s.leases, Marked(s, ids, flag).leases)
  {
    hide RecordOk, ReceiptOk;
    var t := Marked(s, ids, flag);
    assert s.closed ==> t.leases == map[];
  }

  lemma MarkedClones(w: World, leases: map<LeaseId, Record>, after: map<nat, Call>, c: nat)
    requires ClonesOk(w.store.leases, w.issued, w.calls, w.published) && NoLeak(w.store.leases, w.issued, w.calls, w.published)
    requires SameElsewhere(w.calls, after, c) && SameLeases(w.store.leases, leases)
    requires Owned(w.calls, c) == {} && (c in after ==> !after[c].Cloning?)
    ensures ClonesOk(leases, w.issued, after, w.published) && NoLeak(leases, w.issued, after, w.published)
  {
    assert forall d :: Owned(after, d) == Owned(w.calls, d);
    forall d | d in after && after[d].Cloning?
      ensures CloneOk(leases, after[d])
    {
      assert CloneOk(w.store.leases, w.calls[d]);
    }
    forall id | id in leases && id !in w.published
      ensures exists d :: id in Owned(after, d)
    {
      var d :| id in Owned(w.calls, d);
      assert id in Owned(after, d);
    }
  }

  lemma ReserveHeld(s: Store, before: map<nat, Call>, published: set<LeaseId>, c: nat, call: Call)
    requires HeldOk(s.leases, before, published) && Held(before, c) == {}
    requires call.Inspecting? || call.Consuming?
    requires forall id :: id in call.manifest.body.leaseIds ==> id in s.leases && !s.leases[id].consuming && id in published
    ensures HeldOk(Marked(s, Elements(call.manifest.body.leaseIds), true).leases, before[c := call], published)
  {
    var after := before[c := call];
    var leases := Marked(s, Elements(call.manifest.body.leaseIds), true).leases;
    assert forall d :: d != c ==> Held(after, d) == Held(before, d);
    assert Held(after, c) == Elements(call.manifest.body.leaseIds);
    forall id | id in leases && leases[id].consuming
      ensures exists d :: id in Held(after, d)
    {
      if id !in Held(after, c) {
        var d :| id in Held(before, d);
        assert id in Held(after, d);
      }
    }
  }

  /** Leases that are live and unreserved were not delivered before. */
  lemma NotYetDelivered(env: Env, w: World, i: nat)
    requires TablesOk(env, w.store, w.issued) && HeldOk(w.store.leases, w.calls, w.published)
    requires DeliveredOk(w.delivered, w.store.terminal, w.calls, w.issued) && i < |w.delivered|
    ensures w.delivered[i].0 in w.store.leases ==> w.store.leases[w.delivered[i].0].consuming
  {
    hide RecordOk, ReceiptOk;
    var id := w.delivered[i].0;
    if id !in w.store.terminal {
      var d :| id in HeldToConsume(w.calls, d);
      assert id in Held(w.calls, d);
      hide Held, HeldToConsume;
    }
  }

  /** The deliveries so far stay accounted for when an entered call gets a callback. */
  lemma StillDelivered(w: World, c: nat, call: Call)
    requires DeliveredOk(w.delivered, w.store.terminal, w.calls, w.issued) && Held(w.calls, c) == {}
    ensures DeliveredOk(w.delivered, w.store.terminal, w.calls[c := call], w.issued)
  {
    var after := w.calls[c := call];
    forall i | 0 <= i < |w.delivered| && w.delivered[i].0 !in w.store.terminal
      ensures exists d :: w.delivered[i].0 in HeldToConsume(after, d)
    {
      var d :| w.delivered[i].0 in HeldToConsume(w.calls, d);
      assert w.delivered[i].0 in HeldToConsume(after, d);
    }
  }

  /** The new payloads belong to the call, and to issued leases. */
  lemma PayloadsAreHeld(env: Env, w: World, c: nat, call: Call, i: nat)
    requires TablesOk(env, w.store, w.issued) && call.Consuming? && i < |call.manifest.body.leaseIds|
    requires forall id :: id in call.manifest.body.leaseIds ==> id in w.store.leases
    ensures var p := Payloads(w.store, call.manifest.body.leaseIds)[i];
            && p.0 == call.manifest.body.leaseIds[i] && p.0 in w.issued && p.1 == w.issued[p.0].content
            && p.0 in HeldToConsume(w.calls[c := call], c)
  {
    hide RecordOk, ReceiptOk;
    assert call.manifest.body.leaseIds[i] in call.manifest.body.leaseIds;
  }

  /** Reserved leases are not terminal and no consumer has them, so they were not delivered before. */
  lemma ReserveDelivered(env: Env, w: World, c: nat, call: Call)
    requires TablesOk(env, w.store, w.issued) && HeldOk(w.store.leases, w.calls, w.published)
    requires DeliveredOk(w.delivered, w.store.terminal, w.calls, w.issued)
    requires Held(w.calls, c) == {} && (call.Inspecting? || call.Consuming?)
    requires forall id :: id in call.manifest.body.leaseIds ==> id in w.store.leases && !w.store.leases[id].consuming
    requires Distinct(call.manifest.body.leaseIds)
    ensures DeliveredOk(w.delivered + if call.Consuming? then Payloads(w.store, call.manifest.body.leaseIds) else [],
                        w.store.terminal, w.calls[c := call], w.issued)
  {
    StillDelivered(w, c, call);
    if call.Inspecting? {
      assert w.delivered + [] == w.delivered;
    } else {
      var ids := call.manifest.body.leaseIds;
      var more := Payloads(w.store, ids);
      forall i | 0 <= i < |w.delivered|
        ensures w.delivered[i].0 !in ids
      {
        NotYetDelivered(env, w, i);
      }
      forall i | 0 <= i < |more|
        ensures more[i].0 == ids[i] && ids[i] in ids && more[i].0 in w.issued && more[i].1 == w.issued[more[i].0].content
        ensures more[i].0 in HeldToConsume(w.calls[c := call], c)
      {
        PayloadsAreHeld(env, w, c, call, i);
      }
      hide TablesOk, HeldOk, Payloads, HeldToConsume, Held;
    }
  }

  lemma ReserveKeepsInv(env: Env, w: World, c: nat, call: Call)
    requires Inv(env, w) && c in w.calls && w.calls[c].Entered?
    requires call.Inspecting? || call.Consuming?
    requires call.Consuming? ==> Started(call.manifest, call.approval, call.at)
    requires Distinct(call.manifest.body.leaseIds)
    requires forall id :: id in call.manifest.body.leaseIds ==>
              id in w.store.leases && !w.store.leases[id].consuming && id in w.published
    ensures Inv(env, w.(store := Marked(w.store, Elements(call.manifest.body.leaseIds), true),
                        calls := w.calls[c := call],
                        delivered := w.delivered + if call.Consuming? then Payloads(w.store, call.manifest.body.leaseIds) else []))
  {
    var s := Marked(w.store, Elements(call.manifest.body.leaseIds), true);
    hide Marked, TablesOk, HeldOk, DeliveredOk, ClonesOk, NoLeak, LineageOk, ApprovalsOk, CompletedOk, ManifestsOk, Elements;
    OtherCalls(w, w.calls[c := call], c);
    MarkedTables(env, w.store, w.issued, Elements(call.manifest.body.leaseIds), true);
    ReserveHeld(w.store, w.calls, w.published, c, call);
    ReserveDelivered(env, w, c, call);
    MarkedClones(w, s.leases, w.calls[c := call], c);
    MarkedRest(w.store, Elements(call.manifest.body.leaseIds), true);
  }

  lemma OtherCalls(w: World, after: map<nat, Call>, c: nat)
    requires ManifestsOk(w.issued, w.calls, w.made) && CompletedOk(w.store.terminal, w.calls, w.completed)
    requires SameElsewhere(w.calls, after, c)
    requires c in after ==> Drafted(after[c]) == None
    requires c in after && after[c].Consuming? ==>
              Started(after[c].manifest, after[c].approval, after[c].at)
    ensures ManifestsOk(w.issued, after, w.made) && CompletedOk(w.store.terminal, after, w.completed)
  {
    hide CompletionOk, Nested;
  }

  lemma MarkedRest(s: Store, ids: set<LeaseId>, flag: bool)
    ensures var t := Marked(s, ids, flag); t.terminal == s.terminal && t.purposes == s.purposes && t.closed == s.closed
  {
  }

  lemma ReleaseKeepsInv(env: Env, w: World, c: nat)
    requires Inv(env, w) && c in w.calls && w.calls[c].Inspecting?
    ensures Inv(env, Finish(w, c, Marked(w.store, Held(w.calls, c), false)))
  {
    var s := Marked(w.store, Held(w.calls, c), false);
    var after := w.calls - {c};
    hide Marked, TablesOk, HeldOk, DeliveredOk, ClonesOk, NoLeak, LineageOk, ApprovalsOk, CompletedOk, ManifestsOk, Held;
    OtherCalls(w, after, c);
    MarkedTables(env, w.store, w.issued, Held(w.calls, c), false);
    MarkedRest(w.store, Held(w.calls, c), false);
    MarkedClones(w, s.leases, after, c);
    ReleaseHeld(w, c);
    ReleaseDelivered(w, c);
  }

  lemma ReleaseDelivered(w: World, c: nat)
    requires DeliveredOk(w.delivered, w.store.terminal, w.calls, w.issued) && c in w.calls && w.calls[c].Inspecting?
    ensures DeliveredOk(w.delivered, w.store.terminal, w.calls - {c}, w.issued)
  {
    forall i | 0 <= i < |w.delivered| && w.delivered[i].0 !in w.store.terminal
      ensures exists d :: w.delivered[i].0 in HeldToConsume(w.calls - {c}, d)
    {
      var d :| w.delivered[i].0 in HeldToConsume(w.calls, d);
      assert w.delivered[i].0 in HeldToConsume(w.calls - {c}, d);
    }
  }

  lemma ReleaseHeld(w: World, c: nat)
    requires HeldOk(w.store.leases, w.calls, w.published)
    ensures HeldOk(Marked(w.store, Held(w.calls, c), false).leases, w.calls - {c}, w.published)
  {
    var after := w.calls - {c};
    var leases := Marked(w.store, Held(w.calls, c), false).leases;
    assert forall d :: d != c ==> Held(after, d) == Held(w.calls, d);
    assert Held(after, c) == {};
    forall id | id in leases && leases[id].consuming
      ensures exists d :: id in Held(after, d)
    {
      var d :| id in Held(w.calls, d);
      assert id in Held(after, d);
    }
  }

  // ----- Leases issued -----

  /** `after` is `before` with unreserved records under the ids `names`. */
  ghost predicate Extends(before: map<LeaseId, Record>, after: map<LeaseId, Record>, names: set<LeaseId>) {
    && (forall id :: id in before ==> id in after && (id !in names ==> after[id] == before[id]))
    && (forall id :: id in names ==> id in after && !after[id].consuming)
    && (forall id :: id in after ==> id in before || id in names)
  }

  ghost predicate Fresh(issued: map<LeaseId, Record>, names: set<LeaseId>) {
    forall id :: id in names ==> id !in issued
  }

  lemma IssueTables(env: Env, s: Store, t: Store, issued: map<LeaseId, Record>, more: map<LeaseId, Record>, names: set<LeaseId>)
    requires TablesOk(env, s, issued) && Fresh(issued, names) && !s.closed
    requires t == s.(leases := t.leases) && Extends(s.leases, t.leases, names) && Extends(issued, more, names)
    requires forall id :: id in names ==> t.leases[id] == more[id] && RecordOk(env, id, more[id])
    ensures TablesOk(env, t, more)
  {
    hide RecordOk, ReceiptOk;
    forall id | id in more
      ensures RecordOk(env, id, more[id]) && (id in t.leases <==> id !in t.terminal)
    {
    }
  }

  lemma IssueHeld(
    leases: map<LeaseId, Record>, more: map<LeaseId, Record>, before: map<nat, Call>, after: map<nat, Call>,
    published: set<LeaseId>, public: set<LeaseId>, c: nat, names: set<LeaseId>)
    requires HeldOk(leases, before, published) && Extends(leases, more, names) && published <= public
    requires forall id :: id in names ==> id !in leases
    requires SameElsewhere(before, after, c) && Held(before, c) == {} && Held(after, c) == {}
    ensures HeldOk(more, after, public)
  {
    assert forall d :: Held(after, d) == Held(before, d);
    forall id | id in more && more[id].consuming
      ensures exists d :: id in Held(after, d)
    {
      var d :| id in Held(before, d);
      assert id in Held(after, d);
    }
  }

  lemma IssueDelivered(w: World, more: map<LeaseId, Record>, after: map<nat, Call>, c: nat, names: set<LeaseId>)
    requires DeliveredOk(w.delivered, w.store.terminal, w.calls, w.issued)
    requires Extends(w.issued, more, names) && Fresh(w.issued, names)
    requires SameElsewhere(w.calls, after, c) && Held(w.calls, c) == {}
    ensures DeliveredOk(w.delivered, w.store.terminal, after, more)
  {
    forall i | 0 <= i < |w.delivered| && w.delivered[i].0 !in w.store.terminal
      ensures exists d :: w.delivered[i].0 in HeldToConsume(after, d)
    {
      var d :| w.delivered[i].0 in HeldToConsume(w.calls, d);
      assert w.delivered[i].0 in HeldToConsume(after, d);
    }
  }

  /** The new leases are published, or owned by the call that inserted them. */
  ghost predicate Accounted(published: set<LeaseId>, public: set<LeaseId>, owned: set<LeaseId>, names: set<LeaseId>) {
    published <= public && public <= published + names && owned <= names && names <= public + owned && owned !! public
  }

  lemma CloneStaysOk(leases: map<LeaseId, Record>, more: map<LeaseId, Record>, call: Call, names: set<LeaseId>)
    requires call.Cloning? && CloneOk(leases, call) && Extends(leases, more, names) && Elements(call.names) !! names
    ensures CloneOk(more, call)
  {
    assert forall i :: 0 <= i < |call.names| ==> call.names[i] in Elements(call.names);
  }

  lemma IssueClones(
    w: World, leases: map<LeaseId, Record>, more: map<LeaseId, Record>, after: map<nat, Call>,
    public: set<LeaseId>, c: nat, names: set<LeaseId>)
    requires ClonesOk(w.store.leases, w.issued, w.calls, w.published)
    requires Extends(w.store.leases, leases, names) && Extends(w.issued, more, names) && Fresh(w.issued, names)
    requires SameElsewhere(w.calls, after, c) && Owned(w.calls, c) == {}
    requires Accounted(w.published, public, Owned(after, c), names)
    requires c in after && after[c].Cloning? ==> CloneOk(leases, after[c])
    ensures ClonesOk(leases, more, after, public)
  {
    assert forall d :: d != c ==> Owned(after, d) == Owned(w.calls, d);
    forall d | d in after && after[d].Cloning?
      ensures CloneOk(leases, after[d])
    {
      if d != c {
        hide CloneOk;
        assert Elements(w.calls[d].names) == Owned(w.calls, d);
        CloneStaysOk(w.store.leases, leases, w.calls[d], names);
      }
    }
  }

  lemma IssueNoLeak(
    w: World, leases: map<LeaseId, Record>, more: map<LeaseId, Record>, after: map<nat, Call>,
    public: set<LeaseId>, c: nat, names: set<LeaseId>)
    requires NoLeak(w.store.leases, w.issued, w.calls, w.published)
    requires Extends(w.store.leases, leases, names) && Extends(w.issued, more, names)
    requires SameElsewhere(w.calls, after, c) && Owned(w.calls, c) == {}
    requires Accounted(w.published, public, Owned(after, c), names)
    ensures NoLeak(leases, more, after, public)
  {
    forall id | id in leases && id !in public
      ensures exists d :: id in Owned(after, d)
    {
      if id in names {
        assert id in Owned(after, c);
      } else {
        var d :| id in Owned(w.calls, d);
        assert id in Owned(after, d);
      }
    }
  }

  lemma IssueManifests(w: World, more: map<LeaseId, Record>, after: map<nat, Call>, c: nat, names: set<LeaseId>)
    requires ManifestsOk(w.issued, w.calls, w.made) && Extends(w.issued, more, names) && Fresh(w.issued, names)
    requires SameElsewhere(w.calls, after, c) && Idle(after, c)
    ensures ManifestsOk(more, after, w.made)
  {
    forall m | Nested(w.issued, m)
      ensures Nested(more, m)
    {
    }
  }

  lemma FreshIsNotLive(env: Env, s: Store, issued: map<LeaseId, Record>, names: set<LeaseId>)
    requires TablesOk(env, s, issued) && Fresh(issued, names)
    ensures forall id :: id in names ==> id !in s.leases
  {
    hide RecordOk, ReceiptOk;
  }

  /** One call inserts new leases. */
  lemma IssueKeepsInv(env: Env, w: World, v: World, c: nat, names: set<LeaseId>)
    requires Inv(env, w) && Fresh(w.issued, names) && !w.store.closed
    requires c in w.calls && w.calls[c].Entered?
    requires v == w.(store := w.store.(leases := v.store.leases), calls := v.calls, issued := v.issued,
                     lineage := v.lineage, published := v.published)
    requires SameElsewhere(w.calls, v.calls, c) && Idle(v.calls, c)
    requires Extends(w.store.leases, v.store.leases, names) && Extends(w.issued, v.issued, names)
    requires forall id :: id in names ==> v.store.leases[id] == v.issued[id] && RecordOk(env, id, v.issued[id])
    requires Accounted(w.published, v.published, Owned(v.calls, c), names)
    requires c in v.calls && v.calls[c].Cloning? ==> CloneOk(v.store.leases, v.calls[c])
    requires LineageOk(v.issued, v.lineage)
    ensures Inv(env, v)
  {
    hide TablesOk, HeldOk, DeliveredOk, ClonesOk, NoLeak, LineageOk, ApprovalsOk, CompletionOk, ManifestsOk, Extends, Fresh,
      CloneOk, RecordOk;
    FreshIsNotLive(env, w.store, w.issued, names);
    IssueTables(env, w.store, v.store, w.issued, v.issued, names);
    IssueHeld(w.store.leases, v.store.leases, w.calls, v.calls, w.published, v.published, c, names);
    IssueDelivered(w, v.issued, v.calls, c, names);
    IssueNoLeak(w, v.store.leases, v.issued, v.calls, v.published, c, names);
    IssueClones(w, v.store.leases, v.issued, v.calls, v.published, c, names);
    IssueManifests(w, v.issued, v.calls, c, names);
  }
}
