/** Selecting and cloning leases, and the rest of a clone call, keep the invariant. */
module LeaseClones {
  import opened Outcomes
  import opened LeaseStore
  import opened LeaseRuns
  import opened LeaseInvariant
  import opened LeaseSafety

  // ----- Selecting -----

  lemma SelectLineage(issued: map<LeaseId, Record>, lineage: map<LeaseId, seq<LeaseId>>, id: LeaseId, r: Record)
    requires LineageOk(issued, lineage) && id !in issued
    ensures LineageOk(issued[id := r], lineage[id := [id]])
  {
    var more, lines := issued[id := r], lineage[id := [id]];
    forall x | x in more && x in lines
      ensures LineOk(more, lines, x)
    {
      if x != id {
        assert LineOk(issued, lineage, x);
      }
    }
  }

  lemma SelectKeepsInv(env: Env, w: World, e: Event)
    requires Inv(env, w) && e.Select? && Enabled(w, e)
    ensures Inv(env, AfterSelect(env, w, e))
  {
    hide Inv, LineageOk;
    if w.store.closed || !TtlOk(e.ttl, env.maxLease) {
      EndKeepsInv(env, w, e.call);
    } else {
      var v := AfterSelect(env, w, e);
      InvLineage(env, w);
      SelectLineage(w.issued, w.lineage, e.id, v.issued[e.id]);
      SelectKeeps(env, w, e, v);
    }
  }

  lemma SelectKeeps(env: Env, w: World, e: Event, v: World)
    requires Inv(env, w) && e.Select? && Enabled(w, e) && v == AfterSelect(env, w, e)
    requires !w.store.closed && TtlOk(e.ttl, env.maxLease) && LineageOk(v.issued, v.lineage)
    ensures Inv(env, v)
  {
    hide Inv, LineageOk, Elements;
    var r := v.issued[e.id];
    assert r == Record(Lease(e.id, Descriptor(e.attachment, env.inspect(e.content)), e.at, e.at + e.ttl), e.content, false);
    assert v.store.leases == w.store.leases[e.id := r];
    assert v.calls == w.calls - {e.call};
    assert v == w.(store := w.store.(leases := v.store.leases), calls := v.calls, issued := v.issued,
                   lineage := v.lineage, published := v.published);
    hide AfterSelect;
    IssueKeepsInv(env, w, v, e.call, {e.id});
  }

  lemma InvLineage(env: Env, w: World)
    requires Inv(env, w)
    ensures LineageOk(w.issued, w.lineage)
  {
    hide TablesOk, HeldOk, DeliveredOk, ClonesOk, NoLeak, LineageOk, ApprovalsOk, CompletedOk, ManifestsOk;
  }

  // ----- Inserting clones -----

  lemma InsertedExtends(leases: map<LeaseId, Record>, records: seq<Record>, names: seq<LeaseId>)
    requires |records| == |names| && Distinct(names)
    requires forall i :: 0 <= i < |names| ==> records[i].lease.id == names[i] && !records[i].consuming
    ensures Extends(leases, Inserted(leases, records), Elements(names))
    ensures forall i :: 0 <= i < |names| ==>
             names[i] in Inserted(leases, records) && Inserted(leases, records)[names[i]] == records[i]
  {
    hide Inserted;
    var more := Inserted(leases, records);
    forall i | 0 <= i < |names|
      ensures names[i] in more && more[names[i]] == records[i]
    {
      InsertedAt(leases, records, i);
    }
    forall id | id !in names
      ensures id in more <==> id in leases
      ensures id in leases ==> more[id] == leases[id]
    {
      assert forall i :: 0 <= i < |records| ==> records[i].lease.id == names[i] && names[i] in names;
      InsertedElsewhere(leases, records, id);
    }
    hide Distinct;
    forall id | id in Elements(names)
      ensures id in more && !more[id].consuming
    {
      var i :| 0 <= i < |names| && names[i] == id;
      assert more[names[i]] == records[i];
    }
  }

  /** Every clone is well formed and descends from the lease it copies. */
  lemma ClonesAreOk(env: Env, s: Store, issued: map<LeaseId, Record>, ids: seq<LeaseId>, names: seq<LeaseId>, at: int, ttl: int)
    requires TablesOk(env, s, issued) && |names| == |ids| && ttl > 0
    requires forall id :: id in ids ==> id in s.leases && at < s.leases[id].lease.expiresAt
    ensures var expiresAt := LeastExpiry(s, ids, at + ttl);
            forall i :: 0 <= i < |ids| ==>
              && ids[i] in issued
              && RecordOk(env, names[i], CloneOf(s.leases[ids[i]], names[i], at, expiresAt))
              && Descends(CloneOf(s.leases[ids[i]], names[i], at, expiresAt), issued[ids[i]])
  {
    LeastExpiryIsLeast(s, ids, at + ttl);
    var expiresAt := LeastExpiry(s, ids, at + ttl);
    assert at < expiresAt;
    hide LeastExpiry;
    forall i | 0 <= i < |ids|
      ensures ids[i] in issued
      ensures RecordOk(env, names[i], CloneOf(s.leases[ids[i]], names[i], at, expiresAt))
      ensures Descends(CloneOf(s.leases[ids[i]], names[i], at, expiresAt), issued[ids[i]])
    {
      assert ids[i] in ids;
      assert RecordOk(env, ids[i], issued[ids[i]]);
    }
  }

  lemma {:induction false} ContinuedElsewhere(lineage: map<LeaseId, seq<LeaseId>>, ids: seq<LeaseId>, names: seq<LeaseId>, x: LeaseId)
    requires |ids| == |names| && x !in names
    ensures x in Continued(lineage, ids, names) <==> x in lineage
    ensures x in lineage ==> Continued(lineage, ids, names)[x] == lineage[x]
    decreases |ids|
  {
    if ids != [] {
      var n := |ids| - 1;
      assert names[n] in names && forall y :: y in names[..n] ==> y in names;
      ContinuedElsewhere(lineage, ids[..n], names[..n], x);
    }
  }

  lemma {:induction false} ContinuedAt(lineage: map<LeaseId, seq<LeaseId>>, ids: seq<LeaseId>, names: seq<LeaseId>, i: nat)
    requires i < |ids| == |names| && Distinct(names) && ids[i] in lineage
    ensures names[i] in Continued(lineage, ids, names) && Continued(lineage, ids, names)[names[i]] == lineage[ids[i]] + [names[i]]
    decreases |ids|
  {
    var n := |ids| - 1;
    if i < n {
      assert names[..n][i] == names[i] && ids[..n][i] == ids[i] && names[i] != names[n];
      ContinuedAt(lineage, ids[..n], names[..n], i);
    }
  }

  lemma ContinuedContents(lineage: map<LeaseId, seq<LeaseId>>, ids: seq<LeaseId>, names: seq<LeaseId>)
    requires |ids| == |names| && Distinct(names)
    requires forall i :: 0 <= i < |ids| ==> ids[i] in lineage
    ensures forall x :: x in Continued(lineage, ids, names) <==> x in lineage || x in names
    ensures forall id :: id in lineage && id !in names ==> Continued(lineage, ids, names)[id] == lineage[id]
    ensures forall i :: 0 <= i < |ids| ==> Continued(lineage, ids, names)[names[i]] == lineage[ids[i]] + [names[i]]
  {
    hide Continued;
    var lines := Continued(lineage, ids, names);
    forall i | 0 <= i < |ids|
      ensures names[i] in lines && lines[names[i]] == lineage[ids[i]] + [names[i]]
    {
      ContinuedAt(lineage, ids, names, i);
    }
    hide Distinct;
    forall x | x !in names
      ensures x in lines <==> x in lineage
      ensures x in lineage ==> lines[x] == lineage[x]
    {
      ContinuedElsewhere(lineage, ids, names, x);
    }
  }

  lemma ContinuedLine(
    issued: map<LeaseId, Record>, more: map<LeaseId, Record>, lineage: map<LeaseId, seq<LeaseId>>, lines: map<LeaseId, seq<LeaseId>>,
    names: set<LeaseId>, id: LeaseId, name: LeaseId)
    requires LineageOk(issued, lineage) && Extends(issued, more, names) && Fresh(issued, names)
    requires forall x :: x in lineage ==> x in lines && lines[x] == lineage[x]
    requires id in issued && name in names && name in lines && lines[name] == lineage[id] + [name]
    requires Descends(more[name], issued[id])
    ensures LineOk(more, lines, name)
  {
    assert LineOk(issued, lineage, id);
    var line := lines[name];
    forall k | 0 <= k < |line|
      ensures line[k] in more && line[k] in lines && lines[line[k]] == line[..k + 1] && Descends(more[name], more[line[k]])
    {
      if k < |line| - 1 {
        assert line[k] == lineage[id][k];
        assert line[..k + 1] == lineage[id][..k + 1];
      } else {
        assert line[..k + 1] == line;
      }
    }
  }

  lemma CloneLineage(
    issued: map<LeaseId, Record>, more: map<LeaseId, Record>, lineage: map<LeaseId, seq<LeaseId>>, ids: seq<LeaseId>, names: seq<LeaseId>)
    requires LineageOk(issued, lineage) && |ids| == |names| && Distinct(names)
    requires Extends(issued, more, Elements(names)) && Fresh(issued, Elements(names))
    requires forall i :: 0 <= i < |ids| ==> ids[i] in issued && names[i] in more && Descends(more[names[i]], issued[ids[i]])
    ensures LineageOk(more, Continued(lineage, ids, names))
  {
    ContinuedContents(lineage, ids, names);
    hide Continued;
    var lines := Continued(lineage, ids, names);
    assert forall x :: x in lineage ==> x !in names by {
      assert forall x :: x in names ==> x in Elements(names);
    }
    assert lines.Keys == more.Keys;
    forall x | x in more && x in lines
      ensures LineOk(more, lines, x)
    {
      if x in names {
        var i :| 0 <= i < |names| && names[i] == x;
        hide Descends, LineOk;
        ContinuedLine(issued, more, lineage, lines, Elements(names), ids[i], x);
      } else {
        assert x in issued;
        hide Distinct;
        OldLine(issued, more, lineage, lines, Elements(names), x);
      }
    }
  }

  lemma OldLine(
    issued: map<LeaseId, Record>, more: map<LeaseId, Record>, lineage: map<LeaseId, seq<LeaseId>>, lines: map<LeaseId, seq<LeaseId>>,
    names: set<LeaseId>, id: LeaseId)
    requires LineageOk(issued, lineage) && Extends(issued, more, names) && Fresh(issued, names)
    requires forall x :: x in lineage ==> x in lines && lines[x] == lineage[x]
    requires id in issued
    ensures LineOk(more, lines, id)
  {
    assert LineOk(issued, lineage, id);
  }

  /** What `clone_manifest_leases` does up to the nested manifest. */
  lemma CloneOutcome(env: Env, s: Store, m: Manifest, at: int, ttl: int, names: seq<LeaseId>, intact: set<LeaseId>)
    requires |names| == |m.body.leaseIds|
    ensures var (result, t) := CloneLeases(env, s, m, at, ttl, names, intact);
            var ids := m.body.leaseIds;
            && (result.Success? ==>
                  && (forall id :: id in ids ==> id in s.leases && at < s.leases[id].lease.expiresAt)
                  && m.body.id in s.purposes && ttl > 0
                  && result.value.1 == Clones(s, ids, names, at, LeastExpiry(s, ids, at + ttl))
                  && t == s.(leases := Inserted(s.leases, result.value.1)))
            && (result.Failure? ==>
                  || t == s
                  || t == Activate(s, ids, at).1
                  || ((forall id :: id in ids ==> Active(s, id, at)) && t == Cleaned(s, Elements(ids), IntegrityRejected, at)))
  {
    hide Activate, Cleaned, Rejection, Inserted;
    ActivateOutcome(s, m.body.leaseIds, at);
  }

  lemma CloneInserts(env: Env, w: World, v: World, c: nat, m: Manifest, at: int, ttl: int, names: seq<LeaseId>, purpose: string)
    requires Inv(env, w) && c in w.calls && w.calls[c].Entered? && !w.store.closed && ttl > 0
    requires |names| == |m.body.leaseIds| && Distinct(names) && forall id :: id in names ==> id !in w.issued
    requires forall id :: id in m.body.leaseIds ==> id in w.store.leases && at < w.store.leases[id].lease.expiresAt
    requires var clones := Clones(w.store, m.body.leaseIds, names, at, LeastExpiry(w.store, m.body.leaseIds, at + ttl));
             v == w.(store := w.store.(leases := Inserted(w.store.leases, clones)),
                     calls := w.calls[c := Cloning(m, names, purpose, at, Copied)],
                     issued := Inserted(w.issued, clones),
                     lineage := Continued(w.lineage, m.body.leaseIds, names))
    ensures Inv(env, v)
  {
    hide Inv, TablesOk, LineageOk, Inserted, Continued, LeastExpiry, RecordOk, Descends;
    var ids := m.body.leaseIds;
    var clones := Clones(w.store, ids, names, at, LeastExpiry(w.store, ids, at + ttl));
    InvTables(env, w);
    InvLineage(env, w);
    ClonesAreOk(env, w.store, w.issued, ids, names, at, ttl);
    InsertedExtends(w.store.leases, clones, names);
    InsertedExtends(w.issued, clones, names);
    assert Fresh(w.issued, Elements(names));
    CloneLineage(w.issued, v.issued, w.lineage, ids, names);
    assert CloneOk(v.store.leases, v.calls[c]);
    forall id | id in Elements(names)
      ensures v.store.leases[id] == v.issued[id] && RecordOk(env, id, v.issued[id])
    {
      var i :| 0 <= i < |names| && names[i] == id;
      assert v.issued[names[i]] == clones[i];
    }
    hide CloneOk, Extends, Distinct, Clones;
    ClonesAreAccounted(env, w, v.calls, c, names);
    IssueKeepsInv(env, w, v, c, Elements(names));
  }

  lemma ClonesAreAccounted(env: Env, w: World, after: map<nat, Call>, c: nat, names: seq<LeaseId>)
    requires Inv(env, w) && c in after && after[c].Cloning? && after[c].names == names
    requires forall id :: id in names ==> id !in w.issued
    ensures Owned(after, c) == Elements(names) && Accounted(w.published, w.published, Owned(after, c), Elements(names))
  {
    PublishedIsIssued(env, w);
    hide Inv;
  }

  lemma PublishedIsIssued(env: Env, w: World)
    requires Inv(env, w)
    ensures forall id :: id in w.published ==> id in w.issued
  {
    hide TablesOk, HeldOk, DeliveredOk, ClonesOk, LineageOk, ApprovalsOk, CompletedOk, ManifestsOk;
  }

  lemma CloneKeepsInv(env: Env, w: World, e: Event)
    requires Inv(env, w) && e.Clone? && Enabled(w, e)
    ensures Inv(env, AfterClone(env, w, e))
  {
    hide Inv, CloneLeases, Activate, Cleaned, TablesOk, Inserted, Continued, LeastExpiry, Clones;
    var m := e.manifest;
    CloneOutcome(env, w.store, m, e.at, e.ttl, e.names, e.intact);
    var (result, t) := CloneLeases(env, w.store, m, e.at, e.ttl, e.names, e.intact);
    if result.Success? {
      PurposesMeanOpen(env, w, m.body.id);
      CloneInserts(env, w, AfterClone(env, w, e), e.call, m, e.at, e.ttl, e.names, result.value.0);
    } else if t == w.store {
      EndKeepsInv(env, w, e.call);
    } else if t == Activate(w.store, m.body.leaseIds, e.at).1 {
      ActivateKeepsInv(env, w, e.call, m.body.leaseIds, e.at);
    } else {
      DestroyPublished(env, w, e.call, Elements(m.body.leaseIds), IntegrityRejected, e.at);
    }
  }

  /** Cloning does not look at `closed`; a purpose on record implies that the store is open. */
  lemma PurposesMeanOpen(env: Env, w: World, id: ManifestId)
    requires Inv(env, w) && id in w.store.purposes
    ensures !w.store.closed
  {
    hide HeldOk, DeliveredOk, ClonesOk, NoLeak, LineageOk, ApprovalsOk, CompletedOk, ManifestsOk, RecordOk, ReceiptOk;
  }

  // ----- The rest of a clone call -----

  lemma PhaseKeepsInv(env: Env, w: World, c: nat, phase: Phase)
    requires Inv(env, w) && c in w.calls && w.calls[c].Cloning? && !w.calls[c].phase.Diverging?
    requires !w.calls[c].phase.Aborting? || phase.Aborting?
    requires phase.Diverging? ==> phase.cancelled == 0
    requires phase.Hashed? ==> Nested(w.issued, phase.manifest)
    ensures Inv(env, ToPhase(w, c, w.store, phase))
  {
    assert CloneOk(w.store.leases, w.calls[c]) by {
      hide TablesOk, HeldOk, DeliveredOk, NoLeak, LineageOk, ApprovalsOk, CompletedOk, ManifestsOk, CloneOk;
    }
    hide Inv, Nested;
    MoveKeepsInv(env, w, w.calls[c := w.calls[c].(phase := phase)], c);
  }

  lemma OwnedFacts(env: Env, w: World, c: nat)
    requires Inv(env, w)
    ensures forall id :: id in Owned(w.calls, c) ==>
             id !in w.published && (id in w.store.leases ==> !w.store.leases[id].consuming)
    ensures forall d, id :: d != c && id in Owned(w.calls, c) ==> id !in Owned(w.calls, d)
    ensures c in w.calls && w.calls[c].Cloning? ==> CloneOk(w.store.leases, w.calls[c])
  {
    hide TablesOk, DeliveredOk, NoLeak, LineageOk, ApprovalsOk, CompletedOk, ManifestsOk, CloneOk, Held, Owned;
  }

  /** A clone call destroys clones of its own. */
  lemma DestroyOwned(env: Env, w: World, after: map<nat, Call>, c: nat, gone: set<LeaseId>, state: TerminalState, at: int)
    requires Inv(env, w) && c in w.calls && w.calls[c].Cloning? && gone <= Owned(w.calls, c)
    requires SameElsewhere(w.calls, after, c) && Idle(after, c) && Owned(after, c) <= Owned(w.calls, c)
    requires c in after && after[c].Cloning? ==> CloneOk(w.store.leases - gone, after[c])
    requires forall id :: id in Owned(w.calls, c) && id in w.store.leases && id !in gone ==> id in Owned(after, c)
    ensures Inv(env, w.(store := Cleaned(w.store, gone, state, at), calls := after))
  {
    OwnedFacts(env, w, c);
    hide Inv, Cleaned, CloneOk;
    forall d
      ensures Held(w.calls, d) !! gone
      ensures d != c && d in w.calls && w.calls[d].Cloning? ==> CloneOk(w.store.leases - gone, w.calls[d])
    {
      Harmless(env, w, gone, d);
    }
    DestroyKeepsInv(env, w, after, c, gone, state, at);
  }

  lemma ClonePreparesKeepsInv(env: Env, w: World, e: Event)
    requires Inv(env, w) && e.ClonePrepares? && Enabled(w, e)
    ensures Inv(env, AfterClonePrepares(env, w, e))
  {
    hide Inv, TablesOk, PrepareManifest, Activate, Cleaned, Nested;
    var call := w.calls[e.call];
    InvTables(env, w);
    PreparedIsNested(env, w.store, w.issued, call.names, e.manifestId, call.purpose, call.at, e.canonical);
    var (result, t) := PrepareManifest(env, w.store, call.names, e.manifestId, call.purpose, call.at, e.canonical);
    if t == w.store {
      PhaseKeepsInv(env, w, e.call, if result.Failure? then Aborting else Hashed(result.value));
    } else {
      ActivateOutcome(w.store, call.names, call.at);
      var id :| id in call.names && t == Cleaned(w.store, {id}, Expired, call.at);
      OwnedFacts(env, w, e.call);
      DestroyOwned(env, w, w.calls[e.call := call.(phase := Aborting)], e.call, {id}, Expired, call.at);
    }
  }

  lemma CloneAbortsKeepsInv(env: Env, w: World, c: nat)
    requires Inv(env, w) && c in w.calls && w.calls[c].Cloning?
    ensures Inv(env, AfterCloneAborts(w, c))
  {
    hide Inv, Cleaned;
    DestroyOwned(env, w, w.calls - {c}, c, Owned(w.calls, c), Cancelled, w.calls[c].at);
  }

  /** When the clones still to cancel are not live, none of the call's clones is. */
  lemma CloneCancelsKeepsInv(env: Env, w: World, c: nat)
    requires Inv(env, w) && c in w.calls && w.calls[c].Cloning? && w.calls[c].phase.Diverging?
    ensures Inv(env, AfterCloneCancels(w, c))
  {
    hide Inv, Cleaned, TablesOk;
    InvTables(env, w);
    OwnedFacts(env, w, c);
    var call := w.calls[c];
    var k := call.phase.cancelled;
    if k < |call.names| && call.names[k] in w.store.leases {
      NotTerminal(env, w, call.names[k]);
      DestroyOwned(env, w, w.calls[c := call.(phase := Diverging(k + 1))], c, {call.names[k]}, Cancelled, call.at);
    } else {
      assert forall id :: id in Owned(w.calls, c) ==> id !in w.store.leases;
      EndSpentKeepsInv(env, w, c);
    }
  }

  lemma NotTerminal(env: Env, w: World, id: LeaseId)
    requires TablesOk(env, w.store, w.issued) && id in w.store.leases
    ensures id !in w.store.terminal
  {
    hide RecordOk, ReceiptOk;
  }

  lemma EndSpentKeepsInv(env: Env, w: World, c: nat)
    requires Inv(env, w) && c in w.calls && w.calls[c].Cloning?
    requires forall id :: id in Owned(w.calls, c) ==> id !in w.store.leases
    ensures Inv(env, Finish(w, c, w.store))
  {
    hide Inv, Cleaned;
    DestroyOwned(env, w, w.calls - {c}, c, {}, Cancelled, 0);
    CleanedNone(w.store, Cancelled, 0);
  }

  /** The clones are returned to the caller. */
  lemma ReturnKeepsInv(env: Env, w: World, c: nat)
    requires Inv(env, w) && c in w.calls && w.calls[c].Cloning?
    ensures Inv(env, Finish(w, c, w.store).(published := w.published + Elements(w.calls[c].names)))
  {
    hide TablesOk, HeldOk, DeliveredOk, ClonesOk, NoLeak, LineageOk, ApprovalsOk, CompletionOk, Nested, Elements;
    MoveHeld(w, w.calls - {c}, c);
    PublishedGrows(w, w.calls - {c}, Elements(w.calls[c].names));
    ReturnOwned(w, c);
  }

  lemma PublishedGrows(w: World, after: map<nat, Call>, names: set<LeaseId>)
    requires HeldOk(w.store.leases, after, w.published)
    ensures HeldOk(w.store.leases, after, w.published + names)
  {
    hide Held;
  }

  lemma ReturnOwned(w: World, c: nat)
    requires ClonesOk(w.store.leases, w.issued, w.calls, w.published) && NoLeak(w.store.leases, w.issued, w.calls, w.published)
    requires c in w.calls && w.calls[c].Cloning?
    ensures var public := w.published + Elements(w.calls[c].names);
            ClonesOk(w.store.leases, w.issued, w.calls - {c}, public) && NoLeak(w.store.leases, w.issued, w.calls - {c}, public)
  {
    var after := w.calls - {c};
    var public := w.published + Elements(w.calls[c].names);
    assert forall d :: d != c ==> Owned(after, d) == Owned(w.calls, d);
    assert Owned(w.calls, c) == Elements(w.calls[c].names);
    hide CloneOk, Elements;
    forall id | id in w.store.leases && id !in public
      ensures exists d :: id in Owned(after, d)
    {
      var d :| id in Owned(w.calls, d);
      assert id in Owned(after, d);
    }
  }

  lemma ClonePublishesKeepsInv(env: Env, w: World, c: nat)
    requires Inv(env, w) && c in w.calls && w.calls[c].Cloning? && w.calls[c].phase.Hashed?
    ensures Inv(env, AfterClonePublishes(w, c))
  {
    hide Inv, Nested, Elements;
    DraftIsNested(env, w, c);
    var call := w.calls[c];
    var m := call.phase.manifest;
    var s := PublishManifest(w.store, m, call.purpose).1;
    if w.store.closed {
      PhaseKeepsInv(env, w, c, Aborting);
    } else if m.body.attachments != call.source.body.attachments || m.body.purposeSha != call.source.body.purposeSha {
      PhaseKeepsInv(env, w, c, Diverging(0));
      RecordKeepsInv(env, ToPhase(w, c, w.store, Diverging(0)), s, m);
    } else {
      ReturnKeepsInv(env, w, c);
      RecordKeepsInv(env, Finish(w, c, w.store).(published := w.published + Elements(call.names)), s, m);
    }
  }
}
