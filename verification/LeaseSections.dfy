/** Every critical section of the attachment authority as one value, so that a run is a sequence of them. */
module LeaseSections {
  import opened Outcomes
  import opened LeaseStore

  datatype Section =
    | CommitSection(record: Record)
    | PrepareSection(ids: seq<LeaseId>, manifestId: ManifestId, purpose: string, at: int, canonical: bool)
    | PublishSection(manifest: Manifest, purpose: string)
    | ApproveSection(manifest: Manifest, at: int, ttl: int)
    | InspectSection(manifest: Manifest, at: int, intact: set<LeaseId>)
    | InspectedSection(manifest: Manifest, ending: Ending, at: int, intact: set<LeaseId>)
    | ConsumeSection(manifest: Manifest, approval: Approval, at: int, intact: set<LeaseId>)
    | ConsumedSection(manifest: Manifest, approval: Approval, ending: Ending, at: int, intact: set<LeaseId>)
    | CloneSection(manifest: Manifest, at: int, ttl: int, names: seq<LeaseId>, intact: set<LeaseId>)
    | AbortSection(ids: seq<LeaseId>, at: int)
    | CancelSection(id: LeaseId, at: int)
    | ExpireSection(at: int)
    | CancelAllSection(at: int)
    | CloseSection(at: int)

  predicate IsNew(s: Store, id: LeaseId) {
    id !in s.leases && id !in s.terminal
  }

  /** New ids are new, and a callback that ends has its leases. */
  predicate Can(s: Store, x: Section) {
    match x
    case CommitSection(r) => IsNew(s, r.lease.id) && !r.consuming
    case InspectedSection(m, _, _, _) => forall id :: id in m.body.leaseIds ==> id in s.leases
    case ConsumedSection(m, _, _, _, _) => forall id :: id in m.body.leaseIds ==> id in s.leases
    case CloneSection(m, _, _, names, _) =>
      |names| == |m.body.leaseIds| && Distinct(names) && forall id :: id in names ==> IsNew(s, id)
    case _ => true
  }

  /** The tables after a section; one that cannot happen changes nothing. */
  function Do(env: Env, s: Store, x: Section): Store {
    if !Can(s, x) then s
    else
      match x
      case CommitSection(r) => CommitSelection(s, r).1
      case PrepareSection(ids, id, purpose, at, canonical) => PrepareManifest(env, s, ids, id, purpose, at, canonical).1
      case PublishSection(m, purpose) => PublishManifest(s, m, purpose).1
      case ApproveSection(m, at, ttl) => Approve(env, s, m, at, ttl).1
      case InspectSection(m, at, intact) => BeginInspection(env, s, m, at, intact).1
      case InspectedSection(m, ending, at, intact) => EndInspection(env, s, m, ending, at, intact).1
      case ConsumeSection(m, a, at, intact) => BeginConsumption(env, s, m, a, at, intact).1
      case ConsumedSection(m, a, ending, at, intact) => EndConsumption(env, s, m, a, ending, at, intact).1
      case CloneSection(m, at, ttl, names, intact) => CloneLeases(env, s, m, at, ttl, names, intact).1
      case AbortSection(ids, at) => Cleaned(s, Elements(ids), Cancelled, at)
      case CancelSection(id, at) => CancelLease(s, id, at).1
      case ExpireSection(at) => Expire(s, at)
      case CancelAllSection(at) => CancelAll(s, at).1
      case CloseSection(at) => Close(s, at).1
  }

  function DoAll(env: Env, s: Store, xs: seq<Section>): Store {
    if xs == [] then s else Do(env, DoAll(env, s, xs[..|xs| - 1]), xs[|xs| - 1])
  }

  const EMPTY := Store(map[], map[], map[], false)

  // ----- What every section keeps -----

  ghost predicate Disjoint(s: Store) {
    forall id :: id in s.leases ==> id !in s.terminal
  }

  /** Every receipt stays as it was. */
  ghost predicate ReceiptsStay(before: map<LeaseId, Receipt>, after: map<LeaseId, Receipt>) {
    forall id :: id in before ==> id in after && after[id] == before[id]
  }

  /** Receipts are never replaced and a closed store is never opened again. */
  ghost predicate Keeps(s: Store, t: Store) {
    ReceiptsStay(s.terminal, t.terminal) && (s.closed ==> t.closed) && Disjoint(t)
  }

  lemma CleanedKeeps(s: Store)
    requires Disjoint(s)
    ensures forall gone, state, at :: Keeps(s, Cleaned(s, gone, state, at))
    ensures forall ids, flag :: Keeps(s, Marked(s, ids, flag))
    ensures Keeps(s, s)
  {
  }

  lemma ActivateKeeps(s: Store, ids: seq<LeaseId>, at: int)
    requires Disjoint(s)
    ensures Keeps(s, Activate(s, ids, at).1)
  {
    hide Activate, Cleaned, Marked, Keeps;
    CleanedKeeps(s);
    ActivateOutcome(s, ids, at);
  }

  lemma InsertKeeps(s: Store, records: seq<Record>)
    requires Disjoint(s) && forall i :: 0 <= i < |records| ==> records[i].lease.id !in s.terminal
    ensures Keeps(s, s.(leases := Inserted(s.leases, records)))
  {
    forall id | id in Inserted(s.leases, records)
      ensures id !in s.terminal
    {
      InsertedFrom(s.leases, records, id);
    }
  }

  lemma {:induction false} InsertedFrom(leases: map<LeaseId, Record>, records: seq<Record>, id: LeaseId)
    requires id in Inserted(leases, records)
    ensures id in leases || exists i :: 0 <= i < |records| && records[i].lease.id == id
    decreases |records|
  {
    if records != [] && id != records[|records| - 1].lease.id {
      InsertedFrom(leases, records[..|records| - 1], id);
    }
  }

  lemma CommitKeeps(s: Store, r: Record)
    requires Disjoint(s) && r.lease.id !in s.terminal
    ensures Keeps(s, CommitSelection(s, r).1)
  {
  }

  lemma RestKeeps(s: Store, t: Store)
    requires Disjoint(s) && t.leases == s.leases && t.terminal == s.terminal && t.closed == s.closed
    ensures Keeps(s, t)
  {
  }

  lemma CloseKeeps(s: Store, at: int)
    requires Disjoint(s)
    ensures Keeps(s, CancelAll(s, at).1) && Keeps(s, Close(s, at).1)
  {
    hide Cleaned, AnyReserved;
    CleanedKeeps(s);
  }

  lemma CloneKeeps(env: Env, s: Store, m: Manifest, at: int, ttl: int, names: seq<LeaseId>, intact: set<LeaseId>)
    requires Disjoint(s) && |names| == |m.body.leaseIds| && forall id :: id in names ==> id !in s.terminal
    ensures Keeps(s, CloneLeases(env, s, m, at, ttl, names, intact).1)
  {
    hide Activate, Cleaned, Marked, Keeps, ManifestOk, Rejection, Inserted, LeastExpiry;
    var ids := m.body.leaseIds;
    CleanedKeeps(s);
    ActivateKeeps(s, ids, at);
    ActivateOutcome(s, ids, at);
    if forall id :: id in ids ==> id in s.leases {
      var clones := Clones(s, ids, names, at, LeastExpiry(s, ids, at + ttl));
      assert forall i :: 0 <= i < |clones| ==> clones[i].lease.id == names[i] && names[i] in names;
      InsertKeeps(s, clones);
    }
  }

  /** No section replaces a receipt, opens a closed store or makes a terminal lease live. */
  lemma DoKeeps(env: Env, s: Store, x: Section)
    requires Disjoint(s)
    ensures Keeps(s, Do(env, s, x))
  {
    hide Activate, Cleaned, Marked, Keeps, ManifestOk, ApprovalOk, Binds, Rejection, Unreserved, Draft, Clones, Inserted, Distinct;
    CleanedKeeps(s);
    if Can(s, x) {
      match x
      case CommitSection(r) => CommitKeeps(s, r);
      case PrepareSection(ids, id, purpose, at, canonical) => ActivateKeeps(s, ids, at);
      case PublishSection(m, purpose) => RestKeeps(s, PublishManifest(s, m, purpose).1);
      case ApproveSection(m, at, ttl) => ActivateKeeps(s, m.body.leaseIds, at);
      case InspectSection(m, at, intact) => ActivateKeeps(s, m.body.leaseIds, at);
      case ConsumeSection(m, a, at, intact) => ActivateKeeps(s, m.body.leaseIds, at);
      case CloneSection(m, at, ttl, names, intact) => CloneKeeps(env, s, m, at, ttl, names, intact);
      case CancelAllSection(at) => CloseKeeps(s, at);
      case CloseSection(at) => CloseKeeps(s, at);
      case _ =>
    }
  }

  lemma {:induction false} DoAllKeeps(env: Env, s: Store, xs: seq<Section>)
    requires Disjoint(s)
    ensures Keeps(s, DoAll(env, s, xs))
  {
    if xs == [] {
      RestKeeps(s, s);
    } else {
      hide Do;
      var t := DoAll(env, s, xs[..|xs| - 1]);
      DoAllKeeps(env, s, xs[..|xs| - 1]);
      DoKeeps(env, t, xs[|xs| - 1]);
    }
  }
}
