/** The C9 attachment authority's tables and each of its critical sections, as functions on values. */
module LeaseStore {
  import opened Outcomes
  import opened Bytes

  datatype LeaseId = LeaseId(token: nat)
  datatype ManifestId = ManifestId(token: nat)

  /** What inspecting a payload yields: its digest, size and, for an image, its dimensions. */
  datatype Inspection = Inspection(media: string, sha: string, byteSize: nat, dimensions: Option<(nat, nat)>)

  datatype Descriptor = Descriptor(attachment: string, inspection: Inspection)

  datatype Lease = Lease(id: LeaseId, descriptor: Descriptor, createdAt: int, expiresAt: int)

  datatype Record = Record(lease: Lease, content: seq<byte>, consuming: bool)

  datatype TerminalState = Consumed | Cancelled | Expired | IntegrityRejected | ConsumerFailed

  datatype Receipt = Receipt(lease: LeaseId, descriptor: Descriptor, state: TerminalState, released: nat, cleanedAt: int)

  datatype ManifestBody = ManifestBody(
    id: ManifestId, purposeSha: string, leaseIds: seq<LeaseId>, attachments: seq<Descriptor>, createdAt: int, expiresAt: int)

  datatype Manifest = Manifest(body: ManifestBody, sha: string)

  datatype Approval = Approval(manifestId: ManifestId, manifestSha: string, leaseIds: seq<LeaseId>, approvedAt: int, expiresAt: int)

  datatype Reason =
    | StoreClosed | InvalidTtl | LeaseNotFound | LeaseTerminal | LeaseExpired
    | ManifestInvalid | ManifestExpired | ApprovalInvalid | ApprovalExpired
    | FileChanged | PayloadIntegrityChanged | LocalInspectionFailed | ConsumerFailure

  /** Limits, and the functions of foreign code. Times are in microseconds. */
  datatype Env = Env(
    maxLease: int,
    maxApproval: int,
    maxAttachments: nat,
    inspect: seq<byte> -> Inspection,
    utf8Length: string -> nat,
    purposeDigest: string -> string,
    manifestDigest: ManifestBody -> string)

  /** `leases`, `terminal`, `purposes` and `closed` are the authority's private fields. */
  datatype Store = Store(
    leases: map<LeaseId, Record>,
    terminal: map<LeaseId, Receipt>,
    purposes: map<ManifestId, string>,
    closed: bool)

  predicate Distinct<T(==)>(s: seq<T>) {
    forall i, j :: 0 <= i < j < |s| ==> s[i] != s[j]
  }

  function Elements<T>(s: seq<T>): set<T> {
    set x | x in s
  }

  /** The manifest model's validator. */
  predicate ManifestOk(env: Env, m: Manifest) {
    && m.body.createdAt < m.body.expiresAt
    && 1 <= |m.body.leaseIds| <= 8
    && |m.body.leaseIds| == |m.body.attachments|
    && Distinct(m.body.leaseIds)
    && Distinct(m.body.attachments)
    && m.sha == env.manifestDigest(m.body)
  }

  predicate ApprovalOk(a: Approval) {
    a.approvedAt < a.expiresAt && 1 <= |a.leaseIds| <= 8 && Distinct(a.leaseIds)
  }

  predicate Binds(a: Approval, m: Manifest) {
    a.manifestId == m.body.id && a.manifestSha == m.sha && a.leaseIds == m.body.leaseIds
  }

  predicate TtlOk(ttl: int, max: int) {
    0 < ttl <= max
  }

  // ----- Building blocks -----

  function ReceiptFor(r: Record, state: TerminalState, at: int): Receipt {
    Receipt(r.lease.id, r.lease.descriptor, state, |r.content|, at)
  }

  /** `_cleanup` of every lease of `ids` that is live. */
  function Cleaned(s: Store, ids: set<LeaseId>, state: TerminalState, at: int): Store {
    s.(leases := s.leases - ids,
       terminal := s.terminal + map id | id in ids && id in s.leases :: ReceiptFor(s.leases[id], state, at))
  }

  /** Set the `consuming` flag of every lease of `ids` that is live. */
  function Marked(s: Store, ids: set<LeaseId>, flag: bool): Store {
    s.(leases := map id | id in s.leases ::
         if id in ids then s.leases[id].(consuming := flag) else s.leases[id])
  }

  predicate Active(s: Store, id: LeaseId, at: int) {
    id !in s.terminal && id in s.leases && !s.leases[id].consuming && at < s.leases[id].lease.expiresAt
  }

  /** `_active_record` for each id in turn: the first problem, with the one lease found expired destroyed. */
  function Activate(s: Store, ids: seq<LeaseId>, at: int): (Option<Reason>, Store) {
    if ids == [] then (None, s)
    else
      var id := ids[0];
      if id in s.terminal then (Some(LeaseTerminal), s)
      else if id !in s.leases then (Some(LeaseNotFound), s)
      else if s.leases[id].consuming then (Some(LeaseTerminal), s)
      else if at >= s.leases[id].lease.expiresAt then (Some(LeaseExpired), Cleaned(s, {id}, Expired, at))
      else Activate(s, ids[1..], at)
  }

  predicate PayloadIntact(env: Env, r: Record) {
    env.inspect(r.content) == r.lease.descriptor.inspection
  }

  /** `_verify_record` for each id in turn; `intact` are the leases whose source file reads back the same. */
  function Rejection(env: Env, s: Store, ids: seq<LeaseId>, intact: set<LeaseId>): Option<Reason>
    requires forall id :: id in ids ==> id in s.leases
  {
    if ids == [] then None
    else if ids[0] !in intact then Some(FileChanged)
    else if !PayloadIntact(env, s.leases[ids[0]]) then Some(PayloadIntegrityChanged)
    else Rejection(env, s, ids[1..], intact)
  }

  function Descriptors(s: Store, ids: seq<LeaseId>): seq<Descriptor>
    requires forall id :: id in ids ==> id in s.leases
  {
    seq(|ids|, i requires 0 <= i < |ids| => s.leases[ids[i]].lease.descriptor)
  }

  function Payloads(s: Store, ids: seq<LeaseId>): seq<(LeaseId, seq<byte>)>
    requires forall id :: id in ids ==> id in s.leases
  {
    seq(|ids|, i requires 0 <= i < |ids| => (ids[i], s.leases[ids[i]].content))
  }

  /** The least of `bound` and the expiries of `ids`. */
  function LeastExpiry(s: Store, ids: seq<LeaseId>, bound: int): int
    requires forall id :: id in ids ==> id in s.leases
  {
    if ids == [] then bound
    else
      var e := s.leases[ids[0]].lease.expiresAt;
      LeastExpiry(s, ids[1..], if e < bound then e else bound)
  }

  // ----- Critical sections -----

  /** The end of `select_file`. */
  function CommitSelection(s: Store, r: Record): (Option<Reason>, Store) {
    if s.closed then (Some(StoreClosed), s) else (None, s.(leases := s.leases[r.lease.id := r]))
  }

  /**
   * The first section of `create_outbound_manifest`; `canonical` says whether the attachment manifest could
   * be committed.
   */
  function PrepareManifest(
    env: Env, s: Store, ids: seq<LeaseId>, id: ManifestId, purpose: string, at: int, canonical: bool): (Result<Manifest, Reason>, Store)
  {
    if purpose == "" || env.utf8Length(purpose) > 4096 || !(1 <= |ids| <= env.maxAttachments) || !Distinct(ids) then (Failure(ManifestInvalid), s)
    else
      var (problem, t) := Activate(s, ids, at);
      ActivateOutcome(s, ids, at);
      if problem.Some? then (Failure(problem.value), t)
      else (Draft(env, s, ids, id, purpose, at, canonical), s)
  }

  function Draft(
    env: Env, s: Store, ids: seq<LeaseId>, id: ManifestId, purpose: string, at: int, canonical: bool): Result<Manifest, Reason>
    requires ids != [] && forall x :: x in ids ==> x in s.leases
  {
    if !canonical then Failure(ManifestInvalid)
    else
      var first := ids[0];
      var body := ManifestBody(id, env.purposeDigest(purpose), ids, Descriptors(s, ids), at,
                               LeastExpiry(s, ids, s.leases[first].lease.expiresAt));
      var m := Manifest(body, env.manifestDigest(body));
      if ManifestOk(env, m) then Success(m) else Failure(ManifestInvalid)
  }

  /** The second section of `create_outbound_manifest`. */
  function PublishManifest(s: Store, m: Manifest, purpose: string): (Option<Reason>, Store) {
    if s.closed then (Some(StoreClosed), s) else (None, s.(purposes := s.purposes[m.body.id := purpose]))
  }

  function Least(a: int, b: int): int {
    if a <= b then a else b
  }

  function Approve(env: Env, s: Store, m: Manifest, at: int, ttl: int): (Result<Approval, Reason>, Store) {
    if !TtlOk(ttl, env.maxApproval) then (Failure(InvalidTtl), s)
    else if !ManifestOk(env, m) then (Failure(ManifestInvalid), s)
    else if !(m.body.createdAt <= at < m.body.expiresAt) then (Failure(ManifestExpired), s)
    else
      var (problem, t) := Activate(s, m.body.leaseIds, at);
      if problem.Some? then (Failure(problem.value), t)
      else (Success(Approval(m.body.id, m.sha, m.body.leaseIds, at, Least(at + ttl, m.body.expiresAt))), t)
  }

  /** The section before a callback: the leases are checked and reserved. */
  function Reserve(env: Env, s: Store, m: Manifest, at: int, intact: set<LeaseId>): (Result<seq<(LeaseId, seq<byte>)>, Reason>, Store) {
    var (problem, t) := Activate(s, m.body.leaseIds, at);
    ActivateOutcome(s, m.body.leaseIds, at);
    if problem.Some? then (Failure(problem.value), t) else ReserveActive(env, s, m, at, intact)
  }

  function ReserveActive(env: Env, s: Store, m: Manifest, at: int, intact: set<LeaseId>):
    (Result<seq<(LeaseId, seq<byte>)>, Reason>, Store)
    requires forall id :: id in m.body.leaseIds ==> id in s.leases
  {
    var ids := m.body.leaseIds;
    if Descriptors(s, ids) != m.body.attachments then (Failure(ManifestInvalid), s)
    else
      var rejection := Rejection(env, s, ids, intact);
      if rejection.Some? then (Failure(rejection.value), Cleaned(s, Elements(ids), IntegrityRejected, at))
      else (Success(Payloads(s, ids)), Marked(s, Elements(ids), true))
  }

  /** `inspect_manifest_payloads` up to its callback. */
  function BeginInspection(env: Env, s: Store, m: Manifest, at: int, intact: set<LeaseId>): (Result<seq<(LeaseId, seq<byte>)>, Reason>, Store) {
    if !ManifestOk(env, m) then (Failure(ManifestInvalid), s)
    else if !(m.body.createdAt <= at < m.body.expiresAt) then (Failure(ManifestExpired), s)
    else Reserve(env, s, m, at, intact)
  }

  /** `consume_manifest` up to its callback. */
  function BeginConsumption(
    env: Env, s: Store, m: Manifest, a: Approval, at: int, intact: set<LeaseId>): (Result<seq<(LeaseId, seq<byte>)>, Reason>, Store)
  {
    if !ManifestOk(env, m) || !ApprovalOk(a) then (Failure(ApprovalInvalid), s)
    else if at >= m.body.expiresAt then (Failure(ManifestExpired), Cleaned(s, Unreserved(s, Elements(m.body.leaseIds)), Expired, at))
    else if !(a.approvedAt <= at < a.expiresAt) then (Failure(ApprovalExpired), s)
    else if !Binds(a, m) then (Failure(ApprovalInvalid), s)
    else Reserve(env, s, m, at, intact)
  }

  /** What `_expire_specific` destroys. */
  function Unreserved(s: Store, ids: set<LeaseId>): set<LeaseId> {
    set id | id in ids && id in s.leases && !s.leases[id].consuming
  }

  /** What came of a callback. */
  datatype Ending = Raised | Returned

  /** The section after an inspector: the leases are released again, or destroyed. */
  function EndInspection(
    env: Env, s: Store, m: Manifest, ending: Ending, completedAt: int, intact: set<LeaseId>): (Option<Reason>, Store)
    requires forall id :: id in m.body.leaseIds ==> id in s.leases
  {
    var ids := m.body.leaseIds;
    if ending == Raised then (Some(LocalInspectionFailed), Marked(s, Elements(ids), false))
    else if completedAt >= m.body.expiresAt then (Some(ManifestExpired), Cleaned(s, Elements(ids), Expired, completedAt))
    else
      var rejection := Rejection(env, s, ids, intact);
      if rejection.Some? then (rejection, Cleaned(s, Elements(ids), IntegrityRejected, completedAt))
      else (None, Marked(s, Elements(ids), false))
  }

  /** The section after a consumer: the leases are destroyed, with the outcome as their terminal state. */
  function EndConsumption(
    env: Env, s: Store, m: Manifest, a: Approval, ending: Ending, completedAt: int, intact: set<LeaseId>): (Option<Reason>, Store)
    requires forall id :: id in m.body.leaseIds ==> id in s.leases
  {
    var ids := m.body.leaseIds;
    if ending == Raised then (Some(ConsumerFailure), Cleaned(s, Elements(ids), ConsumerFailed, completedAt))
    else if completedAt >= m.body.expiresAt then (Some(ManifestExpired), Cleaned(s, Elements(ids), Expired, completedAt))
    else if completedAt >= a.expiresAt then (Some(ApprovalExpired), Cleaned(s, Elements(ids), Expired, completedAt))
    else
      var rejection := Rejection(env, s, ids, intact);
      if rejection.Some? then (rejection, Cleaned(s, Elements(ids), IntegrityRejected, completedAt))
      else (None, Cleaned(s, Elements(ids), Consumed, completedAt))
  }

  /** The copy of `r` under a new id. */
  function CloneOf(r: Record, id: LeaseId, at: int, expiresAt: int): Record {
    Record(Lease(id, r.lease.descriptor, at, expiresAt), r.content, false)
  }

  function Clones(s: Store, ids: seq<LeaseId>, names: seq<LeaseId>, at: int, expiresAt: int): seq<Record>
    requires |names| == |ids| && forall id :: id in ids ==> id in s.leases
  {
    seq(|ids|, i requires 0 <= i < |ids| => CloneOf(s.leases[ids[i]], names[i], at, expiresAt))
  }

  /** Insert records one after the other. */
  function Inserted(leases: map<LeaseId, Record>, records: seq<Record>): map<LeaseId, Record> {
    if records == [] then leases
    else
      var r := records[|records| - 1];
      Inserted(leases, records[..|records| - 1])[r.lease.id := r]
  }

  /** `clone_manifest_leases` up to the nested manifest: the purpose of the source manifest, and the clones. */
  function CloneLeases(
    env: Env, s: Store, m: Manifest, at: int, ttl: int, names: seq<LeaseId>, intact: set<LeaseId>): (Result<(string, seq<Record>), Reason>, Store)
    requires |names| == |m.body.leaseIds|
  {
    var ids := m.body.leaseIds;
    if !TtlOk(ttl, env.maxLease) then (Failure(InvalidTtl), s)
    else if !ManifestOk(env, m) || m.body.id !in s.purposes then (Failure(ManifestInvalid), s)
    else
      var (problem, t) := Activate(s, ids, at);
      ActivateOutcome(s, ids, at);
      if problem.Some? then (Failure(problem.value), t) else CloneActive(env, s, m, at, ttl, names, intact)
  }

  function CloneActive(
    env: Env, s: Store, m: Manifest, at: int, ttl: int, names: seq<LeaseId>, intact: set<LeaseId>): (Result<(string, seq<Record>), Reason>, Store)
    requires |names| == |m.body.leaseIds| && m.body.id in s.purposes
    requires forall id :: id in m.body.leaseIds ==> id in s.leases
  {
    var ids := m.body.leaseIds;
    var rejection := Rejection(env, s, ids, intact);
    if rejection.Some? then (Failure(rejection.value), Cleaned(s, Elements(ids), IntegrityRejected, at))
    else
      var clones := Clones(s, ids, names, at, LeastExpiry(s, ids, at + ttl));
      (Success((s.purposes[m.body.id], clones)), s.(leases := Inserted(s.leases, clones)))
  }

  function CancelLease(s: Store, id: LeaseId, at: int): (Option<Reason>, Store) {
    if id in s.terminal then (Some(LeaseTerminal), s)
    else if id !in s.leases then (Some(LeaseNotFound), s)
    else if s.leases[id].consuming then (Some(LeaseTerminal), s)
    else (None, Cleaned(s, {id}, Cancelled, at))
  }

  function Due(s: Store, at: int): set<LeaseId> {
    set id | id in s.leases && !s.leases[id].consuming && at >= s.leases[id].lease.expiresAt
  }

  function Expire(s: Store, at: int): Store {
    Cleaned(s, Due(s, at), Expired, at)
  }

  predicate AnyReserved(s: Store) {
    exists id :: id in s.leases && s.leases[id].consuming
  }

  function CancelAll(s: Store, at: int): (Option<Reason>, Store) {
    if AnyReserved(s) then (Some(LeaseTerminal), s)
    else (None, Cleaned(s, s.leases.Keys, Cancelled, at))
  }

  function Close(s: Store, at: int): (Option<Reason>, Store) {
    if s.closed then (None, s)
    else
      var (problem, t) := CancelAll(s, at);
      if problem.Some? then (problem, t) else (None, t.(purposes := map[], closed := true))
  }

  // ----- Facts about the building blocks -----

  lemma {:induction false} ActivateOutcome(s: Store, ids: seq<LeaseId>, at: int)
    ensures Activate(s, ids, at).0 == None <==> forall id :: id in ids ==> Active(s, id, at)
    ensures Activate(s, ids, at).1 == s
            || exists id :: id in ids && id in s.leases && !s.leases[id].consuming && at >= s.leases[id].lease.expiresAt
                            && Activate(s, ids, at) == (Some(LeaseExpired), Cleaned(s, {id}, Expired, at))
    ensures Activate(s, ids, at).0 == None ==> Activate(s, ids, at).1 == s
    decreases |ids|
  {
    if ids != [] {
      var id := ids[0];
      if Active(s, id, at) {
        ActivateOutcome(s, ids[1..], at);
        assert ids == [id] + ids[1..];
      } else {
        assert id in ids;
      }
    }
  }

  lemma {:induction false} LeastExpiryIsLeast(s: Store, ids: seq<LeaseId>, bound: int)
    requires forall id :: id in ids ==> id in s.leases
    ensures LeastExpiry(s, ids, bound) <= bound
    ensures forall id :: id in ids ==> LeastExpiry(s, ids, bound) <= s.leases[id].lease.expiresAt
    ensures LeastExpiry(s, ids, bound) == bound || exists id :: id in ids && LeastExpiry(s, ids, bound) == s.leases[id].lease.expiresAt
    decreases |ids|
  {
    if ids != [] {
      var e := s.leases[ids[0]].lease.expiresAt;
      LeastExpiryIsLeast(s, ids[1..], if e < bound then e else bound);
      assert ids == [ids[0]] + ids[1..];
    }
  }

  lemma {:induction false} InsertedElsewhere(leases: map<LeaseId, Record>, records: seq<Record>, id: LeaseId)
    requires forall i :: 0 <= i < |records| ==> records[i].lease.id != id
    ensures id in Inserted(leases, records) <==> id in leases
    ensures id in leases ==> Inserted(leases, records)[id] == leases[id]
    decreases |records|
  {
    if records != [] {
      InsertedElsewhere(leases, records[..|records| - 1], id);
    }
  }

  lemma {:induction false} InsertedAt(leases: map<LeaseId, Record>, records: seq<Record>, i: nat)
    requires i < |records| && forall j :: i < j < |records| ==> records[j].lease.id != records[i].lease.id
    ensures records[i].lease.id in Inserted(leases, records) && Inserted(leases, records)[records[i].lease.id] == records[i]
    decreases |records|
  {
    if i < |records| - 1 {
      InsertedAt(leases, records[..|records| - 1], i);
    }
  }

  /** A rejection is the source file's doing as long as the payloads are intact. */
  lemma {:induction false} OnlyTheFileIsRejected(env: Env, s: Store, ids: seq<LeaseId>, intact: set<LeaseId>)
    requires forall id :: id in ids ==> id in s.leases && PayloadIntact(env, s.leases[id])
    ensures Rejection(env, s, ids, intact) == if forall id :: id in ids ==> id in intact then None else Some(FileChanged)
    decreases |ids|
  {
    if ids != [] {
      OnlyTheFileIsRejected(env, s, ids[1..], intact);
      assert ids == [ids[0]] + ids[1..];
      assert ids[0] in ids;
    }
  }

  lemma CleanedNone(s: Store, state: TerminalState, at: int)
    ensures Cleaned(s, {}, state, at) == s
  {
    assert Cleaned(s, {}, state, at).leases == s.leases;
    assert Cleaned(s, {}, state, at).terminal == s.terminal;
  }
}
