/** The pure part of C4 runtime admission: `evaluate_runtime_admission`, its helpers and the model validators. */
module Admission {
  import opened Outcomes

  datatype Action = RuntimeKeyCreation | TunnelStart | PluginCreation | BrowserTest | ChatgptAction | ToolSurfaceExposure
  datatype C3Action = C3RuntimeKeyCreation | C3TunnelStart | C3PluginCreation | C3BrowserTest | C3ChatgptAction
  datatype AccessMode = ReadOnly | Write | HighRisk
  datatype Support = Supported | Unsupported | Unobservable
  datatype Reviewer = Reviewed | Candidate
  datatype Lifecycle = Current | RevalidationDue | LifecycleExpired | SourceDrift | Invalid

  datatype Reason =
    | Admitted
    | CapabilityUnsupported
    | CapabilityUnobservable
    | EvidenceRevalidationDue
    | EvidenceExpired
    | EvidenceSourceDrift
    | EvidenceInvalid
    | EvidenceCandidate
    | EvidenceIdentityMismatch
    | EvidenceTimeMismatch
    | C3ActionDenied
    | UnknownAdapter
    | AdapterIdentityMismatch
    | ActionToolScopeInvalid
    | ToolNotApproved
    | ToolMetadataMismatch
    | ToolPrivilegeExpansion
    | CorrelationReplay
    | CorrelationCollision
    | CorrelationCapacityExhausted

  datatype Identity = Identity(provider: string, surface: string, surfaceClass: string, capability: string)

  datatype Grant = Grant(name: string, mode: AccessMode, protocol: string, readOnly: bool, destructive: bool, highRisk: bool)

  datatype Adapter = Adapter(identity: Identity, tools: seq<Grant>)

  datatype Registry = Registry(adapters: seq<Adapter>, sha: string)

  datatype Request = Request(
    identity: Identity, action: Action, tools: seq<Grant>, evaluatedAt: int, correlation: string, sha: string)

  datatype Snapshot = Snapshot(
    identity: Option<Identity>,
    support: Option<Support>,
    reviewer: Option<Reviewer>,
    lifecycle: Lifecycle,
    evaluatedAt: int,
    registrySha: Option<string>,
    profileSha: Option<string>,
    evidenceSha: Option<string>,
    decisionSha: string,
    allows: C3Action -> bool)

  /** What a decision's receipt digest covers. */
  datatype Body = Body(
    correlation: string,
    requestSha: string,
    identity: Identity,
    action: Action,
    evaluatedAt: int,
    allowed: bool,
    reason: Reason,
    support: Option<Support>,
    reviewer: Option<Reviewer>,
    lifecycle: Lifecycle,
    c3RegistrySha: Option<string>,
    c3ProfileSha: Option<string>,
    c3EvidenceSha: Option<string>,
    c3DecisionSha: string,
    c4RegistrySha: Option<string>,
    requested: seq<Grant>,
    effective: seq<Grant>)

  datatype Decision = Decision(body: Body, receipt: string)

  // ----- Validators -----

  /** Code point order of strings. */
  predicate Less(a: string, b: string) {
    b != [] && (a == [] || a[0] < b[0] || (a[0] == b[0] && Less(a[1..], b[1..])))
  }

  lemma {:induction false} LessIsStrict(a: string)
    ensures !Less(a, a)
  {
    if a != [] {
      LessIsStrict(a[1..]);
    }
  }

  /** `names == tuple(sorted(set(names)))`. */
  predicate SortedUnique(tools: seq<Grant>) {
    forall i, j :: 0 <= i < j < |tools| ==> Less(tools[i].name, tools[j].name)
  }

  predicate GrantOk(g: Grant) {
    match g.mode
    case ReadOnly => g.readOnly && !g.destructive && !g.highRisk
    case Write => !g.readOnly && g.destructive && !g.highRisk
    case HighRisk => !g.readOnly && g.highRisk
  }

  /** The identifier pattern has no colon. */
  predicate IdentityOk(i: Identity) {
    ':' !in i.provider && ':' !in i.surface && ':' !in i.surfaceClass && ':' !in i.capability
  }

  function Key(i: Identity): string {
    i.provider + [':'] + (i.surface + [':'] + (i.surfaceClass + [':'] + i.capability))
  }

  predicate AdapterOk(a: Adapter) {
    && IdentityOk(a.identity)
    && SortedUnique(a.tools)
    && (forall i :: 0 <= i < |a.tools| ==> GrantOk(a.tools[i]) && a.tools[i].mode == ReadOnly)
  }

  predicate RegistryOk(r: Registry) {
    && r.adapters != []
    && (forall i :: 0 <= i < |r.adapters| ==> AdapterOk(r.adapters[i]))
    && (forall i, j :: 0 <= i < j < |r.adapters| ==> Less(Key(r.adapters[i].identity), Key(r.adapters[j].identity)))
  }

  predicate RequestOk(r: Request) {
    IdentityOk(r.identity) && SortedUnique(r.tools) && forall i :: 0 <= i < |r.tools| ==> GrantOk(r.tools[i])
  }

  predicate SnapshotOk(e: Snapshot) {
    if e.identity.None? then
      e.lifecycle == Invalid && e.support.None? && e.reviewer.None?
      && e.registrySha.None? && e.profileSha.None? && e.evidenceSha.None?
    else IdentityOk(e.identity.value) && e.registrySha.Some? && e.profileSha.Some? && e.evidenceSha.Some?
  }

  predicate IsToolAction(a: Action) {
    a == ChatgptAction || a == ToolSurfaceExposure
  }

  /** `validate_decision`, without the credential-shape scan. */
  predicate DecisionOk(hash: Body -> string, d: Decision) {
    var b := d.body;
    && d.receipt == hash(b)
    && SortedUnique(b.requested) && SortedUnique(b.effective)
    && (b.allowed ==>
          && b.reason == Admitted
          && b.support == Some(Supported) && b.reviewer == Some(Reviewed) && b.lifecycle == Current
          && b.effective == b.requested
          && b.c4RegistrySha.Some? && b.c3RegistrySha.Some? && b.c3ProfileSha.Some? && b.c3EvidenceSha.Some?
          && (IsToolAction(b.action) <==> b.effective != []))
    && (!b.allowed ==> b.effective == [] && b.reason != Admitted)
  }

  // ----- Evaluation -----

  function C3For(a: Action): C3Action {
    match a
    case RuntimeKeyCreation => C3RuntimeKeyCreation
    case TunnelStart => C3TunnelStart
    case PluginCreation => C3PluginCreation
    case BrowserTest => C3BrowserTest
    case ChatgptAction => C3ChatgptAction
    case ToolSurfaceExposure => C3BrowserTest
  }

  function Commit(hash: Body -> string, r: Request, e: Snapshot, registrySha: Option<string>, reason: Reason): Decision {
    var allowed := reason == Admitted;
    var body := Body(r.correlation, r.sha, r.identity, r.action, r.evaluatedAt, allowed, reason, e.support, e.reviewer,
                     e.lifecycle, e.registrySha, e.profileSha, e.evidenceSha, e.decisionSha, registrySha, r.tools,
                     if allowed then r.tools else []);
    Decision(body, hash(body))
  }

  function WithKey(adapters: seq<Adapter>, key: string): seq<Adapter> {
    if adapters == [] then []
    else
      WithKey(adapters[..|adapters| - 1], key) +
      if Key(adapters[|adapters| - 1].identity) == key then [adapters[|adapters| - 1]] else []
  }

  function AdapterFor(r: Request, registry: Registry): Result<Adapter, Reason> {
    var exact := WithKey(registry.adapters, Key(r.identity));
    if |exact| == 1 then Success(exact[0])
    else if exists i :: 0 <= i < |registry.adapters| && registry.adapters[i].identity.provider == r.identity.provider
    then Failure(AdapterIdentityMismatch)
    else Failure(UnknownAdapter)
  }

  /** `None` when the evidence itself raises no objection. */
  function EvidenceReason(e: Snapshot): Option<Reason> {
    if e.reviewer == Some(Candidate) then Some(EvidenceCandidate)
    else if e.lifecycle == RevalidationDue then Some(EvidenceRevalidationDue)
    else if e.lifecycle == LifecycleExpired then Some(EvidenceExpired)
    else if e.lifecycle == SourceDrift then Some(EvidenceSourceDrift)
    else if e.lifecycle == Invalid then Some(EvidenceInvalid)
    else if e.support == Some(Unsupported) then Some(CapabilityUnsupported)
    else if e.support == Some(Unobservable) then Some(CapabilityUnobservable)
    else if e.reviewer != Some(Reviewed) then Some(EvidenceInvalid)
    else if e.support != Some(Supported) then Some(EvidenceInvalid)
    else None
  }

  /** `{tool.name: tool for tool in tools}.get(name)`: the last tool of that name. */
  function FindTool(tools: seq<Grant>, name: string): Option<Grant> {
    if tools == [] then None
    else if tools[|tools| - 1].name == name then Some(tools[|tools| - 1])
    else FindTool(tools[..|tools| - 1], name)
  }

  /** The loop over the requested tools: the first objection. */
  function ToolObjection(requested: seq<Grant>, approved: seq<Grant>): Option<Reason> {
    if requested == [] then None
    else
      var g := requested[0];
      var expected := FindTool(approved, g.name);
      if expected.None? then Some(ToolNotApproved)
      else if g.mode != ReadOnly then Some(ToolPrivilegeExpansion)
      else if g != expected.value then Some(ToolMetadataMismatch)
      else ToolObjection(requested[1..], approved)
  }

  function ToolScope(r: Request, a: Adapter): Option<Reason> {
    if IsToolAction(r.action) <==> r.tools == [] then Some(ActionToolScopeInvalid)
    else ToolObjection(r.tools, a.tools)
  }

  function Verdict(r: Request, e: Snapshot, registry: Registry): Reason {
    match AdapterFor(r, registry)
    case Failure(reason) => reason
    case Success(adapter) =>
      var evidence := EvidenceReason(e);
      if evidence.Some? then evidence.value
      else if e.identity != Some(r.identity) then EvidenceIdentityMismatch
      else if e.evaluatedAt != r.evaluatedAt then EvidenceTimeMismatch
      else if !e.allows(C3For(r.action)) then C3ActionDenied
      else
        match ToolScope(r, adapter)
        case Some(reason) => reason
        case None => Admitted
  }

  /** `evaluate_runtime_admission`. */
  function Evaluate(hash: Body -> string, r: Request, e: Snapshot, registry: Registry): Decision {
    Commit(hash, r, e, Some(registry.sha), Verdict(r, e, registry))
  }

  // ----- What an admission means -----

  /** The declared conditions of an admission, without the order in which they are checked. */
  ghost predicate Admissible(r: Request, e: Snapshot, registry: Registry) {
    && (exists i :: 0 <= i < |registry.adapters| && Approves(registry.adapters[i], r))
    && e.reviewer == Some(Reviewed) && e.support == Some(Supported) && e.lifecycle == Current
    && e.identity == Some(r.identity) && e.evaluatedAt == r.evaluatedAt
    && e.allows(C3For(r.action))
    && (IsToolAction(r.action) <==> r.tools != [])
  }

  /** The adapter is the one for exactly this identity, and every requested tool is one of its tools. */
  ghost predicate Approves(a: Adapter, r: Request) {
    a.identity == r.identity && forall i :: 0 <= i < |r.tools| ==> r.tools[i] in a.tools
  }

  lemma {:induction false} ColonSplits(a: string, x: string, b: string, y: string)
    requires ':' !in a && ':' !in b && a + [':'] + x == b + [':'] + y
    ensures a == b && x == y
  {
    var s := a + [':'] + x;
    var t := b + [':'] + y;
    assert s[|a|] == ':' && t[|b|] == ':';
    assert forall i :: 0 <= i < |a| ==> s[i] == a[i] && a[i] in a;
    assert forall i :: 0 <= i < |b| ==> t[i] == b[i] && b[i] in b;
    assert a == s[..|a|] && b == t[..|b|];
    assert x == s[|a| + 1..] && y == t[|b| + 1..];
  }

  /** Different identities have different keys. */
  lemma KeyIsInjective(i: Identity, j: Identity)
    requires IdentityOk(i) && IdentityOk(j) && Key(i) == Key(j)
    ensures i == j
  {
    ColonSplits(i.provider, i.surface + [':'] + (i.surfaceClass + [':'] + i.capability),
                j.provider, j.surface + [':'] + (j.surfaceClass + [':'] + j.capability));
    ColonSplits(i.surface, i.surfaceClass + [':'] + i.capability, j.surface, j.surfaceClass + [':'] + j.capability);
    ColonSplits(i.surfaceClass, i.capability, j.surfaceClass, j.capability);
  }

  lemma {:induction false} WithKeyFindsNone(adapters: seq<Adapter>, key: string)
    requires forall i :: 0 <= i < |adapters| ==> Key(adapters[i].identity) != key
    ensures WithKey(adapters, key) == []
  {
    if adapters != [] {
      WithKeyFindsNone(adapters[..|adapters| - 1], key);
    }
  }

  lemma {:induction false} WithKeyFindsOne(adapters: seq<Adapter>, k: nat)
    requires k < |adapters|
    requires forall i, j :: 0 <= i < j < |adapters| ==> Less(Key(adapters[i].identity), Key(adapters[j].identity))
    ensures WithKey(adapters, Key(adapters[k].identity)) == [adapters[k]]
    decreases |adapters|
  {
    var n := |adapters| - 1;
    var key := Key(adapters[k].identity);
    LessIsStrict(key);
    hide Key, Less;
    if k == n {
      WithKeyFindsNone(adapters[..n], key);
    } else {
      WithKeyFindsOne(adapters[..n], k);
      assert WithKey(adapters[..n], key) + [] == WithKey(adapters[..n], key);
    }
  }

  lemma {:induction false} WithKeySelects(adapters: seq<Adapter>, key: string)
    ensures forall a :: a in WithKey(adapters, key) ==> a in adapters && Key(a.identity) == key
  {
    if adapters != [] {
      WithKeySelects(adapters[..|adapters| - 1], key);
    }
  }

  lemma AdapterForIsExact(r: Request, registry: Registry)
    requires RegistryOk(registry) && RequestOk(r)
    ensures AdapterFor(r, registry).Success? ==>
              AdapterFor(r, registry).value in registry.adapters && AdapterFor(r, registry).value.identity == r.identity
    ensures forall i :: 0 <= i < |registry.adapters| && registry.adapters[i].identity == r.identity ==>
              AdapterFor(r, registry) == Success(registry.adapters[i])
  {
    WithKeySelects(registry.adapters, Key(r.identity));
    if AdapterFor(r, registry).Success? {
      var a := AdapterFor(r, registry).value;
      assert a in WithKey(registry.adapters, Key(r.identity));
      KeyIsInjective(a.identity, r.identity);
    }
    forall i | 0 <= i < |registry.adapters| && registry.adapters[i].identity == r.identity
      ensures AdapterFor(r, registry) == Success(registry.adapters[i])
    {
      WithKeyFindsOne(registry.adapters, i);
    }
  }

  lemma {:induction false} FindToolFinds(tools: seq<Grant>, g: Grant)
    requires SortedUnique(tools)
    ensures FindTool(tools, g.name) == Some(g) <==> g in tools
    decreases |tools|
  {
    if tools != [] {
      var n := |tools| - 1;
      FindToolFinds(tools[..n], g);
      LessIsStrict(g.name);
      assert forall i :: 0 <= i < n ==> Less(tools[i].name, tools[n].name);
      assert tools == tools[..n] + [tools[n]];
    }
  }

  lemma {:induction false} NoObjectionMeansApproved(requested: seq<Grant>, approved: seq<Grant>)
    requires SortedUnique(approved) && forall i :: 0 <= i < |approved| ==> approved[i].mode == ReadOnly
    ensures ToolObjection(requested, approved) == None <==> forall i :: 0 <= i < |requested| ==> requested[i] in approved
    ensures ToolObjection(requested, approved) != Some(Admitted)
    decreases |requested|
  {
    if requested != [] {
      NoObjectionMeansApproved(requested[1..], approved);
      FindToolFinds(approved, requested[0]);
      if forall i :: 0 <= i < |requested| ==> requested[i] in approved {
        assert requested[0] in approved;
        assert forall i :: 0 <= i < |requested| - 1 ==> requested[1..][i] == requested[i + 1];
      }
    }
  }

  /** A request is admitted exactly when it is admissible; every other decision names its objection. */
  lemma AllowedIffAdmissible(hash: Body -> string, r: Request, e: Snapshot, registry: Registry)
    requires RequestOk(r) && RegistryOk(registry)
    ensures Evaluate(hash, r, e, registry).body.allowed <==> Admissible(r, e, registry)
  {
    hide Key, Less;
    AdapterForIsExact(r, registry);
    if AdapterFor(r, registry).Success? {
      var a := AdapterFor(r, registry).value;
      var i :| 0 <= i < |registry.adapters| && registry.adapters[i] == a;
      assert AdapterOk(registry.adapters[i]);
      NoObjectionMeansApproved(r.tools, a.tools);
      if Verdict(r, e, registry) == Admitted {
        assert Approves(registry.adapters[i], r);
      }
    }
  }

  /** Every decision that evaluation commits passes the decision validator. */
  lemma EvaluationIsValid(hash: Body -> string, r: Request, e: Snapshot, registry: Registry)
    requires RequestOk(r) && RegistryOk(registry) && SnapshotOk(e)
    ensures DecisionOk(hash, Evaluate(hash, r, e, registry))
  {
    AllowedIffAdmissible(hash, r, e, registry);
    hide AdapterFor, RegistryOk;
  }

  /** An admitted decision grants only read-only tools of the adapter approved for exactly that identity. */
  lemma AdmissionGrantsApprovedReadOnlyTools(hash: Body -> string, r: Request, e: Snapshot, registry: Registry, g: Grant)
    requires RequestOk(r) && RegistryOk(registry)
    requires g in Evaluate(hash, r, e, registry).body.effective
    ensures g.mode == ReadOnly && GrantOk(g) && g.readOnly && !g.destructive && !g.highRisk
    ensures exists i :: 0 <= i < |registry.adapters| && registry.adapters[i].identity == r.identity && g in registry.adapters[i].tools
  {
    AllowedIffAdmissible(hash, r, e, registry);
    hide Verdict, Less, Key;
    var i :| 0 <= i < |registry.adapters| && Approves(registry.adapters[i], r);
    assert AdapterOk(registry.adapters[i]);
    var k :| 0 <= k < |r.tools| && r.tools[k] == g;
    assert r.tools[k] in registry.adapters[i].tools;
  }
}
