/**
 * The C4 controller: `decide` claims a correlation in one critical section, evaluates outside the lock and
 * stores tool authority in a second critical section; `consume_tool_authority` spends it in a third.
 */
module AdmissionController {
  import opened Outcomes
  import opened Admission

  datatype Env = Env(hash: Body -> string, evidence: Snapshot, registry: Registry, maxCorrelations: nat)

  predicate EnvOk(env: Env) {
    SnapshotOk(env.evidence) && RegistryOk(env.registry) && 1 <= env.maxCorrelations <= 1_000_000
  }

  /** `Ref` is the identity of a decision object. */
  datatype Tables<Ref(==)> = Tables(seen: map<string, string>, issued: map<string, (string, Ref)>)

  /** The first critical section of `decide`: an objection, or the correlation is marked. */
  function Claim<Ref(==)>(t: Tables<Ref>, max: nat, r: Request): (Option<Reason>, Tables<Ref>) {
    if r.correlation !in t.seen then
      if |t.seen| >= max then (Some(CorrelationCapacityExhausted), t)
      else (None, t.(seen := t.seen[r.correlation := r.sha]))
    else if t.seen[r.correlation] == r.sha then (Some(CorrelationReplay), t)
    else (Some(CorrelationCollision), t)
  }

  /** The decision that the claim leads to. */
  function Decided(env: Env, objection: Option<Reason>, r: Request): Decision {
    match objection
    case Some(reason) => Commit(env.hash, r, env.evidence, Some(env.registry.sha), reason)
    case None => Evaluate(env.hash, r, env.evidence, env.registry)
  }

  predicate CarriesTools(d: Decision) {
    d.body.allowed && d.body.effective != []
  }

  /** The second critical section of `decide`. */
  function Store<Ref(==)>(t: Tables<Ref>, d: Decision, ref: Ref): Tables<Ref> {
    t.(issued := t.issued[d.receipt := (d.body.requestSha, ref)])
  }

  datatype ConsumeError = DecisionInvalid | AdmissionDenied | ActionHasNoTools | NotIssuedOrConsumed

  /** `consume_tool_authority` on the object `ref` whose fields are `d`. */
  function Consume<Ref(==)>(hash: Body -> string, t: Tables<Ref>, d: Decision, ref: Ref): (Result<seq<Grant>, ConsumeError>, Tables<Ref>) {
    if !DecisionOk(hash, d) then (Failure(DecisionInvalid), t)
    else if !d.body.allowed then (Failure(AdmissionDenied), t)
    else if !IsToolAction(d.body.action) then (Failure(ActionHasNoTools), t)
    else if d.receipt !in t.issued || t.issued[d.receipt] != (d.body.requestSha, ref) then (Failure(NotIssuedOrConsumed), t)
    else (Success(d.body.effective), t.(issued := t.issued - {d.receipt}))
  }

  class DecisionObject {
    const value: Decision
    constructor (value: Decision)
      ensures this.value == value
    {
      this.value := value;
    }
  }

  class Controller {
    const env: Env
    var seen: map<string, string>
    var issued: map<string, (string, DecisionObject)>

    ghost function Contents(): Tables<DecisionObject>
      reads this
    {
      Tables(seen, issued)
    }

    constructor (env: Env)
      requires EnvOk(env)
      ensures this.env == env && Contents() == Tables(map[], map[])
    {
      this.env := env;
      seen, issued := map[], map[];
    }

    method ClaimCorrelation(r: Request) returns (objection: Option<Reason>)
      modifies this
      ensures (objection, Contents()) == Claim(old(Contents()), env.maxCorrelations, r)
    {
      objection := None;
      if r.correlation !in seen {
        if |seen| >= env.maxCorrelations {
          objection := Some(CorrelationCapacityExhausted);
        } else {
          seen := seen[r.correlation := r.sha];
        }
      } else if seen[r.correlation] == r.sha {
        objection := Some(CorrelationReplay);
      } else {
        objection := Some(CorrelationCollision);
      }
    }

    method StoreAuthority(d: DecisionObject)
      modifies this
      ensures Contents() == Store(old(Contents()), d.value, d)
    {
      issued := issued[d.value.receipt := (d.value.body.requestSha, d)];
    }

    /** One uninterrupted call of `decide`. */
    method Decide(r: Request) returns (d: DecisionObject)
      requires RequestOk(r) && EnvOk(env)
      modifies this
      ensures fresh(d)
      ensures var (objection, claimed) := Claim(old(Contents()), env.maxCorrelations, r);
              && d.value == Decided(env, objection, r)
              && DecisionOk(env.hash, d.value)
              && Contents() == if CarriesTools(d.value) then Store(claimed, d.value, d) else claimed
    {
      var objection := ClaimCorrelation(r);
      DecidedIsValid(env, old(Contents()), r);
      if objection.Some? {
        d := new DecisionObject(Commit(env.hash, r, env.evidence, Some(env.registry.sha), objection.value));
      } else {
        d := new DecisionObject(Evaluate(env.hash, r, env.evidence, env.registry));
        if d.value.body.allowed && d.value.body.effective != [] {
          StoreAuthority(d);
        }
      }
    }

    method ConsumeToolAuthority(d: DecisionObject) returns (r: Result<seq<Grant>, ConsumeError>)
      modifies this
      ensures (r, Contents()) == Consume(env.hash, old(Contents()), d.value, d)
    {
      if !DecisionOk(env.hash, d.value) {
        return Failure(DecisionInvalid);
      }
      if !d.value.body.allowed {
        return Failure(AdmissionDenied);
      }
      if !IsToolAction(d.value.body.action) {
        return Failure(ActionHasNoTools);
      }
      var receipt := d.value.receipt;
      if receipt !in issued || issued[receipt].0 != d.value.body.requestSha || issued[receipt].1 != d {
        return Failure(NotIssuedOrConsumed);
      }
      issued := issued - {receipt};
      return Success(d.value.body.effective);
    }
  }

  /**
   * Whatever the claim answers, the decision is well formed and is an admission exactly when the claim raised
   * nothing and the request is admissible.
   */
  lemma DecidedIsValid<Ref>(env: Env, t: Tables<Ref>, r: Request)
    requires EnvOk(env) && RequestOk(r)
    ensures var objection := Claim(t, env.maxCorrelations, r).0;
            var d := Decided(env, objection, r);
            && DecisionOk(env.hash, d)
            && d.body.correlation == r.correlation && d.body.requestSha == r.sha
            && (d.body.allowed <==> objection == None && Admissible(r, env.evidence, env.registry))
            && (forall g :: g in d.body.effective ==> ApprovedReadOnly(env, r.identity, g))
            && d.body.identity == r.identity
  {
    EvaluationIsValid(env.hash, r, env.evidence, env.registry);
    AllowedIffAdmissible(env.hash, r, env.evidence, env.registry);
    hide Verdict, RegistryOk, Admissible, SortedUnique;
    var objection := Claim(t, env.maxCorrelations, r).0;
    var d := Decided(env, objection, r);
    forall g | g in d.body.effective
      ensures ApprovedReadOnly(env, r.identity, g)
    {
      AdmissionGrantsApprovedReadOnlyTools(env.hash, r, env.evidence, env.registry, g);
    }
  }

  ghost predicate ApprovedReadOnly(env: Env, identity: Identity, g: Grant) {
    && g.mode == ReadOnly && g.readOnly && !g.destructive && !g.highRisk
    && exists i :: 0 <= i < |env.registry.adapters| && env.registry.adapters[i].identity == identity
                   && g in env.registry.adapters[i].tools
  }

  // ----- Every interleaving -----

  /** Decision objects: those built by the controller, numbered in order, and those a caller made up. */
  datatype Object = Made(n: nat) | Foreign(n: nat)

  datatype Event =
    | ClaimAndEvaluate(request: Request)
    | StoreDecision(n: nat)
    | ConsumeObject(object: Object, fields: Decision)

  /**
   * `decisions` are all decisions made so far, `pending` those between evaluation and the second critical section,
   * and `spent` lists the authority handed out, with the tools granted.
   */
  datatype World = World(tables: Tables<Object>, decisions: seq<Decision>, pending: set<nat>, spent: seq<(nat, seq<Grant>)>)

  ghost function Start(): World {
    World(Tables(map[], map[]), [], {}, [])
  }

  /** An event that cannot happen leaves the world alone. */
  ghost function Apply(env: Env, w: World, e: Event): World {
    match e
    case ClaimAndEvaluate(r) =>
      if !RequestOk(r) then w else
        var (objection, tables) := Claim(w.tables, env.maxCorrelations, r);
        var d := Decided(env, objection, r);
        World(tables, w.decisions + [d], if CarriesTools(d) then w.pending + {|w.decisions|} else w.pending, w.spent)
    case StoreDecision(n) =>
      if n !in w.pending || n >= |w.decisions| then w
      else w.(tables := Store(w.tables, w.decisions[n], Made(n)), pending := w.pending - {n})
    case ConsumeObject(o, d) =>
      if o.Made? && (o.n >= |w.decisions| || w.decisions[o.n] != d) then w else
        var (result, tables) := Consume(env.hash, w.tables, d, o);
        w.(tables := tables, spent := if result.Success? then w.spent + [(o.n, result.value)] else w.spent)
  }

  ghost function After(env: Env, events: seq<Event>): World {
    if events == [] then Start() else Apply(env, After(env, events[..|events| - 1]), events[|events| - 1])
  }

  /** No two different decisions of the run have the same receipt digest. */
  ghost predicate DistinctReceipts(w: World) {
    forall i, j :: 0 <= i < |w.decisions| && 0 <= j < |w.decisions| && w.decisions[i].receipt == w.decisions[j].receipt ==>
      w.decisions[i] == w.decisions[j]
  }

  ghost predicate Outstanding(w: World, n: nat) {
    && n < |w.decisions|
    && w.decisions[n].receipt in w.tables.issued
    && w.tables.issued[w.decisions[n].receipt] == (w.decisions[n].body.requestSha, Made(n))
  }

  ghost predicate Spent(w: World, n: nat) {
    exists k :: 0 <= k < |w.spent| && w.spent[k].0 == n
  }

  ghost predicate DecisionsOk(env: Env, seen: map<string, string>, decisions: seq<Decision>) {
    forall n :: 0 <= n < |decisions| ==> DecisionRecordOk(env, seen, decisions[n])
  }

  ghost predicate DecisionRecordOk(env: Env, seen: map<string, string>, d: Decision) {
    && DecisionOk(env.hash, d)
    && (d.body.allowed ==> d.body.correlation in seen && seen[d.body.correlation] == d.body.requestSha)
    && (forall g :: g in d.body.effective ==> ApprovedReadOnly(env, d.body.identity, g))
  }

  /** At most one allowed decision for each correlation. */
  ghost predicate OnePerCorrelation(decisions: seq<Decision>) {
    forall i, j :: 0 <= i < j < |decisions| && decisions[i].body.allowed && decisions[j].body.allowed ==>
      decisions[i].body.correlation != decisions[j].body.correlation
  }

  /** The allowed decisions with tools are pending, outstanding or spent, and each is only one of these. */
  ghost predicate Conserved(w: World) {
    && (forall n :: 0 <= n < |w.decisions| ==>
          (CarriesTools(w.decisions[n]) <==> n in w.pending || Outstanding(w, n) || Spent(w, n)))
    && (forall n: nat :: n in w.pending ==> n < |w.decisions| && !Outstanding(w, n) && !Spent(w, n))
    && (forall n: nat :: Outstanding(w, n) ==> !Spent(w, n))
  }

  /** Every authority is spent at most once, by the decision whose tools it grants. */
  ghost predicate SpentOk(w: World) {
    && (forall i :: 0 <= i < |w.spent| ==>
          w.spent[i].0 < |w.decisions| && w.spent[i].1 == w.decisions[w.spent[i].0].body.effective)
    && (forall i, j :: 0 <= i < j < |w.spent| ==> w.spent[i].0 != w.spent[j].0)
  }

  ghost predicate IssuedOk(w: World) {
    forall receipt :: receipt in w.tables.issued ==>
      var ref := w.tables.issued[receipt].1;
      ref.Made? && ref.n < |w.decisions| && w.decisions[ref.n].receipt == receipt
  }

  ghost predicate Inv(env: Env, w: World) {
    && |w.tables.seen| <= env.maxCorrelations
    && DecisionsOk(env, w.tables.seen, w.decisions) && OnePerCorrelation(w.decisions) && IssuedOk(w) && Conserved(w) && SpentOk(w)
  }

  /** What one claim leads to. */
  lemma ClaimOutcome(env: Env, w: World, r: Request)
    requires EnvOk(env) && RequestOk(r) && |w.tables.seen| <= env.maxCorrelations
    ensures var v := Apply(env, w, ClaimAndEvaluate(r));
            && |v.decisions| == |w.decisions| + 1 && v.decisions[..|w.decisions|] == w.decisions
            && |v.tables.seen| <= env.maxCorrelations
            && (forall c :: c in w.tables.seen ==> c in v.tables.seen && v.tables.seen[c] == w.tables.seen[c])
            && var d := v.decisions[|w.decisions|];
               && DecisionRecordOk(env, v.tables.seen, d)
               && (d.body.allowed ==> d.body.correlation !in w.tables.seen)
  {
    DecidedIsValid(env, w.tables, r);
    hide Decided, DecisionOk, ApprovedReadOnly, RequestOk, EnvOk, CarriesTools;
  }

  /** The new decision is allowed only when its correlation was not seen before. */
  lemma ClaimKeepsDecisions(env: Env, w: World, r: Request)
    requires EnvOk(env) && RequestOk(r)
    requires |w.tables.seen| <= env.maxCorrelations && DecisionsOk(env, w.tables.seen, w.decisions) && OnePerCorrelation(w.decisions)
    ensures var v := Apply(env, w, ClaimAndEvaluate(r));
            |v.tables.seen| <= env.maxCorrelations && DecisionsOk(env, v.tables.seen, v.decisions) && OnePerCorrelation(v.decisions)
  {
    hide Apply, EnvOk, RequestOk, DecisionOk, ApprovedReadOnly;
    ClaimOutcome(env, w, r);
    var v, m := Apply(env, w, ClaimAndEvaluate(r)), |w.decisions|;
    forall n | 0 <= n < m
      ensures v.decisions[n] == w.decisions[n] && DecisionRecordOk(env, v.tables.seen, v.decisions[n])
      ensures v.decisions[n].body.allowed && v.decisions[m].body.allowed ==>
                v.decisions[n].body.correlation != v.decisions[m].body.correlation
    {
      assert v.decisions[..m][n] == w.decisions[n];
      assert DecisionRecordOk(env, w.tables.seen, w.decisions[n]);
    }
    hide DecisionRecordOk;
  }

  lemma ClaimKeepsConserved(w: World, v: World, d: Decision)
    requires IssuedOk(w) && Conserved(w) && SpentOk(w)
    requires v.decisions == w.decisions + [d] && v.spent == w.spent && v.tables.issued == w.tables.issued
    requires v.pending == if CarriesTools(d) then w.pending + {|w.decisions|} else w.pending
    ensures IssuedOk(v) && Conserved(v) && SpentOk(v)
  {
    hide CarriesTools;
    var m := |w.decisions|;
    forall n: nat
      ensures Outstanding(v, n) <==> Outstanding(w, n)
      ensures Spent(v, n) <==> Spent(w, n)
    {
    }
    assert m !in w.pending && !Outstanding(w, m) && !Spent(w, m);
  }

  lemma ClaimKeepsInv(env: Env, w: World, r: Request)
    requires EnvOk(env) && Inv(env, w)
    ensures Inv(env, Apply(env, w, ClaimAndEvaluate(r)))
  {
    if RequestOk(r) {
      var v := Apply(env, w, ClaimAndEvaluate(r));
      hide DecisionsOk, OnePerCorrelation, IssuedOk, Conserved, SpentOk, RequestOk, EnvOk, Decided;
      ClaimKeepsDecisions(env, w, r);
      ClaimKeepsConserved(w, v, v.decisions[|w.decisions|]);
    }
  }

  lemma StoreKeepsInv(env: Env, w: World, n: nat)
    requires Inv(env, w) && DistinctReceipts(w)
    ensures Inv(env, Apply(env, w, StoreDecision(n)))
  {
    if n in w.pending {
      hide DecisionOk, ApprovedReadOnly;
      var v := Apply(env, w, StoreDecision(n));
      assert CarriesTools(w.decisions[n]);
      // Another decision with tools has another correlation, so another receipt.
      forall k: nat | k < |w.decisions| && k != n && CarriesTools(w.decisions[k])
        ensures w.decisions[k].receipt != w.decisions[n].receipt
      {
      }
      assert forall k: nat :: Spent(v, k) <==> Spent(w, k);
      assert Outstanding(v, n);
      forall k: nat | k != n
        ensures Outstanding(v, k) <==> Outstanding(w, k)
      {
      }
    }
  }

  lemma ConsumeKeepsInv(env: Env, w: World, o: Object, d: Decision)
    requires Inv(env, w)
    ensures Inv(env, Apply(env, w, ConsumeObject(o, d)))
  {
    var v := Apply(env, w, ConsumeObject(o, d));
    hide DecisionOk, ApprovedReadOnly, DecisionsOk, OnePerCorrelation;
    if |v.spent| != |w.spent| {
      var n := o.n;
      assert Outstanding(w, n);
      SpendKeepsConserved(w, v, n);
    } else {
      assert v == w;
    }
  }

  lemma SpendKeepsConserved(w: World, v: World, n: nat)
    requires IssuedOk(w) && Conserved(w) && SpentOk(w) && Outstanding(w, n)
    requires v == w.(tables := w.tables.(issued := w.tables.issued - {w.decisions[n].receipt}),
                     spent := w.spent + [(n, w.decisions[n].body.effective)])
    ensures IssuedOk(v) && Conserved(v) && SpentOk(v)
  {
    hide CarriesTools;
    assert v.spent[|w.spent|].0 == n;
    forall k: nat
      ensures Outstanding(v, k) <==> Outstanding(w, k) && k != n
      ensures Spent(v, k) <==> Spent(w, k) || k == n
    {
      if Spent(w, k) {
        var i :| 0 <= i < |w.spent| && w.spent[i].0 == k;
        assert v.spent[i].0 == k;
      }
    }
  }

  lemma DecisionsGrow(env: Env, w: World, e: Event)
    ensures w.decisions <= Apply(env, w, e).decisions
  {
  }

  /**
   * Whatever the order in which calls reach the critical sections, as long as no two decisions share a receipt digest:
   * one allowed decision per correlation, authority conserved, spent at most once.
   */
  lemma {:induction false} AuthorityIsConserved(env: Env, events: seq<Event>)
    requires EnvOk(env) && DistinctReceipts(After(env, events))
    ensures Inv(env, After(env, events))
  {
    if events != [] {
      var w := After(env, events[..|events| - 1]);
      var e := events[|events| - 1];
      DecisionsGrow(env, w, e);
      assert DistinctReceipts(w) by {
        hide Apply, EnvOk;
        var v := After(env, events);
        forall i, j | 0 <= i < |w.decisions| && 0 <= j < |w.decisions| && w.decisions[i].receipt == w.decisions[j].receipt
          ensures w.decisions[i] == w.decisions[j]
        {
          assert v.decisions[i] == w.decisions[i] && v.decisions[j] == w.decisions[j];
        }
      }
      AuthorityIsConserved(env, events[..|events| - 1]);
      match e
      case ClaimAndEvaluate(r) => ClaimKeepsInv(env, w, r);
      case StoreDecision(n) => StoreKeepsInv(env, w, n);
      case ConsumeObject(o, d) => ConsumeKeepsInv(env, w, o, d);
    }
  }

  /**
   * In every reachable world exactly the outstanding decision objects can be consumed, a copy or a forged object never,
   * and what is granted is approved and read-only.
   */
  lemma ConsumableIffOutstanding(env: Env, events: seq<Event>, o: Object, d: Decision)
    requires EnvOk(env) && DistinctReceipts(After(env, events))
    requires var w := After(env, events); o.Made? ==> o.n < |w.decisions| && w.decisions[o.n] == d
    ensures var w := After(env, events);
            var (result, tables) := Consume(env.hash, w.tables, d, o);
            && (result.Success? <==> o.Made? && Outstanding(w, o.n))
            && (result.Success? ==>
                  && result.value == d.body.requested && result.value != []
                  && Consume(env.hash, tables, d, o).0 == Failure(NotIssuedOrConsumed)
                  && forall g :: g in result.value ==> ApprovedReadOnly(env, d.body.identity, g))
  {
    AuthorityIsConserved(env, events);
    hide After, EnvOk, OnePerCorrelation, SpentOk, ApprovedReadOnly, SortedUnique;
    var w := After(env, events);
    if o.Made? && Outstanding(w, o.n) {
      assert CarriesTools(w.decisions[o.n]);
      assert DecisionRecordOk(env, w.tables.seen, w.decisions[o.n]);
    }
    if Consume(env.hash, w.tables, d, o).0.Success? {
      assert d.receipt in w.tables.issued;
    }
  }
}
