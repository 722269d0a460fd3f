/**
 The second, independent verifier of the same log: the loader that the C9
 attestation runs before it trusts an audit record
 (`_load_verified_audit_records`), from the point where lines are decoded.
 */
module AuditLoader {
  import opened Outcomes
  import opened Json
  import opened AuditChain

  datatype LoadFault = MalformedChain | InvalidIdentity | NotAuthentic | EmptyLog

  datatype Loaded = Loaded(previous: string, ids: set<string>, records: seq<Record>)

  /** The body of the loader's loop; its checks come in another order than the scan's. */
  function Accept(mac: Mac, f: Record, l: Loaded): Result<Loaded, LoadFault> {
    if f.version.None? || !EqualsInt(f.version.value, 2) || f.previousHmac != Some(Str(l.previous)) then
      Failure(MalformedChain)
    else if !IsStr(f.entryHmac) || !IsLowerHex64(TextOf(f.entryHmac)) || !IsStr(f.auditId) || TextOf(f.auditId) in l.ids then
      Failure(InvalidIdentity)
    else if TextOf(f.entryHmac) != mac(Unsigned(f)) then
      Failure(NotAuthentic)
    else
      Success(Loaded(TextOf(f.entryHmac), l.ids + {TextOf(f.auditId)}, l.records + [f]))
  }

  function LoadAll(mac: Mac, decoded: seq<Record>): Result<Loaded, LoadFault> {
    if decoded == [] then Success(Loaded(Genesis(), {}, []))
    else
      var l :- LoadAll(mac, decoded[..|decoded| - 1]);
      Accept(mac, decoded[|decoded| - 1], l)
  }

  function Load(mac: Mac, decoded: seq<Record>): Result<(seq<Record>, string), LoadFault> {
    var l :- LoadAll(mac, decoded);
    if l.records == [] then Failure(EmptyLog) else Success((l.records, l.previous))
  }

  lemma {:induction false} LoadFailureIsFinal(mac: Mac, decoded: seq<Record>, n: nat)
    requires n <= |decoded|
    requires LoadAll(mac, decoded[..n]).Failure?
    ensures LoadAll(mac, decoded) == LoadAll(mac, decoded[..n])
    decreases |decoded| - n
  {
    if n == |decoded| {
      assert decoded[..n] == decoded;
    } else {
      assert decoded[..n + 1][..n] == decoded[..n];
      LoadFailureIsFinal(mac, decoded, n + 1);
    }
  }

  method RunLoad(mac: Mac, decoded: seq<Record>) returns (r: Result<(seq<Record>, string), LoadFault>)
    ensures r == Load(mac, decoded)
  {
    var l := Loaded(Genesis(), {}, []);
    for i := 0 to |decoded|
      invariant LoadAll(mac, decoded[..i]) == Success(l)
    {
      assert decoded[..i + 1][..i] == decoded[..i];
      var step := Accept(mac, decoded[i], l);
      if step.Failure? {
        LoadFailureIsFinal(mac, decoded, i + 1);
        return Failure(step.error);
      }
      l := step.value;
    }
    assert decoded[..|decoded|] == decoded;
    r := if l.records == [] then Failure(EmptyLog) else Success((l.records, l.previous));
  }

  function Lines(decoded: seq<Record>): (lines: seq<Line>)
    ensures |lines| == |decoded|
  {
    seq(|decoded|, i requires 0 <= i < |decoded| => Entry(decoded[i]))
  }

  lemma AcceptFollowsAdvance(mac: Mac, f: Record, l: Loaded, p: Progress)
    requires IsLowerHex64(mac(Unsigned(f)))
    requires l.previous == p.previous && l.ids == p.ids
    ensures Accept(mac, f, l).Success? <==> Advance(mac, Entry(f), p, None).Success?
    ensures Accept(mac, f, l).Success? ==>
              var l', p' := Accept(mac, f, l).value, Advance(mac, Entry(f), p, None).value;
              && l'.previous == p'.previous && l'.ids == p'.ids
              && l'.records == l.records + [f] && p'.records == p.records + 1
  {
  }

  lemma {:induction false} LoadFollowsScan(mac: Mac, decoded: seq<Record>)
    requires forall r :: IsLowerHex64(mac(r))
    ensures LoadAll(mac, decoded).Success? <==> ScanLines(mac, Lines(decoded), None).Success?
    ensures LoadAll(mac, decoded).Success? ==>
              var l, p := LoadAll(mac, decoded).value, ScanLines(mac, Lines(decoded), None).value;
              && l.records == decoded
              && l.previous == p.previous
              && l.ids == p.ids
              && p.records == |decoded|
    decreases |decoded|
  {
    if decoded != [] {
      var init := decoded[..|decoded| - 1];
      LoadFollowsScan(mac, init);
      assert Lines(decoded)[..|init|] == Lines(init);
      assert decoded == init + [decoded[|init|]];
      if LoadAll(mac, init).Success? {
        AcceptFollowsAdvance(mac, decoded[|init|], LoadAll(mac, init).value, ScanLines(mac, Lines(init), None).value);
      }
    }
  }

  /**
   The two verifiers agree on every non-empty sequence of decoded records: the
   loader accepts exactly when the scan does, and both then report the same
   number of records and the same last HMAC.  On the empty sequence only the
   scan succeeds.
   */
  lemma VerifiersAgree(mac: Mac, decoded: seq<Record>)
    requires forall r :: IsLowerHex64(mac(r))
    ensures Load(mac, decoded).Success? <==> decoded != [] && Scan(mac, LogFile(Lines(decoded), true), None).Success?
    ensures Load(mac, decoded).Success? ==>
              var p := Scan(mac, LogFile(Lines(decoded), true), None).value;
              Load(mac, decoded).value == (decoded, p.previous) && p.records == |decoded|
  {
    LoadFollowsScan(mac, decoded);
  }
}
