/**
 The two-file commit protocol of `AuditLog` with an external anchor: anchored
 verification with catch-up, append and bootstrap, under crashes between any
 two writes and under replacement of the log file by someone else.

 The process lock makes each call exclusive.  A call is described by the states
 of the two files after each of its writes; a crash leaves any one of them.
 */
module AuditProtocol {
  import opened Outcomes
  import opened Json
  import opened AuditChain
  import AuditAnchor

  datatype State = State(log: LogFile, anchor: AuditAnchor.AnchorFile)

  datatype Keys = Keys(mac: Mac, anchor: AuditAnchor.Config)

  datatype ProtocolFault =
    | LogFault(logFault: Fault)
    | AnchorFault(anchorFault: AuditAnchor.AnchorFault)
    | Rollback
    | Divergence

  datatype Verification = Verification(records: nat, lastHmac: string, checkpoints: nat)

  /** `states` starts with the state the call found and adds one state per write. */
  datatype Outcome<T> = Outcome(states: seq<State>, result: Result<T, ProtocolFault>)

  /** A new record's fresh id, its other fields, and the stamps of the two checkpoints an append may write. */
  datatype Event = Event(auditId: string, rest: map<string, Json>, catchUp: AuditAnchor.Stamp, commit: AuditAnchor.Stamp)

  function Last(states: seq<State>): State
    requires states != []
  {
    states[|states| - 1]
  }

  function Reported(p: Progress, w: Result<AuditAnchor.Tally, AuditAnchor.AnchorFault>): Result<Verification, ProtocolFault> {
    match w
    case Success(t) => Success(Verification(p.records, p.previous, t.checkpoints))
    case Failure(f) => Failure(AnchorFault(f))
  }

  /** `_verify_anchored_unlocked`. */
  function VerifyAnchored(k: Keys, s: State, stamp: AuditAnchor.Stamp): (o: Outcome<Verification>)
    ensures o.states != [] && o.states[0] == s
  {
    match AuditAnchor.Verify(k.anchor, s.anchor)
    case Failure(f) => Outcome([s], Failure(AnchorFault(f)))
    case Success(t) =>
      match Scan(k.mac, s.log, Some(t.records))
      case Failure(f) => Outcome([s], Failure(LogFault(f)))
      case Success(p) =>
        if t.records > p.records then Outcome([s], Failure(Rollback))
        else if p.checkpoint != Some(t.lastHmac) then Outcome([s], Failure(Divergence))
        else if p.records > t.records then
          var w := AuditAnchor.Append(k.anchor, s.anchor, stamp, p.records, p.previous);
          Outcome([s, s.(anchor := w.file)], Reported(p, w.result))
        else Outcome([s], Reported(p, Success(t)))
  }

  function NewRecord(mac: Mac, e: Event, previous: string): Record {
    var unsigned := Record(Some(Int(RECORD_VERSION)), Some(Str(previous)), None, Some(Str(e.auditId)), e.rest);
    unsigned.(entryHmac := Some(Str(mac(unsigned))))
  }

  function WithRecord(file: LogFile, r: Record): LogFile {
    LogFile(file.lines + [Entry(r)], true)
  }

  /** `_append_verified_unlocked` and the checkpoint after it: write the record, then seal it. */
  function WriteRecord(k: Keys, s: State, e: Event, v: Verification): (o: Outcome<string>)
    ensures |o.states| == 2
  {
    var r := NewRecord(k.mac, e, v.lastHmac);
    var logged := s.(log := WithRecord(s.log, r));
    var w := AuditAnchor.Append(k.anchor, logged.anchor, e.commit, v.records + 1, TextOf(r.entryHmac));
    Outcome([logged, logged.(anchor := w.file)],
            if w.result.Success? then Success(e.auditId) else Failure(AnchorFault(w.result.error)))
  }

  /** `append` with an anchor: verify and catch up, then write and seal the record. */
  function Append(k: Keys, s: State, e: Event): (o: Outcome<string>)
    ensures o.states != [] && o.states[0] == s
  {
    var v := VerifyAnchored(k, s, e.catchUp);
    match v.result
    case Failure(f) => Outcome(v.states, Failure(f))
    case Success(verification) =>
      var w := WriteRecord(k, Last(v.states), e, verification);
      Outcome(v.states + w.states, w.result)
  }

  /** `bootstrap_anchor`. */
  function Bootstrap(k: Keys, s: State, stamp: AuditAnchor.Stamp): (o: Outcome<Verification>)
    ensures o.states != [] && o.states[0] == s
  {
    match Scan(k.mac, s.log, None)
    case Failure(f) => Outcome([s], Failure(LogFault(f)))
    case Success(p) =>
      var w := AuditAnchor.Bootstrap(k.anchor, s.anchor, stamp, p.records, p.previous);
      Outcome([s, s.(anchor := w.file)], Reported(p, w.result))
  }

  /** The two files, and the code that reads and writes them. */
  class AuditStore {
    const keys: Keys
    var log: LogFile
    var anchor: AuditAnchor.AnchorFile
    ghost var written: seq<State>

    ghost function Files(): State
      reads this
    {
      State(log, anchor)
    }

    constructor (keys: Keys, log: LogFile, anchor: AuditAnchor.AnchorFile)
      ensures this.keys == keys && Files() == State(log, anchor) && written == [Files()]
    {
      this.keys, this.log, this.anchor := keys, log, anchor;
      written := [State(log, anchor)];
    }

    /** `AuditAnchorTransaction.append`: the write is the only change, and its state is recorded. */
    method AppendCheckpoint(stamp: AuditAnchor.Stamp, records: nat, lastHmac: string)
      returns (r: Result<AuditAnchor.Tally, AuditAnchor.AnchorFault>)
      modifies this`anchor, this`written
      ensures AuditAnchor.Written(anchor, r) == AuditAnchor.Append(keys.anchor, old(anchor), stamp, records, lastHmac)
      ensures written == old(written) + [Files()]
    {
      var fault := AuditAnchor.ValidateState(records, lastHmac);
      if fault.Some? {
        written := written + [Files()];
        return Failure(fault.value);
      }
      r := AuditAnchor.RunVerify(keys.anchor, anchor);
      if r.Failure? || records <= r.value.records {
        written := written + [Files()];
        r := if r.Failure? then r else Failure(AuditAnchor.CountMustIncrease);
        return;
      }
      var c := AuditAnchor.NewCheckpoint(keys.anchor, stamp, records, lastHmac, r.value.lastCheckpointHmac);
      anchor := AuditAnchor.WithCheckpoint(anchor, c);
      written := written + [Files()];
      r := AuditAnchor.RunVerify(keys.anchor, anchor);
    }

    method VerifyAndCatchUp(stamp: AuditAnchor.Stamp) returns (r: Result<Verification, ProtocolFault>)
      modifies this`anchor, this`written
      ensures r == VerifyAnchored(keys, old(Files()), stamp).result
      ensures Files() == Last(VerifyAnchored(keys, old(Files()), stamp).states)
      ensures written == old(written) + VerifyAnchored(keys, old(Files()), stamp).states[1..]
    {
      var tally := AuditAnchor.RunVerify(keys.anchor, anchor);
      if tally.Failure? {
        return Failure(AnchorFault(tally.error));
      }
      var t := tally.value;
      var progress := RunScan(keys.mac, log, Some(t.records));
      if progress.Failure? {
        return Failure(LogFault(progress.error));
      }
      var p := progress.value;
      if t.records > p.records {
        return Failure(Rollback);
      }
      if p.checkpoint != Some(t.lastHmac) {
        return Failure(Divergence);
      }
      if p.records > t.records {
        tally := AppendCheckpoint(stamp, p.records, p.previous);
      }
      r := Reported(p, tally);
    }

    method WriteAndSeal(e: Event, v: Verification) returns (r: Result<string, ProtocolFault>)
      modifies this
      ensures r == WriteRecord(keys, old(Files()), e, v).result
      ensures Files() == WriteRecord(keys, old(Files()), e, v).states[1]
      ensures written == old(written) + WriteRecord(keys, old(Files()), e, v).states
    {
      hide AuditAnchor.Append;
      var record := NewRecord(keys.mac, e, v.lastHmac);
      log := WithRecord(log, record);
      written := written + [Files()];
      var sealed := AppendCheckpoint(e.commit, v.records + 1, TextOf(record.entryHmac));
      r := if sealed.Success? then Success(e.auditId) else Failure(AnchorFault(sealed.error));
    }

    method AppendEvent(e: Event) returns (r: Result<string, ProtocolFault>)
      modifies this
      ensures r == Append(keys, old(Files()), e).result
      ensures Files() == Last(Append(keys, old(Files()), e).states)
      ensures written == old(written) + Append(keys, old(Files()), e).states[1..]
    {
      hide VerifyAnchored, WriteRecord;
      ghost var v := VerifyAnchored(keys, Files(), e.catchUp);
      var verified := VerifyAndCatchUp(e.catchUp);
      if verified.Failure? {
        return Failure(verified.error);
      }
      ghost var w := WriteRecord(keys, Files(), e, verified.value);
      r := WriteAndSeal(e, verified.value);
      assert (v.states + w.states)[1..] == v.states[1..] + w.states;
    }

    method BootstrapAnchor(stamp: AuditAnchor.Stamp) returns (r: Result<Verification, ProtocolFault>)
      modifies this`anchor, this`written
      ensures r == Bootstrap(keys, old(Files()), stamp).result
      ensures Files() == Last(Bootstrap(keys, old(Files()), stamp).states)
      ensures written == old(written) + Bootstrap(keys, old(Files()), stamp).states[1..]
    {
      var progress := RunScan(keys.mac, log, None);
      if progress.Failure? {
        return Failure(LogFault(progress.error));
      }
      var p := progress.value;
      var fault := AuditAnchor.ValidateState(p.records, p.previous);
      if fault.Some? || anchor.lines != [] {
        written := written + [Files()];
        return Failure(AnchorFault(if fault.Some? then fault.value else AuditAnchor.AlreadyInitialized));
      }
      var c := AuditAnchor.NewCheckpoint(keys.anchor, stamp, p.records, p.previous, Genesis());
      anchor := AuditAnchor.WithCheckpoint(anchor, c);
      written := written + [Files()];
      var tally := AuditAnchor.RunVerify(keys.anchor, anchor);
      r := Reported(p, tally);
    }
  }
}
