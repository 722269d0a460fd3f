/**
 The external anchor: an append-only file of HMAC-chained checkpoints
 (`FileAuditAnchor` and `AuditAnchorTransaction`).
 */
module AuditAnchor {
  import opened Outcomes
  import opened Json
  import AuditChain

  const ANCHOR_VERSION := 1

  /** A checkpoint object with exactly the expected keys, without its own HMAC. */
  datatype Body = Body(
    version: Json,
    checkpointId: Json,
    timestamp: Json,
    auditLogId: Json,
    records: Json,
    lastHmac: Json,
    previousCheckpointHmac: Json)

  datatype Checkpoint = Checkpoint(body: Body, checkpointHmac: Json)

  datatype AnchorLine = Blank | NotJson | NotObject | WrongSchema | Sealed(checkpoint: Checkpoint)

  /** An absent and an empty file are both `AnchorFile([], _)`. */
  datatype AnchorFile = AnchorFile(lines: seq<AnchorLine>, terminated: bool)

  /** Keyed HMAC, the log id this anchor belongs to, and the UUID and ISO timestamp parsers. */
  datatype Config = Config(mac: Body -> string, logId: string, isUuid: string -> bool, isTimestamp: string -> bool)

  datatype AnchorFault =
    | NotInitialized
    | AlreadyInitialized
    | NotTerminated
    | BlankCheckpoint
    | InvalidJson
    | NotAnObject
    | UnexpectedSchema
    | UnsupportedVersion
    | InvalidCheckpointId
    | DuplicateCheckpointId
    | InvalidTimestamp
    | LogIdMismatch
    | InvalidRecordCount
    | NotMonotonic
    | InvalidLastHmac
    | ZeroRecordsNotGenesis
    | BrokenChain
    | InvalidCheckpointHmac
    | MacMismatch
    | CountMustIncrease

  /** The verify loop's variables; `records` is -1 before the first checkpoint. */
  datatype Tally = Tally(checkpoints: nat, records: int, lastHmac: string, lastCheckpointHmac: string, ids: set<string>)

  function StartTally(): Tally {
    Tally(0, -1, AuditChain.Genesis(), AuditChain.Genesis(), {})
  }

  function ReadCheckpoint(line: AnchorLine): Result<Checkpoint, AnchorFault> {
    match line
    case Blank => Failure(BlankCheckpoint)
    case NotJson => Failure(InvalidJson)
    case NotObject => Failure(NotAnObject)
    case WrongSchema => Failure(UnexpectedSchema)
    case Sealed(c) => if EqualsInt(c.body.version, ANCHOR_VERSION) then Success(c) else Failure(UnsupportedVersion)
  }

  function CheckIdentity(cfg: Config, b: Body, ids: set<string>): Result<string, AnchorFault> {
    if !b.checkpointId.Str? || !cfg.isUuid(b.checkpointId.text) then Failure(InvalidCheckpointId)
    else if b.checkpointId.text in ids then Failure(DuplicateCheckpointId)
    else if !b.timestamp.Str? || !cfg.isTimestamp(b.timestamp.text) then Failure(InvalidTimestamp)
    else if b.auditLogId != Str(cfg.logId) then Failure(LogIdMismatch)
    else Success(b.checkpointId.text)
  }

  /** The body of the verify loop. */
  function Advance(cfg: Config, line: AnchorLine, t: Tally): Result<Tally, AnchorFault> {
    var c :- ReadCheckpoint(line);
    var id :- CheckIdentity(cfg, c.body, t.ids);
    var b := c.body;
    if !b.records.Int? || b.records.number < 0 then Failure(InvalidRecordCount)
    else if b.records.number <= t.records then Failure(NotMonotonic)
    else if !b.lastHmac.Str? || !IsHexDigest(b.lastHmac.text) then Failure(InvalidLastHmac)
    else if b.records.number == 0 && b.lastHmac.text != AuditChain.Genesis() then Failure(ZeroRecordsNotGenesis)
    else if b.previousCheckpointHmac != Str(t.lastCheckpointHmac) then Failure(BrokenChain)
    else if !c.checkpointHmac.Str? || !IsHexDigest(c.checkpointHmac.text) then Failure(InvalidCheckpointHmac)
    else if c.checkpointHmac.text != cfg.mac(b) then Failure(MacMismatch)
    else Success(Tally(t.checkpoints + 1, b.records.number, b.lastHmac.text, c.checkpointHmac.text, t.ids + {id}))
  }

  function VerifyLines(cfg: Config, lines: seq<AnchorLine>): Result<Tally, AnchorFault> {
    if lines == [] then Success(StartTally())
    else
      var t :- VerifyLines(cfg, lines[..|lines| - 1]);
      Advance(cfg, lines[|lines| - 1], t)
  }

  /** `_verify_unlocked`. */
  function Verify(cfg: Config, file: AnchorFile): Result<Tally, AnchorFault> {
    if file.lines == [] then Failure(NotInitialized)
    else if !file.terminated then Failure(NotTerminated)
    else VerifyLines(cfg, file.lines)
  }

  lemma {:induction false} FailureIsFinal(cfg: Config, lines: seq<AnchorLine>, n: nat)
    requires n <= |lines|
    requires VerifyLines(cfg, lines[..n]).Failure?
    ensures VerifyLines(cfg, lines) == VerifyLines(cfg, lines[..n])
    decreases |lines| - n
  {
    if n == |lines| {
      assert lines[..n] == lines;
    } else {
      assert lines[..n + 1][..n] == lines[..n];
      FailureIsFinal(cfg, lines, n + 1);
    }
  }

  method RunVerify(cfg: Config, file: AnchorFile) returns (r: Result<Tally, AnchorFault>)
    ensures r == Verify(cfg, file)
  {
    hide Advance;
    if file.lines == [] {
      return Failure(NotInitialized);
    }
    if !file.terminated {
      return Failure(NotTerminated);
    }
    var t := StartTally();
    for i := 0 to |file.lines|
      invariant VerifyLines(cfg, file.lines[..i]) == Success(t)
    {
      assert file.lines[..i + 1][..i] == file.lines[..i];
      r := Advance(cfg, file.lines[i], t);
      if r.Failure? {
        FailureIsFinal(cfg, file.lines, i + 1);
        return;
      }
      t := r.value;
    }
    assert file.lines[..|file.lines|] == file.lines;
    r := Success(t);
  }

  // ----- Writing -----

  /** The fresh UUID and the time that one checkpoint is written with. */
  datatype Stamp = Stamp(id: string, time: string)

  function NewCheckpoint(cfg: Config, stamp: Stamp, records: nat, lastHmac: string, previous: string): Checkpoint {
    var body := Body(Int(ANCHOR_VERSION), Str(stamp.id), Str(stamp.time), Str(cfg.logId), Int(records),
                     Str(lastHmac), Str(previous));
    Checkpoint(body, Str(cfg.mac(body)))
  }

  function WithCheckpoint(file: AnchorFile, c: Checkpoint): AnchorFile {
    AnchorFile(file.lines + [Sealed(c)], true)
  }

  function ValidateState(records: nat, lastHmac: string): Option<AnchorFault> {
    if !IsHexDigest(lastHmac) then Some(InvalidLastHmac)
    else if records == 0 && lastHmac != AuditChain.Genesis() then Some(ZeroRecordsNotGenesis)
    else None
  }

  /** The file an anchor write leaves behind, and what the write then reports. */
  datatype Written = Written(file: AnchorFile, result: Result<Tally, AnchorFault>)

  /** `AuditAnchorTransaction.bootstrap`. */
  function Bootstrap(cfg: Config, file: AnchorFile, stamp: Stamp, records: nat, lastHmac: string): Written {
    var fault := ValidateState(records, lastHmac);
    if fault.Some? then Written(file, Failure(fault.value))
    else if file.lines != [] then Written(file, Failure(AlreadyInitialized))
    else
      var file' := WithCheckpoint(file, NewCheckpoint(cfg, stamp, records, lastHmac, AuditChain.Genesis()));
      Written(file', Verify(cfg, file'))
  }

  /** `AuditAnchorTransaction.append`. */
  function Append(cfg: Config, file: AnchorFile, stamp: Stamp, records: nat, lastHmac: string): Written {
    var fault := ValidateState(records, lastHmac);
    if fault.Some? then Written(file, Failure(fault.value))
    else
      var before := Verify(cfg, file);
      if before.Failure? then Written(file, before)
      else if records <= before.value.records then Written(file, Failure(CountMustIncrease))
      else
        var c := NewCheckpoint(cfg, stamp, records, lastHmac, before.value.lastCheckpointHmac);
        var file' := WithCheckpoint(file, c);
        Written(file', Verify(cfg, file'))
  }

  // ----- What verification accepts, said without the loop -----

  predicate WellFormed(cfg: Config, line: AnchorLine) {
    && line.Sealed?
    && var b := line.checkpoint.body;
    && EqualsInt(b.version, ANCHOR_VERSION)
    && b.checkpointId.Str? && cfg.isUuid(b.checkpointId.text)
    && b.timestamp.Str? && cfg.isTimestamp(b.timestamp.text)
    && b.auditLogId == Str(cfg.logId)
    && b.records.Int? && b.records.number >= 0
    && b.lastHmac.Str? && IsHexDigest(b.lastHmac.text)
    && (b.records.number == 0 ==> b.lastHmac.text == AuditChain.Genesis())
    && line.checkpoint.checkpointHmac == Str(cfg.mac(b))
    && IsHexDigest(cfg.mac(b))
  }

  function Count(line: AnchorLine): int {
    if line.Sealed? && line.checkpoint.body.records.Int? then line.checkpoint.body.records.number else -1
  }

  function IdOf(line: AnchorLine): Json {
    if line.Sealed? then line.checkpoint.body.checkpointId else Null
  }

  function PreviousSeal(line: AnchorLine): Json {
    if line.Sealed? then line.checkpoint.body.previousCheckpointHmac else Null
  }

  function SealOf(line: AnchorLine): Json {
    if line.Sealed? then line.checkpoint.checkpointHmac else Null
  }

  function LastSeal(lines: seq<AnchorLine>): Json {
    if lines == [] then Str(AuditChain.Genesis()) else SealOf(lines[|lines| - 1])
  }

  function LastCount(lines: seq<AnchorLine>): int {
    if lines == [] then -1 else Count(lines[|lines| - 1])
  }

  ghost function CheckpointIds(lines: seq<AnchorLine>): set<Json> {
    if lines == [] then {} else CheckpointIds(lines[..|lines| - 1]) + {IdOf(lines[|lines| - 1])}
  }

  /** Authentic checkpoints, each sealing the one before it, with increasing counts and distinct ids. */
  ghost predicate Sound(cfg: Config, lines: seq<AnchorLine>) {
    lines != [] ==>
      var init, last := lines[..|lines| - 1], lines[|lines| - 1];
      && Sound(cfg, init)
      && WellFormed(cfg, last)
      && PreviousSeal(last) == LastSeal(init)
      && LastCount(init) < Count(last)
      && IdOf(last) !in CheckpointIds(init)
  }

  lemma SoundSnoc(cfg: Config, init: seq<AnchorLine>, last: AnchorLine)
    ensures Sound(cfg, init + [last]) <==>
            && Sound(cfg, init)
            && WellFormed(cfg, last)
            && PreviousSeal(last) == LastSeal(init)
            && LastCount(init) < Count(last)
            && IdOf(last) !in CheckpointIds(init)
    ensures CheckpointIds(init + [last]) == CheckpointIds(init) + {IdOf(last)}
    ensures LastCount(init + [last]) == Count(last) && LastSeal(init + [last]) == SealOf(last)
  {
    var lines := init + [last];
    assert lines[..|lines| - 1] == init;
  }

  /** The counts of a sound anchor increase strictly from checkpoint to checkpoint. */
  lemma {:induction false} CountsIncrease(cfg: Config, lines: seq<AnchorLine>, i: nat, j: nat)
    requires Sound(cfg, lines) && i < j < |lines|
    ensures Count(lines[i]) < Count(lines[j])
    decreases |lines|
  {
    var n := |lines| - 1;
    if j < n {
      CountsIncrease(cfg, lines[..n], i, j);
    } else if i < n - 1 {
      CountsIncrease(cfg, lines[..n], i, n - 1);
    }
  }

  ghost predicate Tallies(t: Tally, lines: seq<AnchorLine>) {
    && t.checkpoints == |lines|
    && t.records == LastCount(lines)
    && Str(t.lastCheckpointHmac) == LastSeal(lines)
    && (forall id :: id in t.ids <==> Str(id) in CheckpointIds(lines))
    && (lines != [] && lines[|lines| - 1].Sealed? ==>
          Str(t.lastHmac) == lines[|lines| - 1].checkpoint.body.lastHmac)
  }

  lemma AdvanceAccepts(cfg: Config, line: AnchorLine, t: Tally)
    ensures Advance(cfg, line, t).Success? <==>
            && WellFormed(cfg, line)
            && t.records < Count(line)
            && PreviousSeal(line) == Str(t.lastCheckpointHmac)
            && IdOf(line).text !in t.ids
    ensures Advance(cfg, line, t).Success? ==>
              var b := line.checkpoint.body;
              Advance(cfg, line, t).value ==
              Tally(t.checkpoints + 1, b.records.number, b.lastHmac.text, line.checkpoint.checkpointHmac.text,
                    t.ids + {b.checkpointId.text})
  {
  }

  /** Verification accepts exactly the sound anchors, and reports the last checkpoint. */
  lemma {:induction false} VerifyAcceptsSoundAnchors(cfg: Config, lines: seq<AnchorLine>)
    ensures VerifyLines(cfg, lines).Success? <==> Sound(cfg, lines)
    ensures VerifyLines(cfg, lines).Success? ==> Tallies(VerifyLines(cfg, lines).value, lines)
    decreases |lines|
  {
    if lines != [] {
      var n := |lines| - 1;
      var init, last := lines[..n], lines[n];
      assert lines == init + [last];
      VerifyAcceptsSoundAnchors(cfg, init);
      if Sound(cfg, init) {
        var t := VerifyLines(cfg, init).value;
        AdvanceAccepts(cfg, last, t);
        SoundSnoc(cfg, init, last);
      }
    }
  }
}
