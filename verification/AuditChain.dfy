/**
 The HMAC-chained audit log: the one-pass scan of `AuditLog._scan_unlocked` and
 what it accepts.

 `mac` stands for HMAC-SHA256 (RFC 2104) under the audit key over the canonical
 bytes of a record without its own `entry_hmac`.  Nothing is assumed about it
 here except, where a lemma says so, that no two records in play collide.
 */
module AuditChain {
  import opened Outcomes
  import opened Json

  const RECORD_VERSION := 2

  function Genesis(): string {
    seq(64, i => '0')
  }

  /** A decoded JSON object: the four keys the verifiers read (`None` when absent) and all the others. */
  datatype Record = Record(
    version: Option<Json>,
    previousHmac: Option<Json>,
    entryHmac: Option<Json>,
    auditId: Option<Json>,
    rest: map<string, Json>)

  type Mac = Record -> string

  /** One line of the log file after `json.loads`. */
  datatype Line = Blank | NotJson | NotObject | Entry(record: Record)

  /** An absent and an empty file are both `LogFile([], _)`. */
  datatype LogFile = LogFile(lines: seq<Line>, terminated: bool)

  datatype Fault =
    | NotTerminated
    | BlankRecord
    | InvalidJson
    | NotAnObject
    | UnsupportedVersion
    | BrokenChain
    | MissingHmac
    | InvalidHmac
    | InvalidAuditId

  function Unsigned(f: Record): Record {
    f.(entryHmac := None)
  }

  predicate IsStr(field: Option<Json>) {
    field.Some? && field.value.Str?
  }

  function TextOf(field: Option<Json>): string {
    if IsStr(field) then field.value.text else ""
  }

  /** The scan's loop variables. */
  datatype Progress = Progress(previous: string, records: nat, ids: set<string>, checkpoint: Option<string>)

  function Start(checkpointRecords: Option<int>): Progress {
    Progress(Genesis(), 0, {}, if checkpointRecords == Some(0) then Some(Genesis()) else None)
  }

  function ReadEntry(line: Line): Result<Record, Fault> {
    match line
    case Blank => Failure(BlankRecord)
    case NotJson => Failure(InvalidJson)
    case NotObject => Failure(NotAnObject)
    case Entry(f) => Success(f)
  }

  /** The body of the scan's loop. */
  function Advance(mac: Mac, line: Line, p: Progress, checkpointRecords: Option<int>): Result<Progress, Fault> {
    var f :- ReadEntry(line);
    if f.version.None? || !EqualsInt(f.version.value, RECORD_VERSION) then Failure(UnsupportedVersion)
    else if f.previousHmac != Some(Str(p.previous)) then Failure(BrokenChain)
    else if !IsStr(f.entryHmac) then Failure(MissingHmac)
    else if TextOf(f.entryHmac) != mac(Unsigned(f)) then Failure(InvalidHmac)
    else if !IsStr(f.auditId) || TextOf(f.auditId) in p.ids then Failure(InvalidAuditId)
    else
      var hmac := TextOf(f.entryHmac);
      Success(Progress(
                hmac,
                p.records + 1,
                p.ids + {TextOf(f.auditId)},
                if checkpointRecords == Some(p.records + 1) then Some(hmac) else p.checkpoint))
  }

  function ScanLines(mac: Mac, lines: seq<Line>, checkpointRecords: Option<int>): Result<Progress, Fault> {
    if lines == [] then Success(Start(checkpointRecords))
    else
      var p :- ScanLines(mac, lines[..|lines| - 1], checkpointRecords);
      Advance(mac, lines[|lines| - 1], p, checkpointRecords)
  }

  function Scan(mac: Mac, file: LogFile, checkpointRecords: Option<int>): Result<Progress, Fault> {
    if file.lines != [] && !file.terminated then Failure(NotTerminated)
    else ScanLines(mac, file.lines, checkpointRecords)
  }

  lemma {:induction false} FailureIsFinal(mac: Mac, lines: seq<Line>, n: nat, checkpointRecords: Option<int>)
    requires n <= |lines|
    requires ScanLines(mac, lines[..n], checkpointRecords).Failure?
    ensures ScanLines(mac, lines, checkpointRecords) == ScanLines(mac, lines[..n], checkpointRecords)
    decreases |lines| - n
  {
    if n == |lines| {
      assert lines[..n] == lines;
    } else {
      assert lines[..n + 1][..n] == lines[..n];
      FailureIsFinal(mac, lines, n + 1, checkpointRecords);
    }
  }

  /** `_scan_unlocked`. */
  method RunScan(mac: Mac, file: LogFile, checkpointRecords: Option<int>) returns (r: Result<Progress, Fault>)
    ensures r == Scan(mac, file, checkpointRecords)
  {
    if file.lines == [] {
      return Success(Start(checkpointRecords));
    }
    if !file.terminated {
      return Failure(NotTerminated);
    }
    var p := Start(checkpointRecords);
    for i := 0 to |file.lines|
      invariant ScanLines(mac, file.lines[..i], checkpointRecords) == Success(p)
    {
      assert file.lines[..i + 1][..i] == file.lines[..i];
      r := Advance(mac, file.lines[i], p, checkpointRecords);
      if r.Failure? {
        FailureIsFinal(mac, file.lines, i + 1, checkpointRecords);
        return;
      }
      p := r.value;
    }
    assert file.lines[..|file.lines|] == file.lines;
    r := Success(p);
  }

  // ----- What the scan accepts, said without the loop -----

  function LastHmac(entries: seq<Record>): string
  {
    if entries == [] then Genesis() else TextOf(entries[|entries| - 1].entryHmac)
  }

  predicate Authentic(mac: Mac, f: Record) {
    && f.version.Some? && EqualsInt(f.version.value, RECORD_VERSION)
    && f.entryHmac == Some(Str(mac(Unsigned(f))))
    && IsStr(f.auditId)
  }

  /** Every record is authentic and points at the one before it. */
  ghost predicate Linked(mac: Mac, entries: seq<Record>) {
    entries != [] ==>
      var init, last := entries[..|entries| - 1], entries[|entries| - 1];
      Linked(mac, init) && Authentic(mac, last) && last.previousHmac == Some(Str(LastHmac(init)))
  }

  ghost function Ids(entries: seq<Record>): set<string> {
    if entries == [] then {} else Ids(entries[..|entries| - 1]) + {TextOf(entries[|entries| - 1].auditId)}
  }

  ghost predicate DistinctIds(entries: seq<Record>) {
    entries != [] ==>
      var init := entries[..|entries| - 1];
      DistinctIds(init) && TextOf(entries[|entries| - 1].auditId) !in Ids(init)
  }

  /** A linked log whose records have ids of their own. */
  ghost predicate Chained(mac: Mac, entries: seq<Record>) {
    Linked(mac, entries) && DistinctIds(entries)
  }

  predicate AllEntries(lines: seq<Line>) {
    forall i :: 0 <= i < |lines| ==> lines[i].Entry?
  }

  function Entries(lines: seq<Line>): (es: seq<Record>)
    requires AllEntries(lines)
    ensures |es| == |lines|
    ensures forall i :: 0 <= i < |lines| ==> es[i] == lines[i].record
  {
    seq(|lines|, i requires 0 <= i < |lines| => lines[i].record)
  }

  /** The same, record by record. */
  lemma {:induction false} ChainedPointwise(mac: Mac, entries: seq<Record>, i: nat)
    requires Chained(mac, entries) && i < |entries|
    ensures Authentic(mac, entries[i])
    ensures entries[i].previousHmac == if i == 0 then Some(Str(Genesis())) else entries[i - 1].entryHmac
    ensures forall j :: 0 <= j < i ==> entries[j].auditId != entries[i].auditId
    decreases |entries|
  {
    var n := |entries| - 1;
    if i < n {
      ChainedPointwise(mac, entries[..n], i);
    } else {
      if i > 0 {
        ChainedPointwise(mac, entries[..n], n - 1);
      }
      forall j | 0 <= j < i ensures entries[j].auditId != entries[i].auditId {
        IdIn(entries[..n], j);
      }
    }
  }

  lemma {:induction false} IdIn(entries: seq<Record>, j: nat)
    requires j < |entries|
    ensures TextOf(entries[j].auditId) in Ids(entries)
  {
    var n := |entries| - 1;
    if j < n {
      IdIn(entries[..n], j);
    }
  }

  lemma {:induction false} ChainedPrefix(mac: Mac, entries: seq<Record>, n: nat)
    requires n <= |entries|
    ensures Linked(mac, entries) ==> Linked(mac, entries[..n])
    ensures Chained(mac, entries) ==> Chained(mac, entries[..n])
    decreases |entries|
  {
    if n == |entries| {
      assert entries[..n] == entries;
    } else {
      var init := entries[..|entries| - 1];
      ChainedPrefix(mac, init, n);
      assert init[..n] == entries[..n];
    }
  }

  /** What the scan's loop variables hold after an accepted log. */
  ghost predicate Summarises(p: Progress, entries: seq<Record>, checkpointRecords: Option<int>) {
    && p.records == |entries|
    && p.previous == LastHmac(entries)
    && p.ids == Ids(entries)
    && p.checkpoint == CheckpointHmac(entries, checkpointRecords)
  }

  ghost function CheckpointHmac(entries: seq<Record>, checkpointRecords: Option<int>): Option<string> {
    if checkpointRecords.Some? && 0 <= checkpointRecords.value <= |entries|
    then Some(LastHmac(entries[..checkpointRecords.value]))
    else None
  }

  lemma CheckpointSnoc(entries: seq<Record>, f: Record, checkpointRecords: Option<int>)
    ensures CheckpointHmac(entries + [f], checkpointRecords) ==
            if checkpointRecords == Some(|entries| + 1) then Some(TextOf(f.entryHmac))
            else CheckpointHmac(entries, checkpointRecords)
  {
    var all := entries + [f];
    if checkpointRecords.Some? && 0 <= checkpointRecords.value <= |all| {
      var n := checkpointRecords.value;
      if n <= |entries| {
        assert all[..n] == entries[..n];
      } else {
        assert all[..n] == all;
      }
    }
  }

  lemma Snoc(mac: Mac, entries: seq<Record>, f: Record)
    ensures Linked(mac, entries + [f]) <==>
            Linked(mac, entries) && Authentic(mac, f) && f.previousHmac == Some(Str(LastHmac(entries)))
    ensures DistinctIds(entries + [f]) <==> DistinctIds(entries) && TextOf(f.auditId) !in Ids(entries)
    ensures Ids(entries + [f]) == Ids(entries) + {TextOf(f.auditId)}
    ensures LastHmac(entries + [f]) == TextOf(f.entryHmac)
  {
    var all := entries + [f];
    assert all[..|all| - 1] == entries;
  }

  lemma AdvanceAccepts(mac: Mac, line: Line, p: Progress, checkpointRecords: Option<int>)
    ensures Advance(mac, line, p, checkpointRecords).Success? <==>
            && line.Entry?
            && var f := line.record;
            Authentic(mac, f) && f.previousHmac == Some(Str(p.previous)) && TextOf(f.auditId) !in p.ids
    ensures Advance(mac, line, p, checkpointRecords).Success? ==>
              var f := line.record;
              Advance(mac, line, p, checkpointRecords).value ==
              Progress(TextOf(f.entryHmac), p.records + 1, p.ids + {TextOf(f.auditId)},
                       if checkpointRecords == Some(p.records + 1) then Some(TextOf(f.entryHmac)) else p.checkpoint)
  {
  }

  /** The scan accepts exactly the chained logs, and reports their length, last HMAC and checkpoint HMAC. */
  lemma {:induction false} ScanAcceptsChains(mac: Mac, lines: seq<Line>, checkpointRecords: Option<int>)
    ensures ScanLines(mac, lines, checkpointRecords).Success? <==>
            AllEntries(lines) && Chained(mac, Entries(lines))
    ensures ScanLines(mac, lines, checkpointRecords).Success? ==>
              Summarises(ScanLines(mac, lines, checkpointRecords).value, Entries(lines), checkpointRecords)
    decreases |lines|
  {
    if lines == [] {
      assert Entries(lines) == [];
    } else {
      var n := |lines| - 1;
      ScanAcceptsChains(mac, lines[..n], checkpointRecords);
      assert AllEntries(lines) <==> AllEntries(lines[..n]) && lines[n].Entry?;
      hide Chained, Summarises, Advance, ScanLines, AllEntries;
      ScanSnoc(mac, lines, checkpointRecords);
      if AllEntries(lines[..n]) && lines[n].Entry? {
        EntriesSnoc(lines);
        if ScanLines(mac, lines[..n], checkpointRecords).Success? {
          AdvanceExtends(mac, Entries(lines[..n]), lines[n].record, ScanLines(mac, lines[..n], checkpointRecords).value, checkpointRecords);
        } else {
          ChainedPrefix(mac, Entries(lines), n);
          assert Entries(lines)[..n] == Entries(lines[..n]);
        }
      } else if ScanLines(mac, lines[..n], checkpointRecords).Success? {
        AdvanceAccepts(mac, lines[n], ScanLines(mac, lines[..n], checkpointRecords).value, checkpointRecords);
      }
    }
  }

  lemma ScanSnoc(mac: Mac, lines: seq<Line>, checkpointRecords: Option<int>)
    requires lines != []
    ensures var before := ScanLines(mac, lines[..|lines| - 1], checkpointRecords);
            ScanLines(mac, lines, checkpointRecords) ==
            if before.Failure? then before else Advance(mac, lines[|lines| - 1], before.value, checkpointRecords)
  {
    hide Advance;
  }

  lemma EntriesSnoc(lines: seq<Line>)
    requires lines != [] && AllEntries(lines[..|lines| - 1]) && lines[|lines| - 1].Entry?
    ensures AllEntries(lines) && Entries(lines) == Entries(lines[..|lines| - 1]) + [lines[|lines| - 1].record]
  {
  }

  /** One more record: accepted exactly when it extends the chain, and then the loop variables follow. */
  lemma AdvanceExtends(mac: Mac, entries: seq<Record>, f: Record, p: Progress, checkpointRecords: Option<int>)
    requires Chained(mac, entries) && Summarises(p, entries, checkpointRecords)
    ensures Advance(mac, Entry(f), p, checkpointRecords).Success? <==> Chained(mac, entries + [f])
    ensures Advance(mac, Entry(f), p, checkpointRecords).Success? ==>
              Summarises(Advance(mac, Entry(f), p, checkpointRecords).value, entries + [f], checkpointRecords)
  {
    hide Advance, Linked, DistinctIds, Ids, CheckpointHmac, LastHmac, Authentic;
    AdvanceAccepts(mac, Entry(f), p, checkpointRecords);
    Snoc(mac, entries, f);
    CheckpointSnoc(entries, f, checkpointRecords);
  }

  // ----- Forks -----

  /** No two of these records collide, and none hits the genesis value. */
  ghost predicate CollisionFree(mac: Mac, records: set<Record>) {
    && (forall f, g :: f in records && g in records && mac(Unsigned(f)) == mac(Unsigned(g)) ==> Unsigned(f) == Unsigned(g))
    && (forall f :: f in records ==> mac(Unsigned(f)) != Genesis())
  }

  lemma SignedRecordsEqual(mac: Mac, f: Record, g: Record)
    requires Authentic(mac, f) && Authentic(mac, g)
    requires Unsigned(f) == Unsigned(g)
    ensures f == g
  {
  }

  /**
   Two linked logs that end in the same HMAC are the same log, record for
   record: the last HMAC commits to the whole history.
   */
  lemma {:induction false} LastHmacCommitsToHistory(mac: Mac, a: seq<Record>, b: seq<Record>, records: set<Record>)
    requires Linked(mac, a) && Linked(mac, b)
    requires LastHmac(a) == LastHmac(b)
    requires CollisionFree(mac, records)
    requires forall f :: f in a || f in b ==> f in records
    ensures a == b
    decreases |a|
  {
    if a == [] || b == [] {
    } else {
      var m, n := |a| - 1, |b| - 1;
      assert a[m] in a && b[n] in b;
      SignedRecordsEqual(mac, a[m], b[n]);
      LastHmacCommitsToHistory(mac, a[..m], b[..n], records);
      assert a == a[..m] + [a[m]] && b == b[..n] + [b[n]];
    }
  }
}
