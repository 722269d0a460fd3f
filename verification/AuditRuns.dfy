/** Whole-run properties of the anchored audit log: crash safety and tamper evidence. */
module AuditRuns {
  import opened Outcomes
  import opened Json
  import opened AuditChain
  import AuditAnchor
  import opened AuditProtocol

  datatype Op = VerifyOp(stamp: AuditAnchor.Stamp) | AppendOp(event: Event)

  /** The states of the files after each write of a call. */
  function Writes(k: Keys, s: State, op: Op): (states: seq<State>)
    ensures states != [] && states[0] == s
  {
    match op
    case VerifyOp(stamp) => VerifyAnchored(k, s, stamp).states
    case AppendOp(e) => Append(k, s, e).states
  }

  predicate Succeeds(k: Keys, s: State, op: Op) {
    match op
    case VerifyOp(stamp) => VerifyAnchored(k, s, stamp).result.Success?
    case AppendOp(e) => Append(k, s, e).result.Success?
  }

  // ----- Crash safety -----

  /** `hexdigest` prints 64 lower-case hexadecimal digits. */
  ghost predicate PrintsHex(k: Keys) {
    && (forall r :: IsLowerHex64(k.mac(r)))
    && (forall b :: IsLowerHex64(k.anchor.mac(b)))
  }

  predicate GoodStamp(k: Keys, stamp: AuditAnchor.Stamp) {
    k.anchor.isUuid(stamp.id) && k.anchor.isTimestamp(stamp.time)
  }

  ghost predicate FreshStamp(k: Keys, s: State, stamp: AuditAnchor.Stamp) {
    GoodStamp(k, stamp) && Str(stamp.id) !in AuditAnchor.CheckpointIds(s.anchor.lines)
  }

  /** What `uuid4` is trusted for: ids that occur nowhere yet. */
  ghost predicate Fresh(k: Keys, s: State, op: Op) {
    match op
    case VerifyOp(stamp) => FreshStamp(k, s, stamp)
    case AppendOp(e) =>
      && FreshStamp(k, s, e.catchUp) && FreshStamp(k, s, e.commit) && e.catchUp.id != e.commit.id
      && (AllEntries(s.log.lines) ==> e.auditId !in Ids(Entries(s.log.lines)))
  }

  /** The log that a state holds, when it is one the scan accepts. */
  ghost predicate GoodLog(k: Keys, file: LogFile) {
    && (file.lines != [] ==> file.terminated)
    && AllEntries(file.lines) && Chained(k.mac, Entries(file.lines))
  }

  ghost predicate GoodAnchor(k: Keys, file: AuditAnchor.AnchorFile) {
    file.lines != [] && file.terminated && AuditAnchor.Sound(k.anchor, file.lines)
  }

  /** The checkpoint seals a prefix of the log: its count and the HMAC of its last record. */
  ghost predicate SealsPrefix(line: AuditAnchor.AnchorLine, entries: seq<Record>) {
    && line.Sealed?
    && 0 <= AuditAnchor.Count(line) <= |entries|
    && line.checkpoint.body.lastHmac == Str(LastHmac(entries[..AuditAnchor.Count(line)]))
  }

  ghost predicate AllSealPrefixes(lines: seq<AuditAnchor.AnchorLine>, entries: seq<Record>) {
    forall i :: 0 <= i < |lines| ==> SealsPrefix(lines[i], entries)
  }

  lemma SealsStayValid(lines: seq<AuditAnchor.AnchorLine>, entries: seq<Record>, r: Record)
    requires AllSealPrefixes(lines, entries)
    ensures AllSealPrefixes(lines, entries + [r])
  {
    forall i | 0 <= i < |lines| ensures SealsPrefix(lines[i], entries + [r]) {
      var n := AuditAnchor.Count(lines[i]);
      assert SealsPrefix(lines[i], entries);
      assert (entries + [r])[..n] == entries[..n];
    }
  }

  function Lag(s: State): int {
    |s.log.lines| - AuditAnchor.LastCount(s.anchor.lines)
  }

  ghost predicate Consistent(k: Keys, s: State) {
    && GoodLog(k, s.log)
    && GoodAnchor(k, s.anchor)
    && AllSealPrefixes(s.anchor.lines, Entries(s.log.lines))
    && 0 <= Lag(s) <= 1
  }

  ghost predicate AllConsistent(k: Keys, states: seq<State>) {
    forall i :: 0 <= i < |states| ==> Consistent(k, states[i])
  }

  lemma ConcatConsistent(k: Keys, a: seq<State>, b: seq<State>)
    requires AllConsistent(k, a) && AllConsistent(k, b)
    ensures AllConsistent(k, a + b)
  {
  }

  lemma ScanGoodLog(k: Keys, file: LogFile, checkpointRecords: Option<int>)
    ensures Scan(k.mac, file, checkpointRecords).Success? <==> GoodLog(k, file)
    ensures GoodLog(k, file) ==>
              Summarises(Scan(k.mac, file, checkpointRecords).value, Entries(file.lines), checkpointRecords)
  {
    ScanAcceptsChains(k.mac, file.lines, checkpointRecords);
  }

  lemma VerifyGoodAnchor(k: Keys, file: AuditAnchor.AnchorFile)
    ensures AuditAnchor.Verify(k.anchor, file).Success? <==> GoodAnchor(k, file)
    ensures GoodAnchor(k, file) ==> AuditAnchor.Tallies(AuditAnchor.Verify(k.anchor, file).value, file.lines)
    ensures GoodAnchor(k, file) ==> AuditAnchor.Verify(k.anchor, file).value.records >= 0
  {
    AuditAnchor.VerifyAcceptsSoundAnchors(k.anchor, file.lines);
    if GoodAnchor(k, file) {
      assert AuditAnchor.WellFormed(k.anchor, file.lines[|file.lines| - 1]);
    }
  }

  lemma LastHmacIsHex(k: Keys, entries: seq<Record>)
    requires PrintsHex(k) && Chained(k.mac, entries)
    ensures IsHexDigest(LastHmac(entries))
  {
    if entries == [] {
      LowerHexIsHexDigest(Genesis());
    } else {
      var r := entries[|entries| - 1];
      assert Authentic(k.mac, r);
      LowerHexIsHexDigest(k.mac(Unsigned(r)));
    }
  }

  /** A checkpoint of a longer log can always be added to a good anchor. */
  lemma AppendCheckpointSucceeds(k: Keys, s: State, stamp: AuditAnchor.Stamp)
    requires PrintsHex(k) && FreshStamp(k, s, stamp)
    requires GoodLog(k, s.log) && GoodAnchor(k, s.anchor)
    requires Lag(s) > 0
    ensures var entries := Entries(s.log.lines);
            var w := AuditAnchor.Append(k.anchor, s.anchor, stamp, |entries|, LastHmac(entries));
            && w.result.Success?
            && GoodAnchor(k, w.file)
            && (AllSealPrefixes(s.anchor.lines, entries) ==> AllSealPrefixes(w.file.lines, entries))
            && AuditAnchor.LastCount(w.file.lines) == |entries|
            && AuditAnchor.CheckpointIds(w.file.lines) == AuditAnchor.CheckpointIds(s.anchor.lines) + {Str(stamp.id)}
  {
    var entries := Entries(s.log.lines);
    LastHmacIsHex(k, entries);
    VerifyGoodAnchor(k, s.anchor);
    var t := AuditAnchor.Verify(k.anchor, s.anchor).value;
    var c := AuditAnchor.NewCheckpoint(k.anchor, stamp, |entries|, LastHmac(entries), t.lastCheckpointHmac);
    var line := AuditAnchor.Sealed(c);
    LowerHexIsHexDigest(k.anchor.mac(c.body));
    assert AuditAnchor.WellFormed(k.anchor, line);
    AuditAnchor.SoundSnoc(k.anchor, s.anchor.lines, line);
    VerifyGoodAnchor(k, AuditAnchor.WithCheckpoint(s.anchor, c));
    assert entries[..|entries|] == entries;
  }

  /** Anchored verification of a consistent state succeeds and closes the gap. */
  lemma VerifyClosesGap(k: Keys, s: State, stamp: AuditAnchor.Stamp)
    requires PrintsHex(k) && Consistent(k, s) && FreshStamp(k, s, stamp)
    ensures var o := VerifyAnchored(k, s, stamp);
            && o.result.Success?
            && o.result.value.records == |s.log.lines|
            && o.result.value.lastHmac == LastHmac(Entries(s.log.lines))
            && AllConsistent(k, o.states)
            && Last(o.states).log == s.log
            && Lag(Last(o.states)) == 0
            && AuditAnchor.CheckpointIds(Last(o.states).anchor.lines) <=
               AuditAnchor.CheckpointIds(s.anchor.lines) + {Str(stamp.id)}
  {
    hide AuditAnchor.Append, AuditAnchor.Verify, Scan, AuditAnchor.Sound, AuditAnchor.CheckpointIds, Linked, DistinctIds, PrintsHex;
    VerifyGoodAnchor(k, s.anchor);
    var t := AuditAnchor.Verify(k.anchor, s.anchor).value;
    ScanGoodLog(k, s.log, Some(t.records));
    assert SealsPrefix(s.anchor.lines[|s.anchor.lines| - 1], Entries(s.log.lines));
    if Lag(s) == 1 {
      AppendCheckpointSucceeds(k, s, stamp);
    }
  }

  /** Between an append's two writes the record is in the log but not sealed; after them it is both. */
  lemma WriteRecordKeepsConsistent(k: Keys, s: State, e: Event, v: Verification)
    requires PrintsHex(k) && Consistent(k, s) && Lag(s) == 0
    requires e.auditId !in Ids(Entries(s.log.lines)) && FreshStamp(k, s, e.commit)
    requires v.records == |s.log.lines| && v.lastHmac == LastHmac(Entries(s.log.lines))
    ensures var o := WriteRecord(k, s, e, v);
            && o.result.Success?
            && AllConsistent(k, o.states)
            && Lag(o.states[0]) == 1 && Lag(o.states[1]) == 0
            && o.states[1].log.lines == s.log.lines + [Entry(NewRecord(k.mac, e, v.lastHmac))]
  {
    hide AuditAnchor.Append, AuditAnchor.Sound, AuditAnchor.CheckpointIds, Linked, DistinctIds, Ids, PrintsHex;
    var before := Entries(s.log.lines);
    var r := NewRecord(k.mac, e, LastHmac(before));
    var logged := s.(log := WithRecord(s.log, r));
    assert Entries(logged.log.lines) == before + [r];
    assert Authentic(k.mac, r) by {
      assert Unsigned(r) == r.(entryHmac := None);
    }
    Snoc(k.mac, before, r);
    SealsStayValid(s.anchor.lines, before, r);
    AppendCheckpointSucceeds(k, logged, e.commit);
  }

  lemma AppendKeepsConsistent(k: Keys, s: State, e: Event)
    requires PrintsHex(k) && Consistent(k, s) && Fresh(k, s, AppendOp(e))
    ensures var o := Append(k, s, e);
            && o.result.Success?
            && AllConsistent(k, o.states)
            && Lag(Last(o.states)) == 0
            && Last(o.states).log.lines == s.log.lines + [Entry(NewRecord(k.mac, e, LastHmac(Entries(s.log.lines))))]
  {
    assert AllEntries(s.log.lines);
    hide VerifyAnchored, WriteRecord, Consistent, AllConsistent, PrintsHex, Ids, LastHmac, AuditAnchor.CheckpointIds, Lag;
    VerifyClosesGap(k, s, e.catchUp);
    var v := VerifyAnchored(k, s, e.catchUp);
    var w := WriteRecord(k, Last(v.states), e, v.result.value);
    WriteRecordKeepsConsistent(k, Last(v.states), e, v.result.value);
    ConcatConsistent(k, v.states, w.states);
  }

  /**
   Runs in which every writer is anchored.  Each call finds the state the
   previous one left, and leaves any state of its own writes: the last one if it
   completes, an earlier one if it crashes.
   */
  ghost predicate CrashRun(k: Keys, states: seq<State>, ops: seq<Op>) {
    && |states| == |ops| + 1
    && (forall i :: 0 <= i < |ops| ==> Fresh(k, states[i], ops[i]) && states[i + 1] in Writes(k, states[i], ops[i]))
  }

  /** Bootstrapping leaves a consistent state with nothing unsealed, whatever the log held. */
  lemma BootstrapIsConsistent(k: Keys, s: State, stamp: AuditAnchor.Stamp)
    ensures var o := Bootstrap(k, s, stamp);
            o.result.Success? ==> Consistent(k, Last(o.states)) && Lag(Last(o.states)) == 0 && Last(o.states).log == s.log
    ensures s.anchor.lines != [] ==> Bootstrap(k, s, stamp).result.Failure? && Last(Bootstrap(k, s, stamp).states) == s
  {
    ScanGoodLog(k, s.log, None);
    var o := Bootstrap(k, s, stamp);
    if o.result.Success? {
      var s' := Last(o.states);
      VerifyGoodAnchor(k, s'.anchor);
      assert Entries(s.log.lines)[..|s.log.lines|] == Entries(s.log.lines);
    }
  }

  lemma StepKeepsConsistent(k: Keys, s: State, op: Op)
    requires PrintsHex(k) && Consistent(k, s) && Fresh(k, s, op)
    ensures forall s' :: s' in Writes(k, s, op) ==> Consistent(k, s')
    ensures Succeeds(k, s, op) && Lag(Last(Writes(k, s, op))) == 0
  {
    match op
    case VerifyOp(stamp) =>
      VerifyClosesGap(k, s, stamp);
    case AppendOp(e) =>
      AppendKeepsConsistent(k, s, e);
  }

  lemma {:induction false} ConsistentAt(k: Keys, states: seq<State>, ops: seq<Op>, i: nat)
    requires PrintsHex(k) && CrashRun(k, states, ops) && Consistent(k, states[0])
    requires i < |states|
    ensures Consistent(k, states[i])
  {
    if i > 0 {
      ConsistentAt(k, states, ops, i - 1);
      assert Fresh(k, states[i - 1], ops[i - 1]) && states[i] in Writes(k, states[i - 1], ops[i - 1]);
      StepKeepsConsistent(k, states[i - 1], ops[i - 1]);
    }
  }

  /**
   Crash safety: after a bootstrap, in every run with crashes between any two
   writes, every state is consistent (each checkpoint seals a prefix of the log,
   counts increase, the anchor lags by at most one record), and from every state
   the next verify or append that completes succeeds and closes the gap.
   */
  lemma CrashSafety(k: Keys, origin: State, stamp: AuditAnchor.Stamp, states: seq<State>, ops: seq<Op>, i: nat)
    requires PrintsHex(k)
    requires Bootstrap(k, origin, stamp).result.Success?
    requires CrashRun(k, states, ops) && states[0] == Last(Bootstrap(k, origin, stamp).states)
    requires i < |states|
    ensures Consistent(k, states[i])
    ensures forall op :: Fresh(k, states[i], op) ==>
              Succeeds(k, states[i], op) && Lag(Last(Writes(k, states[i], op))) == 0
  {
    hide Writes, Bootstrap, Succeeds, Consistent, PrintsHex, Fresh;
    BootstrapIsConsistent(k, origin, stamp);
    ConsistentAt(k, states, ops, i);
    forall op | Fresh(k, states[i], op)
      ensures Succeeds(k, states[i], op) && Lag(Last(Writes(k, states[i], op))) == 0
    {
      StepKeepsConsistent(k, states[i], op);
    }
  }

  // ----- Tamper evidence -----

  /**
   Someone without the keys may replace the log file, but not the anchor, between
   calls.  `writes` says how many of a call's writes happened before it crashed.
   */
  datatype Happening = Replace(log: LogFile) | Call(op: Op, writes: nat)

  function Completed(k: Keys, s: State, h: Happening): bool {
    h.Call? && h.writes >= |Writes(k, s, h.op)| - 1 && Succeeds(k, s, h.op)
  }

  /** The states a happening goes through, ending with the one it leaves. */
  function Through(k: Keys, s: State, h: Happening): (states: seq<State>)
    ensures states != []
  {
    match h
    case Replace(log) => [s.(log := log)]
    case Call(op, n) => var w := Writes(k, s, op); if n < |w| - 1 then w[..n + 1] else w
  }

  /** The logs that completed, successful calls of a run reported on, in order. */
  function AcceptedLogs(k: Keys, s: State, run: seq<Happening>): seq<seq<Line>>
    decreases |run|
  {
    if run == [] then []
    else
      var s' := Last(Through(k, s, run[0]));
      (if Completed(k, s, run[0]) then [s'.log.lines] else []) + AcceptedLogs(k, s', run[1..])
  }

  /** Every record that the log holds after some happening of the run is among `records`. */
  ghost predicate Within(k: Keys, s: State, run: seq<Happening>, records: set<Record>)
    decreases |run|
  {
    run != [] ==>
      && LogWithin(Last(Through(k, s, run[0])).log.lines, records)
      && Within(k, Last(Through(k, s, run[0])), run[1..], records)
  }

  ghost predicate LogWithin(lines: seq<Line>, records: set<Record>) {
    forall i :: 0 <= i < |lines| && lines[i].Entry? ==> lines[i].record in records
  }

  /** The anchor's last checkpoint seals `history`, unless the anchor no longer verifies. */
  ghost predicate Commits(k: Keys, s: State, history: seq<Line>) {
    && AllEntries(history) && Linked(k.mac, Entries(history))
    && var t := AuditAnchor.Verify(k.anchor, s.anchor);
       t.Success? ==> t.value.records == |history| && t.value.lastHmac == LastHmac(Entries(history))
  }

  /** The log passed every check that anchored verification makes before it writes. */
  predicate Passes(k: Keys, s: State) {
    var tally := AuditAnchor.Verify(k.anchor, s.anchor);
    && tally.Success?
    && var progress := Scan(k.mac, s.log, Some(tally.value.records));
    && progress.Success?
    && tally.value.records <= progress.value.records
    && progress.value.checkpoint == Some(tally.value.lastHmac)
  }

  /**
   Rollback and fork detection: if anchored verification lets a log through,
   whatever log it is, its first n records are the history that the last
   checkpoint sealed.
   */
  lemma PassingLogExtendsHistory(k: Keys, s: State, history: seq<Line>, records: set<Record>)
    requires Commits(k, s, history)
    requires CollisionFree(k.mac, records)
    requires LogWithin(history, records) && LogWithin(s.log.lines, records)
    requires Passes(k, s)
    ensures history <= s.log.lines
    ensures GoodLog(k, s.log)
  {
    var t := AuditAnchor.Verify(k.anchor, s.anchor).value;
    ScanGoodLog(k, s.log, Some(t.records));
    var n := |history|;
    var entries := Entries(s.log.lines);
    ChainedPrefix(k.mac, entries, n);
    assert forall r :: r in entries[..n] || r in Entries(history) ==> r in records;
    LastHmacCommitsToHistory(k.mac, entries[..n], Entries(history), records);
    forall i | 0 <= i < n ensures history[i] == s.log.lines[i] {
      assert entries[..n][i] == Entries(history)[i];
    }
  }

  /** Sealing a linked log makes it the committed history, unless nothing was written. */
  lemma SealCommits(k: Keys, s: State, stamp: AuditAnchor.Stamp)
    requires AllEntries(s.log.lines) && Linked(k.mac, Entries(s.log.lines))
    ensures var w := AuditAnchor.Append(k.anchor, s.anchor, stamp, |s.log.lines|, LastHmac(Entries(s.log.lines)));
            if w.file == s.anchor then w.result.Failure? else Commits(k, s.(anchor := w.file), s.log.lines)
  {
    var w := AuditAnchor.Append(k.anchor, s.anchor, stamp, |s.log.lines|, LastHmac(Entries(s.log.lines)));
    if w.file == s.anchor {
      assert |w.file.lines| == |s.anchor.lines|;
    } else if AuditAnchor.Verify(k.anchor, w.file).Success? {
      VerifyGoodAnchor(k, w.file);
    }
  }

  /** Each state of a verification commits to the old history or to the whole log. */
  lemma VerifyStates(k: Keys, s: State, stamp: AuditAnchor.Stamp, history: seq<Line>, records: set<Record>)
    requires Commits(k, s, history)
    requires CollisionFree(k.mac, records)
    requires LogWithin(history, records) && LogWithin(s.log.lines, records)
    ensures var o := VerifyAnchored(k, s, stamp);
            && (!Passes(k, s) ==> o.states == [s] && o.result.Failure?)
            && (Passes(k, s) ==> history <= s.log.lines && GoodLog(k, s.log))
            && (forall st :: st in o.states ==>
                  st.log == s.log && (Commits(k, st, history) || (Passes(k, s) && Commits(k, st, s.log.lines))))
            && (o.result.Success? ==>
                  && Passes(k, s) && Commits(k, Last(o.states), s.log.lines)
                  && o.result.value.records == |s.log.lines|
                  && o.result.value.lastHmac == LastHmac(Entries(s.log.lines)))
  {
    if Passes(k, s) {
      PassingLogExtendsHistory(k, s, history, records);
      var t := AuditAnchor.Verify(k.anchor, s.anchor).value;
      ScanGoodLog(k, s.log, Some(t.records));
      if t.records < |s.log.lines| {
        SealCommits(k, s, stamp);
      } else {
        assert history == s.log.lines;
      }
    }
  }

  lemma WriteRecordStates(k: Keys, s: State, e: Event, v: Verification)
    requires GoodLog(k, s.log) && Commits(k, s, s.log.lines)
    requires v.records == |s.log.lines| && v.lastHmac == LastHmac(Entries(s.log.lines))
    ensures var o := WriteRecord(k, s, e, v);
            && Commits(k, o.states[0], s.log.lines)
            && s.log.lines <= o.states[1].log.lines
            && (Commits(k, o.states[1], s.log.lines) || Commits(k, o.states[1], o.states[1].log.lines))
            && (o.result.Success? ==> Commits(k, o.states[1], o.states[1].log.lines))
  {
    hide AuditAnchor.Append, AuditAnchor.Verify, Linked, DistinctIds, Ids;
    var before := Entries(s.log.lines);
    var r := NewRecord(k.mac, e, v.lastHmac);
    var logged := s.(log := WithRecord(s.log, r));
    assert Entries(logged.log.lines) == before + [r];
    assert Authentic(k.mac, r) by {
      assert Unsigned(r) == r.(entryHmac := None);
    }
    Snoc(k.mac, before, r);
    SealCommits(k, logged, e.commit);
  }

  /** A state commits to the old history, to the log the call found, or to the log it holds itself. */
  ghost predicate CommitsForward(k: Keys, s: State, st: State, history: seq<Line>) {
    || Commits(k, st, history)
    || (history <= s.log.lines && Commits(k, st, s.log.lines))
    || (history <= st.log.lines && Commits(k, st, st.log.lines))
  }

  lemma AppendStates(k: Keys, s: State, e: Event, history: seq<Line>, records: set<Record>)
    requires Commits(k, s, history)
    requires CollisionFree(k.mac, records)
    requires LogWithin(history, records) && LogWithin(s.log.lines, records)
    ensures var o := Append(k, s, e);
            && (forall i :: 0 <= i < |o.states| ==> CommitsForward(k, s, o.states[i], history))
            && (o.result.Success? ==>
                  history <= Last(o.states).log.lines && Commits(k, Last(o.states), Last(o.states).log.lines))
  {
    hide VerifyAnchored, WriteRecord, AuditAnchor.Verify, Linked, DistinctIds, CollisionFree, LogWithin, Passes;
    VerifyStates(k, s, e.catchUp, history, records);
    var v := VerifyAnchored(k, s, e.catchUp);
    assert forall i :: 0 <= i < |v.states| ==> v.states[i] in v.states;
    if v.result.Success? {
      WriteRecordStates(k, Last(v.states), e, v.result.value);
    }
  }

  /** One happening takes the committed history to an extension of it, and to the whole log if it completes. */
  lemma HappeningExtendsHistory(k: Keys, s: State, h: Happening, history: seq<Line>, records: set<Record>)
    returns (history': seq<Line>)
    requires Commits(k, s, history)
    requires CollisionFree(k.mac, records)
    requires LogWithin(history, records) && LogWithin(s.log.lines, records)
    requires LogWithin(Last(Through(k, s, h)).log.lines, records)
    ensures history <= history'
    ensures LogWithin(history', records)
    ensures Commits(k, Last(Through(k, s, h)), history')
    ensures Completed(k, s, h) ==> history' == Last(Through(k, s, h)).log.lines
  {
    hide VerifyAnchored, Append, LogWithin, AuditAnchor.Verify, Linked, CollisionFree;
    var s' := Last(Through(k, s, h));
    match h
    case Replace(log) =>
      history' := history;
    case Call(op, n) =>
      var writes := Writes(k, s, op);
      assert s' in writes;
      if op.VerifyOp? {
        VerifyStates(k, s, op.stamp, history, records);
      } else {
        AppendStates(k, s, op.event, history, records);
      }
      assert CommitsForward(k, s, s', history);
      if Completed(k, s, h) {
        history' := s'.log.lines;
      } else if Commits(k, s', history) {
        history' := history;
      } else if history <= s.log.lines && Commits(k, s', s.log.lines) {
        history' := s.log.lines;
      } else {
        history' := s'.log.lines;
      }
  }

  /** Each log extends the one before it, and the first extends `history`. */
  ghost predicate ChainFrom(history: seq<Line>, logs: seq<seq<Line>>)
    decreases |logs|
  {
    logs != [] ==> history <= logs[0] && ChainFrom(logs[0], logs[1..])
  }

  lemma {:induction false} ChainOrdered(history: seq<Line>, logs: seq<seq<Line>>, i: nat, j: nat)
    requires ChainFrom(history, logs) && i <= j < |logs|
    ensures history <= logs[i] <= logs[j]
    decreases |logs|
  {
    if i > 0 {
      ChainOrdered(logs[0], logs[1..], i - 1, j - 1);
    } else if j > 0 {
      ChainOrdered(logs[0], logs[1..], 0, j - 1);
    }
  }

  /**
   Tamper evidence over whole runs: however the log file is replaced between
   calls and wherever calls crash, the logs that successful calls report on form
   a chain in which each one extends all earlier ones, starting from the history
   that the anchor sealed at the outset.
   */
  lemma {:induction false} AcceptedLogsFormAChain(
    k: Keys, s: State, run: seq<Happening>, history: seq<Line>, records: set<Record>)
    requires Commits(k, s, history)
    requires CollisionFree(k.mac, records)
    requires LogWithin(history, records) && LogWithin(s.log.lines, records)
    requires Within(k, s, run, records)
    ensures ChainFrom(history, AcceptedLogs(k, s, run))
    decreases |run|
  {
    hide Through, Completed, Commits, LogWithin, CollisionFree;
    if run != [] {
      var s' := Last(Through(k, s, run[0]));
      var history' := HappeningExtendsHistory(k, s, run[0], history, records);
      AcceptedLogsFormAChain(k, s', run[1..], history', records);
      var rest := AcceptedLogs(k, s', run[1..]);
      if Completed(k, s, run[0]) {
        assert ([s'.log.lines] + rest)[1..] == rest;
      } else {
        assert [] + rest == rest;
      }
    }
  }
}
