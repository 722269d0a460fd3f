/** `verify_task` in front of a replay guard: lifetime, expiry, clock skew, signature, then the nonce. */
module TaskVerification {
  import opened Outcomes
  import opened ReplayGuard

  const MICROSECONDS := 1_000_000

  /** A task envelope as far as verification looks at it; `payload` is what the signature covers. */
  datatype Task = Task(issued: int, expires: int, nonce: string, payload: nat, signature: string)

  datatype Policy = Policy(maxSkewSeconds: nat, maxLifetimeSeconds: nat, maxEntries: nat, sign: Task -> string)

  /** A task with the clock readings of `verify_task` and, a little later, of the guard. */
  datatype Request = Request(task: Task, now: int, guardNow: int)

  datatype Verdict = Verified | LifetimeExceeded | TaskExpired | FromTheFuture | BadSignature | Refused(answer: Answer)

  /** The checks before the guard is asked. */
  function Precheck(p: Policy, r: Request): Option<Verdict> {
    if r.task.expires - r.task.issued > p.maxLifetimeSeconds * MICROSECONDS then Some(LifetimeExceeded)
    else if r.task.expires <= r.now then Some(TaskExpired)
    else if r.task.issued - r.now > p.maxSkewSeconds * MICROSECONDS then Some(FromTheFuture)
    else if p.sign(r.task) != r.task.signature then Some(BadSignature)
    else None
  }

  function MarkOf(r: Request): Mark {
    Mark(r.guardNow, r.task.nonce, r.task.expires)
  }

  function Conclude(answer: Answer): Verdict {
    if answer == Accepted then Verified else Refused(answer)
  }

  function VerdictOf(p: Policy, t: Table, r: Request): Verdict {
    match Precheck(p, r)
    case Some(v) => v
    case None => Conclude(MemoryAnswer(t, p.maxEntries, MarkOf(r)))
  }

  function TableAfter(p: Policy, t: Table, r: Request): Table {
    if Precheck(p, r).Some? then t else MemoryAfter(t, p.maxEntries, MarkOf(r))
  }

  method VerifyTask(guard: MemoryGuard, p: Policy, r: Request) returns (verdict: Verdict)
    requires guard.maxEntries == p.maxEntries
    modifies guard
    ensures verdict == VerdictOf(p, old(guard.seen), r)
    ensures guard.seen == TableAfter(p, old(guard.seen), r)
  {
    if r.task.expires - r.task.issued > p.maxLifetimeSeconds * MICROSECONDS {
      return LifetimeExceeded;
    }
    if r.task.expires <= r.now {
      return TaskExpired;
    }
    if r.task.issued - r.now > p.maxSkewSeconds * MICROSECONDS {
      return FromTheFuture;
    }
    if p.sign(r.task) != r.task.signature {
      return BadSignature;
    }
    var answer := guard.CheckAndMark(MarkOf(r));
    verdict := Conclude(answer);
  }

  /** The nonce table before request `i` of a run that starts with an empty guard. */
  function TableAt(p: Policy, run: seq<Request>, i: nat): Table
    requires i <= |run|
  {
    if i == 0 then map[] else TableAfter(p, TableAt(p, run, i - 1), run[i - 1])
  }

  predicate AcceptedAt(p: Policy, run: seq<Request>, i: nat)
    requires i < |run|
  {
    VerdictOf(p, TableAt(p, run, i), run[i]) == Verified
  }

  /** Each request is verified before it reaches the guard, and the guard's clock never goes back. */
  ghost predicate ClockAdvances(run: seq<Request>) {
    && (forall i :: 0 <= i < |run| ==> run[i].now <= run[i].guardNow)
    && (forall i, j :: 0 <= i < j < |run| ==> run[i].guardNow <= run[j].guardNow)
  }

  // ----- What the guard remembers, for any clock -----

  /** The request reaches the guard's table: it passes every check before the nonce. */
  predicate Prunes(p: Policy, r: Request) {
    Precheck(p, r).None? && r.guardNow < r.task.expires
  }

  /** Request `i` was accepted, and no request in between that reached the table read a clock past its expiry. */
  ghost predicate Remembered(p: Policy, run: seq<Request>, i: nat, j: nat)
    requires i < j <= |run|
  {
    AcceptedAt(p, run, i) && forall k :: i < k < j && Prunes(p, run[k]) ==> run[k].guardNow < run[i].task.expires
  }

  lemma {:induction false} RememberedIsStored(p: Policy, run: seq<Request>, i: nat, j: nat)
    requires i < j <= |run| && Remembered(p, run, i, j)
    ensures var n := run[i].task.nonce; n in TableAt(p, run, j) && TableAt(p, run, j)[n] == run[i].task.expires
    decreases j
  {
    if j > i + 1 {
      RememberedIsStored(p, run, i, j - 1);
    }
  }

  lemma {:induction false} StoredIsRemembered(p: Policy, run: seq<Request>, j: nat, nonce: string) returns (i: nat)
    requires j <= |run| && nonce in TableAt(p, run, j)
    ensures i < j && run[i].task.nonce == nonce && Remembered(p, run, i, j)
    ensures TableAt(p, run, j)[nonce] == run[i].task.expires
    decreases j
  {
    if AcceptedAt(p, run, j - 1) && run[j - 1].task.nonce == nonce {
      i := j - 1;
    } else {
      i := StoredIsRemembered(p, run, j - 1, nonce);
    }
  }

  /**
   * For any clock: a request is refused as a replay exactly when it reaches the table and an accepted request with its
   * nonce has not expired by its clock reading, nor by that of any request that reached the table in between.
   */
  lemma ReplayedIff(p: Policy, run: seq<Request>, j: nat)
    requires j < |run|
    ensures VerdictOf(p, TableAt(p, run, j), run[j]) == Refused(Replayed) <==>
            && Prunes(p, run[j])
            && exists i :: 0 <= i < j && run[i].task.nonce == run[j].task.nonce && Remembered(p, run, i, j)
                           && run[j].guardNow < run[i].task.expires
  {
    var t, n := TableAt(p, run, j), run[j].task.nonce;
    if VerdictOf(p, t, run[j]) == Refused(Replayed) {
      var i := StoredIsRemembered(p, run, j, n);
    }
    if i :| 0 <= i < j && run[i].task.nonce == n && Remembered(p, run, i, j) && run[j].guardNow < run[i].task.expires {
      RememberedIsStored(p, run, i, j);
    }
  }

  /** No request strictly between `i` and `j` with the nonce of `i` was accepted. */
  ghost predicate LastAcceptance(p: Policy, run: seq<Request>, i: nat, j: nat)
    requires i < j <= |run|
  {
    AcceptedAt(p, run, i) && forall k :: i < k < j && AcceptedAt(p, run, k) ==> run[k].task.nonce != run[i].task.nonce
  }

  /** The same, told by the latest acceptance of the nonce. */
  lemma ReplayOfLatestIff(p: Policy, run: seq<Request>, i: nat, j: nat)
    requires i < j < |run| && LastAcceptance(p, run, i, j)
    requires run[j].task.nonce == run[i].task.nonce && Prunes(p, run[j])
    ensures VerdictOf(p, TableAt(p, run, j), run[j]) == Refused(Replayed) <==>
            run[j].guardNow < run[i].task.expires
            && forall k :: i < k < j && Prunes(p, run[k]) ==> run[k].guardNow < run[i].task.expires
  {
    var t, n := TableAt(p, run, j), run[j].task.nonce;
    if VerdictOf(p, t, run[j]) == Refused(Replayed) {
      var h := StoredIsRemembered(p, run, j, n);
      if h < i {
        assert Remembered(p, run, h, i);
        RememberedIsStored(p, run, h, i);
      }
    }
    if Remembered(p, run, i, j) {
      RememberedIsStored(p, run, i, j);
    }
  }

  /** For any clock: an envelope accepted twice means a clock reading past its expiry, and then one before it. */
  lemma AcceptedTwiceMeansClockWentBack(p: Policy, run: seq<Request>, i: nat, j: nat) returns (k: nat)
    requires i < j < |run| && AcceptedAt(p, run, i) && AcceptedAt(p, run, j) && run[i].task == run[j].task
    ensures i < k < j && Prunes(p, run[k])
    ensures run[j].guardNow < run[i].task.expires <= run[k].guardNow
  {
    if Remembered(p, run, i, j) {
      RememberedIsStored(p, run, i, j);
      assert false;
    }
    k :| i < k < j && Prunes(p, run[k]) && run[i].task.expires <= run[k].guardNow;
  }

  /**
   * For any clock: an envelope that reaches the table again is accepted again exactly when a request in between that
   * reached the table read a clock past its expiry, and the guard has room.
   */
  lemma AcceptedTwiceIff(p: Policy, run: seq<Request>, i: nat, j: nat)
    requires i < j < |run| && LastAcceptance(p, run, i, j) && run[j].task == run[i].task && Prunes(p, run[j])
    ensures AcceptedAt(p, run, j) <==>
            && (exists k :: i < k < j && Prunes(p, run[k]) && run[i].task.expires <= run[k].guardNow)
            && |Live(TableAt(p, run, j), run[j].guardNow)| < p.maxEntries
  {
    ReplayOfLatestIff(p, run, i, j);
    hide LastAcceptance, TableAt, Live;
  }

  /** Two accepted envelopes that share a nonce: the first had expired when the second was accepted. */
  lemma SharedNonceMeansExpired(p: Policy, run: seq<Request>, i: nat, j: nat)
    requires ClockAdvances(run)
    requires i < j < |run| && AcceptedAt(p, run, i) && AcceptedAt(p, run, j)
    requires run[i].task.nonce == run[j].task.nonce
    ensures run[i].task.expires <= run[j].guardNow
  {
    if run[j].guardNow < run[i].task.expires {
      assert Remembered(p, run, i, j);
      ReplayedIff(p, run, j);
    }
  }

  /** No signed envelope is accepted twice. */
  lemma NoEnvelopeTwice(p: Policy, run: seq<Request>, i: nat, j: nat)
    requires ClockAdvances(run)
    requires i < j < |run| && AcceptedAt(p, run, i) && AcceptedAt(p, run, j)
    ensures run[i].task != run[j].task
  {
    if run[i].task == run[j].task {
      var k := AcceptedTwiceMeansClockWentBack(p, run, i, j);
    }
  }

  /** Every stored nonce comes from an accepted request and expires within lifetime plus skew of it. */
  lemma {:induction false} StoredNonceOrigin(p: Policy, run: seq<Request>, j: nat, nonce: string) returns (i: nat)
    requires ClockAdvances(run)
    requires j <= |run| && nonce in TableAt(p, run, j)
    ensures i < j && AcceptedAt(p, run, i) && run[i].task.nonce == nonce
    ensures TableAt(p, run, j)[nonce] == run[i].task.expires
    ensures run[i].task.expires <= run[i].guardNow + (p.maxLifetimeSeconds + p.maxSkewSeconds) * MICROSECONDS
    decreases j
  {
    var r := run[j - 1];
    if AcceptedAt(p, run, j - 1) && r.task.nonce == nonce {
      i := j - 1;
      assert run[i].now <= run[i].guardNow;
    } else {
      i := StoredNonceOrigin(p, run, j - 1, nonce);
    }
  }

  /**
   Capacity exhaustion cannot outlast a quiet period: if every acceptance so far
   lies at least lifetime plus skew back, the guard has room.
   */
  lemma ExhaustionIsTemporary(p: Policy, run: seq<Request>, j: nat)
    requires ClockAdvances(run) && p.maxEntries >= 1 && j < |run|
    requires forall i :: 0 <= i < j && AcceptedAt(p, run, i) ==>
               run[i].guardNow + (p.maxLifetimeSeconds + p.maxSkewSeconds) * MICROSECONDS <= run[j].guardNow
    ensures VerdictOf(p, TableAt(p, run, j), run[j]) != Refused(Exhausted)
  {
    var t := TableAt(p, run, j);
    var live := Live(t, run[j].guardNow);
    if n :| n in live {
      var i := StoredNonceOrigin(p, run, j, n);
      assert false;
    }
    assert live == map[];
  }

  // ----- The same over the database -----

  function DatabaseVerdict(p: Policy, hmac: string -> string, rows: Rows, r: Request): Verdict {
    match Precheck(p, r)
    case Some(v) => v
    case None => Conclude(SqliteAnswer(rows, p.maxEntries, hmac, MarkOf(r)))
  }

  function RowsAt(p: Policy, hmac: string -> string, run: seq<Request>, i: nat): Rows
    requires i <= |run|
  {
    if i == 0 then map[]
    else
      var rows := RowsAt(p, hmac, run, i - 1);
      if Precheck(p, run[i - 1]).Some? then rows else SqliteAfter(rows, p.maxEntries, hmac, MarkOf(run[i - 1]))
  }

  predicate DatabaseAcceptedAt(p: Policy, hmac: string -> string, run: seq<Request>, i: nat)
    requires i < |run|
  {
    DatabaseVerdict(p, hmac, RowsAt(p, hmac, run, i), run[i]) == Verified
  }

  /** As `Remembered`, but only accepted requests have committed their pruning. */
  ghost predicate Kept(p: Policy, hmac: string -> string, run: seq<Request>, i: nat, j: nat)
    requires i < j <= |run|
  {
    && DatabaseAcceptedAt(p, hmac, run, i)
    && forall k :: i < k < j && DatabaseAcceptedAt(p, hmac, run, k) ==> run[k].guardNow < run[i].task.expires
  }

  /** What one request does to the rows. */
  lemma RowsOnwards(p: Policy, hmac: string -> string, run: seq<Request>, j: nat)
    requires 0 < j <= |run|
    ensures var r, rows := run[j - 1], RowsAt(p, hmac, run, j - 1);
            RowsAt(p, hmac, run, j) ==
            if DatabaseAcceptedAt(p, hmac, run, j - 1)
            then Purge(rows, r.guardNow)[hmac(r.task.nonce) := Row(r.task.expires, r.guardNow)]
            else rows
    ensures var r, rows := run[j - 1], RowsAt(p, hmac, run, j - 1);
            DatabaseAcceptedAt(p, hmac, run, j - 1) ==>
              Prunes(p, r) && (hmac(r.task.nonce) in rows ==> rows[hmac(r.task.nonce)].expires <= r.guardNow)
  {
    hide Purge;
  }

  lemma {:induction false} KeptIsStored(p: Policy, hmac: string -> string, run: seq<Request>, i: nat, j: nat)
    requires i < j <= |run| && Kept(p, hmac, run, i, j)
    ensures var d, rows := hmac(run[i].task.nonce), RowsAt(p, hmac, run, j);
            d in rows && rows[d].expires == run[i].task.expires
    decreases j
  {
    hide RowsAt, DatabaseAcceptedAt;
    RowsOnwards(p, hmac, run, j);
    if j > i + 1 {
      KeptIsStored(p, hmac, run, i, j - 1);
    }
  }

  lemma {:induction false} StoredIsKept(p: Policy, hmac: string -> string, run: seq<Request>, j: nat, d: string) returns (i: nat)
    requires j <= |run| && d in RowsAt(p, hmac, run, j)
    ensures i < j && hmac(run[i].task.nonce) == d && Kept(p, hmac, run, i, j)
    ensures RowsAt(p, hmac, run, j)[d].expires == run[i].task.expires
    decreases j
  {
    assert j > 0;
    RowsOnwards(p, hmac, run, j);
    if DatabaseAcceptedAt(p, hmac, run, j - 1) && hmac(run[j - 1].task.nonce) == d {
      hide RowsAt, DatabaseAcceptedAt;
      i := j - 1;
    } else {
      hide RowsAt, DatabaseAcceptedAt, Kept;
      i := StoredIsKept(p, hmac, run, j - 1, d);
      KeptOnwards(p, hmac, run, i, j);
    }
  }

  lemma KeptOnwards(p: Policy, hmac: string -> string, run: seq<Request>, i: nat, j: nat)
    requires i < j - 1 < |run| && Kept(p, hmac, run, i, j - 1)
    requires DatabaseAcceptedAt(p, hmac, run, j - 1) ==> run[j - 1].guardNow < run[i].task.expires
    ensures Kept(p, hmac, run, i, j)
  {
    hide DatabaseAcceptedAt;
  }

  /**
   * For any clock: the database refuses a request as a replay exactly when it reaches the table and an accepted request
   * with its fingerprint has not expired by its clock reading, nor by that of any request accepted in between.
   */
  lemma DatabaseReplayedIff(p: Policy, hmac: string -> string, run: seq<Request>, j: nat)
    requires j < |run|
    ensures DatabaseVerdict(p, hmac, RowsAt(p, hmac, run, j), run[j]) == Refused(Replayed) <==>
            && Prunes(p, run[j])
            && exists i :: 0 <= i < j && hmac(run[i].task.nonce) == hmac(run[j].task.nonce) && Kept(p, hmac, run, i, j)
                           && run[j].guardNow < run[i].task.expires
  {
    var rows, d := RowsAt(p, hmac, run, j), hmac(run[j].task.nonce);
    if DatabaseVerdict(p, hmac, rows, run[j]) == Refused(Replayed) {
      var i := StoredIsKept(p, hmac, run, j, d);
    }
    if i :| 0 <= i < j && hmac(run[i].task.nonce) == d && Kept(p, hmac, run, i, j) && run[j].guardNow < run[i].task.expires {
      KeptIsStored(p, hmac, run, i, j);
    }
  }

  /** For any clock: the database accepts an envelope twice only if it accepted a request in between past its expiry. */
  lemma DatabaseAcceptedTwice(p: Policy, hmac: string -> string, run: seq<Request>, i: nat, j: nat) returns (k: nat)
    requires i < j < |run| && run[i].task == run[j].task
    requires DatabaseAcceptedAt(p, hmac, run, i) && DatabaseAcceptedAt(p, hmac, run, j)
    ensures i < k < j && DatabaseAcceptedAt(p, hmac, run, k)
    ensures run[j].guardNow < run[i].task.expires <= run[k].guardNow
  {
    AcceptedPrunes(p, hmac, run, j);
    if Kept(p, hmac, run, i, j) {
      NotKeptWhenAccepted(p, hmac, run, i, j);
    }
    hide DatabaseAcceptedAt;
    k :| i < k < j && DatabaseAcceptedAt(p, hmac, run, k) && run[i].task.expires <= run[k].guardNow;
  }

  /** The latest acceptance of the fingerprint by the database. */
  ghost predicate LastDatabaseAcceptance(p: Policy, hmac: string -> string, run: seq<Request>, i: nat, j: nat)
    requires i < j <= |run|
  {
    && DatabaseAcceptedAt(p, hmac, run, i)
    && forall k :: i < k < j && DatabaseAcceptedAt(p, hmac, run, k) ==> hmac(run[k].task.nonce) != hmac(run[i].task.nonce)
  }

  lemma DatabaseReplayOfLatestIff(p: Policy, hmac: string -> string, run: seq<Request>, i: nat, j: nat)
    requires i < j < |run| && LastDatabaseAcceptance(p, hmac, run, i, j)
    requires run[j].task.nonce == run[i].task.nonce && Prunes(p, run[j])
    ensures DatabaseVerdict(p, hmac, RowsAt(p, hmac, run, j), run[j]) == Refused(Replayed) <==>
            run[j].guardNow < run[i].task.expires
            && forall k :: i < k < j && DatabaseAcceptedAt(p, hmac, run, k) ==> run[k].guardNow < run[i].task.expires
  {
    hide DatabaseVerdict, Prunes, DatabaseAcceptedAt, RowsAt;
    var d := hmac(run[i].task.nonce);
    DatabaseReplayedIff(p, hmac, run, j);
    if DatabaseVerdict(p, hmac, RowsAt(p, hmac, run, j), run[j]) == Refused(Replayed) {
      var h :| 0 <= h < j && hmac(run[h].task.nonce) == d && Kept(p, hmac, run, h, j) && run[j].guardNow < run[h].task.expires;
      assert h <= i;
      if h < i {
        assert run[i].guardNow < run[h].task.expires && Kept(p, hmac, run, h, i);
        NotKeptWhenAccepted(p, hmac, run, h, i);
      }
    }
    assert Kept(p, hmac, run, i, j) <==>
           forall k :: i < k < j && DatabaseAcceptedAt(p, hmac, run, k) ==> run[k].guardNow < run[i].task.expires;
  }

  lemma NotKeptWhenAccepted(p: Policy, hmac: string -> string, run: seq<Request>, h: nat, i: nat)
    requires h < i < |run| && DatabaseAcceptedAt(p, hmac, run, i)
    requires hmac(run[h].task.nonce) == hmac(run[i].task.nonce) && Kept(p, hmac, run, h, i)
    ensures run[h].task.expires <= run[i].guardNow
  {
    hide Kept, RowsAt;
    KeptIsStored(p, hmac, run, h, i);
  }

  /** As for memory, but only the requests accepted in between count. */
  lemma DatabaseAcceptedTwiceIff(p: Policy, hmac: string -> string, run: seq<Request>, i: nat, j: nat)
    requires i < j < |run| && LastDatabaseAcceptance(p, hmac, run, i, j) && run[j].task == run[i].task && Prunes(p, run[j])
    ensures DatabaseAcceptedAt(p, hmac, run, j) <==>
            && (exists k :: i < k < j && DatabaseAcceptedAt(p, hmac, run, k) && run[i].task.expires <= run[k].guardNow)
            && |Live(Expiries(RowsAt(p, hmac, run, j)), run[j].guardNow)| < p.maxEntries
  {
    hide LastDatabaseAcceptance, RowsAt, Live, Expiries, Kept;
    DatabaseReplayOfLatestIff(p, hmac, run, i, j);
    assert DatabaseAcceptedAt(p, hmac, run, j) <==>
           && DatabaseVerdict(p, hmac, RowsAt(p, hmac, run, j), run[j]) != Refused(Replayed)
           && |Live(Expiries(RowsAt(p, hmac, run, j)), run[j].guardNow)| < p.maxEntries;
    hide DatabaseAcceptedAt, DatabaseVerdict;
  }

  /**
   * For any clock, on a nonce that both accepted last at `i`: one guard calls the request a replay and the other does
   * not exactly when the nonce has not expired by its clock reading, nor by that of any request accepted in between, but
   * by that of a refused one. It is then the database that refuses.
   */
  lemma GuardsDisagreeIff(p: Policy, hmac: string -> string, run: seq<Request>, i: nat, j: nat)
    requires i < j < |run| && LastAcceptance(p, run, i, j) && LastDatabaseAcceptance(p, hmac, run, i, j)
    requires run[j].task.nonce == run[i].task.nonce && Prunes(p, run[j])
    ensures var memory := VerdictOf(p, TableAt(p, run, j), run[j]);
            var database := DatabaseVerdict(p, hmac, RowsAt(p, hmac, run, j), run[j]);
            && (memory == Refused(Replayed) ==> database == Refused(Replayed))
            && ((memory == Refused(Replayed)) != (database == Refused(Replayed)) <==>
                  && run[j].guardNow < run[i].task.expires
                  && (forall k :: i < k < j && DatabaseAcceptedAt(p, hmac, run, k) ==> run[k].guardNow < run[i].task.expires)
                  && exists k :: i < k < j && Prunes(p, run[k]) && run[i].task.expires <= run[k].guardNow)
  {
    hide VerdictOf, DatabaseVerdict, LastAcceptance, LastDatabaseAcceptance;
    ReplayOfLatestIff(p, run, i, j);
    DatabaseReplayOfLatestIff(p, hmac, run, i, j);
    forall k | i < k < j && DatabaseAcceptedAt(p, hmac, run, k)
      ensures Prunes(p, run[k])
    {
      AcceptedPrunes(p, hmac, run, k);
    }
    hide DatabaseAcceptedAt, Prunes;
  }

  lemma AcceptedPrunes(p: Policy, hmac: string -> string, run: seq<Request>, k: nat)
    requires k < |run| && DatabaseAcceptedAt(p, hmac, run, k)
    ensures Prunes(p, run[k])
  {
  }

  lemma {:induction false} TablesAgree(p: Policy, hmac: string -> string, run: seq<Request>, i: nat, nonces: set<string>)
    requires ClockAdvances(run) && i < |run|
    requires CollisionFree(hmac, nonces) && forall k :: 0 <= k < |run| ==> run[k].task.nonce in nonces
    ensures TableAt(p, run, i).Keys <= nonces
    ensures Agree(TableAt(p, run, i), Expiries(RowsAt(p, hmac, run, i)), hmac, run[i].guardNow)
  {
    if i > 0 {
      var r := run[i - 1];
      TablesAgree(p, hmac, run, i - 1, nonces);
      var t, rows := TableAt(p, run, i - 1), RowsAt(p, hmac, run, i - 1);
      FewerNonces(hmac, nonces, t.Keys + {r.task.nonce});
      CallsAgree(t, rows, p.maxEntries, hmac, MarkOf(r), r.guardNow);
      assert r.guardNow <= run[i].guardNow;
      AgreeOnwards(TableAt(p, run, i), Expiries(RowsAt(p, hmac, run, i)), hmac, r.guardNow, run[i].guardNow);
    }
  }

  /** Verification over the database gives every request of a run the verdict that it gets in memory. */
  lemma VerdictsAgree(p: Policy, hmac: string -> string, run: seq<Request>, i: nat, nonces: set<string>)
    requires ClockAdvances(run) && i < |run|
    requires CollisionFree(hmac, nonces) && forall k :: 0 <= k < |run| ==> run[k].task.nonce in nonces
    ensures DatabaseVerdict(p, hmac, RowsAt(p, hmac, run, i), run[i]) == VerdictOf(p, TableAt(p, run, i), run[i])
  {
    var r, t, rows := run[i], TableAt(p, run, i), RowsAt(p, hmac, run, i);
    TablesAgree(p, hmac, run, i, nonces);
    FewerNonces(hmac, nonces, t.Keys + {r.task.nonce});
    CallsAgree(t, rows, p.maxEntries, hmac, MarkOf(r), r.guardNow);
  }
}
