/**
 The two replay guards of `auth.py`: the in-memory `ReplayGuard`, which prunes
 expired nonces even when it then rejects, and the `SQLiteReplayGuard`, whose
 rejection rolls its pruning back.  Times are integer microseconds.
 */
module ReplayGuard {

  datatype Answer = Accepted | Expired | Replayed | Exhausted

  /** One call of `check_and_mark` and the clock reading it made. */
  datatype Mark = Mark(now: int, nonce: string, expires: int)

  /** Nonces (or their fingerprints) with their expiry. */
  type Table = map<string, int>

  function Live(t: Table, now: int): Table {
    map n | n in t && t[n] > now :: t[n]
  }

  /** What both guards decide once the table is pruned. */
  function Judge(live: Table, max: nat, nonce: string): Answer {
    if nonce in live then Replayed
    else if |live| >= max then Exhausted
    else Accepted
  }

  // ----- In memory -----

  function MemoryAnswer(t: Table, max: nat, m: Mark): Answer {
    if m.expires <= m.now then Expired else Judge(Live(t, m.now), max, m.nonce)
  }

  function MemoryAfter(t: Table, max: nat, m: Mark): Table {
    if m.expires <= m.now then t
    else if MemoryAnswer(t, max, m) == Accepted then Live(t, m.now)[m.nonce := m.expires]
    else Live(t, m.now)
  }

  class MemoryGuard {
    const maxEntries: nat
    var seen: Table

    constructor (maxEntries: nat)
      requires maxEntries >= 1
      ensures this.maxEntries == maxEntries && seen == map[]
    {
      this.maxEntries := maxEntries;
      seen := map[];
    }

    method CheckAndMark(m: Mark) returns (answer: Answer)
      modifies this
      ensures answer == MemoryAnswer(old(seen), maxEntries, m)
      ensures seen == MemoryAfter(old(seen), maxEntries, m)
    {
      if m.expires <= m.now {
        return Expired;
      }
      var expired := set n | n in seen && seen[n] <= m.now;
      while expired != {}
        invariant forall n :: n in expired ==> n in seen && seen[n] <= m.now
        invariant forall n :: n in seen ==> n in old(seen) && seen[n] == old(seen)[n]
        invariant forall n :: n in old(seen) && n !in seen ==> old(seen)[n] <= m.now
        invariant forall n :: n in seen && seen[n] <= m.now ==> n in expired
        decreases expired
      {
        var n :| n in expired;
        seen := seen - {n};
        expired := expired - {n};
      }
      assert seen == Live(old(seen), m.now);
      if m.nonce in seen {
        return Replayed;
      }
      if |seen| >= maxEntries {
        return Exhausted;
      }
      seen := seen[m.nonce := m.expires];
      answer := Accepted;
    }
  }

  // ----- SQLite -----

  /** A row of `seen_nonces`, keyed by the nonce's fingerprint. */
  datatype Row = Row(expires: int, created: int)

  type Rows = map<string, Row>

  function Expiries(rows: Rows): Table {
    map d | d in rows :: rows[d].expires
  }

  function Purge(rows: Rows, now: int): Rows {
    map d | d in rows && rows[d].expires > now :: rows[d]
  }

  function SqliteAnswer(rows: Rows, max: nat, hmac: string -> string, m: Mark): Answer {
    if m.expires <= m.now then Expired else Judge(Live(Expiries(rows), m.now), max, hmac(m.nonce))
  }

  function SqliteAfter(rows: Rows, max: nat, hmac: string -> string, m: Mark): Rows {
    if SqliteAnswer(rows, max, hmac, m) == Accepted then Purge(rows, m.now)[hmac(m.nonce) := Row(m.expires, m.now)]
    else rows
  }

  class SqliteGuard {
    const maxEntries: nat
    const hmac: string -> string
    var rows: Rows

    constructor (maxEntries: nat, hmac: string -> string)
      requires maxEntries >= 1
      ensures this.maxEntries == maxEntries && this.hmac == hmac && rows == map[]
    {
      this.maxEntries, this.hmac := maxEntries, hmac;
      rows := map[];
    }

    /** One transaction: delete, look, count, insert and commit, or roll back. */
    method CheckAndMark(m: Mark) returns (answer: Answer)
      modifies this
      ensures answer == SqliteAnswer(old(rows), maxEntries, hmac, m)
      ensures rows == SqliteAfter(old(rows), maxEntries, hmac, m)
    {
      if m.expires <= m.now {
        return Expired;
      }
      var fingerprint := hmac(m.nonce);
      var before := rows;
      rows := Purge(rows, m.now);
      PurgeExpiries(before, m.now);
      if fingerprint in rows {
        rows := before;
        return Replayed;
      }
      if |rows| >= maxEntries {
        rows := before;
        return Exhausted;
      }
      rows := rows[fingerprint := Row(m.expires, m.now)];
      answer := Accepted;
    }
  }

  lemma PurgeExpiries(rows: Rows, now: int)
    ensures Expiries(Purge(rows, now)) == Live(Expiries(rows), now)
    ensures |Purge(rows, now)| == |Live(Expiries(rows), now)|
  {
    var live := Live(Expiries(rows), now);
    assert Purge(rows, now).Keys == live.Keys;
  }

  // ----- Observational equality -----

  function MemoryRun(t: Table, max: nat, run: seq<Mark>): seq<Answer>
    decreases |run|
  {
    if run == [] then [] else [MemoryAnswer(t, max, run[0])] + MemoryRun(MemoryAfter(t, max, run[0]), max, run[1..])
  }

  function SqliteRun(rows: Rows, max: nat, hmac: string -> string, run: seq<Mark>): seq<Answer>
    decreases |run|
  {
    if run == [] then []
    else [SqliteAnswer(rows, max, hmac, run[0])] + SqliteRun(SqliteAfter(rows, max, hmac, run[0]), max, hmac, run[1..])
  }

  /** Clock readings never go back, from `now` on. */
  ghost predicate Monotonic(run: seq<Mark>, now: int) {
    run != [] ==> now <= run[0].now && Monotonic(run[1..], run[0].now)
  }

  ghost predicate CollisionFree(hmac: string -> string, nonces: set<string>) {
    forall a, b :: a in nonces && b in nonces && hmac(a) == hmac(b) ==> a == b
  }

  /**
   Memory and database agree on everything that has not expired by `now`: the
   database may hold more, but only rows that no later call will see.
   */
  ghost predicate Agree(t: Table, rows: Table, hmac: string -> string, now: int) {
    && (forall n :: n in t && t[n] > now ==> hmac(n) in rows && rows[hmac(n)] == t[n])
    && (forall d :: d in rows && rows[d] > now ==> exists n :: n in t && t[n] == rows[d] && hmac(n) == d)
  }

  lemma AgreeLater(t: Table, rows: Table, hmac: string -> string, now: int, later: int)
    requires Agree(t, rows, hmac, now) && now <= later
    ensures Agree(Live(t, later), Live(rows, later), hmac, later)
  {
    forall d | d in Live(rows, later) ensures exists n :: n in Live(t, later) && Live(t, later)[n] == rows[d] && hmac(n) == d {
      var n :| n in t && t[n] == rows[d] && hmac(n) == d;
      assert n in Live(t, later);
    }
  }

  /** Fingerprinting maps a set of nonces one to one. */
  lemma {:induction false} SameSize(nonces: set<string>, fingerprints: set<string>, hmac: string -> string)
    requires CollisionFree(hmac, nonces)
    requires forall n :: n in nonces ==> hmac(n) in fingerprints
    requires forall d :: d in fingerprints ==> exists n :: n in nonces && hmac(n) == d
    ensures |nonces| == |fingerprints|
    decreases |nonces|
  {
    if nonces == {} {
      assert fingerprints == {};
    } else {
      var n :| n in nonces;
      SameSize(nonces - {n}, fingerprints - {hmac(n)}, hmac);
    }
  }

  lemma PrunedTablesJudgeAlike(t: Table, rows: Table, hmac: string -> string, now: int, nonce: string, max: nat)
    requires Agree(t, rows, hmac, now)
    requires CollisionFree(hmac, t.Keys + {nonce})
    ensures Judge(Live(t, now), max, nonce) == Judge(Live(rows, now), max, hmac(nonce))
  {
    var a, b := Live(t, now), Live(rows, now);
    AgreeLater(t, rows, hmac, now, now);
    assert forall d :: d in b.Keys ==> exists n :: n in a.Keys && hmac(n) == d;
    SameSize(a.Keys, b.Keys, hmac);
    if hmac(nonce) in b {
      var n :| n in a && hmac(n) == hmac(nonce);
      assert n == nonce;
    }
  }

  lemma AgreeOnwards(t: Table, rows: Table, hmac: string -> string, now: int, later: int)
    requires Agree(t, rows, hmac, now) && now <= later
    ensures Agree(t, rows, hmac, later)
  {
  }

  lemma FewerNonces(hmac: string -> string, nonces: set<string>, some: set<string>)
    requires CollisionFree(hmac, nonces) && some <= nonces
    ensures CollisionFree(hmac, some)
  {
  }

  lemma AgreePruned(t: Table, rows: Table, hmac: string -> string, now: int)
    requires Agree(t, rows, hmac, now)
    ensures Agree(Live(t, now), rows, hmac, now)
    ensures Agree(Live(t, now), Live(rows, now), hmac, now)
  {
    forall d | d in rows && rows[d] > now ensures exists n :: n in Live(t, now) && Live(t, now)[n] == rows[d] && hmac(n) == d {
      var n :| n in t && t[n] == rows[d] && hmac(n) == d;
      assert n in Live(t, now);
    }
    AgreeLater(t, rows, hmac, now, now);
  }

  lemma InsertExpiry(rows: Rows, hmac: string -> string, m: Mark)
    ensures Expiries(Purge(rows, m.now)[hmac(m.nonce) := Row(m.expires, m.now)]) ==
            Live(Expiries(rows), m.now)[hmac(m.nonce) := m.expires]
  {
    PurgeExpiries(rows, m.now);
  }

  /** One call: the same answer, and agreement from that call's clock reading on. */
  lemma CallsAgree(t: Table, rows: Rows, max: nat, hmac: string -> string, m: Mark, now: int)
    requires Agree(t, Expiries(rows), hmac, now) && now <= m.now
    requires CollisionFree(hmac, t.Keys + {m.nonce})
    ensures MemoryAnswer(t, max, m) == SqliteAnswer(rows, max, hmac, m)
    ensures Agree(MemoryAfter(t, max, m), Expiries(SqliteAfter(rows, max, hmac, m)), hmac, m.now)
  {
    hide Agree, CollisionFree, Expiries, Purge;
    AgreeOnwards(t, Expiries(rows), hmac, now, m.now);
    FewerNonces(hmac, t.Keys + {m.nonce}, Live(t, m.now).Keys + {m.nonce});
    hide Live;
    PrunedTablesJudgeAlike(t, Expiries(rows), hmac, m.now, m.nonce, max);
    AgreePruned(t, Expiries(rows), hmac, m.now);
    if MemoryAnswer(t, max, m) == Accepted {
      InsertExpiry(rows, hmac, m);
      AgreeInsert(Live(t, m.now), Live(Expiries(rows), m.now), hmac, m);
    }
  }

  lemma AgreeInsert(a: Table, b: Table, hmac: string -> string, m: Mark)
    requires Agree(a, b, hmac, m.now)
    requires CollisionFree(hmac, a.Keys + {m.nonce})
    requires m.nonce !in a
    ensures Agree(a[m.nonce := m.expires], b[hmac(m.nonce) := m.expires], hmac, m.now)
  {
    var a', b' := a[m.nonce := m.expires], b[hmac(m.nonce) := m.expires];
    forall d | d in b' && b'[d] > m.now ensures exists n :: n in a' && a'[n] == b'[d] && hmac(n) == d {
      if d == hmac(m.nonce) {
        assert m.nonce in a';
      } else {
        var n :| n in a && a[n] == b[d] && hmac(n) == d;
        assert n in a' && n != m.nonce;
      }
    }
  }

  ghost function Nonces(run: seq<Mark>): set<string> {
    set m | m in run :: m.nonce
  }

  /** The guards answer every call of every run with a non-decreasing clock alike. */
  lemma {:induction false} GuardsAgree(
    t: Table, rows: Rows, max: nat, hmac: string -> string, run: seq<Mark>, now: int, nonces: set<string>)
    requires Agree(t, Expiries(rows), hmac, now) && Monotonic(run, now)
    requires CollisionFree(hmac, nonces) && t.Keys <= nonces && Nonces(run) <= nonces
    ensures MemoryRun(t, max, run) == SqliteRun(rows, max, hmac, run)
    decreases |run|
  {
    if run != [] {
      var m := run[0];
      assert m in run && m.nonce in Nonces(run);
      CallsAgree(t, rows, max, hmac, m, now);
      FewerToCome(run, nonces);
      GuardsAgree(MemoryAfter(t, max, m), SqliteAfter(rows, max, hmac, m), max, hmac, run[1..], m.now, nonces);
    }
  }

  /** Two fresh guards are observationally equal. */
  lemma FreshGuardsAgree(max: nat, hmac: string -> string, run: seq<Mark>, start: int)
    requires Monotonic(run, start) && CollisionFree(hmac, Nonces(run))
    ensures MemoryRun(map[], max, run) == SqliteRun(map[], max, hmac, run)
  {
    GuardsAgree(map[], map[], max, hmac, run, start, Nonces(run));
  }

  // ----- Any clock -----

  /** The database holds at least what memory holds. */
  ghost predicate Covers(t: Table, rows: Table, hmac: string -> string) {
    forall n :: n in t ==> hmac(n) in rows && rows[hmac(n)] == t[n]
  }

  ghost function Fingerprints(nonces: set<string>, hmac: string -> string): set<string> {
    set n | n in nonces :: hmac(n)
  }

  /** Rows that memory has pruned and the database has not, and that the clock now makes count again. */
  ghost function Stale(t: Table, rows: Table, hmac: string -> string, now: int): set<string> {
    Live(rows, now).Keys - Fingerprints(t.Keys, hmac)
  }

  /** The call asks for a stale nonce, or stale rows are what fills the database. */
  ghost predicate Parts(t: Table, rows: Table, max: nat, hmac: string -> string, m: Mark) {
    && m.now < m.expires
    && var stale, live := Stale(t, rows, hmac, m.now), Live(t, m.now);
       hmac(m.nonce) in stale || (m.nonce !in live && |live| < max <= |live| + |stale|)
  }

  lemma LiveFingerprints(t: Table, rows: Table, hmac: string -> string, now: int)
    requires Covers(t, rows, hmac)
    ensures forall n :: n in t ==> (n in Live(t, now) <==> hmac(n) in Live(rows, now))
    ensures Live(rows, now).Keys == Fingerprints(Live(t, now).Keys, hmac) + Stale(t, rows, hmac, now)
    ensures Fingerprints(Live(t, now).Keys, hmac) !! Stale(t, rows, hmac, now)
  {
    var known := Fingerprints(Live(t, now).Keys, hmac);
    forall d | d in Live(rows, now).Keys && d in Fingerprints(t.Keys, hmac)
      ensures d in known
    {
      var n :| n in t && hmac(n) == d;
      assert n in Live(t, now).Keys;
    }
    assert known <= Fingerprints(t.Keys, hmac);
  }

  lemma LiveSplits(t: Table, rows: Table, hmac: string -> string, now: int)
    requires Covers(t, rows, hmac) && CollisionFree(hmac, t.Keys)
    ensures |Live(rows, now)| == |Live(t, now)| + |Stale(t, rows, hmac, now)|
    ensures forall n :: n in t ==> (n in Live(t, now) <==> hmac(n) in Live(rows, now))
  {
    LiveFingerprints(t, rows, hmac, now);
    var live, stale := Live(t, now).Keys, Stale(t, rows, hmac, now);
    FewerNonces(hmac, t.Keys, live);
    hide Live, Stale, Covers, CollisionFree;
    var known := Fingerprints(live, hmac);
    SameSize(live, known, hmac);
    assert |Live(rows, now).Keys| == |known| + |stale|;
  }

  /** For any clock: one call is answered differently exactly when it parts the guards. */
  lemma AnswersDifferIff(t: Table, rows: Rows, max: nat, hmac: string -> string, m: Mark)
    requires Covers(t, Expiries(rows), hmac) && CollisionFree(hmac, t.Keys + {m.nonce})
    ensures MemoryAnswer(t, max, m) != SqliteAnswer(rows, max, hmac, m) <==> Parts(t, Expiries(rows), max, hmac, m)
  {
    hide Live, Stale, Covers, CollisionFree, Expiries;
    FewerNonces(hmac, t.Keys + {m.nonce}, t.Keys);
    LiveSplits(t, Expiries(rows), hmac, m.now);
    NonceSplits(t, Expiries(rows), hmac, m.now, m.nonce);
  }

  lemma NonceSplits(t: Table, rows: Table, hmac: string -> string, now: int, nonce: string)
    requires Covers(t, rows, hmac) && CollisionFree(hmac, t.Keys + {nonce})
    ensures hmac(nonce) in Live(rows, now) <==> nonce in Live(t, now) || hmac(nonce) in Stale(t, rows, hmac, now)
    ensures !(nonce in Live(t, now) && hmac(nonce) in Stale(t, rows, hmac, now))
  {
    if hmac(nonce) in Fingerprints(t.Keys, hmac) {
      var n :| n in t && hmac(n) == hmac(nonce);
      assert n == nonce;
    }
  }

  lemma CoversOnwards(t: Table, rows: Rows, max: nat, hmac: string -> string, m: Mark)
    requires Covers(t, Expiries(rows), hmac) && CollisionFree(hmac, t.Keys + {m.nonce})
    requires MemoryAnswer(t, max, m) == SqliteAnswer(rows, max, hmac, m)
    ensures Covers(MemoryAfter(t, max, m), Expiries(SqliteAfter(rows, max, hmac, m)), hmac)
  {
    if MemoryAnswer(t, max, m) == Accepted {
      InsertExpiry(rows, hmac, m);
    }
  }

  /** No call of the run parts the guards. */
  ghost predicate NeverParts(t: Table, rows: Rows, max: nat, hmac: string -> string, run: seq<Mark>)
    decreases |run|
  {
    run != [] ==>
      && !Parts(t, Expiries(rows), max, hmac, run[0])
      && NeverParts(MemoryAfter(t, max, run[0]), SqliteAfter(rows, max, hmac, run[0]), max, hmac, run[1..])
  }

  /** For any clock: the guards answer a whole run alike exactly when no call of it meets stale rows. */
  lemma {:induction false} GuardsAgreeIff(t: Table, rows: Rows, max: nat, hmac: string -> string, run: seq<Mark>, nonces: set<string>)
    requires Covers(t, Expiries(rows), hmac)
    requires CollisionFree(hmac, nonces) && t.Keys <= nonces && Nonces(run) <= nonces
    ensures MemoryRun(t, max, run) == SqliteRun(rows, max, hmac, run) <==> NeverParts(t, rows, max, hmac, run)
    decreases |run|
  {
    if run != [] {
      var m, rest := run[0], run[1..];
      assert m in run && m.nonce in Nonces(run);
      FewerNonces(hmac, nonces, t.Keys + {m.nonce});
      AnswersDifferIff(t, rows, max, hmac, m);
      FewerToCome(run, nonces);
      var t', rows' := MemoryAfter(t, max, m), SqliteAfter(rows, max, hmac, m);
      var a, b := MemoryAnswer(t, max, m), SqliteAnswer(rows, max, hmac, m);
      assert MemoryRun(t, max, run) == [a] + MemoryRun(t', max, rest);
      assert SqliteRun(rows, max, hmac, run) == [b] + SqliteRun(rows', max, hmac, rest);
      HeadAndTail(a, MemoryRun(t', max, rest), b, SqliteRun(rows', max, hmac, rest));
      hide Parts, MemoryRun, SqliteRun, Covers, CollisionFree;
      if a == b {
        CoversOnwards(t, rows, max, hmac, m);
        GuardsAgreeIff(t', rows', max, hmac, rest, nonces);
      }
    }
  }

  lemma HeadAndTail(a: Answer, s: seq<Answer>, b: Answer, t: seq<Answer>)
    ensures [a] + s == [b] + t <==> a == b && s == t
  {
    if [a] + s == [b] + t {
      assert ([a] + s)[0] == ([b] + t)[0] && ([a] + s)[1..] == ([b] + t)[1..];
    }
  }

  lemma FewerToCome(run: seq<Mark>, nonces: set<string>)
    requires run != [] && Nonces(run) <= nonces
    ensures Nonces(run[1..]) <= nonces
  {
    forall n | n in Nonces(run[1..])
      ensures n in nonces
    {
      var x :| x in run[1..] && x.nonce == n;
      assert x in run;
      assert n in Nonces(run);
    }
  }

  // ----- Runs whose clock goes back -----

  /** A run whose clock goes back after a rejection that only the database rolled back. */
  const CLOCK_GOES_BACK: seq<Mark> := [Mark(0, "a", 5), Mark(0, "b", 100), Mark(6, "b", 100), Mark(1, "a", 5)]

  /** Without a monotonic clock the in-memory guard accepts the same nonce and expiry twice. */
  lemma ClockGoingBackFoolsMemory()
    ensures MemoryRun(map[], 2, CLOCK_GOES_BACK) == [Accepted, Accepted, Replayed, Accepted]
  {
    var m0, m1, m2, m3 := Mark(0, "a", 5), Mark(0, "b", 100), Mark(6, "b", 100), Mark(1, "a", 5);
    var t1, t2, t3 := map["a" := 5], map["a" := 5, "b" := 100], map["b" := 100];
    assert Live(map[], 0) == map[] && Live(t1, 0) == t1 && Live(t2, 6) == t3 && Live(t3, 1) == t3;
    assert CLOCK_GOES_BACK[1..] == [m1, m2, m3] && [m1, m2, m3][1..] == [m2, m3] && [m2, m3][1..] == [m3];
    assert MemoryRun(t3, 2, [m3]) == [Accepted];
    assert MemoryRun(t2, 2, [m2, m3]) == [Replayed, Accepted];
    assert MemoryRun(t1, 2, [m1, m2, m3]) == [Accepted, Replayed, Accepted];
  }

  lemma DatabaseStates(a: string, b: string)
    requires a != b
    ensures var r1, r2 := map[a := Row(5, 0)], map[a := Row(5, 0), b := Row(100, 0)];
            && Live(Expiries(map[]), 0) == map[] && Live(Expiries(r1), 0) == map[a := 5]
            && Live(Expiries(r2), 6) == map[b := 100] && Live(Expiries(r2), 1) == map[a := 5, b := 100]
            && Purge(map[], 0) == map[] && Purge(r1, 0) == r1
  {
  }

  /** The database, whose rejected call rolled its pruning back, refuses it: the guards are then not equal. */
  lemma ClockGoingBackDoesNotFoolDatabase(hmac: string -> string)
    requires hmac("a") != hmac("b")
    ensures SqliteRun(map[], 2, hmac, CLOCK_GOES_BACK) == [Accepted, Accepted, Replayed, Replayed]
  {
    hide Live, Expiries, Purge;
    var m1, m2, m3 := Mark(0, "b", 100), Mark(6, "b", 100), Mark(1, "a", 5);
    var a, b := hmac("a"), hmac("b");
    var r1, r2 := map[a := Row(5, 0)], map[a := Row(5, 0), b := Row(100, 0)];
    DatabaseStates(a, b);
    assert CLOCK_GOES_BACK[1..] == [m1, m2, m3] && [m1, m2, m3][1..] == [m2, m3] && [m2, m3][1..] == [m3];
    assert SqliteRun(r2, 2, hmac, [m3]) == [Replayed];
    assert SqliteRun(r2, 2, hmac, [m2, m3]) == [Replayed, Replayed];
    assert SqliteRun(r1, 2, hmac, [m1, m2, m3]) == [Accepted, Replayed, Replayed];
  }

  /** An accepted call commits its pruning, and then the database is fooled as well. */
  lemma ClockGoingBackFoolsDatabase(hmac: string -> string)
    requires hmac("a") != hmac("b")
    ensures SqliteRun(map[], 2, hmac, [Mark(0, "a", 5), Mark(6, "b", 100), Mark(1, "a", 5)]) == [Accepted, Accepted, Accepted]
  {
    hide Live, Expiries, Purge;
    var m0, m1, m2 := Mark(0, "a", 5), Mark(6, "b", 100), Mark(1, "a", 5);
    var a, b := hmac("a"), hmac("b");
    var r1, r2 := map[a := Row(5, 0)], map[b := Row(100, 6)];
    PrunedStates(a, b);
    assert [m0, m1, m2][1..] == [m1, m2] && [m1, m2][1..] == [m2];
    assert SqliteRun(r2, 2, hmac, [m2]) == [Accepted];
    assert SqliteRun(r1, 2, hmac, [m1, m2]) == [Accepted, Accepted];
  }

  lemma PrunedStates(a: string, b: string)
    requires a != b
    ensures var r1, r2 := map[a := Row(5, 0)], map[b := Row(100, 6)];
            && Live(Expiries(map[]), 0) == map[] && Live(Expiries(r1), 6) == map[] && Live(Expiries(r2), 1) == map[b := 100]
            && Purge(map[], 0) == map[] && Purge(r1, 6) == map[]
  {
  }
}
