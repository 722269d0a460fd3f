/**
 * The attachment authority as the objects it is made of: records with a mutable buffer of their own, and tables
 * of them. Each method is one critical section and does to the objects what `LeaseStore` does to values.
 */
module LeaseAuthority {
  import opened Outcomes
  import opened Bytes
  import opened LeaseStore
  import opened LeaseSections

  class LeaseRecord {
    const lease: Lease
    const buffer: array<byte>
    var consuming: bool

    constructor (lease: Lease, content: seq<byte>)
      ensures this.lease == lease && !consuming && fresh(buffer) && buffer[..] == content
    {
      this.lease := lease;
      buffer := new byte[|content|](i requires 0 <= i < |content| => content[i]);
      consuming := false;
      new;
      assert buffer[..] == content;
    }
  }

  /** The buffer was overwritten. */
  ghost predicate Zeroed(buffer: array<byte>)
    reads buffer
  {
    forall i :: 0 <= i < buffer.Length ==> buffer[i] == 0
  }

  method Overwrite(buffer: array<byte>)
    modifies buffer
    ensures Zeroed(buffer)
  {
    var i := 0;
    while i < buffer.Length
      invariant 0 <= i <= buffer.Length
      invariant forall k :: 0 <= k < i ==> buffer[k] == 0
    {
      buffer[i] := 0;
      i := i + 1;
    }
  }

  // ----- Destroying leases one after the other -----

  lemma CleanedOne(s: Store, id: LeaseId, state: TerminalState, at: int)
    requires id in s.leases
    ensures Cleaned(s, {id}, state, at) ==
            s.(leases := s.leases - {id}, terminal := s.terminal[id := ReceiptFor(s.leases[id], state, at)])
  {
    hide ReceiptFor;
    assert Cleaned(s, {id}, state, at).terminal == s.terminal[id := ReceiptFor(s.leases[id], state, at)];
  }

  lemma CleanedPresent(s: Store, ids: set<LeaseId>, id: LeaseId, state: TerminalState, at: int)
    requires id in s.leases && id !in ids
    ensures var t := Cleaned(s, ids, state, at);
            Cleaned(s, ids + {id}, state, at) ==
            t.(leases := t.leases - {id}, terminal := t.terminal[id := ReceiptFor(s.leases[id], state, at)])
  {
    hide ReceiptFor;
    var t, u := Cleaned(s, ids, state, at), Cleaned(s, ids + {id}, state, at);
    assert u.leases == t.leases - {id};
    assert u.terminal == t.terminal[id := ReceiptFor(s.leases[id], state, at)];
  }

  lemma CleanedOneMore(s: Store, ids: set<LeaseId>, id: LeaseId, state: TerminalState, at: int)
    ensures Cleaned(Cleaned(s, ids, state, at), {id}, state, at) == Cleaned(s, ids + {id}, state, at)
  {
    var t := Cleaned(s, ids, state, at);
    assert id in t.leases <==> id in s.leases && id !in ids;
    assert id in t.leases ==> t.leases[id] == s.leases[id];
    hide ReceiptFor, Cleaned;
    if id in t.leases {
      CleanedOne(t, id, state, at);
      CleanedPresent(s, ids, id, state, at);
    } else {
      CleanedAbsent(s, ids, id, state, at);
      CleanedGone(t, id, state, at);
    }
  }

  lemma CleanedAbsent(s: Store, ids: set<LeaseId>, id: LeaseId, state: TerminalState, at: int)
    requires id !in s.leases || id in ids
    ensures Cleaned(s, ids, state, at) == Cleaned(s, ids + {id}, state, at)
  {
    hide ReceiptFor;
    assert Cleaned(s, ids, state, at).leases == Cleaned(s, ids + {id}, state, at).leases;
    assert Cleaned(s, ids, state, at).terminal == Cleaned(s, ids + {id}, state, at).terminal;
  }

  lemma ElementsSnoc<T>(s: seq<T>, i: nat)
    requires i < |s|
    ensures Elements(s[..i + 1]) == Elements(s[..i]) + {s[i]}
  {
    assert s[..i + 1] == s[..i] + [s[i]];
  }

  lemma CleanedGone(s: Store, id: LeaseId, state: TerminalState, at: int)
    requires id !in s.leases
    ensures Cleaned(s, {id}, state, at) == s
  {
    assert Cleaned(s, {id}, state, at).leases == s.leases;
    assert Cleaned(s, {id}, state, at).terminal == s.terminal;
  }

  // ----- Flags -----

  lemma MarkedOneMore(s: Store, ids: set<LeaseId>, id: LeaseId, flag: bool)
    requires id in s.leases
    ensures var t := Marked(s, ids, flag);
            Marked(s, ids + {id}, flag) == t.(leases := t.leases[id := t.leases[id].(consuming := flag)])
  {
    var t := Marked(s, ids, flag);
    assert Marked(s, ids + {id}, flag).leases == t.leases[id := t.leases[id].(consuming := flag)];
  }

  lemma MarkedNone(s: Store, flag: bool)
    ensures Marked(s, {}, flag) == s
  {
    assert Marked(s, {}, flag).leases == s.leases;
  }

  /** The flag plays no part in destroying a lease. */
  lemma CleanedMarked(s: Store, ids: set<LeaseId>, flag: bool, state: TerminalState, at: int)
    ensures Cleaned(Marked(s, ids, flag), ids, state, at) == Cleaned(s, ids, state, at)
  {
    hide Marked, ReceiptFor;
    var m := Marked(s, ids, flag);
    MarkedReceipts(s, ids, flag, state, at);
    MarkedOthers(s, ids, flag);
    assert Cleaned(m, ids, state, at).terminal == Cleaned(s, ids, state, at).terminal;
  }

  lemma MarkedReceipts(s: Store, ids: set<LeaseId>, flag: bool, state: TerminalState, at: int)
    ensures var m := Marked(s, ids, flag);
            && m == s.(leases := m.leases) && m.leases.Keys == s.leases.Keys
            && forall id :: id in s.leases ==> ReceiptFor(m.leases[id], state, at) == ReceiptFor(s.leases[id], state, at)
  {
  }

  lemma MarkedOthers(s: Store, ids: set<LeaseId>, flag: bool)
    ensures Marked(s, ids, flag).leases - ids == s.leases - ids
  {
  }

  /** Nor in verifying one. */
  lemma {:induction false} RejectionMarked(env: Env, s: Store, marks: set<LeaseId>, ids: seq<LeaseId>, flag: bool, intact: set<LeaseId>)
    requires forall id :: id in ids ==> id in s.leases
    ensures Rejection(env, Marked(s, marks, flag), ids, intact) == Rejection(env, s, ids, intact)
    decreases |ids|
  {
    if ids != [] {
      RejectionMarked(env, s, marks, ids[1..], flag, intact);
    }
  }

  lemma PayloadsMarked(s: Store, marks: set<LeaseId>, ids: seq<LeaseId>, flag: bool)
    requires forall id :: id in ids ==> id in s.leases
    ensures (forall id :: id in ids ==>
             id in Marked(s, marks, flag).leases) && Payloads(Marked(s, marks, flag), ids) == Payloads(s, ids)
  {
    assert forall i :: 0 <= i < |ids| ==> ids[i] in ids;
  }

  function LeasesOf(records: seq<Record>): seq<Lease> {
    seq(|records|, i requires 0 <= i < |records| => records[i].lease)
  }

  /** The leases to copy are live and the names of the copies are new. */
  ghost predicate Copyable(s: Store, ids: seq<LeaseId>, names: seq<LeaseId>) {
    |ids| == |names| && (forall id :: id in ids ==> id in s.leases) && Distinct(names) && forall id :: id in names ==> IsNew(s, id)
  }

  ghost predicate NewNames(s: Store, names: seq<LeaseId>) {
    Distinct(names) && forall id :: id in names ==> IsNew(s, id)
  }

  lemma ActiveIsCopyable(s: Store, ids: seq<LeaseId>, names: seq<LeaseId>, at: int)
    requires NewNames(s, names) && |ids| == |names|
    ensures Activate(s, ids, at).0 == None ==> Activate(s, ids, at).1 == s && Copyable(s, ids, names)
  {
    hide Activate, Distinct;
    ActivateOutcome(s, ids, at);
  }

  lemma CopyableNames(s: Store, ids: seq<LeaseId>, names: seq<LeaseId>)
    requires Copyable(s, ids, names)
    ensures |ids| == |names| && forall id :: id in ids ==> id in s.leases
  {
  }

  /** The tables after the first `i` copies. */
  ghost function FirstClones(s: Store, ids: seq<LeaseId>, names: seq<LeaseId>, at: int, expiresAt: int, i: nat): Store
    requires Copyable(s, ids, names) && i <= |ids|
  {
    s.(leases := Inserted(s.leases, Clones(s, ids, names, at, expiresAt)[..i]))
  }

  lemma FirstClonesEnds(s: Store, ids: seq<LeaseId>, names: seq<LeaseId>, at: int, expiresAt: int)
    requires Copyable(s, ids, names)
    ensures FirstClones(s, ids, names, at, expiresAt, 0) == s
    ensures FirstClones(s, ids, names, at, expiresAt, |ids|) ==
            s.(leases := Inserted(s.leases, Clones(s, ids, names, at, expiresAt)))
  {
    var clones := Clones(s, ids, names, at, expiresAt);
    assert clones[..|ids|] == clones;
  }

  lemma FirstClonesStep(s: Store, ids: seq<LeaseId>, names: seq<LeaseId>, at: int, expiresAt: int, i: nat)
    requires Copyable(s, ids, names) && i < |ids|
    ensures var t := FirstClones(s, ids, names, at, expiresAt, i);
            && ids[i] in t.leases && IsNew(t, names[i])
            && FirstClones(s, ids, names, at, expiresAt, i + 1) ==
               t.(leases := t.leases[names[i] := CloneOf(t.leases[ids[i]], names[i], at, expiresAt)])
  {
    var clones := Clones(s, ids, names, at, expiresAt);
    assert clones[..i + 1][..i] == clones[..i];
    assert clones[i] == CloneOf(s.leases[ids[i]], names[i], at, expiresAt);
    assert ids[i] in ids && names[i] in names;
    FirstClonesAvoid(s, ids, names, at, expiresAt, i);
    hide Clones, Distinct;
    InsertedElsewhere(s.leases, clones[..i], ids[i]);
    InsertedElsewhere(s.leases, clones[..i], names[i]);
  }

  lemma FirstClonesAvoid(s: Store, ids: seq<LeaseId>, names: seq<LeaseId>, at: int, expiresAt: int, i: nat)
    requires Copyable(s, ids, names) && i < |ids|
    ensures var clones := Clones(s, ids, names, at, expiresAt);
            forall j :: 0 <= j < i ==> clones[..i][j].lease.id != ids[i] && clones[..i][j].lease.id != names[i]
  {
    assert forall j :: 0 <= j < i ==> names[j] in names && names[j] != names[i];
    assert ids[i] in ids;
    hide Distinct;
  }

  ghost function IdsOf(records: set<LeaseRecord>): set<LeaseId> {
    set r | r in records :: r.lease.id
  }

  class Authority {
    const env: Env
    var leases: map<LeaseId, LeaseRecord>
    var terminal: map<LeaseId, Receipt>
    var purposes: map<ManifestId, string>
    var closed: bool
    /** Every record that was ever in the table, and its buffer. */
    ghost var records: set<LeaseRecord>
    ghost var buffers: set<array<byte>>

    /**
     * No two records share a buffer. A record that is no longer live is all zeros and has a receipt with its
     * length; a terminal id is not live and has such a record.
     */
    ghost predicate Valid()
      reads this`leases, this`terminal, this`records, this`buffers, records, buffers
    {
      Tracked() && Wiped() && ReceiptsKept()
    }

    ghost predicate Tracked()
      reads this`leases, this`records, this`buffers
    {
      && (forall id :: id in leases ==> leases[id] in records && leases[id].lease.id == id)
      && (forall r :: r in records ==> r.buffer in buffers)
      && (forall r, q :: r in records && q in records && r != q ==> r.buffer != q.buffer)
    }

    ghost predicate Wiped()
      requires Tracked()
      reads this`leases, this`terminal, this`records, this`buffers, buffers
    {
      forall r :: r in records && !IsLive(r) ==> Zeroed(r.buffer) && Receipted(r)
    }

    ghost predicate ReceiptsKept()
      reads this`leases, this`terminal, this`records
    {
      forall id :: id in terminal ==> id !in leases && id in IdsOf(records)
    }

    /** The receipt under the record's id is the record's. */
    ghost predicate Receipted(r: LeaseRecord)
      reads this`terminal
    {
      && r.lease.id in terminal
      && var receipt := terminal[r.lease.id];
         receipt.lease == r.lease.id && receipt.descriptor == r.lease.descriptor && receipt.released == r.buffer.Length
    }

    ghost predicate IsLive(r: LeaseRecord)
      reads this`leases
    {
      r.lease.id in leases && leases[r.lease.id] == r
    }

    ghost function Value(r: LeaseRecord): Record
      reads r, r.buffer
    {
      Record(r.lease, r.buffer[..], r.consuming)
    }

    ghost function LiveValues(): map<LeaseId, Record>
      requires Valid()
      reads this`leases, this`terminal, this`records, this`buffers, records, buffers
    {
      map id | id in leases :: Value(leases[id])
    }

    ghost function Contents(): Store
      requires Valid()
      reads this, records, buffers
    {
      Store(LiveValues(), terminal, purposes, closed)
    }

    lemma KeysAgree()
      requires Valid()
      ensures leases.Keys == Contents().leases.Keys
    {
      hide Wiped, ReceiptsKept;
    }

    constructor (env: Env)
      ensures Valid() && this.env == env && Contents() == Store(map[], map[], map[], false) && records == {} && buffers == {}
    {
      this.env := env;
      leases, terminal, purposes, closed := map[], map[], map[], false;
      records, buffers := {}, {};
    }

    /** Overwrite the buffer of one live record. */
    method Wipe(r: LeaseRecord)
      requires Valid() && IsLive(r)
      modifies r, r.buffer
      ensures Valid() && Zeroed(r.buffer)
      ensures Contents().leases - {r.lease.id} == old(Contents().leases) - {r.lease.id}
    {
      ghost var before := Contents();
      Overwrite(r.buffer);
      r.consuming := false;
      assert forall id :: id in leases && id != r.lease.id ==> Value(leases[id]) == before.leases[id];
    }

    /** Take an overwritten record out of the table. */
    method Retire(r: LeaseRecord, receipt: Receipt)
      requires Valid() && IsLive(r) && Zeroed(r.buffer)
      requires receipt.lease == r.lease.id && receipt.descriptor == r.lease.descriptor && receipt.released == r.buffer.Length
      modifies this`leases, this`terminal
      ensures Valid() && !IsLive(r)
      ensures leases == old(leases) - {r.lease.id} && terminal == old(terminal)[r.lease.id := receipt]
    {
      leases := leases - {r.lease.id};
      terminal := terminal[r.lease.id := receipt];
      assert r.lease.id in IdsOf(records);
    }

    method Remove(r: LeaseRecord, receipt: Receipt)
      requires Valid() && IsLive(r) && Zeroed(r.buffer)
      requires receipt.lease == r.lease.id && receipt.descriptor == r.lease.descriptor && receipt.released == r.buffer.Length
      modifies this`leases, this`terminal
      ensures Valid() && !IsLive(r)
      ensures var t := old(Contents());
              Contents() == t.(leases := t.leases - {r.lease.id}, terminal := t.terminal[r.lease.id := receipt])
    {
      ghost var before := Contents();
      Retire(r, receipt);
      hide Wiped, ReceiptsKept, Receipted;
      assert Contents().leases == before.leases - {r.lease.id};
    }

    /** `_cleanup`: the record's buffer is overwritten and no other record's is. */
    method Cleanup(r: LeaseRecord, state: TerminalState, at: int) returns (receipt: Receipt)
      requires Valid() && IsLive(r)
      modifies this`leases, this`terminal, r, r.buffer
      ensures Valid() && Zeroed(r.buffer) && !IsLive(r) && old(records) <= records && old(buffers) <= buffers
      ensures Contents() == Cleaned(old(Contents()), {r.lease.id}, state, at)
      ensures receipt == ReceiptFor(old(Value(r)), state, at)
    {
      hide Cleaned;
      CleanedOne(Contents(), r.lease.id, state, at);
      receipt := Receipt(r.lease.id, r.lease.descriptor, state, r.buffer.Length, at);
      assert receipt == ReceiptFor(Contents().leases[r.lease.id], state, at);
      hide Valid, LiveValues;
      Wipe(r);
      Remove(r, receipt);
    }

    /** Destroy, in turn, each named lease that is live. */
    method CleanupPresent(ids: seq<LeaseId>, state: TerminalState, at: int)
      requires Valid()
      modifies this`leases, this`terminal, records, buffers
      ensures Valid() && old(records) <= records && old(buffers) <= buffers
      ensures Contents() == Cleaned(old(Contents()), Elements(ids), state, at)
    {
      var i := 0;
      hide Cleaned;
      assert Elements(ids[..0]) == {};
      CleanedNone(Contents(), state, at);
      while i < |ids|
        invariant 0 <= i <= |ids| && Valid() && old(records) <= records && old(buffers) <= buffers
        invariant Contents() == Cleaned(old(Contents()), Elements(ids[..i]), state, at)
      {
        ElementsSnoc(ids, i);
        ghost var s := old(Contents());
        CleanedOneMore(s, Elements(ids[..i]), ids[i], state, at);
        if ids[i] in leases {
          var _ := Cleanup(leases[ids[i]], state, at);
        } else {
          CleanedGone(Contents(), ids[i], state, at);
        }
        i := i + 1;
      }
      assert ids[..i] == ids;
    }

    method CleanupSet(ids: set<LeaseId>, state: TerminalState, at: int)
      requires Valid()
      modifies this`leases, this`terminal, records, buffers
      ensures Valid() && old(records) <= records && old(buffers) <= buffers
      ensures Contents() == Cleaned(old(Contents()), ids, state, at)
    {
      var rest := ids;
      hide Cleaned;
      assert ids - rest == {};
      CleanedNone(Contents(), state, at);
      while rest != {}
        invariant rest <= ids && Valid() && old(records) <= records && old(buffers) <= buffers
        invariant Contents() == Cleaned(old(Contents()), ids - rest, state, at)
        decreases |rest|
      {
        var id :| id in rest;
        CleanedOneMore(old(Contents()), ids - rest, id, state, at);
        assert ids - (rest - {id}) == ids - rest + {id};
        if id in leases {
          var _ := Cleanup(leases[id], state, at);
        } else {
          CleanedGone(Contents(), id, state, at);
        }
        rest := rest - {id};
      }
      assert ids - {} == ids;
    }

    /** `_active_record` for each id. */
    method ActiveRecords(ids: seq<LeaseId>, at: int) returns (problem: Option<Reason>)
      requires Valid()
      modifies this`leases, this`terminal, records, buffers
      ensures Valid() && old(records) <= records && old(buffers) <= buffers
      ensures (problem, Contents()) == Activate(old(Contents()), ids, at)
      ensures problem == None ==> leases == old(leases)
    {
      var i := 0;
      hide Cleaned;
      assert ids[0..] == ids;
      while i < |ids|
        invariant 0 <= i <= |ids| && Valid() && old(records) <= records && old(buffers) <= buffers
        invariant Contents() == old(Contents())
        invariant Activate(Contents(), ids, at) == Activate(Contents(), ids[i..], at)
      {
        var id := ids[i];
        assert ids[i..][0] == id && ids[i..][1..] == ids[i + 1..];
        if id in terminal {
          return Some(LeaseTerminal);
        }
        if id !in leases {
          return Some(LeaseNotFound);
        }
        if leases[id].consuming {
          return Some(LeaseTerminal);
        }
        if at >= leases[id].lease.expiresAt {
          var _ := Cleanup(leases[id], Expired, at);
          return Some(LeaseExpired);
        }
        i := i + 1;
      }
      return None;
    }

    /** `_verify_record` for each id. */
    method VerifyRecords(ids: seq<LeaseId>, intact: set<LeaseId>) returns (rejection: Option<Reason>)
      requires Valid() && forall id :: id in ids ==> id in leases
      ensures rejection == Rejection(env, Contents(), ids, intact)
    {
      var i := 0;
      assert ids[0..] == ids;
      while i < |ids|
        invariant 0 <= i <= |ids|
        invariant Rejection(env, Contents(), ids, intact) == Rejection(env, Contents(), ids[i..], intact)
      {
        var id := ids[i];
        assert ids[i..][0] == id && ids[i..][1..] == ids[i + 1..];
        if id !in intact {
          return Some(FileChanged);
        }
        if env.inspect(leases[id].buffer[..]) != leases[id].lease.descriptor.inspection {
          return Some(PayloadIntegrityChanged);
        }
        i := i + 1;
      }
      return None;
    }

    method MarkRecords(ids: seq<LeaseId>, flag: bool)
      requires Valid() && forall id :: id in ids ==> id in leases
      modifies records
      ensures Valid() && Contents() == Marked(old(Contents()), Elements(ids), flag)
      ensures forall id :: id in ids ==> id in leases
    {
      var i := 0;
      hide Marked, Contents;
      KeysAgree();
      assert Elements(ids[..0]) == {};
      MarkedNone(Contents(), flag);
      while i < |ids|
        invariant 0 <= i <= |ids| && Valid()
        invariant Contents() == Marked(old(Contents()), Elements(ids[..i]), flag)
      {
        hide Elements;
        ElementsSnoc(ids, i);
        assert ids[i] in ids;
        MarkedOneMore(old(Contents()), Elements(ids[..i]), ids[i], flag);
        SetFlag(leases[ids[i]], flag);
        i := i + 1;
      }
      assert ids[..i] == ids;
    }

    method SetFlag(r: LeaseRecord, flag: bool)
      requires Valid() && IsLive(r)
      modifies r`consuming
      ensures Valid()
      ensures var t := old(Contents()); Contents() == t.(leases := t.leases[r.lease.id := t.leases[r.lease.id].(consuming := flag)])
    {
      ghost var t := Contents();
      r.consuming := flag;
      assert Contents().leases == t.leases[r.lease.id := t.leases[r.lease.id].(consuming := flag)];
    }

    /** The end of `select_file`: a record that comes too late is overwritten. */
    method CommitSelection(r: LeaseRecord) returns (problem: Option<Reason>)
      requires Valid() && r !in records && r.buffer !in buffers && r.lease.id !in leases && r.lease.id !in terminal
      modifies this, r.buffer
      ensures Valid() && old(records) <= records && old(buffers) <= buffers
      ensures (problem, Contents()) == LeaseStore.CommitSelection(old(Contents()), old(Value(r)))
      ensures problem == None ==> records == old(records) + {r} && buffers == old(buffers) + {r.buffer}
      ensures problem != None ==> records == old(records) && buffers == old(buffers) && Zeroed(r.buffer)
    {
      if closed {
        Overwrite(r.buffer);
        return Some(StoreClosed);
      }
      Insert(r);
      return None;
    }

    method Place(r: LeaseRecord)
      requires Valid() && r !in records && r.buffer !in buffers && r.lease.id !in leases && r.lease.id !in terminal
      modifies this`leases, this`records, this`buffers
      ensures Valid() && records == old(records) + {r} && buffers == old(buffers) + {r.buffer}
      ensures leases == old(leases)[r.lease.id := r]
    {
      leases := leases[r.lease.id := r];
      records := records + {r};
      buffers := buffers + {r.buffer};
      assert IdsOf(records) == IdsOf(old(records)) + {r.lease.id};
    }

    method Insert(r: LeaseRecord)
      requires Valid() && r !in records && r.buffer !in buffers && r.lease.id !in leases && r.lease.id !in terminal
      modifies this`leases, this`records, this`buffers
      ensures Valid() && old(records) <= records && old(buffers) <= buffers && records == old(records) + {r} && buffers == old(buffers) + {r.buffer}
      ensures var t := old(Contents()); Contents() == t.(leases := t.leases[r.lease.id := Value(r)])
    {
      ghost var t := Contents();
      Place(r);
      hide Wiped, ReceiptsKept, Receipted;
      assert Contents().leases == t.leases[r.lease.id := Value(r)];
    }

    /** The first section of `create_outbound_manifest`. */
    method PrepareManifest(ids: seq<LeaseId>, id: ManifestId, purpose: string, at: int, canonical: bool)
      returns (r: Result<Manifest, Reason>)
      requires Valid()
      modifies this`leases, this`terminal, records, buffers
      ensures Valid() && old(records) <= records && old(buffers) <= buffers
      ensures (r, Contents()) == LeaseStore.PrepareManifest(env, old(Contents()), ids, id, purpose, at, canonical)
    {
      if purpose == "" || env.utf8Length(purpose) > 4096 || !(1 <= |ids| <= env.maxAttachments) || !Distinct(ids) {
        return Failure(ManifestInvalid);
      }
      ActivateOutcome(Contents(), ids, at);
      hide Activate, Cleaned, Distinct, Draft;
      var problem := ActiveRecords(ids, at);
      if problem.Some? {
        return Failure(problem.value);
      }
      r := DraftManifest(ids, id, purpose, at, canonical);
    }

    method DraftManifest(ids: seq<LeaseId>, id: ManifestId, purpose: string, at: int, canonical: bool)
      returns (r: Result<Manifest, Reason>)
      requires Valid() && ids != [] && forall x :: x in ids ==> x in leases
      ensures r == Draft(env, Contents(), ids, id, purpose, at, canonical)
    {
      if !canonical {
        return Failure(ManifestInvalid);
      }
      hide Descriptors, LeastExpiry, ManifestOk;
      var first := ids[0];
      var expiresAt := EarliestExpiry(ids, leases[first].lease.expiresAt);
      var attachments := DescriptorsOf(ids);
      var body := ManifestBody(id, env.purposeDigest(purpose), ids, attachments, at, expiresAt);
      var m := Manifest(body, env.manifestDigest(body));
      if ManifestOk(env, m) {
        return Success(m);
      }
      return Failure(ManifestInvalid);
    }

    /** The least of `bound` and the expiries of the named leases. */
    method EarliestExpiry(ids: seq<LeaseId>, bound: int) returns (least: int)
      requires Valid() && forall id :: id in ids ==> id in leases
      ensures least == LeastExpiry(Contents(), ids, bound)
    {
      least := bound;
      var i := 0;
      assert ids[0..] == ids;
      while i < |ids|
        invariant 0 <= i <= |ids|
        invariant LeastExpiry(Contents(), ids, bound) == LeastExpiry(Contents(), ids[i..], least)
      {
        assert ids[i..][0] == ids[i] && ids[i..][1..] == ids[i + 1..];
        var e := leases[ids[i]].lease.expiresAt;
        if e < least {
          least := e;
        }
        i := i + 1;
      }
    }

    /** The second section of `create_outbound_manifest`. */
    method PublishManifest(m: Manifest, purpose: string) returns (problem: Option<Reason>)
      requires Valid()
      modifies this`purposes
      ensures Valid() && old(records) <= records && old(buffers) <= buffers
      ensures (problem, Contents()) == LeaseStore.PublishManifest(old(Contents()), m, purpose)
    {
      if closed {
        return Some(StoreClosed);
      }
      ghost var before := Contents();
      purposes := purposes[m.body.id := purpose];
      assert Contents().leases == before.leases;
      return None;
    }

    method ApproveManifest(m: Manifest, at: int, ttl: int) returns (r: Result<Approval, Reason>)
      requires Valid()
      modifies this`leases, this`terminal, records, buffers
      ensures Valid() && old(records) <= records && old(buffers) <= buffers
      ensures (r, Contents()) == Approve(env, old(Contents()), m, at, ttl)
    {
      if !TtlOk(ttl, env.maxApproval) {
        return Failure(InvalidTtl);
      }
      if !ManifestOk(env, m) {
        return Failure(ManifestInvalid);
      }
      if !(m.body.createdAt <= at < m.body.expiresAt) {
        return Failure(ManifestExpired);
      }
      hide Activate, ManifestOk;
      var problem := ActiveRecords(m.body.leaseIds, at);
      if problem.Some? {
        return Failure(problem.value);
      }
      return Success(Approval(m.body.id, m.sha, m.body.leaseIds, at, Least(at + ttl, m.body.expiresAt)));
    }

    method DescriptorsOf(ids: seq<LeaseId>) returns (r: seq<Descriptor>)
      requires Valid() && forall id :: id in ids ==> id in leases
      ensures r == Descriptors(Contents(), ids)
    {
      r := [];
      var i := 0;
      while i < |ids|
        invariant 0 <= i <= |ids| && r == Descriptors(Contents(), ids)[..i]
      {
        r := r + [leases[ids[i]].lease.descriptor];
        i := i + 1;
      }
    }

    /** The records whose buffers a callback gets to read, in the manifest's order. */
    ghost predicate Shows(views: seq<LeaseRecord>, payloads: seq<(LeaseId, seq<byte>)>)
      reads this, set v | v in views :: v.buffer
    {
      && |views| == |payloads|
      && forall i :: 0 <= i < |views| ==> IsLive(views[i]) && payloads[i] == (views[i].lease.id, views[i].buffer[..])
    }

    method Views(ids: seq<LeaseId>) returns (r: seq<LeaseRecord>)
      requires Valid() && forall id :: id in ids ==> id in leases
      ensures Shows(r, Payloads(Contents(), ids))
    {
      r := [];
      var i := 0;
      while i < |ids|
        invariant 0 <= i <= |ids| && Shows(r, Payloads(Contents(), ids)[..i])
      {
        r := r + [leases[ids[i]]];
        i := i + 1;
      }
      assert Payloads(Contents(), ids)[..i] == Payloads(Contents(), ids);
    }

    /** The section before a callback. */
    method ReserveRecords(m: Manifest, at: int, intact: set<LeaseId>) returns (r: Result<seq<LeaseRecord>, Reason>)
      requires Valid()
      modifies this`leases, this`terminal, records, buffers
      ensures Valid() && old(records) <= records && old(buffers) <= buffers
      ensures var (result, s) := Reserve(env, old(Contents()), m, at, intact);
              && Contents() == s
              && (r.Failure? ==> result == Failure(r.error))
              && (r.Success? ==> result.Success? && Shows(r.value, result.value))
    {
      ActivateOutcome(Contents(), m.body.leaseIds, at);
      hide Activate, ReserveActive;
      var problem := ActiveRecords(m.body.leaseIds, at);
      if problem.Some? {
        return Failure(problem.value);
      }
      r := ReserveActiveRecords(m, at, intact);
    }

    method ReserveActiveRecords(m: Manifest, at: int, intact: set<LeaseId>) returns (r: Result<seq<LeaseRecord>, Reason>)
      requires Valid() && forall id :: id in m.body.leaseIds ==> id in leases
      modifies this`leases, this`terminal, records, buffers
      ensures Valid() && old(records) <= records && old(buffers) <= buffers
      ensures var (result, s) := ReserveActive(env, old(Contents()), m, at, intact);
              && Contents() == s
              && (r.Failure? ==> result == Failure(r.error))
              && (r.Success? ==> result.Success? && Shows(r.value, result.value))
    {
      var ids := m.body.leaseIds;
      hide Cleaned, Rejection, Marked, Payloads, Descriptors, Shows, Elements;
      var attachments := DescriptorsOf(ids);
      if attachments != m.body.attachments {
        return Failure(ManifestInvalid);
      }
      var rejection := VerifyOrDestroy(ids, intact, at);
      if rejection.Some? {
        return Failure(rejection.value);
      }
      hide Valid, Contents;
      var views := MarkAndShow(ids);
      return Success(views);
    }

    /** Verify the records, and destroy them all when one is rejected. */
    method VerifyOrDestroy(ids: seq<LeaseId>, intact: set<LeaseId>, at: int) returns (rejection: Option<Reason>)
      requires Valid() && forall id :: id in ids ==> id in leases
      modifies this`leases, this`terminal, records, buffers
      ensures Valid() && old(records) <= records && old(buffers) <= buffers && rejection == Rejection(env, old(Contents()), ids, intact)
      ensures rejection.Some? ==> Contents() == Cleaned(old(Contents()), Elements(ids), IntegrityRejected, at)
      ensures rejection == None ==> Contents() == old(Contents()) && leases == old(leases)
    {
      hide Cleaned, Rejection, Elements, Valid, Contents;
      KeysAgree();
      rejection := VerifyRecords(ids, intact);
      if rejection.Some? {
        CleanupPresent(ids, IntegrityRejected, at);
      }
    }

    method MarkAndShow(ids: seq<LeaseId>) returns (views: seq<LeaseRecord>)
      requires Valid() && forall id :: id in ids ==> id in leases
      modifies records
      ensures Valid() && Contents() == Marked(old(Contents()), Elements(ids), true) && Shows(views, Payloads(old(Contents()), ids))
    {
      hide Marked, Payloads, Shows, Elements, Valid, Contents;
      KeysAgree();
      PayloadsMarked(Contents(), Elements(ids), ids, true);
      MarkRecords(ids, true);
      views := Views(ids);
    }

    /** `inspect_manifest_payloads` up to its callback. */
    method BeginInspection(m: Manifest, at: int, intact: set<LeaseId>) returns (r: Result<seq<LeaseRecord>, Reason>)
      requires Valid()
      modifies this`leases, this`terminal, records, buffers
      ensures Valid() && old(records) <= records && old(buffers) <= buffers
      ensures var (result, s) := LeaseStore.BeginInspection(env, old(Contents()), m, at, intact);
              && Contents() == s
              && (r.Failure? ==> result == Failure(r.error))
              && (r.Success? ==> result.Success? && Shows(r.value, result.value))
    {
      if !ManifestOk(env, m) {
        return Failure(ManifestInvalid);
      }
      if !(m.body.createdAt <= at < m.body.expiresAt) {
        return Failure(ManifestExpired);
      }
      hide Reserve, ManifestOk;
      r := ReserveRecords(m, at, intact);
    }

    /** `consume_manifest` up to its callback. */
    method BeginConsumption(m: Manifest, a: Approval, at: int, intact: set<LeaseId>)
      returns (r: Result<seq<LeaseRecord>, Reason>)
      requires Valid()
      modifies this`leases, this`terminal, records, buffers
      ensures Valid() && old(records) <= records && old(buffers) <= buffers
      ensures var (result, s) := LeaseStore.BeginConsumption(env, old(Contents()), m, a, at, intact);
              && Contents() == s
              && (r.Failure? ==> result == Failure(r.error))
              && (r.Success? ==> result.Success? && Shows(r.value, result.value))
    {
      hide Reserve, ManifestOk, ApprovalOk, Binds, Cleaned;
      if !ManifestOk(env, m) || !ApprovalOk(a) {
        return Failure(ApprovalInvalid);
      }
      if at >= m.body.expiresAt {
        var expired := set id | id in m.body.leaseIds && id in leases && !leases[id].consuming;
        assert expired == Unreserved(Contents(), Elements(m.body.leaseIds));
        CleanupSet(expired, Expired, at);
        return Failure(ManifestExpired);
      }
      if !(a.approvedAt <= at < a.expiresAt) {
        return Failure(ApprovalExpired);
      }
      if !Binds(a, m) {
        return Failure(ApprovalInvalid);
      }
      r := ReserveRecords(m, at, intact);
    }

    /** The section after an inspector. */
    method EndInspection(m: Manifest, ending: Ending, completedAt: int, intact: set<LeaseId>)
      returns (problem: Option<Reason>)
      requires Valid() && forall id :: id in m.body.leaseIds ==> id in leases
      modifies this`leases, this`terminal, records, buffers
      ensures Valid() && old(records) <= records && old(buffers) <= buffers
      ensures (problem, Contents()) == LeaseStore.EndInspection(env, old(Contents()), m, ending, completedAt, intact)
    {
      var ids := m.body.leaseIds;
      hide Cleaned, Marked, Rejection, Elements;
      CleanedMarked(Contents(), Elements(ids), false, Expired, completedAt);
      CleanedMarked(Contents(), Elements(ids), false, IntegrityRejected, completedAt);
      RejectionMarked(env, Contents(), Elements(ids), ids, false, intact);
      MarkRecords(ids, false);
      if ending == Raised {
        return Some(LocalInspectionFailed);
      }
      if completedAt >= m.body.expiresAt {
        CleanupPresent(ids, Expired, completedAt);
        return Some(ManifestExpired);
      }
      problem := VerifyRecords(ids, intact);
      if problem.Some? {
        CleanupPresent(ids, IntegrityRejected, completedAt);
      }
    }

    /** The section after a consumer. */
    method EndConsumption(m: Manifest, a: Approval, ending: Ending, completedAt: int, intact: set<LeaseId>)
      returns (problem: Option<Reason>)
      requires Valid() && forall id :: id in m.body.leaseIds ==> id in leases
      modifies this`leases, this`terminal, records, buffers
      ensures Valid() && old(records) <= records && old(buffers) <= buffers
      ensures (problem, Contents()) == LeaseStore.EndConsumption(env, old(Contents()), m, a, ending, completedAt, intact)
    {
      var ids := m.body.leaseIds;
      hide Cleaned, Rejection, Elements, LiveValues, Valid;
      KeysAgree();
      if ending == Raised {
        CleanupPresent(ids, ConsumerFailed, completedAt);
        return Some(ConsumerFailure);
      }
      if completedAt >= m.body.expiresAt || completedAt >= a.expiresAt {
        CleanupPresent(ids, Expired, completedAt);
        return Some(if completedAt >= m.body.expiresAt then ManifestExpired else ApprovalExpired);
      }
      problem := VerifyThenDestroy(ids, intact, completedAt);
    }

    /** The flags are cleared, the records verified, and destroyed either way. */
    method VerifyThenDestroy(ids: seq<LeaseId>, intact: set<LeaseId>, at: int) returns (rejection: Option<Reason>)
      requires Valid() && forall id :: id in ids ==> id in leases
      modifies this`leases, this`terminal, records, buffers
      ensures Valid() && rejection == Rejection(env, old(Contents()), ids, intact)
      ensures Contents() == Cleaned(old(Contents()), Elements(ids), if rejection.Some? then IntegrityRejected else Consumed, at)
    {
      hide Cleaned, Marked, Rejection, Elements, Contents, Valid;
      KeysAgree();
      CleanedMarked(Contents(), Elements(ids), false, IntegrityRejected, at);
      CleanedMarked(Contents(), Elements(ids), false, Consumed, at);
      RejectionMarked(env, Contents(), Elements(ids), ids, false, intact);
      MarkRecords(ids, false);
      rejection := VerifyRecords(ids, intact);
      CleanupPresent(ids, if rejection.Some? then IntegrityRejected else Consumed, at);
    }

    /** `clone_manifest_leases` up to the nested manifest. */
    method CloneLeases(m: Manifest, at: int, ttl: int, names: seq<LeaseId>, intact: set<LeaseId>)
      returns (r: Result<(string, seq<Lease>), Reason>)
      requires Valid() && NewNames(Contents(), names) && |names| == |m.body.leaseIds|
      modifies this`leases, this`terminal, this`records, this`buffers, records, buffers
      ensures Valid() && old(records) <= records && old(buffers) <= buffers
      ensures fresh(records - old(records)) && fresh(buffers - old(buffers))
      ensures var (result, s) := LeaseStore.CloneLeases(env, old(Contents()), m, at, ttl, names, intact);
              && Contents() == s
              && (r.Failure? ==> result == Failure(r.error))
              && (r.Success? ==> result.Success? && r.value == (result.value.0, LeasesOf(result.value.1)))
    {
      hide Activate, ManifestOk, CloneActive, NewNames, LiveValues, Valid, LeasesOf, Copyable;
      if !TtlOk(ttl, env.maxLease) {
        return Failure(InvalidTtl);
      }
      if !ManifestOk(env, m) || m.body.id !in purposes {
        return Failure(ManifestInvalid);
      }
      ghost var s := Contents();
      var problem := ActiveRecords(m.body.leaseIds, at);
      ActiveIsCopyable(s, m.body.leaseIds, names, at);
      if problem.Some? {
        return Failure(problem.value);
      }
      r := CloneActiveRecords(m, at, ttl, names, intact);
    }

    method CloneActiveRecords(m: Manifest, at: int, ttl: int, names: seq<LeaseId>, intact: set<LeaseId>)
      returns (r: Result<(string, seq<Lease>), Reason>)
      requires Valid() && Copyable(Contents(), m.body.leaseIds, names) && m.body.id in purposes
      modifies this`leases, this`terminal, this`records, this`buffers, records, buffers
      ensures Valid() && old(records) <= records && old(buffers) <= buffers
      ensures fresh(records - old(records)) && fresh(buffers - old(buffers))
      ensures var (result, s) := CloneActive(env, old(Contents()), m, at, ttl, names, intact);
              && Contents() == s
              && (r.Failure? ==> result == Failure(r.error))
              && (r.Success? ==> result.Success? && r.value == (result.value.0, LeasesOf(result.value.1)))
    {
      hide Cleaned, Rejection, Inserted, LeastExpiry, Clones, Elements, LeasesOf, LiveValues, Valid, Copyable;
      KeysAgree();
      CopyableNames(Contents(), m.body.leaseIds, names);
      var rejection := VerifyOrDestroy(m.body.leaseIds, intact, at);
      if rejection.Some? {
        return Failure(rejection.value);
      }
      var clones := CopyAll(m.body.leaseIds, names, at, ttl);
      return Success((purposes[m.body.id], clones));
    }

    method CopyAll(ids: seq<LeaseId>, names: seq<LeaseId>, at: int, ttl: int) returns (r: seq<Lease>)
      requires Valid() && Copyable(Contents(), ids, names)
      modifies this`leases, this`records, this`buffers
      ensures Valid() && old(records) <= records && old(buffers) <= buffers
      ensures fresh(records - old(records)) && fresh(buffers - old(buffers))
      ensures var s := old(Contents());
              var clones := Clones(s, ids, names, at, LeastExpiry(s, ids, at + ttl));
              Contents() == s.(leases := Inserted(s.leases, clones)) && r == LeasesOf(clones)
    {
      hide Inserted, LeastExpiry, Clones, LeasesOf, Contents, Valid, FirstClones, Copyable;
      KeysAgree();
      CopyableNames(Contents(), ids, names);
      var expiresAt := EarliestExpiry(ids, at + ttl);
      r := CloneValues(ids, names, at, expiresAt);
      FirstClonesEnds(Contents(), ids, names, at, expiresAt);
      InsertClones(ids, names, at, expiresAt);
    }

    /** What the clones are called and when they expire. */
    method CloneValues(ids: seq<LeaseId>, names: seq<LeaseId>, at: int, expiresAt: int) returns (r: seq<Lease>)
      requires Valid() && |names| == |ids| && forall id :: id in ids ==> id in leases
      ensures r == LeasesOf(Clones(Contents(), ids, names, at, expiresAt))
    {
      r := [];
      var i := 0;
      while i < |ids|
        invariant 0 <= i <= |ids| && r == LeasesOf(Clones(Contents(), ids, names, at, expiresAt))[..i]
      {
        r := r + [Lease(names[i], leases[ids[i]].lease.descriptor, at, expiresAt)];
        i := i + 1;
      }
    }

    /** Copy each named lease into a record with a buffer of its own. */
    method InsertClones(ids: seq<LeaseId>, names: seq<LeaseId>, at: int, expiresAt: int)
      requires Valid() && Copyable(Contents(), ids, names)
      modifies this`leases, this`records, this`buffers
      ensures Valid() && old(records) <= records && old(buffers) <= buffers
      ensures fresh(records - old(records)) && fresh(buffers - old(buffers))
      ensures Contents() == FirstClones(old(Contents()), ids, names, at, expiresAt, |ids|)
    {
      ghost var s := Contents();
      assert |ids| == |names|;
      hide Valid, Contents, FirstClones, Copyable, CloneOf;
      FirstClonesEnds(s, ids, names, at, expiresAt);
      var i := 0;
      while i < |ids|
        invariant 0 <= i <= |ids| && Valid() && old(records) <= records && old(buffers) <= buffers
        invariant fresh(records - old(records)) && fresh(buffers - old(buffers))
        invariant Contents() == FirstClones(s, ids, names, at, expiresAt, i)
      {
        CloneNext(s, ids, names, at, expiresAt, i);
        i := i + 1;
      }
    }

    method CloneNext(ghost s: Store, ids: seq<LeaseId>, names: seq<LeaseId>, at: int, expiresAt: int, i: nat)
      requires Copyable(s, ids, names) && i < |ids| == |names|
      requires Valid() && Contents() == FirstClones(s, ids, names, at, expiresAt, i)
      modifies this`leases, this`records, this`buffers
      ensures Valid() && old(records) <= records && old(buffers) <= buffers
      ensures fresh(records - old(records)) && fresh(buffers - old(buffers))
      ensures Contents() == FirstClones(s, ids, names, at, expiresAt, i + 1)
    {
      hide Valid, Contents, FirstClones, Copyable, CloneOf;
      FirstClonesStep(s, ids, names, at, expiresAt, i);
      CloneRecord(ids[i], names[i], at, expiresAt);
    }

    method CloneRecord(id: LeaseId, name: LeaseId, at: int, expiresAt: int)
      requires Valid() && id in Contents().leases && IsNew(Contents(), name)
      modifies this`leases, this`records, this`buffers
      ensures Valid() && old(records) <= records && old(buffers) <= buffers
      ensures fresh(records - old(records)) && fresh(buffers - old(buffers))
      ensures var s := old(Contents()); Contents() == s.(leases := s.leases[name := CloneOf(s.leases[id], name, at, expiresAt)])
    {
      var source := leases[id];
      ghost var s := Contents();
      var r := new LeaseRecord(Lease(name, source.lease.descriptor, at, expiresAt), source.buffer[..]);
      assert Value(r) == CloneOf(s.leases[id], name, at, expiresAt) && Contents() == s;
      hide Valid, Contents;
      Insert(r);
    }

    method CancelLease(id: LeaseId, at: int) returns (r: Result<Receipt, Reason>)
      requires Valid()
      modifies this`leases, this`terminal, records, buffers
      ensures Valid() && old(records) <= records && old(buffers) <= buffers
      ensures var (problem, s) := LeaseStore.CancelLease(old(Contents()), id, at);
              && Contents() == s
              && (r.Failure? ==> problem == Some(r.error))
              && (r.Success? ==> problem == None && id in terminal && r.value == terminal[id])
    {
      if id in terminal {
        return Failure(LeaseTerminal);
      }
      if id !in leases {
        return Failure(LeaseNotFound);
      }
      if leases[id].consuming {
        return Failure(LeaseTerminal);
      }
      var receipt := Cleanup(leases[id], Cancelled, at);
      return Success(receipt);
    }

    method ExpireDue(at: int)
      requires Valid()
      modifies this`leases, this`terminal, records, buffers
      ensures Valid() && old(records) <= records && old(buffers) <= buffers
      ensures Contents() == LeaseStore.Expire(old(Contents()), at)
    {
      var due := set id | id in leases && !leases[id].consuming && at >= leases[id].lease.expiresAt;
      assert due == Due(Contents(), at);
      CleanupSet(due, Expired, at);
    }

    method CancelAll(at: int) returns (problem: Option<Reason>)
      requires Valid()
      modifies this`leases, this`terminal, records, buffers
      ensures Valid() && old(records) <= records && old(buffers) <= buffers
      ensures (problem, Contents()) == LeaseStore.CancelAll(old(Contents()), at)
    {
      ghost var before := Contents();
      assert forall id :: id in leases ==> before.leases[id].consuming == leases[id].consuming;
      if exists id :: id in leases && leases[id].consuming {
        var id :| id in leases && leases[id].consuming;
        assert before.leases[id].consuming;
        return Some(LeaseTerminal);
      }
      assert leases.Keys == Contents().leases.Keys;
      CleanupSet(leases.Keys, Cancelled, at);
      return None;
    }

    method Close(at: int) returns (problem: Option<Reason>)
      requires Valid()
      modifies this`leases, this`terminal, this`purposes, this`closed, records, buffers
      ensures Valid() && old(records) <= records && old(buffers) <= buffers
      ensures (problem, Contents()) == LeaseStore.Close(old(Contents()), at)
    {
      if closed {
        return None;
      }
      problem := CancelAll(at);
      if problem == None {
        purposes := map[];
        closed := true;
      }
    }

    // ----- Any sequence of sections -----

    predicate IsFresh(id: LeaseId)
      reads this`leases, this`terminal
    {
      id !in leases && id !in terminal
    }

    predicate AllHere(ids: seq<LeaseId>)
      reads this`leases
    {
      forall id :: id in ids ==> id in leases
    }

    predicate Possible(x: Section)
      reads this`leases, this`terminal
    {
      match x
      case CommitSection(r) => IsFresh(r.lease.id) && !r.consuming
      case InspectedSection(m, _, _, _) => AllHere(m.body.leaseIds)
      case ConsumedSection(m, _, _, _, _) => AllHere(m.body.leaseIds)
      case CloneSection(m, _, _, names, _) =>
        |names| == |m.body.leaseIds| && Distinct(names) && forall id :: id in names ==> IsFresh(id)
      case _ => true
    }

    lemma PossibleIsCan(x: Section)
      requires Valid()
      ensures Possible(x) <==> Can(Contents(), x)
    {
      hide Valid, LiveValues, Distinct;
      KeysAgree();
    }

    /** One critical section; one that cannot happen changes nothing. */
    method Perform(x: Section)
      requires Valid()
      modifies this, records, buffers
      ensures Valid() && old(records) <= records && old(buffers) <= buffers
      ensures fresh(records - old(records)) && fresh(buffers - old(buffers)) && Contents() == Do(env, old(Contents()), x)
    {
      PossibleIsCan(x);
      hide Valid, LiveValues, Distinct, LeaseStore.CommitSelection, LeaseStore.CloneLeases, Can;
      if !Possible(x) {
        return;
      }
      if x.CommitSection? {
        var r := new LeaseRecord(x.record.lease, x.record.content);
        var _ := CommitSelection(r);
      } else if x.CloneSection? {
        var _ := CloneLeases(x.manifest, x.at, x.ttl, x.names, x.intact);
      } else {
        hide Do;
        PerformOnPresent(x);
      }
    }

    /** A section that inserts no lease. */
    method PerformOnPresent(x: Section)
      requires Valid() && Can(Contents(), x) && !x.CommitSection? && !x.CloneSection?
      modifies this`leases, this`terminal, this`purposes, this`closed, records, buffers
      ensures Valid() && Contents() == Do(env, old(Contents()), x)
    {
      PossibleIsCan(x);
      hide Valid, LiveValues, LeaseStore.PrepareManifest, LeaseStore.PublishManifest, Approve,
        LeaseStore.BeginInspection, LeaseStore.EndInspection, LeaseStore.BeginConsumption, LeaseStore.EndConsumption,
        Cleaned, LeaseStore.CancelLease, LeaseStore.Expire, LeaseStore.CancelAll, LeaseStore.Close;
      match x
      case PrepareSection(ids, id, purpose, at, canonical) =>
        var _ := PrepareManifest(ids, id, purpose, at, canonical);
      case PublishSection(m, purpose) =>
        var _ := PublishManifest(m, purpose);
      case ApproveSection(m, at, ttl) =>
        var _ := ApproveManifest(m, at, ttl);
      case InspectSection(m, at, intact) =>
        var _ := BeginInspection(m, at, intact);
      case InspectedSection(m, ending, at, intact) =>
        var _ := EndInspection(m, ending, at, intact);
      case ConsumeSection(m, a, at, intact) =>
        var _ := BeginConsumption(m, a, at, intact);
      case ConsumedSection(m, a, ending, at, intact) =>
        var _ := EndConsumption(m, a, ending, at, intact);
      case AbortSection(ids, at) =>
        CleanupPresent(ids, Cancelled, at);
      case CancelSection(id, at) =>
        var _ := CancelLease(id, at);
      case ExpireSection(at) =>
        ExpireDue(at);
      case CancelAllSection(at) =>
        var _ := CancelAll(at);
      case CloseSection(at) =>
        var _ := Close(at);
    }

    /** Every terminal lease has a record that is all zeros and as long as its receipt says was released. */
    ghost predicate TerminalIsZeroed()
      reads this`terminal, this`records, this`buffers, this`leases, buffers
      requires Tracked()
    {
      forall id :: id in terminal ==>
        exists r :: r in records && r.lease.id == id && !IsLive(r) && Zeroed(r.buffer) && r.buffer.Length == terminal[id].released
    }

    lemma ValidMeansZeroed()
      requires Valid()
      ensures TerminalIsZeroed()
    {
      forall id | id in terminal
        ensures exists r :: r in records && r.lease.id == id && !IsLive(r) && Zeroed(r.buffer) && r.buffer.Length == terminal[id].released
      {
        var r :| r in records && r.lease.id == id;
        assert !IsLive(r) && Receipted(r);
      }
    }

    lemma ValidMeansDisjoint()
      requires Valid()
      ensures Disjoint(Contents())
    {
      hide Wiped;
    }

    /**
     * Any critical sections, one after the other: the tables are what the specification makes of them, receipts stay,
     * and the buffer of every lease that was terminal at any point before is still all zeros.
     */
    method PerformAll(xs: seq<Section>)
      requires Valid()
      modifies this, records, buffers
      ensures Valid() && old(records) <= records && old(buffers) <= buffers
      ensures fresh(records - old(records)) && fresh(buffers - old(buffers)) && Contents() == DoAll(env, old(Contents()), xs)
      ensures ReceiptsStay(old(terminal), terminal) && TerminalIsZeroed()
      ensures forall r :: r in old(records) && !old(IsLive(r)) ==> r in records && !IsLive(r) && Zeroed(r.buffer)
    {
      ValidMeansDisjoint();
      DoAllKeeps(env, Contents(), xs);
      var i := 0;
      while i < |xs|
        invariant 0 <= i <= |xs| && Valid() && old(records) <= records && old(buffers) <= buffers
        invariant fresh(records - old(records)) && fresh(buffers - old(buffers))
        invariant Contents() == DoAll(env, old(Contents()), xs[..i])
      {
        hide Valid, Contents, Do;
        assert xs[..i + 1][..i] == xs[..i];
        Perform(xs[i]);
        i := i + 1;
      }
      assert xs[..i] == xs;
      ValidMeansZeroed();
    }
  }
}
