/**
 The framed tree commitment of `compute_tree_commitment`: every path, mode and
 blob is preceded by its big-endian length.  Path and blob lengths take eight
 bytes; `modeWidth` is two in C5 and C6 and eight in C7, C8 and C9.
 */
module FramedTree {
  import opened Outcomes
  import opened Bytes

  const LENGTH_WIDTH := 8

  datatype TreeEntry = TreeEntry(path: seq<byte>, mode: seq<byte>, blob: seq<byte>)

  /** A line of the tree listing: what `_parse_tree_entries` returns. */
  datatype Listed = Listed(mode: seq<byte>, objectId: seq<byte>, path: seq<byte>)

  /** Everything that is hashed, with the two counters. */
  datatype Commitment = Commitment(stream: seq<byte>, fileCount: nat, blobBytes: nat)

  function Field(width: nat, data: seq<byte>): seq<byte> {
    BigEndian(|data|, width) + data
  }

  function Frame(modeWidth: nat, e: TreeEntry): seq<byte> {
    Field(LENGTH_WIDTH, e.path) + Field(modeWidth, e.mode) + Field(LENGTH_WIDTH, e.blob)
  }

  function Stream(modeWidth: nat, entries: seq<TreeEntry>): seq<byte> {
    if entries == [] then [] else Frame(modeWidth, entries[0]) + Stream(modeWidth, entries[1..])
  }

  /** `to_bytes` raises `OverflowError` for a length that does not fit. */
  predicate Fits(modeWidth: nat, e: TreeEntry) {
    && |e.path| < Pow256(LENGTH_WIDTH) && |e.mode| < Pow256(modeWidth) && |e.blob| < Pow256(LENGTH_WIDTH)
  }

  predicate AllFit(modeWidth: nat, entries: seq<TreeEntry>) {
    forall i :: 0 <= i < |entries| ==> Fits(modeWidth, entries[i])
  }

  // ----- Unique decodability -----

  lemma FieldIsPrefixFree(width: nat, a: seq<byte>, restA: seq<byte>, b: seq<byte>, restB: seq<byte>)
    requires |a| < Pow256(width) && |b| < Pow256(width)
    requires Field(width, a) + restA == Field(width, b) + restB
    ensures a == b && restA == restB
  {
    var s, t := Field(width, a) + restA, Field(width, b) + restB;
    assert s[..width] == BigEndian(|a|, width) && t[..width] == BigEndian(|b|, width);
    BigEndianRoundTrip(|a|, width);
    BigEndianRoundTrip(|b|, width);
    assert a == s[width..width + |a|] && b == t[width..width + |b|];
    assert restA == s[width + |a|..] && restB == t[width + |b|..];
  }

  lemma FrameIsPrefixFree(modeWidth: nat, d: TreeEntry, restD: seq<byte>, e: TreeEntry, restE: seq<byte>)
    requires Fits(modeWidth, d) && Fits(modeWidth, e)
    requires Frame(modeWidth, d) + restD == Frame(modeWidth, e) + restE
    ensures d == e && restD == restE
  {
    hide Field, Pow256;
    var d2 := Field(LENGTH_WIDTH, d.blob) + restD;
    var e2 := Field(LENGTH_WIDTH, e.blob) + restE;
    var d1 := Field(modeWidth, d.mode) + d2;
    var e1 := Field(modeWidth, e.mode) + e2;
    assert Frame(modeWidth, d) + restD == Field(LENGTH_WIDTH, d.path) + d1;
    assert Frame(modeWidth, e) + restE == Field(LENGTH_WIDTH, e.path) + e1;
    FieldIsPrefixFree(LENGTH_WIDTH, d.path, d1, e.path, e1);
    FieldIsPrefixFree(modeWidth, d.mode, d2, e.mode, e2);
    FieldIsPrefixFree(LENGTH_WIDTH, d.blob, restD, e.blob, restE);
  }

  lemma StreamCons(modeWidth: nat, entries: seq<TreeEntry>)
    requires entries != [] && AllFit(modeWidth, entries)
    ensures Stream(modeWidth, entries) == Frame(modeWidth, entries[0]) + Stream(modeWidth, entries[1..])
    ensures Stream(modeWidth, entries) != []
    ensures Fits(modeWidth, entries[0]) && AllFit(modeWidth, entries[1..])
  {
    hide Pow256;
  }

  /** Two entry lists that give the same byte stream are equal. */
  lemma {:induction false} StreamIsUniquelyDecodable(modeWidth: nat, a: seq<TreeEntry>, b: seq<TreeEntry>)
    requires AllFit(modeWidth, a) && AllFit(modeWidth, b)
    requires Stream(modeWidth, a) == Stream(modeWidth, b)
    ensures a == b
    decreases |a|
  {
    assert Stream(modeWidth, []) == [];
    hide Frame, Fits, AllFit, Stream;
    if a != [] {
      StreamCons(modeWidth, a);
    }
    if b != [] {
      StreamCons(modeWidth, b);
    }
    if a != [] && b != [] {
      FrameIsPrefixFree(modeWidth, a[0], Stream(modeWidth, a[1..]), b[0], Stream(modeWidth, b[1..]));
      StreamIsUniquelyDecodable(modeWidth, a[1..], b[1..]);
      assert a == [a[0]] + a[1..] && b == [b[0]] + b[1..];
    }
  }

  // ----- The framing loop -----

  /** The entries that the loop frames: the listing without the excluded paths, with ids replaced by blobs. */
  function Included(listing: seq<Listed>, excluded: set<seq<byte>>, blobs: map<seq<byte>, seq<byte>>): seq<TreeEntry>
    requires forall l :: l in listing && l.path !in excluded ==> l.objectId in blobs
  {
    if listing == [] then []
    else
      var init, l := listing[..|listing| - 1], listing[|listing| - 1];
      assert l in listing;
      Included(init, excluded, blobs) +
      if l.path in excluded then [] else [TreeEntry(l.path, l.mode, blobs[l.objectId])]
  }

  function TotalBlobBytes(entries: seq<TreeEntry>): nat {
    if entries == [] then 0 else TotalBlobBytes(entries[..|entries| - 1]) + |entries[|entries| - 1].blob|
  }

  /** What the loop arrives at; `None` is the overflow error. */
  function CommitmentOf(modeWidth: nat, entries: seq<TreeEntry>): Option<Commitment> {
    if AllFit(modeWidth, entries) then Some(Commitment(Stream(modeWidth, entries), |entries|, TotalBlobBytes(entries))) else None
  }

  lemma {:induction false} StreamSnoc(modeWidth: nat, entries: seq<TreeEntry>, e: TreeEntry)
    ensures Stream(modeWidth, entries + [e]) == Stream(modeWidth, entries) + Frame(modeWidth, e)
    decreases |entries|
  {
    if entries == [] {
      assert [e][1..] == [];
    } else {
      hide Frame;
      assert (entries + [e])[1..] == entries[1..] + [e];
      StreamSnoc(modeWidth, entries[1..], e);
    }
  }

  /** The framing loop of `compute_tree_commitment`. */
  method Commit(modeWidth: nat, listing: seq<Listed>, excluded: set<seq<byte>>, blobs: map<seq<byte>, seq<byte>>)
    returns (r: Option<Commitment>)
    requires forall l :: l in listing && l.path !in excluded ==> l.objectId in blobs
    ensures r == CommitmentOf(modeWidth, Included(listing, excluded, blobs))
  {
    hide Frame, Pow256;
    var c := Commitment([], 0, 0);
    ghost var done: seq<TreeEntry> := [];
    for i := 0 to |listing|
      invariant done == Included(listing[..i], excluded, blobs)
      invariant AllFit(modeWidth, done)
      invariant c == Commitment(Stream(modeWidth, done), |done|, TotalBlobBytes(done))
    {
      var l := listing[i];
      assert l in listing;
      assert listing[..i + 1][..i] == listing[..i];
      if l.path !in excluded {
        var e := TreeEntry(l.path, l.mode, blobs[l.objectId]);
        if !Fits(modeWidth, e) {
          IncludedContains(listing, excluded, blobs, i);
          return None;
        }
        StreamSnoc(modeWidth, done, e);
        assert (done + [e])[..|done|] == done;
        c := Commitment(c.stream + Frame(modeWidth, e), c.fileCount + 1, c.blobBytes + |e.blob|);
        done := done + [e];
      }
    }
    assert listing[..|listing|] == listing;
    r := Some(c);
  }

  lemma {:induction false} IncludedContains(
    listing: seq<Listed>, excluded: set<seq<byte>>, blobs: map<seq<byte>, seq<byte>>, i: nat)
    requires forall l :: l in listing && l.path !in excluded ==> l.objectId in blobs
    requires i < |listing| && listing[i].path !in excluded
    ensures TreeEntry(listing[i].path, listing[i].mode, blobs[listing[i].objectId]) in Included(listing, excluded, blobs)
    decreases |listing|
  {
    var n := |listing| - 1;
    if i < n {
      assert listing[..n][i] == listing[i];
      IncludedContains(listing[..n], excluded, blobs, i);
    }
  }

  /** The listing has this file, with this mode and these bytes. */
  ghost predicate HasFile(listing: seq<Listed>, blobs: map<seq<byte>, seq<byte>>, e: TreeEntry) {
    exists i :: 0 <= i < |listing| && listing[i].path == e.path && listing[i].mode == e.mode
                && listing[i].objectId in blobs && blobs[listing[i].objectId] == e.blob
  }

  lemma {:induction false} IncludedIsListed(
    listing: seq<Listed>, excluded: set<seq<byte>>, blobs: map<seq<byte>, seq<byte>>, e: TreeEntry)
    requires forall l :: l in listing && l.path !in excluded ==> l.objectId in blobs
    requires e in Included(listing, excluded, blobs)
    ensures e.path !in excluded && HasFile(listing, blobs, e)
    decreases |listing|
  {
    var n := |listing| - 1;
    var l := listing[n];
    assert l in listing;
    if e in Included(listing[..n], excluded, blobs) {
      IncludedIsListed(listing[..n], excluded, blobs, e);
      var i :| 0 <= i < n && listing[..n][i].path == e.path && listing[..n][i].mode == e.mode
               && listing[..n][i].objectId in blobs && blobs[listing[..n][i].objectId] == e.blob;
      assert listing[i] == listing[..n][i];
    } else {
      assert e == TreeEntry(l.path, l.mode, blobs[l.objectId]);
    }
  }

  /** Outside the excluded paths, a file is framed exactly when it is listed. */
  lemma IncludedIff(listing: seq<Listed>, excluded: set<seq<byte>>, blobs: map<seq<byte>, seq<byte>>, e: TreeEntry)
    requires forall l :: l in listing && l.path !in excluded ==> l.objectId in blobs
    ensures e in Included(listing, excluded, blobs) <==> e.path !in excluded && HasFile(listing, blobs, e)
  {
    if e in Included(listing, excluded, blobs) {
      IncludedIsListed(listing, excluded, blobs, e);
    } else if e.path !in excluded && HasFile(listing, blobs, e) {
      var i :| 0 <= i < |listing| && listing[i].path == e.path && listing[i].mode == e.mode
               && listing[i].objectId in blobs && blobs[listing[i].objectId] == e.blob;
      IncludedContains(listing, excluded, blobs, i);
    }
  }

  /**
   Two trees that can be committed have the same digest exactly when they frame the same files in the same order, and then
   they have the same files, modes and bytes outside the excluded seal; as long as the hash does not collide on the streams.
   */
  lemma EqualCommitmentsMeanEqualTrees(
    modeWidth: nat, hash: seq<byte> -> string, excluded: set<seq<byte>>,
    a: seq<Listed>, blobsA: map<seq<byte>, seq<byte>>, b: seq<Listed>, blobsB: map<seq<byte>, seq<byte>>)
    requires forall l :: l in a && l.path !in excluded ==> l.objectId in blobsA
    requires forall l :: l in b && l.path !in excluded ==> l.objectId in blobsB
    requires var x, y := CommitmentOf(modeWidth, Included(a, excluded, blobsA)), CommitmentOf(modeWidth, Included(b, excluded, blobsB));
             x.Some? && y.Some? && (hash(x.value.stream) == hash(y.value.stream) ==> x.value.stream == y.value.stream)
    ensures var x, y := CommitmentOf(modeWidth, Included(a, excluded, blobsA)), CommitmentOf(modeWidth, Included(b, excluded, blobsB));
            hash(x.value.stream) == hash(y.value.stream) <==> Included(a, excluded, blobsA) == Included(b, excluded, blobsB)
    ensures Included(a, excluded, blobsA) == Included(b, excluded, blobsB) ==>
              && CommitmentOf(modeWidth, Included(a, excluded, blobsA)) == CommitmentOf(modeWidth, Included(b, excluded, blobsB))
              && forall e: TreeEntry :: e.path !in excluded ==> (HasFile(a, blobsA, e) <==> HasFile(b, blobsB, e))
  {
    hide Stream, HasFile, Fits;
    var x, y := Included(a, excluded, blobsA), Included(b, excluded, blobsB);
    if hash(Stream(modeWidth, x)) == hash(Stream(modeWidth, y)) {
      StreamIsUniquelyDecodable(modeWidth, x, y);
    }
    hide Included;
    if x == y {
      forall e: TreeEntry | e.path !in excluded
        ensures HasFile(a, blobsA, e) <==> HasFile(b, blobsB, e)
      {
        IncludedIff(a, excluded, blobsA, e);
        IncludedIff(b, excluded, blobsB, e);
      }
    }
  }
}
