/**
 The readers of git's machine output in `c5_integration.py`: the batch reader
 `_read_blobs` and the tree listing reader `_parse_tree_entries`, with the
 printers whose output they read.
 */
module GitOutput {
  import opened Outcomes
  import opened Bytes
  import opened FramedTree

  const NUL: byte := 0
  const TAB: byte := 9
  const NEWLINE: byte := 10
  const SPACE: byte := 32
  const SLASH: byte := 47
  const ZERO: byte := 48
  const BACKSLASH: byte := 92
  const UNDERSCORE: byte := 95
  const BLOB: seq<byte> := [98, 108, 111, 98]

  // ----- Python's bytes operations -----

  /** `s[i:j]`, where negative bounds count from the end. */
  function Bound(s: seq<byte>, i: int): nat {
    if i < 0 then (if |s| + i < 0 then 0 else |s| + i) else if i > |s| then |s| else i
  }

  function Slice(s: seq<byte>, i: int, j: int): seq<byte> {
    if Bound(s, i) <= Bound(s, j) then s[Bound(s, i)..Bound(s, j)] else []
  }

  /** The first position of `c` from `start` on, or -1. */
  function IndexFrom(s: seq<byte>, c: byte, start: nat): (k: int)
    ensures k == -1 || start <= k < |s|
    decreases |s| - start
  {
    if start >= |s| then -1 else if s[start] == c then start else IndexFrom(s, c, start + 1)
  }

  /** `s.find(c, start)`. */
  function Find(s: seq<byte>, c: byte, start: int): int {
    if start > |s| then -1 else IndexFrom(s, c, Bound(s, start))
  }

  /** `s.split(sep)`: always at least one part. */
  function Split(s: seq<byte>, sep: byte): (parts: seq<seq<byte>>)
    ensures parts != []
  {
    if s == [] then [[]]
    else
      var rest := Split(s[1..], sep);
      if s[0] == sep then [[]] + rest else [[s[0]] + rest[0]] + rest[1..]
  }

  lemma {:induction false} SplitFree(s: seq<byte>, sep: byte)
    requires sep !in s
    ensures Split(s, sep) == [s]
  {
    if s != [] {
      SplitFree(s[1..], sep);
      assert [s[0]] + s[1..] == s;
    }
  }

  /** Splitting undoes joining: the first part up to the separator, then the split of the rest. */
  lemma {:induction false} SplitFirst(part: seq<byte>, sep: byte, rest: seq<byte>)
    requires sep !in part
    ensures Split(part + [sep] + rest, sep) == [part] + Split(rest, sep)
    decreases |part|
  {
    var s := part + [sep] + rest;
    if part == [] {
      assert s[1..] == rest;
    } else {
      assert s[1..] == part[1..] + [sep] + rest;
      SplitFirst(part[1..], sep, rest);
      assert [part[0]] + part[1..] == part;
    }
  }

  /** Joining undoes splitting. */
  function Join(parts: seq<seq<byte>>, sep: byte): seq<byte>
    requires parts != []
  {
    if |parts| == 1 then parts[0] else parts[0] + [sep] + Join(parts[1..], sep)
  }

  lemma {:induction false} JoinSplit(s: seq<byte>, sep: byte)
    ensures Join(Split(s, sep), sep) == s
  {
    if s != [] {
      var rest := Split(s[1..], sep);
      JoinSplit(s[1..], sep);
      var parts := Split(s, sep);
      if s[0] == sep {
        assert parts[1..] == rest;
      } else if |rest| > 1 {
        assert parts[1..] == rest[1..];
      }
      assert s == [s[0]] + s[1..];
    }
  }

  lemma {:induction false} IndexFromSkips(s: seq<byte>, c: byte, start: nat, k: nat)
    requires start <= k < |s| && s[k] == c
    requires forall i :: start <= i < k ==> s[i] != c
    ensures IndexFrom(s, c, start) == k
    decreases k - start
  {
    if start < k {
      IndexFromSkips(s, c, start + 1, k);
    }
  }

  // ----- Numbers -----

  predicate IsDigit(b: byte) {
    ZERO <= b < ZERO + 10
  }

  predicate IsWhite(b: byte) {
    9 <= b <= 13 || b == SPACE
  }

  function Strip(s: seq<byte>): seq<byte> {
    if s != [] && IsWhite(s[0]) then Strip(s[1..])
    else if s != [] && IsWhite(s[|s| - 1]) then Strip(s[..|s| - 1])
    else s
  }

  /** Digits with single underscores between them. */
  function DigitsValue(s: seq<byte>): Option<nat> {
    if s == [] || !IsDigit(s[|s| - 1]) then None
    else
      var init, d := s[..|s| - 1], s[|s| - 1] - ZERO;
      if init == [] then Some(d)
      else
        var high := if init[|init| - 1] == UNDERSCORE then DigitsValue(init[..|init| - 1]) else DigitsValue(init);
        if high == None then None else Some(10 * high.value + d)
  }

  /** `int(s)`; `None` is the value error. */
  function ParseInt(s: seq<byte>): Option<int> {
    var t := Strip(s);
    if t != [] && (t[0] == 43 || t[0] == 45) then
      match DigitsValue(t[1..])
      case None => None
      case Some(v) => Some((if t[0] == 45 then -1 else 1) * v)
    else
      match DigitsValue(t)
      case None => None
      case Some(v) => Some(v)
  }

  function Decimal(n: nat): (s: seq<byte>)
    ensures s != [] && forall i :: 0 <= i < |s| ==> IsDigit(s[i])
  {
    if n < 10 then [ZERO + n] else Decimal(n / 10) + [ZERO + n % 10]
  }

  lemma {:induction false} DecimalDigits(n: nat)
    ensures DigitsValue(Decimal(n)) == Some(n)
  {
    if n >= 10 {
      DecimalDigits(n / 10);
      var s := Decimal(n);
      assert s[..|s| - 1] == Decimal(n / 10);
    }
  }

  lemma ParseDecimal(n: nat)
    ensures ParseInt(Decimal(n)) == Some(n)
  {
    DecimalDigits(n);
    var s := Decimal(n);
    assert Strip(s) == s;
  }

  // ----- git cat-file --batch -----

  datatype BatchFault = Truncated | UnexpectedMetadata | InvalidLength | MalformedFraming | TrailingOutput

  type Blobs = map<seq<byte>, seq<byte>>

  /** `tuple(dict.fromkeys(ids))`: first occurrences, in order. */
  function Unique(ids: seq<seq<byte>>): (u: seq<seq<byte>>)
    ensures forall x :: x in u <==> x in ids
    ensures forall i, j :: 0 <= i < j < |u| ==> u[i] != u[j]
  {
    if ids == [] then []
    else
      var init, last := ids[..|ids| - 1], ids[|ids| - 1];
      assert ids == init + [last];
      if last in Unique(init) then Unique(init) else Unique(init) + [last]
  }

  function Header(id: seq<byte>, token: seq<byte>): seq<byte> {
    id + [SPACE] + (BLOB + [SPACE] + token)
  }

  function BatchFrame(id: seq<byte>, token: seq<byte>, blob: seq<byte>): seq<byte> {
    Header(id, token) + [NEWLINE] + (blob + [NEWLINE])
  }

  /** What stands for one id: the text of the size, and the bytes. */
  datatype Part = Part(token: seq<byte>, blob: seq<byte>)

  function Batch(ids: seq<seq<byte>>, parts: seq<Part>): seq<byte>
    requires |parts| == |ids|
  {
    if ids == [] then [] else BatchFrame(ids[0], parts[0].token, parts[0].blob) + Batch(ids[1..], parts[1..])
  }

  /** What git prints for an id: the size in decimal. */
  function Printed(blob: seq<byte>): Part {
    Part(Decimal(|blob|), blob)
  }

  /** What git prints for a list of ids. */
  function PrintBatch(ids: seq<seq<byte>>, blobs: Blobs): seq<byte>
    requires forall id :: id in ids ==> id in blobs
  {
    Batch(ids, PrintedParts(ids, blobs))
  }

  function PrintedParts(ids: seq<seq<byte>>, blobs: Blobs): (parts: seq<Part>)
    requires forall id :: id in ids ==> id in blobs
    ensures |parts| == |ids|
  {
    seq(|ids|, i requires 0 <= i < |ids| => Printed(blobs[ids[i]]))
  }

  /** The result of reading one frame: the blob and the next offset. */
  datatype ReadFrame = ReadFrame(blob: seq<byte>, next: int)

  /** One pass of the reader's loop. */
  function ReadOne(output: seq<byte>, offset: int, id: seq<byte>): Result<ReadFrame, BatchFault> {
    var headerEnd := Find(output, NEWLINE, offset);
    if headerEnd < 0 then Failure(Truncated)
    else
      var header := Split(Slice(output, offset, headerEnd), SPACE);
      if |header| != 3 || header[0] != id || header[1] != BLOB then Failure(UnexpectedMetadata)
      else
        match ParseInt(header[2])
        case None => Failure(InvalidLength)
        case Some(size) =>
          var start := headerEnd + 1;
          var end := start + size;
          if end >= |output| || Slice(output, end, end + 1) != [NEWLINE] then Failure(MalformedFraming)
          else Success(ReadFrame(Slice(output, start, end), end + 1))
  }

  function ReadFrom(output: seq<byte>, offset: int, ids: seq<seq<byte>>, blobs: Blobs): Result<Blobs, BatchFault>
    decreases |ids|
  {
    if ids == [] then
      if offset == |output| then Success(blobs) else Failure(TrailingOutput)
    else
      var f :- ReadOne(output, offset, ids[0]);
      ReadFrom(output, f.next, ids[1..], blobs[ids[0] := f.blob])
  }

  /** `_read_blobs`, given what git printed. */
  method ReadBlobs(output: seq<byte>, objectIds: seq<seq<byte>>) returns (r: Result<Blobs, BatchFault>)
    ensures r == ReadFrom(output, 0, Unique(objectIds), map[])
  {
    hide ReadOne, Unique;
    var ids := Unique(objectIds);
    var offset: int := 0;
    var blobs: Blobs := map[];
    for i := 0 to |ids|
      invariant ReadFrom(output, offset, ids[i..], blobs) == ReadFrom(output, 0, ids, map[])
    {
      var f := ReadOne(output, offset, ids[i]);
      assert ids[i..][1..] == ids[i + 1..];
      if f.Failure? {
        return Failure(f.error);
      }
      blobs := blobs[ids[i] := f.value.blob];
      offset := f.value.next;
    }
    r := if offset == |output| then Success(blobs) else Failure(TrailingOutput);
  }

  /** Object ids are hexadecimal: neither spaces nor newlines. */
  predicate Plain(id: seq<byte>) {
    SPACE !in id && NEWLINE !in id
  }

  /** `int` reads the text as `n`, and the text does not break its line. */
  predicate GoodToken(token: seq<byte>, n: int) {
    Plain(token) && ParseInt(token) == Some(n)
  }

  lemma HeaderSplits(id: seq<byte>, token: seq<byte>)
    requires Plain(id) && Plain(token)
    ensures Split(Header(id, token), SPACE) == [id, BLOB, token]
    ensures NEWLINE !in Header(id, token)
  {
    SplitFirst(id, SPACE, BLOB + [SPACE] + token);
    SplitFirst(BLOB, SPACE, token);
    SplitFree(token, SPACE);
  }

  lemma SplitsHeader(header: seq<byte>)
    requires var parts := Split(header, SPACE); |parts| == 3 && parts[1] == BLOB
    ensures var parts := Split(header, SPACE); header == Header(parts[0], parts[2]) && SPACE !in parts[0] && SPACE !in parts[2]
  {
    var parts := Split(header, SPACE);
    JoinSplit(header, SPACE);
    SplitPartsFree(header, SPACE);
    assert parts[0] in parts && parts[2] in parts;
    hide Split;
    assert parts[1..][1..] == [parts[2]];
    assert Join(parts[1..], SPACE) == parts[1] + [SPACE] + parts[2];
  }

  lemma {:induction false} SplitPartsFree(s: seq<byte>, sep: byte)
    ensures forall part :: part in Split(s, sep) ==> sep !in part
  {
    if s != [] {
      SplitPartsFree(s[1..], sep);
      var rest := Split(s[1..], sep);
      assert rest[0] in rest;
    }
  }

  lemma SliceMiddle(a: seq<byte>, b: seq<byte>, c: seq<byte>)
    ensures Slice(a + b + c, |a|, |a| + |b|) == b
  {
  }

  lemma FindNewline(a: seq<byte>, header: seq<byte>, c: seq<byte>)
    requires NEWLINE !in header
    ensures Find(a + header + ([NEWLINE] + c), NEWLINE, |a|) == |a| + |header|
  {
    var s, h := a + header + ([NEWLINE] + c), |a| + |header|;
    forall i | |a| <= i < h
      ensures s[i] != NEWLINE
    {
      assert s[i] == header[i - |a|];
      assert header[i - |a|] in header;
    }
    assert s[h] == NEWLINE;
    IndexFromSkips(s, NEWLINE, |a|, h);
  }

  /** Reading a frame at an offset gives back its blob, whatever bytes the blob holds. */
  lemma ReadFrameAt(output: seq<byte>, offset: nat, id: seq<byte>, part: Part, after: seq<byte>)
    requires Plain(id) && GoodToken(part.token, |part.blob|)
    requires offset <= |output| && output[offset..] == BatchFrame(id, part.token, part.blob) + after
    ensures var next := offset + |BatchFrame(id, part.token, part.blob)|;
            && ReadOne(output, offset, id) == Success(ReadFrame(part.blob, next))
            && Find(output, NEWLINE, offset) + 1 < next <= |output| && output[next..] == after
  {
    hide ReadOne, BatchFrame, Find, Plain, GoodToken;
    var before, frame := output[..offset], BatchFrame(id, part.token, part.blob);
    assert output == before + output[offset..];
    assert output == before + frame + after;
    ReadOneInverts(before, id, part, after);
  }

  lemma ReadOneInverts(before: seq<byte>, id: seq<byte>, part: Part, after: seq<byte>)
    requires Plain(id) && GoodToken(part.token, |part.blob|)
    ensures var frame := BatchFrame(id, part.token, part.blob);
            var output := before + frame + after;
            && ReadOne(output, |before|, id) == Success(ReadFrame(part.blob, |before| + |frame|))
            && Find(output, NEWLINE, |before|) + 1 < |before| + |frame|
  {
    var header, blob := Header(id, part.token), part.blob;
    var output := before + BatchFrame(id, part.token, blob) + after;
    HeaderSplits(id, part.token);
    hide Header, Split, ParseInt, Slice, Find;
    var h := |before| + |header|;
    assert output == before + header + ([NEWLINE] + (blob + [NEWLINE] + after));
    FindNewline(before, header, blob + [NEWLINE] + after);
    SliceMiddle(before, header, [NEWLINE] + (blob + [NEWLINE] + after));
    var upto := before + header + [NEWLINE];
    assert output == upto + blob + ([NEWLINE] + after);
    SliceMiddle(upto, blob, [NEWLINE] + after);
    assert output == (upto + blob) + [NEWLINE] + after;
    SliceMiddle(upto + blob, [NEWLINE], after);
  }

  /** Conversely: what was read as a frame that ends behind its header is one. */
  lemma ReadOneReads(output: seq<byte>, offset: nat, id: seq<byte>) returns (part: Part)
    requires offset <= |output| && ReadOne(output, offset, id).Success?
    requires Find(output, NEWLINE, offset) + 1 < ReadOne(output, offset, id).value.next
    ensures var f := ReadOne(output, offset, id).value;
            && part.blob == f.blob && Plain(id) && GoodToken(part.token, |part.blob|)
            && offset <= f.next <= |output| && output[offset..f.next] == BatchFrame(id, part.token, part.blob)
  {
    var h := Find(output, NEWLINE, offset);
    FindFinds(output, NEWLINE, offset);
    var header := output[offset..h];
    assert Slice(output, offset, h) == header;
    SplitsHeader(header);
    var token := Split(header, SPACE)[2];
    var f := ReadOne(output, offset, id).value;
    var end := f.next - 1;
    assert ParseInt(token) == Some(end - h - 1);
    part := Part(token, f.blob);
    hide Split, ParseInt, ReadOne, Find, IndexFrom;
    assert f.blob == output[h + 1..end] && output[end] == NEWLINE by {
      ReadOneSlices(output, offset, id);
    }
    assert header == Header(id, token);
    HeaderAvoids(id, token, header, NEWLINE);
    assert output[offset..f.next] == header + [output[h]] + (output[h + 1..end] + [output[end]]);
  }

  lemma ReadOneSlices(output: seq<byte>, offset: nat, id: seq<byte>)
    requires offset <= |output| && ReadOne(output, offset, id).Success?
    requires Find(output, NEWLINE, offset) + 1 < ReadOne(output, offset, id).value.next
    ensures var h, f := Find(output, NEWLINE, offset), ReadOne(output, offset, id).value;
            h + 1 < f.next <= |output| && h >= 0 && f.blob == output[h + 1..f.next - 1] && output[f.next - 1] == NEWLINE
  {
    hide Split, ParseInt, Find;
    var end := ReadOne(output, offset, id).value.next - 1;
    assert Slice(output, end, end + 1) == output[end..end + 1];
    assert output[end] == output[end..end + 1][0];
  }

  lemma FindFinds(s: seq<byte>, c: byte, start: nat)
    requires start <= |s| && Find(s, c, start) >= 0
    ensures var h := Find(s, c, start); start <= h < |s| && s[h] == c && c !in s[start..h]
  {
    IndexFromFinds(s, c, start);
    IndexFromFirst(s, c, start);
  }

  lemma {:induction false} IndexFromFirst(s: seq<byte>, c: byte, start: nat)
    ensures var k := IndexFrom(s, c, start); k >= 0 ==> forall i :: start <= i < k ==> s[i] != c
    decreases |s| - start
  {
    if start < |s| && s[start] != c {
      IndexFromFirst(s, c, start + 1);
    }
  }

  /** The dictionary that the reader's loop builds. */
  function Collect(ids: seq<seq<byte>>, parts: seq<Part>, acc: Blobs): Blobs
    requires |parts| == |ids|
    decreases |ids|
  {
    if ids == [] then acc else Collect(ids[1..], parts[1..], acc[ids[0] := parts[0].blob])
  }

  lemma {:induction false} CollectIsLookup(ids: seq<seq<byte>>, parts: seq<Part>, blobs: Blobs, acc: Blobs)
    requires |parts| == |ids| && forall i :: 0 <= i < |ids| ==> ids[i] in blobs && parts[i].blob == blobs[ids[i]]
    ensures forall id :: id in Collect(ids, parts, acc) <==> id in acc || id in ids
    ensures forall id :: id in ids ==> Collect(ids, parts, acc)[id] == blobs[id]
    ensures forall id :: id in acc && id !in ids ==> Collect(ids, parts, acc)[id] == acc[id]
    decreases |ids|
  {
    if ids != [] {
      assert ids == [ids[0]] + ids[1..];
      CollectIsLookup(ids[1..], parts[1..], blobs, acc[ids[0] := parts[0].blob]);
    }
  }

  /** No header announces a negative size: every frame ends behind its header. */
  predicate Forward(output: seq<byte>, offset: int, ids: seq<seq<byte>>)
    decreases |ids|
  {
    ids == [] ||
    var f := ReadOne(output, offset, ids[0]);
    f.Success? && Find(output, NEWLINE, offset) + 1 < f.value.next && Forward(output, f.value.next, ids[1..])
  }

  /** One part for each id, all on one line each and with sizes that read as the lengths. */
  predicate Fitting(ids: seq<seq<byte>>, parts: seq<Part>) {
    && |parts| == |ids|
    && (ids != [] ==> Plain(ids[0]) && GoodToken(parts[0].token, |parts[0].blob|) && Fitting(ids[1..], parts[1..]))
  }

  lemma ReadFromSteps(output: seq<byte>, offset: int, ids: seq<seq<byte>>, acc: Blobs)
    requires ids != []
    ensures var f := ReadOne(output, offset, ids[0]);
            && (f.Failure? ==> ReadFrom(output, offset, ids, acc) == Failure(f.error) && !Forward(output, offset, ids))
            && (f.Success? ==>
                  && ReadFrom(output, offset, ids, acc) == ReadFrom(output, f.value.next, ids[1..], acc[ids[0] := f.value.blob])
                  && (Forward(output, offset, ids) <==>
                        Find(output, NEWLINE, offset) + 1 < f.value.next && Forward(output, f.value.next, ids[1..])))
  {
    hide ReadOne, Find;
  }

  lemma {:induction false} ReadFromInverts(output: seq<byte>, offset: nat, ids: seq<seq<byte>>, parts: seq<Part>, acc: Blobs)
    requires Fitting(ids, parts) && offset <= |output| && output[offset..] == Batch(ids, parts)
    ensures ReadFrom(output, offset, ids, acc) == Success(Collect(ids, parts, acc)) && Forward(output, offset, ids)
    decreases |ids|
  {
    if ids != [] {
      hide ReadOne, BatchFrame, Plain, GoodToken, Find, Batch, ReadFrom, Forward, Collect;
      var part := parts[0];
      var next := offset + |BatchFrame(ids[0], part.token, part.blob)|;
      BatchCons(ids, parts, acc);
      ReadFrameAt(output, offset, ids[0], part, Batch(ids[1..], parts[1..]));
      ReadFromSteps(output, offset, ids, acc);
      ReadFromInverts(output, next, ids[1..], parts[1..], acc[ids[0] := part.blob]);
    }
  }

  lemma BatchCons(ids: seq<seq<byte>>, parts: seq<Part>, acc: Blobs)
    requires |parts| == |ids| && ids != []
    ensures Batch(ids, parts) == BatchFrame(ids[0], parts[0].token, parts[0].blob) + Batch(ids[1..], parts[1..])
    ensures Collect(ids, parts, acc) == Collect(ids[1..], parts[1..], acc[ids[0] := parts[0].blob])
  {
    hide BatchFrame;
  }

  lemma {:induction false} ForwardIsBatch(output: seq<byte>, offset: nat, ids: seq<seq<byte>>, acc: Blobs) returns (parts: seq<Part>)
    requires offset <= |output| && ReadFrom(output, offset, ids, acc).Success? && Forward(output, offset, ids)
    ensures Fitting(ids, parts) && output[offset..] == Batch(ids, parts)
    decreases |ids|
  {
    if ids == [] {
      parts := [];
    } else {
      ReadFromSteps(output, offset, ids, acc);
      hide ReadFrom, Forward, GoodToken, BatchFrame;
      var part := ReadOneReads(output, offset, ids[0]);
      hide ReadOne, Find;
      var next := ReadOne(output, offset, ids[0]).value.next;
      var rest := ForwardIsBatch(output, next, ids[1..], acc[ids[0] := part.blob]);
      parts := [part] + rest;
      assert parts[1..] == rest;
      assert output[offset..] == output[offset..next] + output[next..];
    }
  }

  /** The reader accepts a stream in which no header announces a negative size exactly when it is a batch for the ids. */
  lemma ForwardAcceptedIff(output: seq<byte>, ids: seq<seq<byte>>)
    ensures ReadFrom(output, 0, ids, map[]).Success? && Forward(output, 0, ids) <==>
            exists parts :: Fitting(ids, parts) && output == Batch(ids, parts)
  {
    hide ReadFrom, Forward, Batch;
    if ReadFrom(output, 0, ids, map[]).Success? && Forward(output, 0, ids) {
      var parts := ForwardIsBatch(output, 0, ids, map[]);
      assert output[0..] == output;
    }
    if parts :| Fitting(ids, parts) && output == Batch(ids, parts) {
      assert output[0..] == output;
      ReadFromInverts(output, 0, ids, parts, map[]);
    }
  }

  /** The text of a header that announces a size of minus one. */
  const MINUS_ONE: seq<byte> := [45, 49]

  /** Without that condition the reader accepts more: a size of minus one ends the frame on its own header. */
  lemma NegativeSizeIsAccepted(id: seq<byte>)
    requires Plain(id)
    ensures var output := Header(id, MINUS_ONE) + [NEWLINE];
            ReadFrom(output, 0, [id], map[]) == Success(map[id := []]) && !Forward(output, 0, [id])
  {
    var header := Header(id, MINUS_ONE);
    var output := header + [NEWLINE];
    assert ParseInt(MINUS_ONE) == Some(-1) by {
      assert Strip(MINUS_ONE) == MINUS_ONE && MINUS_ONE[1..] == [49];
      assert DigitsValue([49]) == Some(1);
    }
    HeaderSplits(id, MINUS_ONE);
    FindNewline([], header, []);
    assert [] + header + ([NEWLINE] + []) == output;
    hide Header, Split, ParseInt, Find;
    assert Slice(output, 0, |header|) == header;
    assert Slice(output, |header|, |header| + 1) == [NEWLINE];
    assert ReadOne(output, 0, id) == Success(ReadFrame([], |header| + 1));
    hide ReadOne;
    assert [id][1..] == [];
    ReadFromSteps(output, 0, [id], map[]);
  }

  /**
   The batch reader inverts the batch printer: for any ids, repeated or not, and
   any blobs, newlines and header-like bytes included, it returns exactly those
   blobs and consumes the whole stream.
   */
  lemma BatchRoundTrip(objectIds: seq<seq<byte>>, blobs: Blobs)
    requires forall id :: id in objectIds ==> id in blobs && Plain(id)
    ensures ReadFrom(PrintBatch(Unique(objectIds), blobs), 0, Unique(objectIds), map[]) ==
            Success(map id | id in objectIds :: blobs[id])
  {
    var ids := Unique(objectIds);
    hide ReadFrom, PrintBatch, Collect;
    PrintedBatchIsRead(ids, blobs);
    PrintedLookup(objectIds, ids, blobs);
  }

  lemma PrintedBatchIsRead(ids: seq<seq<byte>>, blobs: Blobs)
    requires forall id :: id in ids ==> id in blobs && Plain(id)
    ensures ReadFrom(PrintBatch(ids, blobs), 0, ids, map[]) == Success(Collect(ids, PrintedParts(ids, blobs), map[]))
  {
    hide ReadFrom, Batch, Collect, Forward, PrintedParts, Plain;
    PrintedFits(ids, blobs);
    var parts := PrintedParts(ids, blobs);
    hide Fitting;
    var output := Batch(ids, parts);
    assert output[0..] == output;
    ReadFromInverts(output, 0, ids, parts, map[]);
  }

  lemma PrintedLookup(objectIds: seq<seq<byte>>, ids: seq<seq<byte>>, blobs: Blobs)
    requires (forall id :: id in ids <==> id in objectIds) && forall id :: id in ids ==> id in blobs
    ensures Collect(ids, PrintedParts(ids, blobs), map[]) == map id | id in objectIds :: blobs[id]
  {
    assert forall i :: 0 <= i < |ids| ==> ids[i] in ids;
    var parts := PrintedParts(ids, blobs);
    assert forall i :: 0 <= i < |ids| ==> ids[i] in blobs && parts[i].blob == blobs[ids[i]];
    hide Collect, PrintedParts;
    CollectIsLookup(ids, parts, blobs, map[]);
  }

  lemma {:induction false} PrintedFits(ids: seq<seq<byte>>, blobs: Blobs)
    requires forall id :: id in ids ==> id in blobs && Plain(id)
    ensures Fitting(ids, PrintedParts(ids, blobs))
    decreases |ids|
  {
    if ids != [] {
      hide Plain, GoodToken;
      assert ids[0] in ids;
      PrintedIsGood(blobs[ids[0]]);
      PrintedFits(ids[1..], blobs);
      assert PrintedParts(ids, blobs)[1..] == PrintedParts(ids[1..], blobs);
    }
  }

  lemma PrintedIsGood(blob: seq<byte>)
    ensures GoodToken(Printed(blob).token, |blob|)
  {
    ParseDecimal(|blob|);
  }

  // ----- git ls-tree -rz -----

  datatype TreeFault = MalformedListing | NotABlob | InvalidUtf8 | NonCanonicalPath | NotSorted

  predicate CanonicalPath(path: seq<byte>) {
    !(path != [] && path[0] == SLASH) && BACKSLASH !in path && [46, 46] !in Split(path, SLASH)
  }

  /** Byte order, which is also the code point order of UTF-8 text. */
  predicate AtMost(a: seq<byte>, b: seq<byte>) {
    a == [] || (b != [] && (a[0] < b[0] || (a[0] == b[0] && AtMost(a[1..], b[1..]))))
  }

  predicate SortedPaths(listing: seq<Listed>) {
    forall i :: 0 < i < |listing| ==> AtMost(listing[i - 1].path, listing[i].path)
  }

  /** One record between NULs; `isUtf8` is the strict decoder. */
  function ParseRecord(isUtf8: seq<byte> -> bool, record: seq<byte>): Result<Listed, TreeFault> {
    var tab := IndexFrom(record, TAB, 0);
    if tab < 0 then Failure(MalformedListing)
    else
      var parts, path := Split(record[..tab], SPACE), record[tab + 1..];
      if |parts| != 3 || parts[1] != BLOB then Failure(NotABlob)
      else if !isUtf8(path) then Failure(InvalidUtf8)
      else if !CanonicalPath(path) then Failure(NonCanonicalPath)
      else Success(Listed(parts[0], parts[2], path))
  }

  function ParseRecords(isUtf8: seq<byte> -> bool, records: seq<seq<byte>>): Result<seq<Listed>, TreeFault> {
    if records == [] then Success([])
    else
      var init :- ParseRecords(isUtf8, records[..|records| - 1]);
      var record := records[|records| - 1];
      if record == [] then Success(init)
      else
        var l :- ParseRecord(isUtf8, record);
        Success(init + [l])
  }

  function ParseTree(isUtf8: seq<byte> -> bool, raw: seq<byte>): Result<seq<Listed>, TreeFault> {
    var listing :- ParseRecords(isUtf8, Split(raw, NUL));
    if SortedPaths(listing) then Success(listing) else Failure(NotSorted)
  }

  lemma {:induction false} ParseFailureIsFinal(isUtf8: seq<byte> -> bool, records: seq<seq<byte>>, n: nat)
    requires n <= |records| && ParseRecords(isUtf8, records[..n]).Failure?
    ensures ParseRecords(isUtf8, records) == ParseRecords(isUtf8, records[..n])
    decreases |records| - n
  {
    if n == |records| {
      assert records[..n] == records;
    } else {
      assert records[..n + 1][..n] == records[..n];
      ParseFailureIsFinal(isUtf8, records, n + 1);
    }
  }

  /** `_parse_tree_entries`. */
  method ReadTree(isUtf8: seq<byte> -> bool, raw: seq<byte>) returns (r: Result<seq<Listed>, TreeFault>)
    ensures r == ParseTree(isUtf8, raw)
  {
    hide ParseRecord, Split;
    var records := Split(raw, NUL);
    var listing: seq<Listed> := [];
    for i := 0 to |records|
      invariant ParseRecords(isUtf8, records[..i]) == Success(listing)
    {
      assert records[..i + 1][..i] == records[..i];
      if records[i] != [] {
        var l := ParseRecord(isUtf8, records[i]);
        if l.Failure? {
          ParseFailureIsFinal(isUtf8, records, i + 1);
          return Failure(l.error);
        }
        listing := listing + [l.value];
      }
    }
    assert records[..|records|] == records;
    r := if SortedPaths(listing) then Success(listing) else Failure(NotSorted);
  }

  function PrintRecord(l: Listed): seq<byte> {
    l.mode + [SPACE] + BLOB + [SPACE] + l.objectId + [TAB] + l.path
  }

  /** What git prints: every record ends with a NUL. */
  function PrintTree(listing: seq<Listed>): seq<byte> {
    if listing == [] then [] else PrintRecord(listing[0]) + [NUL] + PrintTree(listing[1..])
  }

  predicate Printable(isUtf8: seq<byte> -> bool, l: Listed) {
    && (forall b :: b in [NUL, TAB, SPACE] ==> b !in l.mode && b !in l.objectId)
    && NUL !in l.path && isUtf8(l.path) && CanonicalPath(l.path)
  }

  lemma RecordRoundTrip(isUtf8: seq<byte> -> bool, l: Listed)
    requires Printable(isUtf8, l)
    ensures ParseRecord(isUtf8, PrintRecord(l)) == Success(l)
    ensures NUL !in PrintRecord(l) && PrintRecord(l) != []
  {
    var meta := l.mode + [SPACE] + (BLOB + [SPACE] + l.objectId);
    var record := PrintRecord(l);
    assert NUL in [NUL, TAB, SPACE] && TAB in [NUL, TAB, SPACE] && SPACE in [NUL, TAB, SPACE];
    assert record == meta + [TAB] + l.path;
    assert TAB !in meta;
    IndexFromSkips(record, TAB, 0, |meta|);
    assert record[..|meta|] == meta && record[|meta| + 1..] == l.path;
    SplitFirst(l.mode, SPACE, BLOB + [SPACE] + l.objectId);
    SplitFirst(BLOB, SPACE, l.objectId);
    SplitFree(l.objectId, SPACE);
  }

  lemma {:induction false} ParseRecordsConcat(isUtf8: seq<byte> -> bool, a: seq<seq<byte>>, b: seq<seq<byte>>, listing: seq<Listed>)
    requires ParseRecords(isUtf8, a) == Success(listing) && ParseRecords(isUtf8, b).Success?
    ensures ParseRecords(isUtf8, a + b) == Success(listing + ParseRecords(isUtf8, b).value)
    decreases |b|
  {
    if b == [] {
      assert a + b == a && listing + [] == listing;
    } else {
      hide ParseRecord;
      var n := |b| - 1;
      ParseRecordsConcat(isUtf8, a, b[..n], listing);
      assert (a + b)[..|a + b| - 1] == a + b[..n];
      assert (a + b)[|a + b| - 1] == b[n];
      var init := ParseRecords(isUtf8, b[..n]).value;
      if b[n] != [] {
        var l := ParseRecord(isUtf8, b[n]).value;
        assert listing + init + [l] == listing + (init + [l]);
      }
    }
  }

  lemma ParseOneRecord(isUtf8: seq<byte> -> bool, record: seq<byte>)
    requires record != [] && ParseRecord(isUtf8, record).Success?
    ensures ParseRecords(isUtf8, [record]) == Success([ParseRecord(isUtf8, record).value])
  {
    hide ParseRecord;
    var one := [record];
    assert one[..|one| - 1] == [];
    assert ParseRecords(isUtf8, one[..|one| - 1]) == Success([]);
    assert [] + [ParseRecord(isUtf8, record).value] == [ParseRecord(isUtf8, record).value];
  }

  lemma {:induction false} RecordsRoundTrip(isUtf8: seq<byte> -> bool, listing: seq<Listed>)
    requires forall l :: l in listing ==> Printable(isUtf8, l)
    ensures ParseRecords(isUtf8, Split(PrintTree(listing), NUL)) == Success(listing)
    decreases |listing|
  {
    if listing == [] {
      var none: seq<seq<byte>> := [[]];
      assert Split([], NUL) == none && none[..0] == [];
      assert ParseRecords(isUtf8, none) == Success([]);
    } else {
      hide ParseRecord, PrintRecord, Printable;
      var l, rest := listing[0], listing[1..];
      assert l in listing;
      RecordRoundTrip(isUtf8, l);
      RecordsRoundTrip(isUtf8, rest);
      SplitFirst(PrintRecord(l), NUL, PrintTree(rest));
      var one := [PrintRecord(l)];
      ParseOneRecord(isUtf8, PrintRecord(l));
      ParseRecordsConcat(isUtf8, one, Split(PrintTree(rest), NUL), [l]);
      assert listing == [l] + rest;
    }
  }

  /** The listing reader inverts the listing printer. */
  lemma TreeRoundTrip(isUtf8: seq<byte> -> bool, listing: seq<Listed>)
    requires forall l :: l in listing ==> Printable(isUtf8, l)
    ensures ParseTree(isUtf8, PrintTree(listing)) ==
            if SortedPaths(listing) then Success(listing) else Failure(NotSorted)
  {
    RecordsRoundTrip(isUtf8, listing);
  }

  function NonEmpty(records: seq<seq<byte>>): seq<seq<byte>> {
    if records == [] then []
    else NonEmpty(records[..|records| - 1]) + if records[|records| - 1] == [] then [] else [records[|records| - 1]]
  }

  /** Records, each ended by a NUL. */
  function Ended(records: seq<seq<byte>>): seq<byte> {
    if records == [] then [] else records[0] + [NUL] + Ended(records[1..])
  }

  lemma {:induction false} EndedSnoc(records: seq<seq<byte>>, r: seq<byte>)
    ensures Ended(records + [r]) == Ended(records) + r + [NUL]
    decreases |records|
  {
    if records == [] {
      assert [r][1..] == [];
    } else {
      assert (records + [r])[1..] == records[1..] + [r];
      EndedSnoc(records[1..], r);
    }
  }

  /** Ended records are read back by splitting. */
  lemma {:induction false} SplitEnded(records: seq<seq<byte>>)
    requires forall r :: r in records ==> NUL !in r
    ensures Split(Ended(records), NUL) == records + [[]]
    decreases |records|
  {
    if records != [] {
      assert records[0] in records;
      SplitFirst(records[0], NUL, Ended(records[1..]));
      hide Split, Ended;
      SplitEnded(records[1..]);
      assert [records[0]] + (records[1..] + [[]]) == records + [[]];
    }
  }

  lemma ParseSnoc(isUtf8: seq<byte> -> bool, records: seq<seq<byte>>, r: seq<byte>)
    ensures ParseRecords(isUtf8, records + [r]) ==
            if ParseRecords(isUtf8, records).Failure? then ParseRecords(isUtf8, records)
            else if r == [] then ParseRecords(isUtf8, records)
            else if ParseRecord(isUtf8, r).Failure? then Failure(ParseRecord(isUtf8, r).error)
            else Success(ParseRecords(isUtf8, records).value + [ParseRecord(isUtf8, r).value])
  {
    hide ParseRecord;
    assert (records + [r])[..|records|] == records;
  }

  lemma {:induction false} NonEmptyParses(isUtf8: seq<byte> -> bool, records: seq<seq<byte>>)
    ensures ParseRecords(isUtf8, NonEmpty(records)) == ParseRecords(isUtf8, records)
    ensures forall r :: r in NonEmpty(records) ==> r in records
    decreases |records|
  {
    if records != [] {
      hide ParseRecords;
      var n := |records| - 1;
      NonEmptyParses(isUtf8, records[..n]);
      assert records == records[..n] + [records[n]];
      ParseSnoc(isUtf8, records[..n], records[n]);
      ParseSnoc(isUtf8, NonEmpty(records[..n]), records[n]);
      var kept := NonEmpty(records[..n]);
      if records[n] == [] {
        assert kept + [] == kept;
      } else {
        assert (kept + [records[n]])[..|kept|] == kept;
      }
    }
  }

  lemma {:induction false} PrintTreeSnoc(listing: seq<Listed>, l: Listed)
    ensures PrintTree(listing + [l]) == PrintTree(listing) + PrintRecord(l) + [NUL]
    decreases |listing|
  {
    if listing == [] {
      assert [l][1..] == [];
    } else {
      hide PrintRecord;
      assert (listing + [l])[1..] == listing[1..] + [l];
      PrintTreeSnoc(listing[1..], l);
    }
  }

  lemma AcceptedRecordIsPrinted(isUtf8: seq<byte> -> bool, record: seq<byte>)
    requires ParseRecord(isUtf8, record).Success?
    ensures PrintRecord(ParseRecord(isUtf8, record).value) == record
  {
    var tab := IndexFrom(record, TAB, 0);
    IndexFromFinds(record, TAB, 0);
    var parts := Split(record[..tab], SPACE);
    JoinSplit(record[..tab], SPACE);
    assert parts[1..] == [parts[1], parts[2]] && parts[1..][1..] == [parts[2]];
    assert Join(parts[1..], SPACE) == parts[1] + [SPACE] + parts[2];
    assert Join(parts, SPACE) == parts[0] + [SPACE] + Join(parts[1..], SPACE);
    hide Split, Join;
    assert record == record[..tab] + [TAB] + record[tab + 1..];
  }

  lemma {:induction false} IndexFromFinds(s: seq<byte>, c: byte, start: nat)
    ensures IndexFrom(s, c, start) >= 0 ==> s[IndexFrom(s, c, start)] == c
    decreases |s| - start
  {
    if start < |s| && s[start] != c {
      IndexFromFinds(s, c, start + 1);
    }
  }

  lemma {:induction false} AcceptedRecordsArePrinted(isUtf8: seq<byte> -> bool, records: seq<seq<byte>>)
    requires ParseRecords(isUtf8, records).Success?
    ensures PrintTree(ParseRecords(isUtf8, records).value) == Ended(NonEmpty(records))
    decreases |records|
  {
    if records != [] {
      hide ParseRecord, PrintRecord, PrintTree, Ended;
      var n := |records| - 1;
      var init, record := records[..n], records[n];
      AcceptedRecordsArePrinted(isUtf8, init);
      if record != [] {
        AcceptedRecordIsPrinted(isUtf8, record);
        PrintTreeSnoc(ParseRecords(isUtf8, init).value, ParseRecord(isUtf8, record).value);
        EndedSnoc(NonEmpty(init), record);
      } else {
        assert NonEmpty(init) + [] == NonEmpty(init);
      }
    } else {
      assert PrintTree([]) == [] == Ended([]);
    }
  }

  lemma AcceptedRecordIsPrintable(isUtf8: seq<byte> -> bool, record: seq<byte>)
    requires ParseRecord(isUtf8, record).Success? && NUL !in record
    ensures Printable(isUtf8, ParseRecord(isUtf8, record).value)
  {
    var tab := IndexFrom(record, TAB, 0);
    IndexFromFirst(record, TAB, 0);
    var meta := record[..tab];
    assert TAB !in meta && NUL !in meta;
    SplitPartsFree(meta, SPACE);
    var parts := Split(meta, SPACE);
    assert parts[0] in parts && parts[2] in parts;
    SplitsHeader(meta);
    hide Split, CanonicalPath, IndexFrom;
    HeaderAvoids(parts[0], parts[2], meta, TAB);
    HeaderAvoids(parts[0], parts[2], meta, NUL);
  }

  lemma HeaderAvoids(id: seq<byte>, token: seq<byte>, header: seq<byte>, b: byte)
    requires header == Header(id, token) && b !in header
    ensures b !in id && b !in token
  {
    var k := |header| - |token|;
    assert forall i :: 0 <= i < |id| ==> id[i] == header[i] && header[i] in header;
    assert forall i :: 0 <= i < |token| ==> token[i] == header[k + i] && header[k + i] in header;
  }

  lemma {:induction false} AcceptedListingIsPrintable(isUtf8: seq<byte> -> bool, records: seq<seq<byte>>)
    requires ParseRecords(isUtf8, records).Success? && forall r :: r in records ==> NUL !in r
    ensures forall l :: l in ParseRecords(isUtf8, records).value ==> Printable(isUtf8, l)
    decreases |records|
  {
    if records != [] {
      hide ParseRecord, Printable;
      var n := |records| - 1;
      assert records[n] in records && forall r :: r in records[..n] ==> r in records;
      AcceptedListingIsPrintable(isUtf8, records[..n]);
      if records[n] != [] {
        AcceptedRecordIsPrintable(isUtf8, records[n]);
      }
    }
  }

  /** Records that end up as the printer's output parse to what was printed. */
  lemma ReprintedIsAccepted(isUtf8: seq<byte> -> bool, records: seq<seq<byte>>, listing: seq<Listed>)
    requires forall r :: r in records ==> NUL !in r
    requires (forall l :: l in listing ==> Printable(isUtf8, l)) && Ended(NonEmpty(records)) == PrintTree(listing)
    ensures ParseRecords(isUtf8, records) == Success(listing)
  {
    hide ParseRecord, Printable, PrintTree, Ended;
    var kept := NonEmpty(records);
    NonEmptyParses(isUtf8, records);
    hide NonEmpty;
    RecordsRoundTrip(isUtf8, listing);
    SplitEnded(kept);
    hide Split;
    assert (kept + [[]])[..|kept|] == kept;
  }

  /** The reader returns a listing exactly when its entries are printable and sorted and the output, without empty records, is its print. */
  lemma ListingAcceptedIff(isUtf8: seq<byte> -> bool, raw: seq<byte>, listing: seq<Listed>)
    ensures ParseTree(isUtf8, raw) == Success(listing) <==>
            && (forall l :: l in listing ==> Printable(isUtf8, l)) && SortedPaths(listing)
            && Ended(NonEmpty(Split(raw, NUL))) == PrintTree(listing)
  {
    hide ParseRecords, Printable, PrintTree, Ended, NonEmpty, Split, SortedPaths;
    var records := Split(raw, NUL);
    SplitPartsFree(raw, NUL);
    if ParseTree(isUtf8, raw) == Success(listing) {
      AcceptedRecordsArePrinted(isUtf8, records);
      AcceptedListingIsPrintable(isUtf8, records);
    }
    if (forall l :: l in listing ==> Printable(isUtf8, l)) && Ended(NonEmpty(records)) == PrintTree(listing) {
      ReprintedIsAccepted(isUtf8, records, listing);
    }
  }
}
