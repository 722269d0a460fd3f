/** JPEG inspection (`_inspect_jpeg`) and sanitising (`_sanitize_jpeg`, `_validate_dqt`, `_validate_dht`). */
module Jpeg {
  import opened Outcomes
  import opened Bytes
  import opened ImageLimits

  datatype Policy = Policy(limits: Limits, maxSegments: nat)

  /** A marker segment as it stands in the file: fill bytes, the marker, two length bytes and the payload. */
  datatype Segment = Segment(fill: nat, marker: byte, length: seq<byte>, payload: seq<byte>)

  const SOI: seq<byte> := [0xFF, 0xD8]

  // ----- Segments -----

  predicate IsStandalone(marker: byte) {
    0xD0 <= marker <= 0xD7 || marker == 0x01
  }

  predicate IsSof(marker: byte) {
    0xC0 <= marker <= 0xCF && marker !in {0xC4, 0xC8, 0xCC}
  }

  /** Markers that carry a segment. */
  predicate CarriesSegment(marker: byte) {
    !IsStandalone(marker) && marker !in {0x00, 0xD8, 0xD9, 0xFF}
  }

  predicate Shaped(s: Segment) {
    s.fill >= 1 && CarriesSegment(s.marker) && |s.length| == 2 && FromBigEndian(s.length) == |s.payload| + 2
  }

  function Fill(n: nat): (f: seq<byte>)
    ensures |f| == n && forall i :: 0 <= i < n ==> f[i] == 0xFF
  {
    if n == 0 then [] else [0xFF] + Fill(n - 1)
  }

  function Raw(s: Segment): seq<byte> {
    Fill(s.fill) + [s.marker] + s.length + s.payload
  }

  function Flat(ss: seq<Segment>): seq<byte> {
    if ss == [] then [] else Raw(ss[0]) + Flat(ss[1..])
  }

  /** The number of leading 0xFF bytes. */
  function Leading(rest: seq<byte>): (k: nat)
    ensures k <= |rest| && (forall i :: 0 <= i < k ==> rest[i] == 0xFF) && (k < |rest| ==> rest[k] != 0xFF)
  {
    if rest == [] || rest[0] != 0xFF then 0 else 1 + Leading(rest[1..])
  }

  /** The segment at the head of `rest`. */
  function Head(rest: seq<byte>): (s: Option<Segment>)
    ensures s.Some? ==> Shaped(s.value) && |Raw(s.value)| >= 4 && Raw(s.value) <= rest
  {
    var k := Leading(rest);
    if k == 0 || k + 3 > |rest| || !CarriesSegment(rest[k]) then None
    else
      var n := FromBigEndian(rest[k + 1..k + 3]);
      if n < 2 || k + 1 + n > |rest| then None
      else
        var s := Segment(k, rest[k], rest[k + 1..k + 3], rest[k + 3..k + 1 + n]);
        assert Raw(s) == rest[..k + 1 + n];
        Some(s)
  }

  lemma {:induction false} LeadingOfFill(n: nat, tail: seq<byte>)
    requires tail != [] && tail[0] != 0xFF
    ensures Leading(Fill(n) + tail) == n
  {
    if n == 0 {
      assert Fill(n) + tail == tail;
    } else {
      assert (Fill(n) + tail)[1..] == Fill(n - 1) + tail;
      LeadingOfFill(n - 1, tail);
    }
  }

  lemma HeadOfFlat(s: Segment, tail: seq<byte>)
    requires Shaped(s)
    ensures Head(Raw(s) + tail) == Some(s) && (Raw(s) + tail)[|Raw(s)|..] == tail && |Raw(s)| == s.fill + 3 + |s.payload|
  {
    var rest := Raw(s) + tail;
    var k := s.fill;
    assert rest == Fill(k) + ([s.marker] + s.length + s.payload + tail);
    LeadingOfFill(k, [s.marker] + s.length + s.payload + tail);
    assert rest[k + 1..k + 3] == s.length;
    assert rest[k + 3..k + 3 + |s.payload|] == s.payload;
  }

  /** The segments up to and including the start of scan, and what follows. */
  function Split(rest: seq<byte>): Option<(seq<Segment>, seq<byte>)>
    decreases |rest|
  {
    if |rest| <= 2 then None
    else
      match Head(rest)
      case None => None
      case Some(s) =>
        var tail := rest[|Raw(s)|..];
        if s.marker == 0xDA then Some(([s], tail))
        else
          match Split(tail)
          case None => None
          case Some((ss, scan)) => Some(([s] + ss, scan))
  }

  /** Segments of which exactly the last is the start of scan. */
  ghost predicate Listed(ss: seq<Segment>) {
    ss != [] && Shaped(ss[0]) && if ss[0].marker == 0xDA then |ss| == 1 else Listed(ss[1..])
  }

  lemma SplitCases(rest: seq<byte>)
    requires Split(rest).Some?
    ensures Head(rest).Some? && rest == Raw(Head(rest).value) + rest[|Raw(Head(rest).value)|..]
    ensures var s := Head(rest).value;
            var tail := rest[|Raw(s)|..];
            if s.marker == 0xDA then Split(rest).value == ([s], tail)
            else Split(tail).Some? && Split(rest).value == ([s] + Split(tail).value.0, Split(tail).value.1)
  {
    hide Shaped, Raw;
    var s := Head(rest).value;
    assert Raw(s) <= rest;
    hide Head;
    assert rest == rest[..|Raw(s)|] + rest[|Raw(s)|..];
  }

  lemma {:induction false} SplitIsFlat(rest: seq<byte>)
    requires Split(rest).Some?
    ensures var (ss, scan) := Split(rest).value; Listed(ss) && rest == Flat(ss) + scan
    decreases |rest|
  {
    hide Split, Raw, Shaped;
    SplitCases(rest);
    var s := Head(rest).value;
    var tail := rest[|Raw(s)|..];
    assert Shaped(s) && |tail| < |rest|;
    hide Head;
    if s.marker == 0xDA {
      FlatCons(s, [], tail);
    } else {
      SplitIsFlat(tail);
      var (ss, scan) := Split(tail).value;
      FlatCons(s, ss, scan);
    }
  }

  lemma FlatCons(s: Segment, ss: seq<Segment>, scan: seq<byte>)
    ensures ([s] + ss)[1..] == ss && Flat([s] + ss) + scan == Raw(s) + (Flat(ss) + scan)
    ensures Flat([]) + scan == scan && [s] + [] == [s]
  {
    hide Raw;
    assert ([s] + ss)[1..] == ss;
  }

  lemma SplitOne(s: Segment, tail: seq<byte>)
    requires Shaped(s)
    ensures s.marker == 0xDA ==> Split(Raw(s) + tail) == Some(([s], tail))
    ensures s.marker != 0xDA && Split(tail).Some? ==>
              Split(Raw(s) + tail) == Some(([s] + Split(tail).value.0, Split(tail).value.1))
  {
    HeadOfFlat(s, tail);
    hide Head, Raw, Shaped;
  }

  /** Splitting inverts joining: the segments and the scan are read back from their bytes. */
  lemma {:induction false} SplitInvertsFlat(ss: seq<Segment>, scan: seq<byte>)
    requires Listed(ss)
    ensures Split(Flat(ss) + scan) == Some((ss, scan))
    decreases |ss|
  {
    hide Head, Raw, Shaped, Split;
    var s, tail := ss[0], Flat(ss[1..]) + scan;
    assert Flat(ss) + scan == Raw(s) + tail;
    SplitOne(s, tail);
    if s.marker == 0xDA {
      assert ss == [s] && tail == scan;
    } else {
      SplitInvertsFlat(ss[1..], scan);
      assert [s] + ss[1..] == ss;
    }
  }

  // ----- Inspection -----

  function Dimensions(payload: seq<byte>): (nat, nat)
    requires |payload| >= 6
  {
    (FromBigEndian(payload[3..5]), FromBigEndian(payload[1..3]))
  }

  predicate FrameOk(s: Segment) {
    && |s.payload| >= 6
    && s.payload[0] in {8, 12, 16}
    && Dimensions(s.payload).0 != 0 && Dimensions(s.payload).1 != 0
    && s.payload[5] != 0 && |s.payload| + 2 == 8 + 3 * (s.payload[5] as int)
  }

  /** The dimensions known after a segment, unless it is a bad or a second frame header. */
  function AfterFrame(s: Segment, known: Option<(nat, nat)>): Option<Option<(nat, nat)>> {
    if !IsSof(s.marker) then Some(known)
    else if known.Some? || !FrameOk(s) then None
    else Some(Some(Dimensions(s.payload)))
  }

  /** The walk over the markers: the dimensions, when a frame header and a scan that is not empty are found. */
  function Walk(rest: seq<byte>, known: Option<(nat, nat)>): Option<(nat, nat)>
    decreases |rest|
  {
    if |rest| <= 2 then None
    else
      var k := Leading(rest);
      if k == 0 || k == |rest| then None
      else if IsStandalone(rest[k]) then Walk(rest[k + 1..], known)
      else
        match Head(rest)
        case None => None
        case Some(s) =>
          var tail := rest[|Raw(s)|..];
          match AfterFrame(s, known)
          case None => None
          case Some(now) =>
            if s.marker != 0xDA then Walk(tail, now)
            else if |tail| <= 2 then None
            else now
  }

  /** The image's width and height, when the structure is accepted. */
  function Inspect(content: seq<byte>): Option<(nat, nat)> {
    if !(8 <= |content| <= MAX_INSPECTION_BYTES) || !(SOI <= content) || content[|content| - 2..] != [0xFF, 0xD9] then None
    else Walk(content[2..], None)
  }

  /** The segment at an offset, after the fill bytes were skipped. */
  method ReadSegment(content: seq<byte>, start: nat, offset: nat) returns (s: Option<Segment>)
    requires start < offset < |content| && offset == start + Leading(content[start..])
    ensures s == Head(content[start..])
  {
    ghost var rest, k := content[start..], offset - start;
    var marker := content[offset];
    if marker in {0x00, 0xD8, 0xD9} || IsStandalone(marker) {
      return None;
    }
    if offset + 3 > |content| {
      return None;
    }
    var n := FromBigEndian(content[offset + 1..offset + 3]);
    assert rest[k + 1..k + 3] == content[offset + 1..offset + 3];
    if n < 2 || offset + 1 + n > |content| {
      return None;
    }
    assert rest[k + 3..k + 1 + n] == content[offset + 3..offset + 1 + n];
    return Some(Segment(offset - start, marker, content[offset + 1..offset + 3], content[offset + 3..offset + 1 + n]));
  }

  method SkipFill(content: seq<byte>, start: nat) returns (offset: nat)
    requires start <= |content|
    ensures offset == start + Leading(content[start..])
  {
    offset := start;
    while offset < |content| && content[offset] == 0xFF
      invariant start <= offset <= |content|
      invariant start + Leading(content[start..]) == offset + Leading(content[offset..])
    {
      assert content[offset..][1..] == content[offset + 1..];
      offset := offset + 1;
    }
  }

  /** The walk unfolded once. */
  lemma WalkOnce(rest: seq<byte>, known: Option<(nat, nat)>)
    ensures |rest| <= 2 || Leading(rest) in {0, |rest|} ==> Walk(rest, known) == None
    ensures |rest| > 2 && 0 < Leading(rest) < |rest| && IsStandalone(rest[Leading(rest)]) ==>
              Walk(rest, known) == Walk(rest[Leading(rest) + 1..], known)
    ensures |rest| > 2 && 0 < Leading(rest) < |rest| && !IsStandalone(rest[Leading(rest)]) ==>
              Walk(rest, known) ==
              if Head(rest).None? || AfterFrame(Head(rest).value, known).None? then None
              else
                var s, now := Head(rest).value, AfterFrame(Head(rest).value, known).value;
                if s.marker != 0xDA then Walk(rest[|Raw(s)|..], now)
                else if |rest[|Raw(s)|..]| <= 2 then None
                else now
  {
    hide Head, Raw, AfterFrame, IsStandalone;
  }

  /** `_inspect_jpeg`, behind the size checks of `inspect_attachment_bytes`. */
  method RunInspect(content: seq<byte>) returns (r: Option<(nat, nat)>)
    ensures r == Inspect(content)
  {
    if |content| == 0 || |content| > MAX_INSPECTION_BYTES {
      return None;
    }
    if |content| < 8 || !(SOI <= content) || content[|content| - 2..] != [0xFF, 0xD9] {
      return None;
    }
    var offset, known := 2, None;
    hide Head, Raw, AfterFrame, IsStandalone, Walk, Leading;
    while offset < |content| - 2
      invariant 2 <= offset <= |content|
      invariant Walk(content[2..], None) == Walk(content[offset..], known)
    {
      WalkOnce(content[offset..], known);
      var start := offset;
      offset := SkipFill(content, start);
      if offset == start || offset >= |content| {
        return None;
      }
      assert content[start..][offset - start] == content[offset];
      assert content[start..][offset + 1 - start..] == content[offset + 1..];
      if IsStandalone(content[offset]) {
        offset := offset + 1;
        continue;
      }
      var head := ReadSegment(content, start, offset);
      if head.None? {
        return None;
      }
      var s := head.value;
      RawFits(content, start);
      offset := start + |Raw(s)|;
      assert content[start..][|Raw(s)|..] == content[offset..];
      var now := RunFrame(s, known);
      if now.None? {
        return None;
      }
      known := now.value;
      if s.marker == 0xDA {
        return if offset >= |content| - 2 then None else known;
      }
    }
    WalkOnce(content[offset..], known);
    return None;
  }

  lemma RawFits(content: seq<byte>, start: nat)
    requires start <= |content|
    ensures Head(content[start..]).Some? ==> 4 <= |Raw(Head(content[start..]).value)| <= |content| - start
  {
  }

  method RunFrame(s: Segment, known: Option<(nat, nat)>) returns (now: Option<Option<(nat, nat)>>)
    ensures now == AfterFrame(s, known)
  {
    if !IsSof(s.marker) {
      return Some(known);
    }
    if known.Some? || |s.payload| < 6 {
      return None;
    }
    var (width, height) := (FromBigEndian(s.payload[3..5]), FromBigEndian(s.payload[1..3]));
    var components := s.payload[5];
    if s.payload[0] !in {8, 12, 16} || width == 0 || height == 0 || components == 0 || |s.payload| + 2 != 8 + 3 * (components as int) {
      return None;
    }
    return Some(Some((width, height)));
  }

  // ----- Tables -----

  predicate AnyNonZero(s: seq<byte>) {
    s != [] && (s[0] != 0 || AnyNonZero(s[1..]))
  }

  function Sum(s: seq<byte>): nat {
    if s == [] then 0 else s[0] + Sum(s[1..])
  }

  /** A class or precision of 0 or 1 and a destination of at most 3. */
  predicate InfoOk(info: byte) {
    info / 16 <= 1 && info % 16 <= 3
  }

  /** A quantization table: the info byte and 64 entries of one or two bytes, not all zero. */
  predicate QuantizationTable(t: seq<byte>) {
    t != [] && InfoOk(t[0]) && |t| == 1 + 64 * (t[0] as int / 16 + 1) && AnyNonZero(t[1..])
  }

  /** A Huffman table: the info byte, 16 counts and as many symbols as they say, at least one. */
  predicate HuffmanTable(t: seq<byte>) {
    |t| >= 17 && InfoOk(t[0]) && Sum(t[1..17]) > 0 && |t| == 17 + Sum(t[1..17])
  }

  function Concat(ts: seq<seq<byte>>): seq<byte> {
    if ts == [] then [] else ts[0] + Concat(ts[1..])
  }

  /** The payload is exactly tiled by well-formed tables. */
  ghost predicate Tiled(payload: seq<byte>, table: seq<byte> -> bool) {
    exists ts :: Tiles(ts, payload, table)
  }

  ghost predicate Tiles(ts: seq<seq<byte>>, payload: seq<byte>, table: seq<byte> -> bool) {
    Concat(ts) == payload && forall i :: 0 <= i < |ts| ==> table(ts[i])
  }

  /** The length of the table at the head of the payload, as its first bytes determine it. */
  function QuantizationSize(payload: seq<byte>): nat
    requires payload != []
  {
    1 + 64 * (payload[0] as int / 16 + 1)
  }

  function HuffmanSize(payload: seq<byte>): nat
    requires |payload| >= 17
  {
    17 + Sum(payload[1..17])
  }

  predicate DqtOk(payload: seq<byte>)
    decreases |payload|
  {
    payload == [] ||
    var n := QuantizationSize(payload);
    n <= |payload| && QuantizationTable(payload[..n]) && DqtOk(payload[n..])
  }

  predicate DhtOk(payload: seq<byte>)
    decreases |payload|
  {
    payload == [] ||
    (|payload| >= 17 &&
     var n := HuffmanSize(payload);
     n <= |payload| && HuffmanTable(payload[..n]) && DhtOk(payload[n..]))
  }

  lemma TilesCons(t: seq<byte>, ts: seq<seq<byte>>, rest: seq<byte>, table: seq<byte> -> bool)
    requires table(t) && Tiles(ts, rest, table)
    ensures Tiles([t] + ts, t + rest, table)
  {
    assert ([t] + ts)[1..] == ts;
  }

  lemma {:induction false} DqtOkIsTiled(payload: seq<byte>) returns (ts: seq<seq<byte>>)
    requires DqtOk(payload)
    ensures Tiles(ts, payload, QuantizationTable)
    decreases |payload|
  {
    ts := [];
    if payload != [] {
      var n := QuantizationSize(payload);
      hide QuantizationTable, QuantizationSize;
      var more := DqtOkIsTiled(payload[n..]);
      TilesCons(payload[..n], more, payload[n..], QuantizationTable);
      assert payload[..n] + payload[n..] == payload;
      ts := [payload[..n]] + more;
    }
  }

  lemma TilesUncons(ts: seq<seq<byte>>, payload: seq<byte>, table: seq<byte> -> bool)
    requires Tiles(ts, payload, table) && ts != []
    ensures table(ts[0]) && |ts[0]| <= |payload| && payload[..|ts[0]|] == ts[0] && Tiles(ts[1..], payload[|ts[0]|..], table)
  {
    assert payload[|ts[0]|..] == Concat(ts[1..]);
  }

  lemma {:induction false} TiledIsDqtOk(ts: seq<seq<byte>>, payload: seq<byte>)
    requires Tiles(ts, payload, QuantizationTable)
    ensures DqtOk(payload)
    decreases |ts|
  {
    if ts != [] {
      TilesUncons(ts, payload, QuantizationTable);
      TiledIsDqtOk(ts[1..], payload[|ts[0]|..]);
      hide AnyNonZero;
      assert payload[0] == ts[0][0];
    }
  }

  /** The loop of `_validate_dqt` accepts exactly the payloads tiled by quantization tables. */
  lemma DqtOkMeansTiled(payload: seq<byte>)
    ensures DqtOk(payload) <==> Tiled(payload, QuantizationTable)
  {
    hide DqtOk, QuantizationTable, Tiles;
    if DqtOk(payload) {
      var ts := DqtOkIsTiled(payload);
    }
    if Tiled(payload, QuantizationTable) {
      var ts :| Tiles(ts, payload, QuantizationTable);
      TiledIsDqtOk(ts, payload);
    }
  }

  lemma {:induction false} DhtOkIsTiled(payload: seq<byte>) returns (ts: seq<seq<byte>>)
    requires DhtOk(payload)
    ensures Tiles(ts, payload, HuffmanTable)
    decreases |payload|
  {
    ts := [];
    if payload != [] {
      var n := HuffmanSize(payload);
      assert n >= 17;
      hide HuffmanTable, HuffmanSize;
      var more := DhtOkIsTiled(payload[n..]);
      TilesCons(payload[..n], more, payload[n..], HuffmanTable);
      assert payload[..n] + payload[n..] == payload;
      ts := [payload[..n]] + more;
    }
  }

  lemma {:induction false} TiledIsDhtOk(ts: seq<seq<byte>>, payload: seq<byte>)
    requires Tiles(ts, payload, HuffmanTable)
    ensures DhtOk(payload)
    decreases |ts|
  {
    if ts != [] {
      TilesUncons(ts, payload, HuffmanTable);
      TiledIsDhtOk(ts[1..], payload[|ts[0]|..]);
      hide Sum;
      assert payload[1..17] == ts[0][1..17];
    }
  }

  /** The loop of `_validate_dht` accepts exactly the payloads tiled by Huffman tables. */
  lemma DhtOkMeansTiled(payload: seq<byte>)
    ensures DhtOk(payload) <==> Tiled(payload, HuffmanTable)
  {
    hide DhtOk, HuffmanTable, Tiles;
    if DhtOk(payload) {
      var ts := DhtOkIsTiled(payload);
    }
    if Tiled(payload, HuffmanTable) {
      var ts :| Tiles(ts, payload, HuffmanTable);
      TiledIsDhtOk(ts, payload);
    }
  }

  /** `_validate_dqt`. */
  method RunDqt(payload: seq<byte>) returns (ok: bool)
    ensures ok <==> Tiled(payload, QuantizationTable)
  {
    DqtOkMeansTiled(payload);
    var offset := 0;
    assert payload[0..] == payload;
    while offset < |payload|
      invariant 0 <= offset <= |payload|
      invariant DqtOk(payload) <==> DqtOk(payload[offset..])
    {
      var info := payload[offset];
      var precision, id := info / 16, info % 16;
      if precision > 1 || id > 3 {
        return false;
      }
      var end := offset + 1 + 64 * (precision as int + 1);
      if end > |payload| {
        return false;
      }
      assert payload[offset..][..end - offset] == payload[offset..end];
      assert payload[offset..end][1..] == payload[offset + 1..end];
      assert payload[offset..][end - offset..] == payload[end..];
      if !AnyNonZero(payload[offset + 1..end]) {
        return false;
      }
      offset := end;
    }
    return true;
  }

  /** `_validate_dht`. */
  method RunDht(payload: seq<byte>) returns (ok: bool)
    ensures ok <==> Tiled(payload, HuffmanTable)
  {
    DhtOkMeansTiled(payload);
    var offset := 0;
    assert payload[0..] == payload;
    while offset < |payload|
      invariant 0 <= offset <= |payload|
      invariant DhtOk(payload) <==> DhtOk(payload[offset..])
    {
      if offset + 17 > |payload| {
        return false;
      }
      var info := payload[offset];
      if info / 16 > 1 || info % 16 > 3 {
        return false;
      }
      var symbols := Sum(payload[offset + 1..offset + 17]);
      assert payload[offset..][1..17] == payload[offset + 1..offset + 17];
      var end := offset + 17 + symbols;
      if symbols == 0 || end > |payload| {
        return false;
      }
      assert payload[offset..][..end - offset][1..17] == payload[offset + 1..offset + 17];
      assert payload[offset..][end - offset..] == payload[end..];
      offset := end;
    }
    return true;
  }

  // ----- Sanitising -----

  predicate IsStripped(s: Segment) {
    0xE0 <= s.marker <= 0xEF || s.marker == 0xFE
  }

  /** The segments that stay. */
  function Retained(ss: seq<Segment>): seq<Segment> {
    if ss == [] then [] else (if IsStripped(ss[0]) then [] else [ss[0]]) + Retained(ss[1..])
  }

  predicate AnyStripped(ss: seq<Segment>) {
    ss != [] && (IsStripped(ss[0]) || AnyStripped(ss[1..]))
  }

  /** What the marker loop has seen. */
  datatype Seen = Seen(dqt: bool, dht: bool, sof: bool)

  function Note(seen: Seen, s: Segment): Seen {
    Seen(seen.dqt || s.marker == 0xDB, seen.dht || s.marker == 0xC4, seen.sof || s.marker == 0xC0)
  }

  /** One 8-bit baseline frame, tiled tables, a well-formed restart interval, and a full-range scan after all of them. */
  ghost predicate SegmentSafe(seen: Seen, s: Segment) {
    var p := s.payload;
    if IsStripped(s) then true
    else if s.marker == 0xDB then Tiled(p, QuantizationTable)
    else if s.marker == 0xC4 then Tiled(p, HuffmanTable)
    else if s.marker == 0xDD then |p| == 2
    else if s.marker == 0xC0 then !seen.sof && |p| >= 6 && p[0] == 8 && p[5] in {1, 3, 4}
    else
      s.marker == 0xDA && seen == Seen(true, true, true)
      && |p| >= 6 && |p| == 4 + 2 * (p[0] as int) && p[|p| - 3..] == [0x00, 0x3F, 0x00]
  }

  ghost predicate Safe(ss: seq<Segment>, seen: Seen) {
    ss == [] || (SegmentSafe(seen, ss[0]) && Safe(ss[1..], Note(seen, ss[0])))
  }

  /** Entropy-coded bytes with stuffing and restart markers only, up to an end-of-image marker that ends the file. */
  predicate ScanEnds(t: seq<byte>)
    decreases |t|
  {
    if |t| < 2 then false
    else if t[0] != 0xFF then ScanEnds(t[1..])
    else if t[1] == 0x00 || 0xD0 <= t[1] <= 0xD7 then ScanEnds(t[2..])
    else t[1] == 0xD9 && |t| == 2
  }

  const NOTHING := Seen(false, false, false)

  ghost function Sanitize(policy: Policy, content: seq<byte>): Result<(seq<byte>, bool), Reason> {
    var dimensions := Inspect(content);
    if dimensions.None? then Failure(UnsafeJpeg)
    else if !WithinLimits(policy.limits, dimensions.value) then Failure(ImageLimitExceeded)
    else
      var split := Split(content[2..]);
      if split.None? then Failure(UnsafeJpeg)
      else
        var (ss, scan) := split.value;
        if |ss| <= policy.maxSegments && Safe(ss, NOTHING) && |scan| != 2 && ScanEnds(scan)
        then Success((SOI + Flat(Retained(ss)) + scan, AnyStripped(ss)))
        else Failure(UnsafeJpeg)
  }

  /** The scan loop of `_sanitize_jpeg`. */
  method RunScan(content: seq<byte>, start: nat) returns (ok: bool)
    requires start <= |content|
    ensures ok == (|content[start..]| != 2 && ScanEnds(content[start..]))
  {
    var cursor := start;
    while cursor < |content| - 1
      invariant start <= cursor <= |content|
      invariant ScanEnds(content[start..]) == ScanEnds(content[cursor..])
    {
      ghost var t := content[cursor..];
      if content[cursor] != 0xFF {
        assert t[1..] == content[cursor + 1..];
        cursor := cursor + 1;
      } else {
        var next := content[cursor + 1];
        if next == 0x00 || 0xD0 <= next <= 0xD7 {
          assert t[2..] == content[cursor + 2..];
          cursor := cursor + 2;
        } else if next == 0xD9 && cursor + 2 == |content| {
          return cursor != start;
        } else {
          return false;
        }
      }
    }
    return false;
  }

  // ----- The marker loop -----

  /** The variables of the marker loop. */
  datatype Progress = Progress(output: seq<byte>, stripped: bool, seen: Seen, segments: nat)

  function Step(p: Progress, s: Segment): Progress {
    Progress(if IsStripped(s) then p.output else p.output + Raw(s), p.stripped || IsStripped(s), Note(p.seen, s), p.segments + 1)
  }

  /** The rest of the loop from one marker on. */
  ghost function Gather(p: Progress, rest: seq<byte>, max: nat): Option<(seq<byte>, bool)>
    decreases |rest|
  {
    if |rest| <= 2 || p.segments + 1 > max then None
    else
      match Head(rest)
      case None => None
      case Some(s) =>
        var tail := rest[|Raw(s)|..];
        if !SegmentSafe(p.seen, s) then None
        else if s.marker != 0xDA then Gather(Step(p, s), tail, max)
        else if |tail| != 2 && ScanEnds(tail) then Some((Step(p, s).output + tail, Step(p, s).stripped))
        else None
  }

  /** The outcome in terms of the segments. */
  ghost function Outcome(p: Progress, ss: seq<Segment>, scan: seq<byte>, max: nat): Option<(seq<byte>, bool)> {
    if p.segments + |ss| <= max && Safe(ss, p.seen) && |scan| != 2 && ScanEnds(scan)
    then Some((p.output + Flat(Retained(ss)) + scan, p.stripped || AnyStripped(ss)))
    else None
  }

  lemma RetainedCons(s: Segment, ss: seq<Segment>)
    ensures ([s] + ss)[0] == s && ([s] + ss)[1..] == ss
    ensures Retained([s] + ss) == if IsStripped(s) then Retained(ss) else [s] + Retained(ss)
    ensures Flat(Retained([s] + ss)) == if IsStripped(s) then Flat(Retained(ss)) else Raw(s) + Flat(Retained(ss))
  {
    hide IsStripped, Raw;
    assert ([s] + ss)[1..] == ss;
    if !IsStripped(s) {
      assert ([s] + Retained(ss))[1..] == Retained(ss);
    }
  }

  lemma OutcomeStep(p: Progress, s: Segment, ss: seq<Segment>, scan: seq<byte>, max: nat)
    ensures SegmentSafe(p.seen, s) ==> Outcome(p, [s] + ss, scan, max) == Outcome(Step(p, s), ss, scan, max)
    ensures !SegmentSafe(p.seen, s) || p.segments + 1 > max ==> Outcome(p, [s] + ss, scan, max) == None
  {
    hide SegmentSafe, Raw, IsStripped, ScanEnds, Flat, Retained, Note;
    RetainedCons(s, ss);
    var out := Flat(Retained(ss));
    assert p.output + (Raw(s) + out) + scan == p.output + Raw(s) + out + scan;
  }

  lemma OutcomeEnd(p: Progress, scan: seq<byte>, max: nat)
    requires p.segments <= max
    ensures Outcome(p, [], scan, max) == if |scan| != 2 && ScanEnds(scan) then Some((p.output + scan, p.stripped)) else None
  {
    assert p.output + [] + scan == p.output + scan;
  }

  /** The loop computes what the specification says of the segments. */
  lemma {:induction false} GatherIsOutcome(p: Progress, rest: seq<byte>, max: nat)
    requires p.segments <= max
    ensures Gather(p, rest, max) ==
            if Split(rest).Some? then Outcome(p, Split(rest).value.0, Split(rest).value.1, max) else None
    decreases |rest|
  {
    hide Raw, SegmentSafe, Outcome, Step, ScanEnds;
    if |rest| > 2 && Head(rest).Some? {
      var s := Head(rest).value;
      var tail := rest[|Raw(s)|..];
      assert |tail| < |rest|;
      hide Head;
      StepCounts(p, s);
      if p.segments + 1 <= max {
        GatherIsOutcome(Step(p, s), tail, max);
        OutcomeEnd(Step(p, s), tail, max);
      }
      if s.marker == 0xDA {
        OutcomeStep(p, s, [], tail, max);
        assert [s] + [] == [s];
      } else if Split(tail).Some? {
        OutcomeStep(p, s, Split(tail).value.0, Split(tail).value.1, max);
      }
    }
  }

  lemma StepCounts(p: Progress, s: Segment)
    ensures Step(p, s).segments == p.segments + 1
  {
  }

  /** The checks of one segment, and what it adds. */
  method RunSegment(p: Progress, s: Segment) returns (q: Option<Progress>)
    ensures q == if SegmentSafe(p.seen, s) then Some(Step(p, s)) else None
  {
    hide Raw, QuantizationTable, HuffmanTable, Tiled;
    var seen, payload := p.seen, s.payload;
    if 0xE0 <= s.marker <= 0xEF || s.marker == 0xFE {
      return Some(Progress(p.output, true, seen, p.segments + 1));
    } else if s.marker == 0xDB {
      var ok := RunDqt(payload);
      if !ok {
        return None;
      }
      seen := seen.(dqt := true);
    } else if s.marker == 0xC4 {
      var ok := RunDht(payload);
      if !ok {
        return None;
      }
      seen := seen.(dht := true);
    } else if s.marker == 0xDD {
      if |payload| != 2 {
        return None;
      }
    } else if s.marker == 0xC0 {
      if seen.sof || |payload| < 6 || payload[0] != 8 || payload[5] !in {1, 3, 4} {
        return None;
      }
      seen := seen.(sof := true);
    } else if s.marker == 0xDA {
      if !(seen.dqt && seen.dht && seen.sof) {
        return None;
      }
      if |payload| < 6 || |payload| != 1 + 2 * (payload[0] as int) + 3 || payload[|payload| - 3..] != [0x00, 0x3F, 0x00] {
        return None;
      }
    } else {
      return None;
    }
    return Some(Progress(p.output + Raw(s), p.stripped, seen, p.segments + 1));
  }

  /** `_sanitize_jpeg`: inspection has made sure that every marker and segment is within bounds. */
  method RunSanitize(policy: Policy, content: seq<byte>) returns (r: Result<(seq<byte>, bool), Reason>)
    ensures r == Sanitize(policy, content)
  {
    var dimensions := RunInspect(content);
    if dimensions.None? {
      return Failure(UnsafeJpeg);
    }
    if !WithinLimits(policy.limits, dimensions.value) {
      return Failure(ImageLimitExceeded);
    }
    var result := RunMarkers(policy.maxSegments, content);
    GatherIsOutcome(Progress(SOI, false, NOTHING, 0), content[2..], policy.maxSegments);
    hide Gather, Split, WithinLimits, Inspect, Safe, ScanEnds, Retained, Flat, AnyStripped;
    return if result.None? then Failure(UnsafeJpeg) else Success(result.value);
  }

  method RunMarkers(max: nat, content: seq<byte>) returns (r: Option<(seq<byte>, bool)>)
    requires 2 <= |content| && Walk(content[2..], None).Some?
    ensures r == Gather(Progress(SOI, false, NOTHING, 0), content[2..], max)
  {
    var p, offset := Progress(SOI, false, NOTHING, 0), 2;
    ghost var start, known := p, None;
    hide Gather, Walk, Head, Raw, Leading, Step, SegmentSafe, AfterFrame, ScanEnds, SOI;
    while offset < |content| - 2
      invariant 2 <= offset <= |content|
      invariant Walk(content[offset..], known).Some?
      invariant Gather(start, content[2..], max) == Gather(p, content[offset..], max)
    {
      WalkContinues(content[offset..], known);
      GatherOnce(p, content[offset..], max);
      if p.segments + 1 > max {
        return None;
      }
      var head := ReadMarker(content, offset);
      if head.None? {
        return None;
      }
      var s := head.value;
      var end := offset + |Raw(s)|;
      assert content[offset..][|Raw(s)|..] == content[end..];
      var q := RunSegment(p, s);
      if q.None? {
        return None;
      }
      if s.marker == 0xDA {
        var ok := RunScan(content, end);
        return if ok then Some((q.value.output + content[end..], q.value.stripped)) else None;
      }
      p, offset, known := q.value, end, AfterFrame(s, known).value;
    }
    GatherOnce(p, content[offset..], max);
    return None;
  }

  /** Where inspection passed there is a marker, and inspection passes behind its segment as well. */
  lemma WalkContinues(rest: seq<byte>, known: Option<(nat, nat)>)
    requires Walk(rest, known).Some?
    ensures 0 < Leading(rest) < |rest|
    ensures Head(rest).Some? && Head(rest).value.marker != 0xDA ==>
              var s := Head(rest).value; AfterFrame(s, known).Some? && Walk(rest[|Raw(s)|..], AfterFrame(s, known).value).Some?
  {
    hide Walk, Raw, AfterFrame;
    WalkOnce(rest, known);
    if 0 < Leading(rest) < |rest| && IsStandalone(rest[Leading(rest)]) {
      assert Head(rest).None?;
    }
  }

  method ReadMarker(content: seq<byte>, offset: nat) returns (s: Option<Segment>)
    requires offset <= |content| && 0 < Leading(content[offset..]) < |content[offset..]|
    ensures s == Head(content[offset..])
    ensures s.Some? ==> offset + |Raw(s.value)| <= |content| && |Raw(s.value)| >= 4
  {
    var end := SkipFill(content, offset);
    s := ReadSegment(content, offset, end);
  }

  /** The loop unfolded once. */
  lemma GatherOnce(p: Progress, rest: seq<byte>, max: nat)
    ensures |rest| <= 2 || p.segments + 1 > max || Head(rest).None? ==> Gather(p, rest, max) == None
    ensures |rest| > 2 && p.segments + 1 <= max && Head(rest).Some? ==>
              var s := Head(rest).value;
              var tail := rest[|Raw(s)|..];
              Gather(p, rest, max) ==
              if !SegmentSafe(p.seen, s) then None
              else if s.marker != 0xDA then Gather(Step(p, s), tail, max)
              else if |tail| != 2 && ScanEnds(tail) then Some((Step(p, s).output + tail, Step(p, s).stripped))
              else None
  {
    hide Head, Raw, SegmentSafe, Step, ScanEnds;
  }

  // ----- Sanitising keeps the image and is idempotent -----

  lemma {:induction false} RetainedListed(ss: seq<Segment>)
    requires Listed(ss)
    ensures Listed(Retained(ss))
    decreases |ss|
  {
    RetainedCons(ss[0], ss[1..]);
    assert [ss[0]] + ss[1..] == ss;
    hide Shaped;
    if ss[0].marker == 0xDA {
      assert Retained(ss[1..]) == [];
    } else {
      RetainedListed(ss[1..]);
    }
  }

  lemma {:induction false} RetainedSafe(ss: seq<Segment>, seen: Seen)
    requires Safe(ss, seen)
    ensures Safe(Retained(ss), seen)
    decreases |ss|
  {
    if ss != [] {
      RetainedCons(ss[0], ss[1..]);
      assert [ss[0]] + ss[1..] == ss;
      assert IsStripped(ss[0]) ==> Note(seen, ss[0]) == seen;
      hide SegmentSafe, IsStripped, Note;
      RetainedSafe(ss[1..], Note(seen, ss[0]));
    }
  }

  lemma {:induction false} RetainedIsFixed(ss: seq<Segment>)
    ensures Retained(Retained(ss)) == Retained(ss) && !AnyStripped(Retained(ss))
    ensures |Retained(ss)| <= |ss| && |Flat(Retained(ss))| <= |Flat(ss)|
    ensures AnyStripped(ss) ==> |Flat(Retained(ss))| < |Flat(ss)|
    ensures !AnyStripped(ss) ==> Retained(ss) == ss
    decreases |ss|
  {
    if ss != [] {
      RetainedCons(ss[0], ss[1..]);
      assert [ss[0]] + ss[1..] == ss;
      assert |Raw(ss[0])| > 0;
      hide IsStripped, Raw;
      RetainedIsFixed(ss[1..]);
      if !IsStripped(ss[0]) {
        RetainedCons(ss[0], Retained(ss[1..]));
      }
    }
  }

  lemma WalkSegment(s: Segment, tail: seq<byte>, known: Option<(nat, nat)>)
    requires Shaped(s)
    ensures Walk(Raw(s) + tail, known) ==
            match AfterFrame(s, known)
            case None => None
            case Some(now) => if s.marker != 0xDA then Walk(tail, now) else if |tail| <= 2 then None else now
  {
    hide Walk, Head, Raw, AfterFrame, Leading;
    HeadOfFlat(s, tail);
    MarkerOfFlat(s, tail);
    WalkOnce(Raw(s) + tail, known);
  }

  lemma MarkerOfFlat(s: Segment, tail: seq<byte>)
    requires Shaped(s)
    ensures var rest := Raw(s) + tail;
            |rest| > 3 && 0 < Leading(rest) < |rest| && rest[Leading(rest)] == s.marker && !IsStandalone(s.marker)
  {
    var rest := Raw(s) + tail;
    var behind := [s.marker] + s.length + s.payload + tail;
    assert rest == Fill(s.fill) + behind;
    LeadingOfFill(s.fill, behind);
    hide Leading, Raw;
    assert rest[s.fill] == behind[0];
  }

  /** Stripped segments do not matter to inspection. */
  lemma {:induction false} RetainedWalk(ss: seq<Segment>, scan: seq<byte>, known: Option<(nat, nat)>)
    requires Listed(ss) && Walk(Flat(ss) + scan, known).Some?
    ensures Walk(Flat(Retained(ss)) + scan, known) == Walk(Flat(ss) + scan, known)
    decreases |ss|
  {
    hide Walk, Shaped, Raw;
    var s, more := ss[0], ss[1..];
    RetainedCons(s, more);
    assert [s] + more == ss;
    FlatCons(s, more, scan);
    WalkSegment(s, Flat(more) + scan, known);
    assert IsStripped(s) ==> AfterFrame(s, known) == Some(known) && s.marker != 0xDA;
    hide AfterFrame, IsStripped;
    if s.marker == 0xDA {
      assert Retained(more) == [] == more && Flat(more) == [];
    } else {
      RetainedWalk(more, scan, AfterFrame(s, known).value);
      assert Raw(s) + Flat(Retained(more)) + scan == Raw(s) + (Flat(Retained(more)) + scan);
      WalkSegment(s, Flat(Retained(more)) + scan, known);
    }
  }

  lemma {:induction false} ScanIsSuffixed(t: seq<byte>)
    requires ScanEnds(t)
    ensures |t| >= 2 && t[|t| - 2..] == [0xFF, 0xD9]
    decreases |t|
  {
    if t[0] != 0xFF {
      ScanIsSuffixed(t[1..]);
    } else if t[1] == 0x00 || 0xD0 <= t[1] <= 0xD7 {
      ScanIsSuffixed(t[2..]);
    }
  }

  /**
   * The output is the start of image, every segment but APP0 to APP15 and COM, byte for byte and in order, and the
   * scan up to the end of image, untouched; and the flag says whether the output differs from the input.
   */
  lemma SanitizedIsExact(policy: Policy, content: seq<byte>)
    ensures Sanitize(policy, content).Success? ==>
              var (output, stripped) := Sanitize(policy, content).value;
              && SOI <= content && Split(content[2..]).Some?
              && var (ss, scan) := Split(content[2..]).value;
                 && Listed(ss) && content == SOI + Flat(ss) + scan
                 && output == SOI + Flat(Retained(ss)) + scan && Split(output[2..]) == Some((Retained(ss), scan))
                 && (forall s :: s in Retained(ss) <==> s in ss && !IsStripped(s))
                 && |scan| > 2 && scan[|scan| - 2..] == [0xFF, 0xD9]
                 && (stripped <==> output != content)
  {
    hide Split, Flat, Walk, Retained, Safe, WithinLimits, Listed, AnyStripped, ScanEnds, IsStripped;
    if Sanitize(policy, content).Success? {
      var (ss, scan) := Split(content[2..]).value;
      ScanIsSuffixed(scan);
      SplitIsFlat(content[2..]);
      RetainedListed(ss);
      SplitInvertsFlat(Retained(ss), scan);
      JoinedBytes(content, ss, scan);
      RetainedMembers(ss);
    }
  }

  lemma JoinedBytes(content: seq<byte>, ss: seq<Segment>, scan: seq<byte>)
    requires SOI <= content && content[2..] == Flat(ss) + scan
    ensures content == SOI + Flat(ss) + scan
    ensures (SOI + Flat(Retained(ss)) + scan)[2..] == Flat(Retained(ss)) + scan
    ensures AnyStripped(ss) <==> SOI + Flat(Retained(ss)) + scan != content
  {
    RetainedIsFixed(ss);
    hide Flat, Retained, AnyStripped;
    assert content == SOI + content[2..];
  }

  lemma {:induction false} RetainedMembers(ss: seq<Segment>)
    ensures forall s :: s in Retained(ss) <==> s in ss && !IsStripped(s)
    decreases |ss|
  {
    if ss != [] {
      RetainedMembers(ss[1..]);
      assert forall s :: s in ss <==> s == ss[0] || s in ss[1..];
    }
  }

  /** The output passes inspection with the same dimensions, and sanitising it again returns it unchanged. */
  lemma SanitizeIsIdempotent(policy: Policy, content: seq<byte>)
    ensures Sanitize(policy, content).Success? ==>
              var output := Sanitize(policy, content).value.0;
              Inspect(output) == Inspect(content) && Sanitize(policy, output) == Success((output, false))
  {
    hide Split, Flat, Walk, Retained, Safe, WithinLimits, Listed, AnyStripped, ScanEnds, SOI;
    if Sanitize(policy, content).Success? {
      SanitizedIsExact(policy, content);
      var (ss, scan) := Split(content[2..]).value;
      var output := Sanitize(policy, content).value.0;
      SoiIsLong();
      assert content[2..] == Flat(ss) + scan && output[2..] == Flat(Retained(ss)) + scan;
      assert content[|content| - 2..] == scan[|scan| - 2..] && output[|output| - 2..] == scan[|scan| - 2..];
      RetainedIsFixed(ss);
      RetainedListed(ss);
      RetainedSafe(ss, NOTHING);
      RetainedWalk(ss, scan, None);
      ListedIsLong(Retained(ss));
      assert Inspect(output) == Inspect(content);
    }
  }

  lemma SoiIsLong()
    ensures |SOI| == 2
  {
  }

  lemma ListedIsLong(ss: seq<Segment>)
    requires Listed(ss)
    ensures |Flat(ss)| >= 4
  {
    HeadOfFlat(ss[0], []);
  }

  // ----- What inspection accepts -----

  /** What may stand before the scan: a marker on its own or a segment. */
  datatype Item = Lone(fill: nat, marker: byte) | Carrier(segment: Segment)

  predicate ItemOk(x: Item) {
    match x
    case Lone(fill, marker) => fill >= 1 && IsStandalone(marker)
    case Carrier(s) => Shaped(s)
  }

  function RawItem(x: Item): seq<byte> {
    match x
    case Lone(fill, marker) => Fill(fill) + [marker]
    case Carrier(s) => Raw(s)
  }

  function FlatItems(xs: seq<Item>): seq<byte> {
    if xs == [] then [] else RawItem(xs[0]) + FlatItems(xs[1..])
  }

  predicate IsScanStart(x: Item) {
    x.Carrier? && x.segment.marker == 0xDA
  }

  /** Items of which exactly the last is the start of scan. */
  ghost predicate ItemsOk(xs: seq<Item>) {
    xs != [] && ItemOk(xs[0]) && if IsScanStart(xs[0]) then |xs| == 1 else ItemsOk(xs[1..])
  }

  /** The frame headers among the items. */
  function FramesIn(xs: seq<Item>): seq<Segment> {
    if xs == [] then []
    else (if xs[0].Carrier? && IsSof(xs[0].segment.marker) then [xs[0].segment] else []) + FramesIn(xs[1..])
  }

  lemma WalkLone(fill: nat, marker: byte, tail: seq<byte>, known: Option<(nat, nat)>)
    requires fill >= 1 && IsStandalone(marker) && tail != []
    ensures Walk(RawItem(Lone(fill, marker)) + tail, known) == Walk(tail, known)
  {
    var rest := RawItem(Lone(fill, marker)) + tail;
    assert rest == Fill(fill) + ([marker] + tail);
    LeadingOfFill(fill, [marker] + tail);
    assert rest[fill] == marker && rest[fill + 1..] == tail;
    hide Walk, Leading, Fill;
    WalkOnce(rest, known);
  }

  lemma FlatItemsCons(xs: seq<Item>, scan: seq<byte>)
    requires xs != []
    ensures FlatItems(xs) + scan == RawItem(xs[0]) + (FlatItems(xs[1..]) + scan)
  {
    hide RawItem;
  }

  lemma ItemsAreLong(xs: seq<Item>)
    requires ItemsOk(xs)
    ensures |FlatItems(xs)| >= 2
  {
  }

  lemma {:induction false} WalkItems(xs: seq<Item>, scan: seq<byte>, known: Option<(nat, nat)>)
    requires ItemsOk(xs)
    ensures Walk(FlatItems(xs) + scan, known) ==
            if |scan| <= 2 then None
            else if FramesIn(xs) == [] then known
            else if known == None && |FramesIn(xs)| == 1 && FrameOk(FramesIn(xs)[0]) then Some(Dimensions(FramesIn(xs)[0].payload))
            else None
    decreases |xs|
  {
    var x, more := xs[0], xs[1..];
    hide Walk, Shaped, Raw, FrameOk, Dimensions, RawItem;
    FlatItemsCons(xs, scan);
    var tail := FlatItems(more) + scan;
    if x.Lone? {
      ItemsAreLong(more);
      WalkLone(x.fill, x.marker, tail, known);
      hide FlatItems, ItemsOk;
      WalkItems(more, scan, known);
    } else {
      assert RawItem(x) == Raw(x.segment) by {
        CarrierIsRaw(x);
      }
      WalkSegment(x.segment, tail, known);
      if IsScanStart(x) {
        assert more == [] && tail == scan;
      } else {
        hide FlatItems, ItemsOk;
        WalkItems(more, scan, known);
        if IsSof(x.segment.marker) && known.None? && FrameOk(x.segment) {
          WalkItems(more, scan, Some(Dimensions(x.segment.payload)));
        }
      }
    }
  }

  lemma CarrierIsRaw(x: Item)
    requires x.Carrier?
    ensures RawItem(x) == Raw(x.segment)
  {
  }

  /** Whatever the walk accepts is a list of items and a scan. */
  lemma {:induction false} WalkReads(rest: seq<byte>, known: Option<(nat, nat)>) returns (xs: seq<Item>, scan: seq<byte>)
    requires Walk(rest, known).Some?
    ensures ItemsOk(xs) && rest == FlatItems(xs) + scan
    decreases |rest|
  {
    WalkOnce(rest, known);
    var k := Leading(rest);
    LeadingIsFill(rest);
    hide Walk, AfterFrame;
    if IsStandalone(rest[k]) {
      var x := Lone(k, rest[k]);
      assert rest == RawItem(x) + rest[k + 1..];
      var more, s := WalkReads(rest[k + 1..], known);
      xs, scan := [x] + more, s;
      assert xs[1..] == more;
      hide RawItem, Leading;
      FlatItemsCons(xs, scan);
    } else {
      var x := Carrier(Head(rest).value);
      var tail := rest[|Raw(x.segment)|..];
      assert rest == RawItem(x) + tail;
      if IsScanStart(x) {
        xs, scan := [x], tail;
        assert FlatItems(xs[1..]) + scan == scan;
      } else {
        var more, s := WalkReads(tail, AfterFrame(x.segment, known).value);
        xs, scan := [x] + more, s;
        assert xs[1..] == more;
      }
      hide RawItem, Leading, Head;
      FlatItemsCons(xs, scan);
    }
  }

  lemma {:induction false} FillIs(rest: seq<byte>, k: nat)
    requires k <= |rest| && forall i :: 0 <= i < k ==> rest[i] == 0xFF
    ensures rest[..k] == Fill(k)
  {
  }

  lemma LeadingIsFill(rest: seq<byte>)
    ensures rest[..Leading(rest)] == Fill(Leading(rest))
  {
    FillIs(rest, Leading(rest));
  }

  /**
   * Inspection accepts exactly the files of a start of image, items of which the last is the start of scan and one is a
   * frame header, a good one, and a scan that is not empty and ends with the end of image.
   */
  lemma InspectAcceptsIff(content: seq<byte>, dimensions: (nat, nat))
    ensures Inspect(content) == Some(dimensions) <==>
            |content| <= MAX_INSPECTION_BYTES && exists xs, scan :: IsImage(content, xs, scan, dimensions)
  {
    hide Walk, FlatItems, ItemsOk, FramesIn, FrameOk, Dimensions;
    if Inspect(content) == Some(dimensions) {
      var xs, scan := WalkReads(content[2..], None);
      WalkItems(xs, scan, None);
      assert content == SOI + content[2..];
      assert |scan| > 2 && content[|content| - 2..] == scan[|scan| - 2..];
      assert IsImage(content, xs, scan, dimensions);
    }
    if xs, scan :| |content| <= MAX_INSPECTION_BYTES && IsImage(content, xs, scan, dimensions) {
      WalkItems(xs, scan, None);
      ItemsAreLongEnough(xs);
      assert content[2..] == FlatItems(xs) + scan;
      assert content[|content| - 2..] == scan[|scan| - 2..];
    }
  }

  ghost predicate IsImage(content: seq<byte>, xs: seq<Item>, scan: seq<byte>, dimensions: (nat, nat)) {
    && ItemsOk(xs) && content == SOI + FlatItems(xs) + scan
    && |scan| > 2 && scan[|scan| - 2..] == [0xFF, 0xD9]
    && |FramesIn(xs)| == 1 && FrameOk(FramesIn(xs)[0]) && dimensions == Dimensions(FramesIn(xs)[0].payload)
  }

  lemma {:induction false} ItemsAreLongEnough(xs: seq<Item>)
    requires ItemsOk(xs)
    ensures |FlatItems(xs)| >= 4
    decreases |xs|
  {
    if xs[0].Carrier? {
      HeadOfFlat(xs[0].segment, []);
    } else {
      ItemsAreLongEnough(xs[1..]);
    }
  }

  /** An accepted image is within every limit. */
  lemma SanitizedIsBounded(policy: Policy, content: seq<byte>)
    ensures Sanitize(policy, content).Success? ==>
              && Inspect(content).Some? && Split(content[2..]).Some? && |Split(content[2..]).value.0| <= policy.maxSegments
              && var (width, height) := Inspect(content).value;
                 && 1 <= width <= policy.limits.maxWidth && 1 <= height <= policy.limits.maxHeight
                 && width * height <= policy.limits.maxPixels
  {
    hide Split, Walk, Flat, Listed, Retained, FramesIn, Safe, ScanEnds, AnyStripped, FromBigEndian, IsStripped, ItemsOk, FlatItems;
    if Sanitize(policy, content).Success? {
      InspectAcceptsIff(content, Inspect(content).value);
      var xs, scan :| IsImage(content, xs, scan, Inspect(content).value);
      assert FrameOk(FramesIn(xs)[0]);
    }
  }
}
