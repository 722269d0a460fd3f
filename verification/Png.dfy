/** PNG inspection (`_inspect_png`) and sanitising (`_sanitize_png`). Checksums and decompression are foreign code. */
module Png {
  import opened Outcomes
  import opened Bytes
  import opened ImageLimits

  /** What a bounded decompression yields; `clean` when the stream ended exactly with the input. */
  datatype Inflation = Inflation(bytes: seq<byte>, clean: bool)

  datatype Codec = Codec(crc32: seq<byte> -> nat, inflate: (seq<byte>, nat) -> Option<Inflation>)

  datatype Policy = Policy(limits: Limits, maxDecoded: nat, maxChunks: nat)

  /** A chunk as it stands in the file, with its four length bytes. */
  datatype Chunk = Chunk(length: seq<byte>, kind: seq<byte>, data: seq<byte>, crc: seq<byte>)

  const SIGNATURE: seq<byte> := [0x89, 0x50, 0x4E, 0x47, 0x0D, 0x0A, 0x1A, 0x0A]
  const IHDR: seq<byte> := [73, 72, 68, 82]
  const PLTE: seq<byte> := [80, 76, 84, 69]
  const IDAT: seq<byte> := [73, 68, 65, 84]
  const IEND: seq<byte> := [73, 69, 78, 68]
  const TRNS: seq<byte> := [116, 82, 78, 83]

  // ----- Chunks -----

  predicate Shaped(c: Chunk) {
    |c.length| == 4 && |c.kind| == 4 && |c.crc| == 4 && |c.data| == FromBigEndian(c.length)
  }

  function Raw(c: Chunk): seq<byte> {
    c.length + c.kind + c.data + c.crc
  }

  function Flat(cs: seq<Chunk>): seq<byte> {
    if cs == [] then [] else Raw(cs[0]) + Flat(cs[1..])
  }

  /** The chunk at the head of `rest`. */
  function Head(rest: seq<byte>): (c: Option<Chunk>)
    ensures c.Some? ==> Shaped(c.value) && |Raw(c.value)| >= 12 && Raw(c.value) <= rest
  {
    if |rest| < 12 then None
    else
      var n := FromBigEndian(rest[..4]);
      if |rest| < 12 + n then None
      else
        var c := Chunk(rest[..4], rest[4..8], rest[8..8 + n], rest[8 + n..12 + n]);
        assert Raw(c) == rest[..12 + n];
        Some(c)
  }

  /** The bytes cut into chunks, if they can be. */
  function Cut(rest: seq<byte>): Option<seq<Chunk>>
    decreases |rest|
  {
    if rest == [] then Some([])
    else
      match Head(rest)
      case None => None
      case Some(c) =>
        match Cut(rest[|Raw(c)|..])
        case None => None
        case Some(cs) => Some([c] + cs)
  }

  ghost predicate AllShaped(cs: seq<Chunk>) {
    forall i :: 0 <= i < |cs| ==> Shaped(cs[i])
  }

  lemma {:induction false} CutIsFlat(rest: seq<byte>)
    ensures Cut(rest).Some? ==> Flat(Cut(rest).value) == rest && AllShaped(Cut(rest).value)
    decreases |rest|
  {
    if rest != [] && Head(rest).Some? {
      var c := Head(rest).value;
      CutIsFlat(rest[|Raw(c)|..]);
    }
  }

  lemma HeadOfFlat(c: Chunk, tail: seq<byte>)
    requires Shaped(c)
    ensures Head(Raw(c) + tail) == Some(c) && (Raw(c) + tail)[|Raw(c)|..] == tail && |Raw(c)| == 12 + |c.data|
  {
    var rest := Raw(c) + tail;
    assert rest[..4] == c.length && rest[4..8] == c.kind;
    assert rest[8..8 + |c.data|] == c.data && rest[8 + |c.data|..12 + |c.data|] == c.crc;
  }

  /** Cutting inverts joining: a list of chunks is read back from its bytes. */
  lemma {:induction false} CutInvertsFlat(cs: seq<Chunk>)
    requires AllShaped(cs)
    ensures Cut(Flat(cs)) == Some(cs)
    decreases |cs|
  {
    if cs != [] {
      hide Raw, Head, Shaped;
      HeadOfFlat(cs[0], Flat(cs[1..]));
      CutInvertsFlat(cs[1..]);
      assert [cs[0]] + cs[1..] == cs;
    }
  }

  // ----- Inspection -----

  predicate Letters(kind: seq<byte>) {
    forall i :: 0 <= i < |kind| ==> 65 <= kind[i] <= 90 || 97 <= kind[i] <= 122
  }

  predicate CrcOk(codec: Codec, c: Chunk) {
    FromBigEndian(c.crc) == codec.crc32(c.kind + c.data)
  }

  predicate DepthOk(colour: byte, depth: byte) {
    match colour
    case 0 => depth in {1, 2, 4, 8, 16}
    case 2 => depth in {8, 16}
    case 3 => depth in {1, 2, 4, 8}
    case 4 => depth in {8, 16}
    case 6 => depth in {8, 16}
    case _ => false
  }

  function Dimensions(header: Chunk): (nat, nat)
    requires |header.data| >= 8
  {
    (FromBigEndian(header.data[..4]), FromBigEndian(header.data[4..8]))
  }

  predicate HeaderOk(c: Chunk) {
    && c.kind == IHDR && |c.data| == 13
    && Dimensions(c).0 != 0 && Dimensions(c).1 != 0
    && DepthOk(c.data[9], c.data[8])
    && c.data[10] == 0 && c.data[11] == 0 && c.data[12] in {0, 1}
  }

  /** The walk over the chunks: a header first and nowhere else, image data, and an empty trailer last. */
  predicate Structured(codec: Codec, cs: seq<Chunk>, first: bool, sawIdat: bool) {
    && cs != []
    && Letters(cs[0].kind) && CrcOk(codec, cs[0])
    && (if first then HeaderOk(cs[0]) else cs[0].kind != IHDR)
    && var saw := sawIdat || cs[0].kind == IDAT;
       if cs[0].kind == IEND then cs[0].data == [] && saw && |cs| == 1
       else Structured(codec, cs[1..], false, saw)
  }

  /** The image's width and height, when the structure is accepted. */
  function Inspect(codec: Codec, content: seq<byte>): Option<(nat, nat)> {
    if !(20 <= |content| <= MAX_INSPECTION_BYTES) || !(SIGNATURE <= content) then None
    else
      var cut := Cut(content[8..]);
      if cut.Some? && Structured(codec, cut.value, true, false) then Some(Dimensions(cut.value[0])) else None
  }

  /** The walk over the bytes from one chunk boundary on. */
  ghost predicate Passes(codec: Codec, rest: seq<byte>, first: bool, sawIdat: bool) {
    Cut(rest).Some? && Structured(codec, Cut(rest).value, first, sawIdat)
  }

  predicate ChunkPasses(codec: Codec, c: Chunk, first: bool) {
    Letters(c.kind) && CrcOk(codec, c) && if first then HeaderOk(c) else c.kind != IHDR
  }

  lemma PassesStep(codec: Codec, rest: seq<byte>, first: bool, sawIdat: bool)
    ensures Passes(codec, rest, first, sawIdat) <==>
            && Head(rest).Some?
            && var c := Head(rest).value;
               var saw := sawIdat || c.kind == IDAT;
               && ChunkPasses(codec, c, first)
               && if c.kind == IEND then c.data == [] && saw && rest[|Raw(c)|..] == []
                  else Passes(codec, rest[|Raw(c)|..], false, saw)
  {
    hide Letters, CrcOk, HeaderOk, Raw, Head, IHDR, IDAT, IEND;
    if rest != [] && Head(rest).Some? {
      var c := Head(rest).value;
      CutIsEmpty(rest[|Raw(c)|..]);
      if Cut(rest).Some? {
        assert Cut(rest).value[1..] == Cut(rest[|Raw(c)|..]).value;
      }
    }
  }

  lemma CutIsEmpty(rest: seq<byte>)
    ensures Cut(rest) == Some([]) <==> rest == []
  {
  }

  lemma InspectIsPasses(codec: Codec, content: seq<byte>)
    requires 20 <= |content| <= MAX_INSPECTION_BYTES && SIGNATURE <= content
    ensures Passes(codec, content[8..], true, false) ==> Head(content[8..]).Some? && |Head(content[8..]).value.data| >= 8
    ensures Inspect(codec, content) ==
            if Passes(codec, content[8..], true, false) then Some(Dimensions(Head(content[8..]).value)) else None
  {
    hide Head, Letters, CrcOk, DepthOk;
  }

  /** `_inspect_png`, behind the size checks of `inspect_attachment_bytes`. */
  method RunInspect(codec: Codec, content: seq<byte>) returns (r: Option<(nat, nat)>)
    ensures r == Inspect(codec, content)
  {
    if |content| == 0 || |content| > MAX_INSPECTION_BYTES {
      return None;
    }
    if |content| < 20 || !(SIGNATURE <= content) {
      return None;
    }
    var offset, first, sawIdat := 8, true, false;
    var dimensions := (0, 0);
    InspectIsPasses(codec, content);
    hide Inspect, Passes, Letters, CrcOk, HeaderOk, IHDR, IDAT, IEND, Dimensions, FromBigEndian;
    while offset < |content|
      invariant 8 <= offset <= |content|
      invariant Passes(codec, content[8..], true, false) <==> Passes(codec, content[offset..], first, sawIdat)
      invariant first ==> offset == 8
      invariant !first ==>
                Head(content[8..]).Some? && |Head(content[8..]).value.data| >= 8 && dimensions == Dimensions(Head(content[8..]).value)
    {
      PassesStep(codec, content[offset..], first, sawIdat);
      var head := ReadChunk(content, offset);
      if head.None? {
        return None;
      }
      var c := head.value;
      var end := offset + |Raw(c)|;
      assert content[offset..][|Raw(c)|..] == content[end..];
      hide Head, Raw;
      var passes := RunChunk(codec, c, first);
      if !passes {
        return None;
      }
      if first {
        HeaderIsLong(c);
        dimensions := Dimensions(c);
      }
      if c.kind == IDAT {
        sawIdat := true;
      }
      if c.kind == IEND {
        if |c.data| != 0 || !sawIdat || end != |content| {
          return None;
        }
        return Some(dimensions);
      }
      offset, first := end, false;
    }
    PassesStep(codec, content[offset..], first, sawIdat);
    return None;
  }

  /** The chunk at an offset. */
  method ReadChunk(content: seq<byte>, offset: nat) returns (c: Option<Chunk>)
    requires offset <= |content|
    ensures c == Head(content[offset..])
  {
    if |content| - offset < 12 {
      return None;
    }
    var n := FromBigEndian(content[offset..offset + 4]);
    ghost var rest := content[offset..];
    assert rest[..4] == content[offset..offset + 4];
    if offset + 12 + n > |content| {
      return None;
    }
    assert rest[4..8] == content[offset + 4..offset + 8];
    assert rest[8..8 + n] == content[offset + 8..offset + 8 + n];
    assert rest[8 + n..12 + n] == content[offset + 8 + n..offset + 12 + n];
    return Some(Chunk(content[offset..offset + 4], content[offset + 4..offset + 8],
                      content[offset + 8..offset + 8 + n], content[offset + 8 + n..offset + 12 + n]));
  }

  lemma HeaderIsLong(c: Chunk)
    requires HeaderOk(c)
    ensures |c.data| == 13
  {
  }

  /** The checks of one chunk. */
  method RunChunk(codec: Codec, c: Chunk, first: bool) returns (passes: bool)
    ensures passes == ChunkPasses(codec, c, first)
  {
    if !Letters(c.kind) || FromBigEndian(c.crc) != codec.crc32(c.kind + c.data) {
      return false;
    }
    if first {
      if c.kind != IHDR || |c.data| != 13 {
        return false;
      }
      var (width, height) := (FromBigEndian(c.data[..4]), FromBigEndian(c.data[4..8]));
      return width != 0 && height != 0 && DepthOk(c.data[9], c.data[8])
        && c.data[10] == 0 && c.data[11] == 0 && c.data[12] in {0, 1};
    }
    return c.kind != IHDR;
  }

  // ----- What inspection accepts -----

  /**
   * A header first and nowhere else, image data, an empty trailer last and nowhere else, known letters and checksums
   * throughout; `first` and `sawIdat` tell what a walk has seen before.
   */
  ghost predicate WellFormed(codec: Codec, cs: seq<Chunk>, first: bool, sawIdat: bool) {
    && cs != []
    && (first ==> HeaderOk(cs[0]))
    && cs[|cs| - 1].kind == IEND && cs[|cs| - 1].data == []
    && (sawIdat || exists i :: 0 <= i < |cs| && cs[i].kind == IDAT)
    && forall i :: 0 <= i < |cs| ==> PlaceOk(codec, cs[i], first && i == 0, i == |cs| - 1)
  }

  ghost predicate PlaceOk(codec: Codec, c: Chunk, first: bool, last: bool) {
    Letters(c.kind) && CrcOk(codec, c) && (c.kind == IHDR ==> first) && (c.kind == IEND ==> last)
  }

  lemma WellFormedCons(codec: Codec, cs: seq<Chunk>, first: bool, sawIdat: bool)
    requires |cs| > 1
    ensures WellFormed(codec, cs, first, sawIdat) <==>
            && (first ==> HeaderOk(cs[0])) && PlaceOk(codec, cs[0], first, false)
            && WellFormed(codec, cs[1..], false, sawIdat || cs[0].kind == IDAT)
  {
    hide PlaceOk, HeaderOk, IDAT, IEND;
    var more := cs[1..];
    assert more[|more| - 1] == cs[|cs| - 1];
    assert forall i :: 0 <= i < |more| ==> more[i] == cs[i + 1];
    if WellFormed(codec, more, false, sawIdat || cs[0].kind == IDAT) && PlaceOk(codec, cs[0], first, false) {
      if !sawIdat && cs[0].kind != IDAT {
        var i :| 0 <= i < |more| && more[i].kind == IDAT;
        assert cs[i + 1].kind == IDAT;
      }
      forall i | 0 <= i < |cs|
        ensures PlaceOk(codec, cs[i], first && i == 0, i == |cs| - 1)
      {
        if i > 0 {
          assert PlaceOk(codec, more[i - 1], false, i - 1 == |more| - 1);
        }
      }
    }
    if WellFormed(codec, cs, first, sawIdat) {
      assert PlaceOk(codec, cs[0], first, false);
      if !sawIdat && cs[0].kind != IDAT {
        var i :| 0 <= i < |cs| && cs[i].kind == IDAT;
        assert more[i - 1].kind == IDAT;
      }
      forall i | 0 <= i < |more|
        ensures PlaceOk(codec, more[i], false, i == |more| - 1)
      {
        assert PlaceOk(codec, cs[i + 1], false, i + 1 == |cs| - 1);
      }
    }
  }

  lemma {:induction false} StructuredMeansWellFormed(codec: Codec, cs: seq<Chunk>, first: bool, sawIdat: bool)
    ensures Structured(codec, cs, first, sawIdat) <==> WellFormed(codec, cs, first, sawIdat)
    decreases |cs|
  {
    if |cs| > 1 {
      StructuredMeansWellFormed(codec, cs[1..], false, sawIdat || cs[0].kind == IDAT);
      WellFormedCons(codec, cs, first, sawIdat);
      hide WellFormed, Letters, CrcOk, Dimensions, DepthOk;
    } else if |cs| == 1 {
      hide Letters, CrcOk, Dimensions, DepthOk;
      assert cs[1..] == [] && !Structured(codec, cs[1..], false, sawIdat || cs[0].kind == IDAT);
      assert WellFormed(codec, cs, first, sawIdat) ==> PlaceOk(codec, cs[0], first, true);
    }
  }

  /** Inspection accepts exactly the files made of the signature and a well-formed list of chunks. */
  lemma InspectAcceptsWellFormedFiles(codec: Codec, content: seq<byte>)
    ensures Inspect(codec, content).Some? <==>
            20 <= |content| <= MAX_INSPECTION_BYTES
            && exists cs :: content == SIGNATURE + Flat(cs) && AllShaped(cs) && WellFormed(codec, cs, true, false)
  {
    hide Structured, WellFormed, Dimensions, Cut, Flat, AllShaped, SIGNATURE;
    SignatureIsLong();
    if Inspect(codec, content).Some? {
      var cs := Cut(content[8..]).value;
      CutIsFlat(content[8..]);
      StructuredMeansWellFormed(codec, cs, true, false);
      assert content == SIGNATURE + Flat(cs);
    }
    if 20 <= |content| <= MAX_INSPECTION_BYTES
       && exists cs :: content == SIGNATURE + Flat(cs) && AllShaped(cs) && WellFormed(codec, cs, true, false) {
      var cs :| content == SIGNATURE + Flat(cs) && AllShaped(cs) && WellFormed(codec, cs, true, false);
      assert content[8..] == Flat(cs);
      CutInvertsFlat(cs);
      StructuredMeansWellFormed(codec, cs, true, false);
    }
  }

  // ----- Sanitising -----

  predicate IsRetained(c: Chunk) {
    c.kind in {IHDR, PLTE, IDAT, IEND, TRNS}
  }

  /** The chunks that stay. */
  function Retained(cs: seq<Chunk>): seq<Chunk> {
    if cs == [] then [] else (if IsRetained(cs[0]) then [cs[0]] else []) + Retained(cs[1..])
  }

  predicate AnyDropped(cs: seq<Chunk>) {
    cs != [] && (!IsRetained(cs[0]) || AnyDropped(cs[1..]))
  }

  predicate Has(cs: seq<Chunk>, kind: seq<byte>) {
    cs != [] && (cs[0].kind == kind || Has(cs[1..], kind))
  }

  /** The payload of the chunks of one kind, joined. */
  function Joined(cs: seq<Chunk>, kind: seq<byte>): seq<byte> {
    if cs == [] then [] else (if cs[0].kind == kind then cs[0].data else []) + Joined(cs[1..], kind)
  }

  /** What the chunk loop has seen. */
  datatype Seen = Seen(plte: bool, trns: bool, idat: bool)

  function Note(seen: Seen, c: Chunk): Seen {
    Seen(seen.plte || c.kind == PLTE, seen.trns || c.kind == TRNS, seen.idat || c.kind == IDAT)
  }

  predicate ChunkSafe(seen: Seen, c: Chunk) {
    && (c.kind == IHDR ==> |c.data| == 13 && c.data[12] == 0)
    && (c.kind == PLTE ==> !seen.plte && !seen.idat)
    && (c.kind == TRNS ==> !seen.trns && !seen.idat)
    && (!IsRetained(c) ==> !(c.kind != [] && 65 <= c.kind[0] <= 90))
  }

  predicate Safe(cs: seq<Chunk>, seen: Seen) {
    cs == [] || (ChunkSafe(seen, cs[0]) && Safe(cs[1..], Note(seen, cs[0])))
  }

  function Channels(colour: byte): nat {
    match colour
    case 0 => 1
    case 2 => 3
    case 3 => 1
    case 4 => 2
    case _ => 4
  }

  function RowBytes(header: Chunk): nat
    requires |header.data| == 13
  {
    (Dimensions(header).0 * Channels(header.data[9]) * header.data[8] + 7) / 8
  }

  /** The filter byte that starts each of the first `rows` rows is one of the five defined. */
  predicate FiltersOk(pixels: seq<byte>, stride: nat, rows: nat) {
    rows == 0 || (FiltersOk(pixels, stride, rows - 1) && (rows - 1) * stride < |pixels| && pixels[(rows - 1) * stride] <= 4)
  }

  /** What is wrong with the decoded pixels, if anything. */
  function PixelProblem(codec: Codec, policy: Policy, header: Chunk, palette: bool, idat: seq<byte>): Option<Reason>
    requires |header.data| == 13
  {
    if header.data[9] == 3 && !palette then Some(UnsafePng)
    else
      var height, stride := Dimensions(header).1, RowBytes(header) + 1;
      if height * stride > policy.maxDecoded then Some(ImageLimitExceeded)
      else
        match codec.inflate(idat, height * stride)
        case None => Some(UnsafePng)
        case Some(inflated) =>
          if |inflated.bytes| == height * stride && inflated.clean && FiltersOk(inflated.bytes, stride, height) then None
          else Some(UnsafePng)
  }

  const NOTHING := Seen(false, false, false)

  function Sanitize(codec: Codec, policy: Policy, content: seq<byte>): Result<(seq<byte>, bool), Reason> {
    var dimensions := Inspect(codec, content);
    if dimensions.None? then Failure(UnsafePng)
    else if !WithinLimits(policy.limits, dimensions.value) then Failure(ImageLimitExceeded)
    else
      var cs := Cut(content[8..]).value;
      if |cs| > policy.maxChunks || !Safe(cs, NOTHING) then Failure(UnsafePng)
      else
        var problem := PixelProblem(codec, policy, cs[0], Has(cs, PLTE), Joined(cs, IDAT));
        if problem.Some? then Failure(problem.value)
        else Success((SIGNATURE + Flat(Retained(cs)), AnyDropped(cs)))
  }

  // ----- The chunk loop -----

  /** The variables of the chunk loop. */
  datatype Progress = Progress(output: seq<byte>, idat: seq<byte>, stripped: bool, seen: Seen, chunks: nat)

  function Step(p: Progress, c: Chunk): Progress {
    Progress(if IsRetained(c) then p.output + Raw(c) else p.output,
             if c.kind == IDAT then p.idat + c.data else p.idat,
             p.stripped || !IsRetained(c), Note(p.seen, c), p.chunks + 1)
  }

  function Walk(p: Progress, cs: seq<Chunk>, max: nat): Option<Progress>
    decreases |cs|
  {
    if cs == [] then Some(p)
    else if p.chunks + 1 > max || !ChunkSafe(p.seen, cs[0]) then None
    else Walk(Step(p, cs[0]), cs[1..], max)
  }

  /** The loop accepts the safe lists and gathers what the specification names. */
  lemma {:induction false} WalkGathers(p: Progress, cs: seq<Chunk>, max: nat)
    requires p.chunks <= max
    ensures Walk(p, cs, max).Some? <==> p.chunks + |cs| <= max && Safe(cs, p.seen)
    ensures Walk(p, cs, max).Some? ==>
              var q := Walk(p, cs, max).value;
              && q.output == p.output + Flat(Retained(cs))
              && q.idat == p.idat + Joined(cs, IDAT)
              && q.stripped == (p.stripped || AnyDropped(cs))
              && q.seen.plte == (p.seen.plte || Has(cs, PLTE))
    decreases |cs|
  {
    hide IsRetained, ChunkSafe, Raw, PLTE, IDAT, TRNS;
    if cs == [] {
      assert p.output + [] == p.output && p.idat + [] == p.idat;
    } else if p.chunks + 1 <= max {
      var c := cs[0];
      WalkGathers(Step(p, c), cs[1..], max);
      if IsRetained(c) {
        assert Retained(cs)[0] == c && Retained(cs)[1..] == Retained(cs[1..]);
        assert p.output + Raw(c) + Flat(Retained(cs[1..])) == p.output + (Raw(c) + Flat(Retained(cs[1..])));
      } else {
        assert Retained(cs) == Retained(cs[1..]);
      }
      if c.kind == IDAT {
        assert p.idat + c.data + Joined(cs[1..], IDAT) == p.idat + (c.data + Joined(cs[1..], IDAT));
      } else {
        assert Joined(cs, IDAT) == Joined(cs[1..], IDAT);
      }
    }
  }

  lemma NextChunk(codec: Codec, rest: seq<Chunk>, first: bool, sawIdat: bool)
    requires AllShaped(rest) && Structured(codec, rest, first, sawIdat)
    ensures var c := rest[0];
            && Head(Flat(rest)) == Some(c) && Flat(rest)[|Raw(c)|..] == Flat(rest[1..]) && |Raw(c)| == 12 + |c.data|
            && AllShaped(rest[1..])
            && (first <==> c.kind == IHDR) && (first ==> |c.data| == 13)
            && (rest[1..] == [] || Structured(codec, rest[1..], false, sawIdat || c.kind == IDAT))
  {
    hide Head, Raw, Letters, CrcOk, Dimensions, DepthOk, Shaped, IDAT, IEND, IHDR;
    HeadOfFlat(rest[0], Flat(rest[1..]));
  }

  /** One pass of the chunk loop. */
  method RunStep(p: Progress, c: Chunk, max: nat) returns (q: Option<Progress>)
    requires c.kind == IHDR ==> |c.data| == 13
    ensures q == if p.chunks + 1 > max || !ChunkSafe(p.seen, c) then None else Some(Step(p, c))
  {
    hide Raw;
    var seen, idat := p.seen, p.idat;
    if p.chunks + 1 > max {
      return None;
    }
    if c.kind == IHDR {
      if c.data[12] != 0 {
        return None;
      }
    } else if c.kind == PLTE {
      if seen.plte || seen.idat {
        return None;
      }
      seen := seen.(plte := true);
    } else if c.kind == TRNS {
      if seen.trns || seen.idat {
        return None;
      }
      seen := seen.(trns := true);
    } else if c.kind == IDAT {
      seen := seen.(idat := true);
      idat := idat + c.data;
    }
    if IsRetained(c) {
      return Some(Progress(p.output + Raw(c), idat, p.stripped, seen, p.chunks + 1));
    } else if c.kind != [] && 65 <= c.kind[0] <= 90 {
      return None;
    }
    return Some(Progress(p.output, idat, true, seen, p.chunks + 1));
  }

  /** The chunk loop of `_sanitize_png`, on inspected content: with the loop's variables, the bit depth and colour type. */
  method RunChunks(codec: Codec, max: nat, content: seq<byte>, ghost cs: seq<Chunk>)
    returns (r: Option<Progress>, depth: byte, colour: byte)
    requires 8 <= |content| && content[8..] == Flat(cs) && AllShaped(cs) && Structured(codec, cs, true, false)
    requires cs != [] && |cs[0].data| == 13
    ensures r == Walk(Progress(SIGNATURE, [], false, NOTHING, 0), cs, max)
    ensures r.Some? ==> depth == cs[0].data[8] && colour == cs[0].data[9]
  {
    var p, offset := Progress(SIGNATURE, [], false, NOTHING, 0), 8;
    depth, colour := 0, 0;
    ghost var start, rest, first := p, cs, true;
    hide Structured, Head, Raw, FromBigEndian, AllShaped, Flat, HeaderOk, ChunkSafe, Step, IsRetained, IHDR, IDAT, SIGNATURE, Walk;
    while offset < |content|
      invariant offset <= |content| && content[offset..] == Flat(rest)
      invariant rest == [] || (AllShaped(rest) && Structured(codec, rest, first, p.seen.idat))
      invariant Walk(start, cs, max) == Walk(p, rest, max)
      invariant if first then rest == cs else depth == cs[0].data[8] && colour == cs[0].data[9]
    {
      var c, end := ReadNext(codec, content, offset, rest, first, p.seen.idat);
      WalkOnce(p, rest, max);
      if c.kind == IHDR {
        depth, colour := c.data[8], c.data[9];
      }
      var q := RunStep(p, c, max);
      if q.None? {
        return None, depth, colour;
      }
      StepNotes(p, c);
      p, offset, rest, first := q.value, end, rest[1..], false;
    }
    FlatOfNothing(rest);
    WalkOnce(p, rest, max);
    return Some(p), depth, colour;
  }

  /** The next chunk of inspected content, which is within bounds. */
  method ReadNext(codec: Codec, content: seq<byte>, offset: nat, ghost rest: seq<Chunk>, ghost first: bool, ghost sawIdat: bool)
    returns (c: Chunk, end: nat)
    requires offset < |content| && content[offset..] == Flat(rest)
    requires rest == [] || (AllShaped(rest) && Structured(codec, rest, first, sawIdat))
    ensures rest != [] && c == rest[0] && end <= |content| && content[end..] == Flat(rest[1..])
    ensures (first <==> c.kind == IHDR) && (first ==> |c.data| == 13)
    ensures offset < end && (rest[1..] == [] || (AllShaped(rest[1..]) && Structured(codec, rest[1..], false, sawIdat || c.kind == IDAT)))
  {
    hide Structured, Head, Raw, FromBigEndian, AllShaped, Flat, IHDR, IDAT;
    FlatOfNothing(rest);
    NextChunk(codec, rest, first, sawIdat);
    var head := ReadChunk(content, offset);
    c := head.value;
    end := offset + |Raw(c)|;
    assert content[offset..][|Raw(c)|..] == content[end..];
  }

  lemma WalkOnce(p: Progress, cs: seq<Chunk>, max: nat)
    ensures cs == [] ==> Walk(p, cs, max) == Some(p)
    ensures cs != [] ==>
              Walk(p, cs, max) ==
              if p.chunks + 1 > max || !ChunkSafe(p.seen, cs[0]) then None else Walk(Step(p, cs[0]), cs[1..], max)
  {
  }

  lemma StepNotes(p: Progress, c: Chunk)
    ensures Step(p, c).seen.idat == (p.seen.idat || c.kind == IDAT)
  {
  }

  lemma FlatOfNothing(cs: seq<Chunk>)
    ensures cs == [] ==> Flat(cs) == []
    ensures cs != [] && Shaped(cs[0]) ==> Flat(cs) != []
  {
  }

  /** Every row starts inside the decoded pixels. */
  lemma {:induction false} RowInRange(row: nat, stride: nat, height: nat)
    requires row < height && stride > 0
    ensures row * stride < height * stride
    decreases height
  {
    assert height * stride == (height - 1) * stride + stride;
    if row < height - 1 {
      RowInRange(row, stride, height - 1);
    }
  }

  /** `any(inflated[index * (row_bytes + 1)] > 4 for index in range(height))`, negated. */
  method RunFilters(pixels: seq<byte>, stride: nat, height: nat) returns (ok: bool)
    requires stride > 0 && |pixels| == height * stride
    ensures ok == FiltersOk(pixels, stride, height)
    ensures ok ==> forall row :: 0 <= row < height ==> row * stride < |pixels| && pixels[row * stride] <= 4
  {
    var row := 0;
    while row < height
      invariant 0 <= row <= height
      invariant FiltersOk(pixels, stride, row)
      invariant forall k :: 0 <= k < row ==> k * stride < |pixels| && pixels[k * stride] <= 4
    {
      RowInRange(row, stride, height);
      if pixels[row * stride] > 4 {
        FiltersFail(pixels, stride, row + 1, height);
        return false;
      }
      row := row + 1;
    }
    return true;
  }

  lemma {:induction false} FiltersFail(pixels: seq<byte>, stride: nat, row: nat, height: nat)
    requires row <= height && !FiltersOk(pixels, stride, row)
    ensures !FiltersOk(pixels, stride, height)
    decreases height
  {
    if row < height {
      FiltersFail(pixels, stride, row, height - 1);
    }
  }

  /** `_sanitize_png`. */
  method RunSanitize(codec: Codec, policy: Policy, content: seq<byte>) returns (r: Result<(seq<byte>, bool), Reason>)
    ensures r == Sanitize(codec, policy, content)
  {
    hide Structured, HeaderOk, Dimensions, Walk, Safe, FiltersOk, WithinLimits, IDAT, PLTE, SIGNATURE, Cut, Joined, Has, Flat, Retained, AnyDropped;
    var dimensions := RunInspect(codec, content);
    if dimensions.None? {
      return Failure(UnsafePng);
    }
    if !WithinLimits(policy.limits, dimensions.value) {
      return Failure(ImageLimitExceeded);
    }
    CutIsFlat(content[8..]);
    ghost var cs := Cut(content[8..]).value;
    AcceptedIsLong(codec, cs);
    var p, depth, colour := RunChunks(codec, policy.maxChunks, content, cs);
    WalkGathers(Progress(SIGNATURE, [], false, NOTHING, 0), cs, policy.maxChunks);
    if p.None? {
      return Failure(UnsafePng);
    }
    assert [] + Joined(cs, IDAT) == Joined(cs, IDAT);
    var problem := RunPixels(codec, policy, dimensions.value, depth, colour, p.value.seen.plte, p.value.idat, cs[0]);
    if problem.Some? {
      return Failure(problem.value);
    }
    return Success((p.value.output, p.value.stripped));
  }

  method RunPixels(
    codec: Codec, policy: Policy, dimensions: (nat, nat), depth: byte, colour: byte, palette: bool, idat: seq<byte>,
    ghost header: Chunk) returns (problem: Option<Reason>)
    requires |header.data| == 13 && dimensions == Dimensions(header) && depth == header.data[8] && colour == header.data[9]
    ensures problem == PixelProblem(codec, policy, header, palette, idat)
  {
    hide FiltersOk, Dimensions, Channels;
    if colour == 3 && !palette {
      return Some(UnsafePng);
    }
    var rowBytes := (dimensions.0 * Channels(colour) * depth + 7) / 8;
    var expected := dimensions.1 * (rowBytes + 1);
    if expected > policy.maxDecoded {
      return Some(ImageLimitExceeded);
    }
    var inflated := codec.inflate(idat, expected);
    if inflated.None? || |inflated.value.bytes| != expected || !inflated.value.clean {
      return Some(UnsafePng);
    }
    var ok := RunFilters(inflated.value.bytes, rowBytes + 1, dimensions.1);
    return if ok then None else Some(UnsafePng);
  }

  // ----- Sanitising keeps the image and is idempotent -----

  function OfKind(cs: seq<Chunk>, kind: seq<byte>): seq<Chunk> {
    if cs == [] then [] else (if cs[0].kind == kind then [cs[0]] else []) + OfKind(cs[1..], kind)
  }

  lemma RetainedHead(cs: seq<Chunk>)
    requires cs != []
    ensures IsRetained(cs[0]) ==> Retained(cs) != [] && Retained(cs)[0] == cs[0] && Retained(cs)[1..] == Retained(cs[1..])
    ensures !IsRetained(cs[0]) ==> Retained(cs) == Retained(cs[1..])
  {
  }

  lemma {:induction false} RetainedStructured(codec: Codec, cs: seq<Chunk>, first: bool, sawIdat: bool)
    requires Structured(codec, cs, first, sawIdat)
    ensures Structured(codec, Retained(cs), first, sawIdat)
    ensures Retained(cs) != [] && (first ==> Retained(cs)[0] == cs[0])
    decreases |cs|
  {
    RetainedHead(cs);
    assert cs[0].kind in {IHDR, IDAT, IEND} ==> IsRetained(cs[0]);
    hide Letters, CrcOk, IsRetained, Dimensions, DepthOk;
    if cs[0].kind != IEND {
      RetainedStructured(codec, cs[1..], false, sawIdat || cs[0].kind == IDAT);
    } else {
      assert Retained(cs[1..]) == [];
    }
  }

  lemma {:induction false} RetainedSafe(cs: seq<Chunk>, seen: Seen)
    requires Safe(cs, seen)
    ensures Safe(Retained(cs), seen)
    decreases |cs|
  {
    if cs != [] {
      RetainedHead(cs);
      assert !IsRetained(cs[0]) ==> Note(seen, cs[0]) == seen;
      hide ChunkSafe, IsRetained, Note;
      RetainedSafe(cs[1..], Note(seen, cs[0]));
    }
  }

  lemma {:induction false} RetainedKeepsKind(cs: seq<Chunk>, kind: seq<byte>)
    requires kind in {IHDR, PLTE, IDAT, IEND, TRNS}
    ensures OfKind(Retained(cs), kind) == OfKind(cs, kind)
    ensures Joined(Retained(cs), kind) == Joined(cs, kind)
    ensures Has(Retained(cs), kind) == Has(cs, kind)
    decreases |cs|
  {
    if cs != [] {
      RetainedHead(cs);
      RetainedKeepsKind(cs[1..], kind);
      assert cs[0].kind == kind ==> IsRetained(cs[0]);
      hide IsRetained, IHDR, PLTE, IDAT, IEND, TRNS;
    }
  }

  /** Nothing retained is dropped the second time. */
  lemma {:induction false} RetainedIsFixed(cs: seq<Chunk>)
    ensures Retained(Retained(cs)) == Retained(cs) && !AnyDropped(Retained(cs))
    ensures |Retained(cs)| <= |cs|
    ensures AllShaped(cs) ==> AllShaped(Retained(cs))
    decreases |cs|
  {
    if cs != [] {
      RetainedHead(cs);
      hide IsRetained, Shaped;
      RetainedIsFixed(cs[1..]);
      if IsRetained(cs[0]) {
        RetainedHead(Retained(cs));
        if AllShaped(cs) {
          assert forall i :: 0 <= i < |Retained(cs)| - 1 ==> Retained(cs)[i + 1] == Retained(cs)[1..][i];
        }
      }
    }
  }

  lemma {:induction false} DroppingShortens(cs: seq<Chunk>)
    ensures |Flat(Retained(cs))| <= |Flat(cs)|
    ensures AllShaped(cs) && AnyDropped(cs) ==> |Flat(Retained(cs))| < |Flat(cs)|
    ensures !AnyDropped(cs) ==> Retained(cs) == cs
    decreases |cs|
  {
    if cs != [] {
      RetainedHead(cs);
      hide IsRetained;
      DroppingShortens(cs[1..]);
      assert AllShaped(cs) ==> AllShaped(cs[1..]);
    }
  }

  /**
   * The output is the signature and the retained chunks, byte for byte and in order; every retained kind keeps all its
   * chunks; and the flag says whether the output differs from the input.
   */
  lemma SanitizedIsExact(codec: Codec, policy: Policy, content: seq<byte>)
    ensures Sanitize(codec, policy, content).Success? ==>
              var (output, stripped) := Sanitize(codec, policy, content).value;
              && SIGNATURE <= content && Cut(content[8..]).Some?
              && var cs := Cut(content[8..]).value;
                 && content == SIGNATURE + Flat(cs)
                 && output == SIGNATURE + Flat(Retained(cs)) && Cut(output[8..]) == Some(Retained(cs))
                 && (forall kind :: kind in {IHDR, PLTE, IDAT, IEND, TRNS} ==> OfKind(Retained(cs), kind) == OfKind(cs, kind))
                 && (stripped <==> output != content)
  {
    if Sanitize(codec, policy, content).Success? {
      var cs := Cut(content[8..]).value;
      CutIsFlat(content[8..]);
      assert content == SIGNATURE + content[8..];
      hide Cut, Structured, Safe, PixelProblem, WithinLimits, Flat, Retained, AnyDropped, OfKind;
      RetainedIsFixed(cs);
      DroppingShortens(cs);
      CutInvertsFlat(Retained(cs));
      assert (SIGNATURE + Flat(Retained(cs)))[8..] == Flat(Retained(cs));
      forall kind | kind in {IHDR, PLTE, IDAT, IEND, TRNS}
        ensures OfKind(Retained(cs), kind) == OfKind(cs, kind)
      {
        RetainedKeepsKind(cs, kind);
      }
    }
  }

  /** The output passes inspection with the same dimensions, and sanitising it again returns it unchanged. */
  lemma SanitizeIsIdempotent(codec: Codec, policy: Policy, content: seq<byte>)
    ensures Sanitize(codec, policy, content).Success? ==>
              var output := Sanitize(codec, policy, content).value.0;
              && Inspect(codec, output) == Inspect(codec, content)
              && Sanitize(codec, policy, output) == Success((output, false))
  {
    hide Cut, Structured, Safe, PixelProblem, WithinLimits, Flat, Retained, AnyDropped, OfKind, Joined, Has, IDAT, PLTE, Dimensions,
      AllShaped, SIGNATURE;
    if Sanitize(codec, policy, content).Success? {
      var cs := Cut(content[8..]).value;
      var output := Sanitize(codec, policy, content).value.0;
      SanitizedIsExact(codec, policy, content);
      SignatureIsLong();
      CutIsFlat(content[8..]);
      RetainedStructured(codec, cs, true, false);
      RetainedSafe(cs, NOTHING);
      RetainedIsFixed(cs);
      DroppingShortens(cs);
      RetainedKeepsKind(cs, PLTE);
      RetainedKeepsKind(cs, IDAT);
      AcceptedIsLong(codec, Retained(cs));
      assert Inspect(codec, output) == Inspect(codec, content);
    }
  }

  lemma SignatureIsLong()
    ensures |SIGNATURE| == 8
  {
  }

  lemma AcceptedIsLong(codec: Codec, cs: seq<Chunk>)
    requires AllShaped(cs) && Structured(codec, cs, true, false)
    ensures cs != [] && |Flat(cs)| >= 12 && |cs[0].data| == 13
  {
    hide Letters, CrcOk, Dimensions, DepthOk, FromBigEndian;
    assert Shaped(cs[0]);
  }

  /** An accepted image is within every limit, and each of its decoded rows starts with a defined filter. */
  lemma SanitizedIsBounded(codec: Codec, policy: Policy, content: seq<byte>)
    ensures Sanitize(codec, policy, content).Success? ==>
              && Inspect(codec, content).Some? && Cut(content[8..]).Some? && |Cut(content[8..]).value| <= policy.maxChunks
              && var (width, height) := Inspect(codec, content).value;
                 && 1 <= width <= policy.limits.maxWidth && 1 <= height <= policy.limits.maxHeight
                 && width * height <= policy.limits.maxPixels
                 && exists pixels, stride ::
                      && |pixels| == height * stride <= policy.maxDecoded && stride > 0
                      && codec.inflate(Joined(Cut(content[8..]).value, IDAT), |pixels|) == Some(Inflation(pixels, true))
                      && FiltersOk(pixels, stride, height)
  {
    hide FromBigEndian, Cut, Safe, Joined, Has, FiltersOk, IDAT, PLTE, Flat, Retained, AnyDropped, DepthOk, Letters, CrcOk, Channels;
    if Sanitize(codec, policy, content).Success? {
      var cs := Cut(content[8..]).value;
      var stride, height := RowBytes(cs[0]) + 1, Dimensions(cs[0]).1;
      var inflated := codec.inflate(Joined(cs, IDAT), height * stride).value;
      assert codec.inflate(Joined(cs, IDAT), |inflated.bytes|) == Some(Inflation(inflated.bytes, true));
    }
  }
}
