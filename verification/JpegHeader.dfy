/** Finding the frame header of a JPEG stream (`readJpegDimensions`), against the syntax of ITU-T T.81:
  * marker segments and standalone markers (section B.1.1) and the frame header (section B.2.2). */
module JpegHeader {
  import opened JsText
  import opened Lists

  type byte = x: int | 0 <= x < 256

  datatype Size = Size(height: nat, width: nat)

  function U16(bytes: seq<byte>, i: nat): nat
    requires i + 1 < |bytes|
  {
    256 * (bytes[i] as int) + bytes[i + 1] as int
  }

  /** SOI, EOI, TEM and the restart markers: no length follows. */
  predicate IsStandalone(marker: byte) {
    marker == 0xd8 || marker == 0xd9 || marker == 0x01 || 0xd0 <= marker <= 0xd7
  }

  /** SOF0 to SOF15 without DHT (C4), JPG (C8) and DAC (CC). */
  predicate IsFrameMarker(marker: byte) {
    || 0xc0 <= marker <= 0xc3 || 0xc5 <= marker <= 0xc7
    || 0xc9 <= marker <= 0xcb || 0xcd <= marker <= 0xcf
  }

  /** What the walker finds in the bytes from its current offset on. */
  function Walk(tail: seq<byte>): Option<Size>
    decreases |tail|
  {
    if |tail| < 10 then None
    else if tail[0] != 0xff then Walk(tail[1..])
    else if IsStandalone(tail[1]) then Walk(tail[2..])
    else
      var length := U16(tail, 2);
      if length < 2 || 2 + length > |tail| then None
      else if IsFrameMarker(tail[1]) then
        if length < 7 then None else Some(Size(U16(tail, 5), U16(tail, 7)))
      else Walk(tail[2 + length..])
  }

  /** One turn of the walk, by indices into the whole buffer. */
  lemma WalkAt(buffer: seq<byte>, offset: nat)
    requires offset + 9 < |buffer|
    ensures Walk(buffer[offset..]) ==
      if buffer[offset] != 0xff then Walk(buffer[offset + 1..])
      else if IsStandalone(buffer[offset + 1]) then Walk(buffer[offset + 2..])
      else
        var length := U16(buffer, offset + 2);
        if length < 2 || offset + 2 + length > |buffer| then None
        else if IsFrameMarker(buffer[offset + 1]) then
          if length < 7 then None else Some(Size(U16(buffer, offset + 5), U16(buffer, offset + 7)))
        else Walk(buffer[offset + 2 + length..])
  {
    var tail := buffer[offset..];
    assert tail[1..] == buffer[offset + 1..] && tail[2..] == buffer[offset + 2..];
    var length := U16(tail, 2);
    assert 2 + length <= |tail| ==> tail[2 + length..] == buffer[offset + 2 + length..];
  }

  /** The loop of the source. It reads only inside the buffer and ends on every input. */
  method ReadJpegDimensions(buffer: seq<byte>) returns (size: Option<Size>)
    ensures size == if |buffer| < 2 then None else Walk(buffer[2..])
  {
    var offset := 2;
    while offset + 9 < |buffer|
      invariant 2 <= offset && (|buffer| >= 2 ==> offset <= |buffer|)
      invariant |buffer| >= 2 ==> Walk(buffer[offset..]) == Walk(buffer[2..])
    {
      hide Walk;
      WalkAt(buffer, offset);
      if buffer[offset] != 0xff {
        offset := offset + 1;
        continue;
      }
      var marker := buffer[offset + 1];
      offset := offset + 2;
      if marker == 0xd8 || marker == 0xd9 {
        continue;
      }
      if marker == 0x01 || 0xd0 <= marker <= 0xd7 {
        continue;
      }
      if offset + 2 > |buffer| {
        return None;
      }
      var length := U16(buffer, offset);
      if length < 2 || offset + length > |buffer| {
        return None;
      }
      if IsFrameMarker(marker) {
        if length < 7 {
          return None;
        }
        return Some(Size(U16(buffer, offset + 3), U16(buffer, offset + 5)));
      }
      offset := offset + length;
    }
    size := None;
  }

  // ----- the syntax of the standard -----

  /** Table B.1: SOF0 to SOF15, leaving out DHT, JPG and DAC. */
  predicate StartsFrame(marker: byte) {
    0xc0 <= marker <= 0xcf && marker !in {0xc4, 0xc8, 0xcc}
  }

  /** B.1.1.3: TEM, RST0 to RST7, SOI and EOI. */
  predicate StandsAlone(marker: byte) {
    marker in {0x01, 0xd0, 0xd1, 0xd2, 0xd3, 0xd4, 0xd5, 0xd6, 0xd7, 0xd8, 0xd9}
  }

  datatype Segment = Alone(marker: byte) | Sized(marker: byte, payload: seq<byte>)

  /** B.1.1.2 to B.1.1.4: the two-byte length counts itself and the payload, but not the marker. */
  predicate IsSegment(s: Segment) {
    match s
    case Alone(m) => StandsAlone(m)
    case Sized(m, payload) =>
      !StandsAlone(m) && !StartsFrame(m) && m != 0x00 && m != 0xff && |payload| <= 65533
  }

  function Be16(n: nat): seq<byte>
    requires n < 65536
  {
    [n / 256, n % 256]
  }

  function Encode(s: Segment): seq<byte>
    requires IsSegment(s)
  {
    match s
    case Alone(m) => [0xff, m]
    case Sized(m, payload) => [0xff, m] + Be16(|payload| + 2) + payload
  }

  function EncodeAll(segments: seq<Segment>): seq<byte>
    requires forall s | s in segments :: IsSegment(s)
  {
    if segments == [] then [] else Encode(segments[0]) + EncodeAll(segments[1..])
  }

  /** B.2.2: sample precision, lines, samples per line, and three bytes for each component. */
  datatype Frame = Frame(marker: byte, precision: byte, height: nat, width: nat, components: seq<byte>)

  predicate IsFrame(f: Frame) {
    && StartsFrame(f.marker) && f.height < 65536 && f.width < 65536
    && |f.components| % 3 == 0 && 3 <= |f.components| <= 3 * 255
  }

  function EncodeFrame(f: Frame): seq<byte>
    requires IsFrame(f)
  {
    [0xff, f.marker] + Be16(8 + |f.components|) + [f.precision] + Be16(f.height) + Be16(f.width)
    + [|f.components| / 3] + f.components
  }

  // ----- the walker finds the first frame header -----

  lemma WalkFrame(f: Frame, rest: seq<byte>)
    requires IsFrame(f)
    ensures Walk(EncodeFrame(f) + rest) == Some(Size(f.height, f.width))
    ensures |EncodeFrame(f)| >= 13
  {
    var tail := EncodeFrame(f) + rest;
    assert tail[2] == (8 + |f.components|) / 256 && tail[3] == (8 + |f.components|) % 256;
    assert tail[5] == f.height / 256 && tail[6] == f.height % 256;
    assert tail[7] == f.width / 256 && tail[8] == f.width % 256;
  }

  lemma WalkSegment(s: Segment, rest: seq<byte>)
    requires IsSegment(s) && |rest| >= 10
    ensures Walk(Encode(s) + rest) == Walk(rest)
  {
    var tail := Encode(s) + rest;
    match s
    case Alone(m) =>
      assert tail[2..] == rest;
    case Sized(m, payload) =>
      var length := |payload| + 2;
      assert tail[2] == length / 256 && tail[3] == length % 256;
      assert U16(tail, 2) == length;
      assert tail[2 + length..] == rest;
  }

  /** Segments and standalone markers without fill bytes are passed over, however long they are. */
  lemma {:induction false} WalkPasses(segments: seq<Segment>, rest: seq<byte>)
    requires (forall s | s in segments :: IsSegment(s)) && |rest| >= 10
    ensures Walk(EncodeAll(segments) + rest) == Walk(rest)
  {
    hide Walk, Encode, IsSegment;
    if segments == [] {
      assert EncodeAll(segments) + rest == rest;
    } else {
      var later := EncodeAll(segments[1..]);
      assert segments[0] in segments && forall s | s in segments[1..] :: s in segments;
      WalkPasses(segments[1..], rest);
      WalkSegment(segments[0], later + rest);
      AppendAssoc(Encode(segments[0]), later, rest);
    }
  }

  /** After any segments and standalone markers, the result is the size in the first frame header. */
  lemma WalkFindsFrame(segments: seq<Segment>, f: Frame, rest: seq<byte>)
    requires (forall s | s in segments :: IsSegment(s)) && IsFrame(f)
    ensures Walk(EncodeAll(segments) + (EncodeFrame(f) + rest)) == Some(Size(f.height, f.width))
  {
    hide Walk, EncodeAll, EncodeFrame;
    WalkFrame(f, rest);
    WalkPasses(segments, EncodeFrame(f) + rest);
  }

  /** The whole stream: SOI, the segments, the frame header, anything. */
  method ReadFindsFrame(segments: seq<Segment>, f: Frame, rest: seq<byte>) returns (size: Option<Size>)
    requires (forall s | s in segments :: IsSegment(s)) && IsFrame(f)
    ensures size == Some(Size(f.height, f.width))
  {
    var stream := EncodeAll(segments) + (EncodeFrame(f) + rest);
    var buffer := [0xff, 0xd8] + stream;
    WalkFindsFrame(segments, f, rest);
    assert buffer[2..] == stream;
    size := ReadJpegDimensions(buffer);
  }

  /** A complete frame header at offset `o` that announces this size. */
  ghost predicate HeaderAt(tail: seq<byte>, o: nat, size: Size) {
    && o + 9 < |tail| && tail[o] == 0xff && StartsFrame(tail[o + 1])
    && 7 <= U16(tail, o + 2) <= |tail| - o - 2
    && size == Size(U16(tail, o + 5), U16(tail, o + 7))
  }

  /** A size is only ever read from a complete header behind a frame marker. */
  lemma {:induction false} WalkIsSound(tail: seq<byte>) returns (o: nat)
    requires Walk(tail).Some?
    ensures HeaderAt(tail, o, Walk(tail).value)
    decreases |tail|
  {
    if tail[0] == 0xff && !StandsAlone(tail[1]) && StartsFrame(tail[1]) {
      o := 0;
    } else {
      var skip := if tail[0] != 0xff then 1 else if StandsAlone(tail[1]) then 2 else 2 + U16(tail, 2);
      var p := WalkIsSound(tail[skip..]);
      o := skip + p;
      HeaderShift(tail, skip, p, Walk(tail).value);
    }
  }

  lemma HeaderShift(tail: seq<byte>, skip: nat, o: nat, size: Size)
    requires skip <= |tail| && HeaderAt(tail[skip..], o, size)
    ensures HeaderAt(tail, skip + o, size)
  {
    forall k | 0 <= k < |tail| - skip ensures tail[skip..][k] == tail[skip + k] {
    }
  }

  lemma FrameStart(f: Frame, rest: seq<byte>)
    requires IsFrame(f)
    ensures var tail := EncodeFrame(f) + rest;
      |tail| == |EncodeFrame(f)| + |rest| && |tail| >= 13 && tail[0] == 0xff && tail[1] == f.marker
  {
    var header := [0xff, f.marker] + Be16(8 + |f.components|);
    assert EncodeFrame(f)[..4] == header;
    assert EncodeFrame(f)[0] == header[0] && EncodeFrame(f)[1] == header[1];
  }

  lemma FillByteIsReadAsMarker(tail: seq<byte>)
    requires |tail| >= 9 && tail[0] == 0xff && 1 + |tail| < 256 * (tail[1] as int)
    ensures Walk([0xff] + tail) == None
  {
    var all := [0xff] + tail;
    assert all[0] == 0xff && all[1] == 0xff && all[2] == tail[1];
    assert U16(all, 2) >= 256 * (tail[1] as int);
  }

  /** B.1.1.2 allows fill bytes (FF) before any marker; the walker takes the first of them for a marker. The size of
    * this one-pixel image is found, and with one fill byte in front of its frame header it is not. */
  lemma FillByteHidesFrame()
    ensures var f := Frame(0xc0, 8, 1, 1, [1, 0x11, 0]);
      && IsFrame(f) && Walk(EncodeFrame(f)) == Some(Size(1, 1)) && Walk([0xff] + EncodeFrame(f)) == None
  {
    hide Walk;
    var f := Frame(0xc0, 8, 1, 1, [1, 0x11, 0]);
    WalkFrame(f, []);
    FrameStart(f, []);
    assert EncodeFrame(f) + [] == EncodeFrame(f) && |EncodeFrame(f)| == 13;
    FillByteIsReadAsMarker(EncodeFrame(f));
  }

  // ----- exactly when fill bytes hide the frame -----

  function Fill(n: nat): seq<byte> {
    if n == 0 then [] else [0xff] + Fill(n - 1)
  }

  /** A segment with the fill bytes in front of it. */
  datatype Filled = Filled(fill: nat, segment: Segment)

  function EncodeFilled(parts: seq<Filled>): seq<byte>
    requires forall p | p in parts :: IsSegment(p.segment)
  {
    if parts == [] then [] else Fill(parts[0].fill) + Encode(parts[0].segment) + EncodeFilled(parts[1..])
  }

  /** Segments and a frame header, each behind any number of fill bytes, and anything after that. */
  function Stream(parts: seq<Filled>, fill: nat, f: Frame, rest: seq<byte>): seq<byte>
    requires (forall p | p in parts :: IsSegment(p.segment)) && IsFrame(f)
  {
    EncodeFilled(parts) + (Fill(fill) + EncodeFrame(f) + rest)
  }

  ghost predicate NoFill(parts: seq<Filled>, fill: nat) {
    fill == 0 && forall p | p in parts :: p.fill == 0
  }

  ghost predicate MarkersFrom(low: byte, parts: seq<Filled>, f: Frame) {
    f.marker >= low && forall p | p in parts :: p.segment.marker >= low
  }

  /** What begins with fill bytes is read as a marker with a length the stream does not have. */
  lemma FilledIsUnread(n: nat, low: byte, body: seq<byte>)
    requires n > 0 && |body| >= 9 && body[0] == 0xff && body[1] >= low && n + |body| < 256 * (low as int)
    ensures Walk(Fill(n) + body) == None
  {
    hide Walk, Fill;
    var tail := Fill(n - 1) + body;
    FillStarts(n);
    FillLength(n - 1);
    if n >= 2 {
      FillAt(n - 1, 0);
    }
    if n >= 3 {
      FillAt(n - 1, 1);
    }
    assert Fill(n) + body == [0xff] + tail;
    FillByteIsReadAsMarker(tail);
  }

  lemma FillStarts(n: nat)
    requires n > 0
    ensures Fill(n) == [0xff] + Fill(n - 1)
  {
  }

  lemma {:induction false} FillAt(n: nat, i: nat)
    requires i < n
    ensures |Fill(n)| == n && Fill(n)[i] == 0xff
  {
    FillLength(n);
    if i > 0 {
      FillAt(n - 1, i - 1);
    }
  }

  lemma {:induction false} FillLength(n: nat)
    ensures |Fill(n)| == n
  {
    if n > 0 {
      FillLength(n - 1);
    }
  }

  lemma SegmentStart(s: Segment, rest: seq<byte>)
    requires IsSegment(s)
    ensures var body := Encode(s) + rest;
      |body| == |Encode(s)| + |rest| && |Encode(s)| >= 2 && body[0] == 0xff && body[1] == s.marker
  {
    if s.Sized? {
      var length := Be16(|s.payload| + 2);
      assert Encode(s) == [0xff, s.marker] + (length + s.payload);
    }
  }

  lemma StreamOfNone(fill: nat, f: Frame, rest: seq<byte>)
    requires IsFrame(f)
    ensures Stream([], fill, f, rest) == Fill(fill) + (EncodeFrame(f) + rest)
  {
    assert Fill(fill) + EncodeFrame(f) + rest == Fill(fill) + (EncodeFrame(f) + rest);
    assert EncodeFilled([]) == [];
  }

  lemma StreamOfSome(parts: seq<Filled>, fill: nat, f: Frame, rest: seq<byte>)
    requires (forall p | p in parts :: IsSegment(p.segment)) && IsFrame(f) && parts != []
    ensures forall p | p in parts[1..] :: IsSegment(p.segment)
    ensures Stream(parts, fill, f, rest) ==
      Fill(parts[0].fill) + (Encode(parts[0].segment) + Stream(parts[1..], fill, f, rest))
  {
    hide Fill, Encode, EncodeFrame, IsSegment, IsFrame;
    assert parts[0] in parts && forall p | p in parts[1..] :: p in parts;
    RegroupFour(Fill(parts[0].fill), Encode(parts[0].segment), EncodeFilled(parts[1..]),
      Fill(fill) + EncodeFrame(f) + rest);
  }

  lemma RegroupFour(a: seq<byte>, b: seq<byte>, c: seq<byte>, d: seq<byte>)
    ensures a + b + c + d == a + (b + (c + d))
  {
  }

  /** A stream too short for a skip to fit (fewer than 256 * low bytes, where every marker is at least `low`). */
  lemma {:induction false} ShortStream(low: byte, parts: seq<Filled>, fill: nat, f: Frame, rest: seq<byte>)
    requires (forall p | p in parts :: IsSegment(p.segment)) && IsFrame(f) && MarkersFrom(low, parts, f)
    requires |Stream(parts, fill, f, rest)| < 256 * (low as int)
    ensures Walk(Stream(parts, fill, f, rest)) ==
      if NoFill(parts, fill) then Some(Size(f.height, f.width)) else None
    ensures |Stream(parts, fill, f, rest)| >= 13
    decreases |parts|
  {
    hide Walk, EncodeFrame, Stream, IsFrame;
    WalkFrame(f, rest);
    FillLength(fill);
    if parts == [] {
      StreamOfNone(fill, f, rest);
      if fill == 0 {
        assert Fill(0) + (EncodeFrame(f) + rest) == EncodeFrame(f) + rest;
      } else {
        FrameStart(f, rest);
        FilledIsUnread(fill, low, EncodeFrame(f) + rest);
      }
    } else {
      var first, later := parts[0], parts[1..];
      StreamOfSome(parts, fill, f, rest);
      var body := Stream(later, fill, f, rest);
      FillLength(first.fill);
      SegmentStart(first.segment, body);
      assert parts == [first] + later;
      ShortStream(low, later, fill, f, rest);
      if first.fill == 0 {
        assert Fill(0) + (Encode(first.segment) + body) == Encode(first.segment) + body;
        WalkSegment(first.segment, body);
      } else {
        FilledIsUnread(first.fill, low, Encode(first.segment) + body);
      }
    }
  }

  /** Behind a lead of segments of any length and with any markers, in which there is no fill byte: if the rest of the
    * stream is too short for a skip to fit, the walker finds the frame exactly when there is no fill byte anywhere
    * before it; otherwise it finds nothing. */
  lemma FoundIffNoFill(lead: seq<Segment>, low: byte, parts: seq<Filled>, fill: nat, f: Frame, rest: seq<byte>)
    requires (forall s | s in lead :: IsSegment(s))
    requires (forall p | p in parts :: IsSegment(p.segment)) && IsFrame(f) && MarkersFrom(low, parts, f)
    requires |Stream(parts, fill, f, rest)| < 256 * (low as int)
    ensures Walk(EncodeAll(lead) + Stream(parts, fill, f, rest)) ==
      if NoFill(parts, fill) then Some(Size(f.height, f.width)) else None
  {
    hide Walk, EncodeAll, Stream, IsFrame, NoFill;
    ShortStream(low, parts, fill, f, rest);
    WalkPasses(lead, Stream(parts, fill, f, rest));
  }

  /** The whole stream from SOI on, with the markers that baseline and progressive files use. */
  method ReadIffNoFill(lead: seq<Segment>, parts: seq<Filled>, fill: nat, f: Frame, rest: seq<byte>)
    returns (size: Option<Size>)
    requires (forall s | s in lead :: IsSegment(s))
    requires (forall p | p in parts :: IsSegment(p.segment)) && IsFrame(f) && MarkersFrom(0xc0, parts, f)
    requires |Stream(parts, fill, f, rest)| < 0xc000
    ensures size == if NoFill(parts, fill) then Some(Size(f.height, f.width)) else None
  {
    hide Walk, EncodeAll, Stream;
    var stream := EncodeAll(lead) + Stream(parts, fill, f, rest);
    var buffer := [0xff, 0xd8] + stream;
    FoundIffNoFill(lead, 0xc0, parts, fill, f, rest);
    assert buffer[2..] == stream;
    size := ReadJpegDimensions(buffer);
  }
}
