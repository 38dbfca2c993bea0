// The OBSFRM01 frame stream: packets written whole, read through any splitting into short
// reads (crates/obs-rs-capture/src/protocol.rs, crates/obs-rs-capture/src/stream_device.rs).
module FrameStream {
  import opened Numbers
  import opened Results
  import opened LittleEndian
  import opened VideoFormats

  const FRAME_STREAM_MAGIC: seq<u8> := [79, 66, 83, 70, 82, 77, 48, 49]
  const HEADER_BYTES := 40
  const MAX_PACKET_BYTES := 64 * 1024 * 1024 + 64

  datatype CaptureError =
    | NotRunning
    | AlreadyRunning
    | PermissionRequired
    | PermissionDenied
    | PermissionUnavailable
    | TruncatedFrame
    | InvalidFrameHeader
    | Media(error: MediaError)
    | FrameFormatMismatch(expectedFormat: VideoFormat, actualFormat: VideoFormat)
    | FrameBufferSize(expectedBytes: nat, actualBytes: nat)
    | FramePacketTooLarge(bytes: nat)
    | FrameCounterExhausted

  // ---- The packet ------------------------------------------------------------------

  function Header(frame: VideoFrame): (header: seq<u8>)
    ensures |header| == HEADER_BYTES
  {
    FRAME_STREAM_MAGIC
    + ToLE(frame.format.width, 4) + ToLE(frame.format.height, 4)
    + ToLE(frame.format.frameRate.numerator, 4) + ToLE(frame.format.frameRate.denominator, 4)
    + ToLE(frame.timestamp, 8) + ToLE(|frame.pixels|, 8)
  }

  function Packet(frame: VideoFrame): seq<u8> {
    Header(frame) + frame.pixels
  }

  // A valid frame always fits the packet bound, so the writer's size error is unreachable.
  lemma PacketsFit(format: VideoFormat)
    ensures HEADER_BYTES + format.RgbaBytes() <= MAX_PACKET_BYTES
  {
  }

  method WriteFramePacket(frame: VideoFrame, sink: seq<u8>) returns (r: Result<seq<u8>, CaptureError>)
    ensures r == Ok(sink + Packet(frame))
  {
    PacketsFit(frame.format);
    if HEADER_BYTES + |frame.pixels| > MAX_PACKET_BYTES {
      assert false;
    }
    var header := Header(frame);
    var written := sink + header;
    written := written + frame.pixels;
    assert written == sink + Packet(frame);
    return Ok(written);
  }

  // ---- What a reader makes of the bytes ahead of it ----------------------------------

  // The format announced by a complete header.
  function HeaderFormat(header: seq<u8>): Result<VideoFormat, MediaError>
    requires |header| == HEADER_BYTES
  {
    Widths();
    ToLEFromLE(header[8..12]);
    ToLEFromLE(header[12..16]);
    ToLEFromLE(header[16..20]);
    ToLEFromLE(header[20..24]);
    match NewFrameRate(FieldAt(header, 16, 4), FieldAt(header, 20, 4))
    case Err(error) => Err(error)
    case Ok(rate) => NewVideoFormat(FieldAt(header, 8, 4), FieldAt(header, 12, 4), rate)
  }

  // The checks on a complete header, in the order they are made; None when it is accepted.
  function HeaderProblem(header: seq<u8>, format: VideoFormat): Option<CaptureError>
    requires |header| == HEADER_BYTES
  {
    if header[..8] != FRAME_STREAM_MAGIC then Some(InvalidFrameHeader)
    else match HeaderFormat(header)
      case Err(error) => Some(Media(error))
      case Ok(actual) =>
        if actual != format then Some(FrameFormatMismatch(format, actual))
        else if FieldAt(header, 32, 8) != format.RgbaBytes() then
          Some(FrameBufferSize(format.RgbaBytes(), FieldAt(header, 32, 8)))
        else None
  }

  function HeaderTimestamp(header: seq<u8>): u64
    requires |header| == HEADER_BYTES
  {
    Widths();
    ToLEFromLE(header[24..32]);
    FieldAt(header, 24, 8)
  }

  // One packet from the front of `ahead`: the answer and the number of bytes consumed.
  function ReadOne(ahead: seq<u8>, format: VideoFormat): (r: (Result<Option<VideoFrame>, CaptureError>, nat))
    ensures r.1 <= |ahead|
    ensures r.0.Ok? && r.0.value.Some? ==> r.1 > 0
  {
    if ahead == [] then (Ok(None), 0)
    else if |ahead| < HEADER_BYTES then (Err(TruncatedFrame), |ahead|)
    else
      var header := ahead[..HEADER_BYTES];
      match HeaderProblem(header, format)
      case Some(error) => (Err(error), HEADER_BYTES)
      case None =>
        var end := HEADER_BYTES + format.RgbaBytes();
        if |ahead| < end then (Err(TruncatedFrame), |ahead|)
        else (Ok(Some(VideoFrame(format, HeaderTimestamp(header), ahead[HEADER_BYTES..end]))), end)
  }

  // Exactly the packets of the expected format are accepted: the magic, the size, a frame rate
  // of the same value, the pixel count, and all of the pixels. Their time stamp and pixels are
  // handed on, and nothing behind the pixels is touched.
  lemma AcceptedPacketsExactly(ahead: seq<u8>, format: VideoFormat)
    ensures (ReadOne(ahead, format).0.Ok? && ReadOne(ahead, format).0.value.Some?) <==>
      && |ahead| >= 40 + format.width * format.height * 4
      && ahead[..8] == [79, 66, 83, 70, 82, 77, 48, 49]
      && FieldAt(ahead, 8, 4) == format.width && FieldAt(ahead, 12, 4) == format.height
      && FieldAt(ahead, 16, 4) > 0 && FieldAt(ahead, 20, 4) > 0
      && FieldAt(ahead, 16, 4) * format.frameRate.denominator == FieldAt(ahead, 20, 4) * format.frameRate.numerator
      && FieldAt(ahead, 32, 8) == format.width * format.height * 4
    ensures ReadOne(ahead, format).0.Ok? && ReadOne(ahead, format).0.value.Some? ==>
      var (frame, used) := (ReadOne(ahead, format).0.value.value, ReadOne(ahead, format).1);
      && used == 40 + format.width * format.height * 4 <= |ahead|
      && frame.format == format && frame.timestamp == FieldAt(ahead, 24, 8) && frame.pixels == ahead[40..used]
  {
    if |ahead| >= HEADER_BYTES {
      var header := ahead[..HEADER_BYTES];
      HeaderFieldsAhead(ahead, header);
      FormatReadExactly(header, format);
      assert header[..8] == ahead[..8];
      hide HeaderFormat, FieldAt;
    }
  }

  lemma HeaderFieldsAhead(ahead: seq<u8>, header: seq<u8>)
    requires |ahead| >= HEADER_BYTES && header == ahead[..HEADER_BYTES]
    ensures FieldAt(header, 8, 4) == FieldAt(ahead, 8, 4) && FieldAt(header, 12, 4) == FieldAt(ahead, 12, 4)
    ensures FieldAt(header, 16, 4) == FieldAt(ahead, 16, 4) && FieldAt(header, 20, 4) == FieldAt(ahead, 20, 4)
    ensures FieldAt(header, 24, 8) == FieldAt(ahead, 24, 8) && FieldAt(header, 32, 8) == FieldAt(ahead, 32, 8)
  {
    assert forall i, j :: 0 <= i <= j <= HEADER_BYTES ==> header[i..j] == ahead[i..j];
    hide FromLE;
  }

  lemma FormatReadExactly(header: seq<u8>, format: VideoFormat)
    requires |header| == HEADER_BYTES
    ensures HeaderFormat(header) == Ok(format) <==>
      && FieldAt(header, 8, 4) == format.width && FieldAt(header, 12, 4) == format.height
      && FieldAt(header, 16, 4) > 0 && FieldAt(header, 20, 4) > 0
      && FieldAt(header, 16, 4) * format.frameRate.denominator == FieldAt(header, 20, 4) * format.frameRate.numerator
  {
    Widths();
    ToLEFromLE(header[8..12]);
    ToLEFromLE(header[12..16]);
    ToLEFromLE(header[16..20]);
    ToLEFromLE(header[20..24]);
    SameRateExactly(FieldAt(header, 16, 4), FieldAt(header, 20, 4), format.frameRate);
    hide NewFrameRate, FromLE, ToLE;
  }

  // A packet that ends within its header, or is decided by it.
  lemma HeaderCases(ahead: seq<u8>, format: VideoFormat, header: seq<u8>, rest: seq<u8>)
    requires ahead == header + rest && |header| <= HEADER_BYTES
    ensures ahead == [] ==> ReadOne(ahead, format) == (Ok(None), 0) && ahead[0..] == rest
    ensures 0 < |header| < HEADER_BYTES && rest == [] ==> ReadOne(ahead, format) == (Err(TruncatedFrame), |ahead|) && ahead[|ahead|..] == rest
    ensures |header| == HEADER_BYTES && HeaderProblem(header, format).Some? ==>
      ReadOne(ahead, format) == (Err(HeaderProblem(header, format).value), HEADER_BYTES) && ahead[HEADER_BYTES..] == rest
  {
    hide HeaderProblem, HeaderTimestamp;
    if |header| == HEADER_BYTES {
      assert ahead[..HEADER_BYTES] == header;
    }
  }

  // A packet whose header was accepted.
  lemma PixelCases(ahead: seq<u8>, format: VideoFormat, header: seq<u8>, behind: seq<u8>, pixels: seq<u8>, rest: seq<u8>)
    requires ahead == header + behind && behind == pixels + rest
    requires |header| == HEADER_BYTES && HeaderProblem(header, format).None?
    ensures |pixels| < format.RgbaBytes() && rest == [] ==>
      ReadOne(ahead, format) == (Err(TruncatedFrame), |ahead|) && ahead[|ahead|..] == rest
    ensures |pixels| == format.RgbaBytes() ==>
      && ReadOne(ahead, format) == (Ok(Some(VideoFrame(format, HeaderTimestamp(header), pixels))), HEADER_BYTES + |pixels|)
      && ahead[HEADER_BYTES + |pixels|..] == rest
  {
    hide HeaderProblem, HeaderTimestamp;
    assert ahead[..HEADER_BYTES] == header;
    assert |pixels| == format.RgbaBytes() ==> ahead[HEADER_BYTES..HEADER_BYTES + |pixels|] == pixels;
  }

  datatype StreamEnd = Finished | Failed(error: CaptureError)

  // Every frame of a stream, and how it ended.
  function ReadStream(ahead: seq<u8>, format: VideoFormat): (seq<VideoFrame>, StreamEnd)
    decreases |ahead|
  {
    match ReadOne(ahead, format)
    case (Err(error), _) => ([], Failed(error))
    case (Ok(None), _) => ([], Finished)
    case (Ok(Some(frame)), used) =>
      var (rest, end) := ReadStream(ahead[used..], format);
      ([frame] + rest, end)
  }

  lemma StreamStep(ahead: seq<u8>, format: VideoFormat)
    ensures ReadOne(ahead, format).0.Err? ==> ReadStream(ahead, format) == ([], Failed(ReadOne(ahead, format).0.error))
    ensures ReadOne(ahead, format).0 == Ok(None) ==> ReadStream(ahead, format) == ([], Finished)
    ensures ReadOne(ahead, format).0.Ok? && ReadOne(ahead, format).0.value.Some? ==>
      var (rest, end) := ReadStream(ahead[ReadOne(ahead, format).1..], format);
      ReadStream(ahead, format) == ([ReadOne(ahead, format).0.value.value] + rest, end)
  {
  }

  function Packets(frames: seq<VideoFrame>): seq<u8> {
    if frames == [] then [] else Packet(frames[0]) + Packets(frames[1..])
  }

  // ---- Written packets read back ------------------------------------------------------

  // Every field of a written header is found where the reader looks for it.
  lemma HeaderFields(frame: VideoFrame)
    ensures var h, f := Header(frame), frame.format;
      && h[..8] == FRAME_STREAM_MAGIC
      && FieldAt(h, 8, 4) == f.width && FieldAt(h, 12, 4) == f.height
      && FieldAt(h, 16, 4) == f.frameRate.numerator && FieldAt(h, 20, 4) == f.frameRate.denominator
      && FieldAt(h, 24, 8) == frame.timestamp && FieldAt(h, 32, 8) == |frame.pixels|
  {
    Widths();
    var f := frame.format;
    FromLEToLE(f.width, 4);
    FromLEToLE(f.height, 4);
    FromLEToLE(f.frameRate.numerator, 4);
    FromLEToLE(f.frameRate.denominator, 4);
    FromLEToLE(frame.timestamp, 8);
    FromLEToLE(|frame.pixels|, 8);
    hide ToLE, FromLE, Pow256;
    HeaderSlices(FRAME_STREAM_MAGIC, ToLE(f.width, 4), ToLE(f.height, 4), ToLE(f.frameRate.numerator, 4),
                 ToLE(f.frameRate.denominator, 4), ToLE(frame.timestamp, 8), ToLE(|frame.pixels|, 8));
  }

  lemma HeaderSlices(a: seq<u8>, b: seq<u8>, c: seq<u8>, d: seq<u8>, e: seq<u8>, f: seq<u8>, g: seq<u8>)
    requires |a| == |f| == |g| == 8 && |b| == |c| == |d| == |e| == 4
    ensures var h := a + b + c + d + e + f + g;
      && h[..8] == a && h[8..12] == b && h[12..16] == c && h[16..20] == d && h[20..24] == e
      && h[24..32] == f && h[32..40] == g
  {
  }

  lemma HeaderAccepted(frame: VideoFrame)
    ensures HeaderProblem(Header(frame), frame.format) == None
    ensures HeaderTimestamp(Header(frame)) == frame.timestamp
  {
    HeaderFields(frame);
    RebuildFrameRate(frame.format.frameRate);
    hide Header, FieldAt, NewFrameRate;
  }

  lemma ReadWritten(frame: VideoFrame, after: seq<u8>)
    ensures ReadOne(Packet(frame) + after, frame.format) == (Ok(Some(frame)), |Packet(frame)|)
  {
    HeaderAccepted(frame);
    hide Header, HeaderProblem, HeaderTimestamp;
    var ahead := Packet(frame) + after;
    assert ahead[..HEADER_BYTES] == Header(frame);
    assert ahead[HEADER_BYTES..HEADER_BYTES + |frame.pixels|] == frame.pixels;
  }

  // Any tail is reached only after every whole packet before it.
  lemma {:induction false} ReadThrough(frames: seq<VideoFrame>, format: VideoFormat, tail: seq<u8>)
    requires forall f :: f in frames ==> f.format == format
    ensures ReadStream(Packets(frames) + tail, format)
         == (frames + ReadStream(tail, format).0, ReadStream(tail, format).1)
    decreases frames
  {
    hide ReadOne, Packet, ReadStream;
    if frames == [] {
      assert Packets(frames) + tail == tail;
      assert frames + ReadStream(tail, format).0 == ReadStream(tail, format).0;
    } else {
      var frame, rest := frames[0], frames[1..];
      var ahead := Packets(frames) + tail;
      assert ahead == Packet(frame) + (Packets(rest) + tail);
      ReadWritten(frame, Packets(rest) + tail);
      StreamStep(ahead, format);
      assert ahead[|Packet(frame)|..] == Packets(rest) + tail;
      ReadThrough(rest, format, tail);
      var (more, end) := ReadStream(tail, format);
      assert frames + more == [frame] + (rest + more);
    }
  }

  // A stream of written frames yields exactly those frames, then the end.
  lemma WholeStream(frames: seq<VideoFrame>, format: VideoFormat)
    requires forall f :: f in frames ==> f.format == format
    ensures ReadStream(Packets(frames), format) == (frames, Finished)
  {
    ReadThrough(frames, format, []);
    assert Packets(frames) + [] == Packets(frames);
    assert frames + [] == frames;
  }

  // Cutting anywhere inside a packet yields the preceding frames, then TruncatedFrame.
  lemma CutStream(frames: seq<VideoFrame>, format: VideoFormat, last: VideoFrame, cut: nat)
    requires forall f :: f in frames ==> f.format == format
    requires last.format == format && 0 < cut < |Packet(last)|
    ensures ReadStream(Packets(frames) + Packet(last)[..cut], format) == (frames, Failed(TruncatedFrame))
  {
    var tail := Packet(last)[..cut];
    HeaderAccepted(last);
    hide Header, HeaderProblem, HeaderTimestamp;
    if cut >= HEADER_BYTES {
      assert tail[..HEADER_BYTES] == Header(last);
    }
    assert ReadOne(tail, format) == (Err(TruncatedFrame), cut);
    ReadThrough(frames, format, tail);
    assert frames + [] == frames;
  }

  // ---- A reader that may return any positive number of bytes ---------------------------

  lemma Reassociate(a: seq<u8>, b: seq<u8>, c: seq<u8>)
    ensures a + (b + c) == a + b + c
  {
  }

  class ByteReader {
    const data: seq<u8>
    var position: nat
    // How much each coming read is willing to return, beyond one byte.
    var schedule: seq<nat>

    ghost predicate Valid()
      reads this
    {
      position <= |data|
    }

    ghost function Ahead(): seq<u8>
      requires Valid()
      reads this
    {
      data[position..]
    }

    constructor (data: seq<u8>, schedule: seq<nat>)
      ensures Valid() && Ahead() == data && this.data == data
    {
      this.data, this.schedule, position := data, schedule, 0;
    }

    // `Read::read`: between one byte and `limit`, nothing only at the end.
    method Read(limit: pos) returns (bytes: seq<u8>)
      requires Valid()
      modifies this
      ensures Valid()
      ensures old(Ahead()) == bytes + Ahead()
      ensures |bytes| <= limit
      ensures bytes == [] <==> old(Ahead()) == []
    {
      var willing := if schedule == [] then limit else Min(1 + schedule[0], limit);
      var count := Min(willing, |data| - position);
      bytes := data[position..position + count];
      position := position + count;
      schedule := if schedule == [] then [] else schedule[1..];
    }

    // `read_exact`, and `take(n).read_to_end`: read until `count` bytes or the end.
    method ReadUpTo(count: nat) returns (bytes: seq<u8>)
      requires Valid()
      modifies this
      ensures Valid()
      ensures old(Ahead()) == bytes + Ahead()
      ensures |bytes| == Min(count, |old(Ahead())|)
    {
      hide Ahead, Valid;
      bytes := [];
      ghost var all := Ahead();
      while |bytes| < count
        invariant Valid() && |bytes| <= count
        invariant all == bytes + Ahead()
        decreases count - |bytes|
      {
        var more := Read(count - |bytes|);
        if more == [] {
          return;
        }
        Reassociate(bytes, more, Ahead());
        bytes := bytes + more;
      }
    }
  }

  datatype CapturePermission = Granted | PromptRequired | Denied | Unavailable

  class StreamCaptureDevice {
    const reader: ByteReader
    const permission: CapturePermission
    var format: Option<VideoFormat>
    var frameIndex: u64

    constructor (reader: ByteReader, permission: CapturePermission)
      ensures this.reader == reader && this.permission == permission && format.None? && frameIndex == 0
    {
      this.reader, this.permission, format, frameIndex := reader, permission, None, 0;
    }

    method Start(format: VideoFormat) returns (r: Result<(), CaptureError>)
      modifies this
      ensures r.Ok? <==> old(this.format).None? && permission == Granted
      ensures r.Ok? ==> this.format == Some(format) && frameIndex == 0
      ensures r.Err? ==> this.format == old(this.format) && frameIndex == old(frameIndex)
      ensures old(this.format).Some? ==> r == Err(AlreadyRunning)
    {
      if this.format.Some? {
        return Err(AlreadyRunning);
      }
      match permission {
        case Granted =>
        case PromptRequired => return Err(PermissionRequired);
        case Denied => return Err(PermissionDenied);
        case Unavailable => return Err(PermissionUnavailable);
      }
      this.format, frameIndex := Some(format), 0;
      return Ok(());
    }

    method Stop()
      modifies this`format
      ensures format.None?
    {
      format := None;
    }

    method ReadPacket(format: VideoFormat) returns (r: Result<Option<VideoFrame>, CaptureError>)
      requires reader.Valid()
      modifies reader
      ensures reader.Valid()
      ensures var (answer, used) := ReadOne(old(reader.Ahead()), format);
        r == answer && reader.Ahead() == old(reader.Ahead())[used..]
    {
      hide ReadOne, HeaderProblem, HeaderTimestamp;
      ghost var ahead := reader.Ahead();
      var header := reader.Read(HEADER_BYTES);
      if header == [] {
        HeaderCases(ahead, format, header, reader.Ahead());
        return Ok(None);
      }
      if |header| < HEADER_BYTES {
        ghost var first := header;
        var more := reader.ReadUpTo(HEADER_BYTES - |header|);
        header := header + more;
        assert first + (more + reader.Ahead()) == header + reader.Ahead();
        if |header| < HEADER_BYTES {
          HeaderCases(ahead, format, header, reader.Ahead());
          return Err(TruncatedFrame);
        }
      }
      var problem := HeaderProblem(header, format);
      if problem.Some? {
        HeaderCases(ahead, format, header, reader.Ahead());
        return Err(problem.value);
      }
      var expected := format.RgbaBytes();
      PacketsFit(format);
      if HEADER_BYTES + expected > MAX_PACKET_BYTES {
        assert false;
      }
      ghost var behind := reader.Ahead();
      var pixels := reader.ReadUpTo(expected);
      PixelCases(ahead, format, header, behind, pixels, reader.Ahead());
      if |pixels| != expected {
        return Err(TruncatedFrame);
      }
      return Ok(Some(VideoFrame(format, HeaderTimestamp(header), pixels)));
    }

    method NextFrame() returns (r: Result<Option<VideoFrame>, CaptureError>)
      requires reader.Valid()
      modifies this`frameIndex, reader
      ensures reader.Valid()
      ensures format.None? ==> r == Err(NotRunning) && reader.Ahead() == old(reader.Ahead()) && frameIndex == old(frameIndex)
      ensures format.Some? ==>
        var (answer, used) := ReadOne(old(reader.Ahead()), format.value);
        && reader.Ahead() == old(reader.Ahead())[used..]
        && if answer.Ok? && answer.value.Some? then
             if old(frameIndex) == U64_MAX then r == Err(FrameCounterExhausted) && frameIndex == old(frameIndex)
             else r == answer && frameIndex == old(frameIndex) + 1
           else r == answer && frameIndex == old(frameIndex)
    {
      if format.None? {
        return Err(NotRunning);
      }
      r := ReadPacket(format.value);
      if r.Ok? && r.value.Some? {
        if frameIndex == U64_MAX {
          return Err(FrameCounterExhausted);
        }
        frameIndex := frameIndex + 1;
      }
    }

    // Polling to the end gives the same frames for every way the reader splits its bytes.
    method ReadToEnd(format: VideoFormat) returns (frames: seq<VideoFrame>, end: StreamEnd)
      requires reader.Valid() && this.format == Some(format)
      requires frameIndex + |reader.Ahead()| <= U64_MAX
      modifies this`frameIndex, reader
      ensures reader.Valid()
      ensures (frames, end) == ReadStream(old(reader.Ahead()), format)
      ensures frameIndex == old(frameIndex) + |frames|
    {
      hide ReadOne, ReadStream;
      frames := [];
      assert [] + ReadStream(reader.Ahead(), format).0 == ReadStream(reader.Ahead(), format).0;
      while true
        invariant reader.Valid() && frameIndex == old(frameIndex) + |frames|
        invariant frameIndex + |reader.Ahead()| <= U64_MAX
        invariant ReadStream(old(reader.Ahead()), format)
          == (frames + ReadStream(reader.Ahead(), format).0, ReadStream(reader.Ahead(), format).1)
        decreases |reader.Ahead()|
      {
        StreamStep(reader.Ahead(), format);
        var next := NextFrame();
        assert frames + [] == frames;
        match next {
          case Err(error) => return frames, Failed(error);
          case Ok(None) => return frames, Finished;
          case Ok(Some(frame)) =>
            assert frames + ([frame] + ReadStream(reader.Ahead(), format).0)
                == (frames + [frame]) + ReadStream(reader.Ahead(), format).0;
            frames := frames + [frame];
        }
      }
    }
  }
}
