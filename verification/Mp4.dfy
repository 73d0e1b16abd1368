/** The MP4 metadata parser (Mp4MetadataParser in Program.cs): a walk over nested boxes by a
    reader with a movable position. Durations are exact quotients. Box layouts follow section 4.2
    of ISO/IEC 14496-12. */
module Mp4 {
  import opened Bytes

  /** A file. `unread` says how far ReadChars moves over a name that is not four ASCII bytes, which
      depends on the text decoder. */
  datatype File = File(data: seq<byte>, unread: nat -> nat)

  datatype Metadata = Metadata(duration: real, width: nat, height: nat)

  datatype Mp4Error = SizeOverflow | EndOfStream

  // ---- reading ----

  /** Reads past the end give zeros. */
  function ByteAt(data: seq<byte>, i: nat): byte {
    if i < |data| then data[i] else 0
  }

  function Big32(data: seq<byte>, p: nat): nat {
    16777216 * (ByteAt(data, p) as int) + 65536 * (ByteAt(data, p + 1) as int) + 256 * (ByteAt(data, p + 2) as int)
      + ByteAt(data, p + 3) as int
  }

  function Big64(data: seq<byte>, p: nat): nat {
    0x1_0000_0000 * Big32(data, p) + Big32(data, p + 4)
  }

  function Advanced(data: seq<byte>, p: nat, n: nat): nat {
    if p + n <= |data| then p + n else if p <= |data| then |data| else p
  }

  /** The four-character name at `p`, if it is plain ASCII. */
  function NameAt(data: seq<byte>, p: nat): Option<seq<byte>> {
    if p + 4 <= |data| && forall i :: p <= i < p + 4 ==> data[i] < 128 then Some(data[p..p + 4]) else None
  }

  function Ascii(name: string): seq<byte> {
    seq(|name|, i requires 0 <= i < |name| => name[i] as int % 128)
  }

  const MOOV: seq<byte> := Ascii("moov")
  const MDIA: seq<byte> := Ascii("mdia")
  const TRAK: seq<byte> := Ascii("trak")
  const MVHD: seq<byte> := Ascii("mvhd")
  const TKHD: seq<byte> := Ascii("tkhd")
  const HDLR: seq<byte> := Ascii("hdlr")
  const VIDE: seq<byte> := Ascii("vide")

  // ---- what the walk computes ----

  datatype Header = Header(name: Option<seq<byte>>, body: nat, end: nat)

  /** The box header at `at`, inside a parent that ends at `limit`. None stops the walk: the size
      is below 8 or leaves the parent. */
  function HeaderAt(f: File, at: nat, limit: nat): (r: Result<Option<Header>, Mp4Error>)
    requires at + 8 <= limit <= |f.data|
    ensures r.Ok? && r.value.Some? ==> at + 8 <= r.value.value.end <= limit && r.value.value.body >= at + 4
  {
    var size, name := Big32(f.data, at), NameAt(f.data, at + 4);
    var named := at + 4 + if name.Some? then 4 else f.unread(at + 4);
    if size == 1 then
      var large := Big64(f.data, named);
      if large >= 0x8000_0000_0000_0000 then Err(SizeOverflow)
      else if large < 8 || at + large > limit then Ok(None)
      else Ok(Some(Header(name, Advanced(f.data, named, 8), at + large)))
    else
      var payload := if size == 0 then limit - at else size;
      if payload < 8 || at + payload > limit then Ok(None) else Ok(Some(Header(name, named, at + payload)))
  }

  function Quotient(duration: nat, timescale: nat): real {
    if timescale == 0 then 0.0 else duration as real / timescale as real
  }

  function MovieDuration(data: seq<byte>, p: nat): Result<real, Mp4Error> {
    if p >= |data| then Err(EndOfStream)
    else if data[p] == 1 then Ok(Quotient(Big64(data, p + 24), Big32(data, p + 20)))
    else Ok(Quotient(Big32(data, p + 16), Big32(data, p + 12)))
  }

  /** Width and height of a track header, from their 16.16 fixed-point fields. */
  function TrackSize(data: seq<byte>, p: nat): Result<(nat, nat), Mp4Error> {
    if p >= |data| then Err(EndOfStream) else
      var q := p + if data[p] == 1 then 88 else 76;
      Ok((Big32(data, q) / 65536, Big32(data, q + 4) / 65536))
  }

  /** Whether the last handler box among the boxes at `at` is a video handler. */
  function Media(f: File, at: nat, limit: nat, video: bool): Result<bool, Mp4Error>
    requires limit <= |f.data|
    decreases limit - at
  {
    if at + 8 > limit then Ok(video) else
      match HeaderAt(f, at, limit)
      case Err(e) => Err(e)
      case Ok(None) => Ok(video)
      case Ok(Some(h)) =>
        Media(f, h.end, limit, if h.name == Some(HDLR) then NameAt(f.data, h.body + 8) == Some(VIDE) else video)
  }

  datatype TrackState = TrackState(width: nat, height: nat, video: bool)

  function TrackBox(f: File, h: Header, s: TrackState): Result<TrackState, Mp4Error>
    requires h.end <= |f.data|
  {
    if h.name == Some(MDIA) then
      match Media(f, h.body, h.end, s.video)
      case Err(e) => Err(e)
      case Ok(v) => Ok(s.(video := v))
    else if h.name == Some(TKHD) then
      match TrackSize(f.data, h.body)
      case Err(e) => Err(e)
      case Ok(size) => Ok(s.(width := size.0, height := size.1))
    else Ok(s)
  }

  function Track(f: File, at: nat, limit: nat, s: TrackState): Result<TrackState, Mp4Error>
    requires limit <= |f.data|
    decreases limit - at
  {
    if at + 8 > limit then Ok(s) else
      match HeaderAt(f, at, limit)
      case Err(e) => Err(e)
      case Ok(None) => Ok(s)
      case Ok(Some(h)) =>
        match TrackBox(f, h, s)
        case Err(e) => Err(e)
        case Ok(next) => Track(f, h.end, limit, next)
  }

  /** What a track adds: its size, if it is a video track. */
  function Added(m: Metadata, s: TrackState): Metadata {
    if s.video then m.(width := s.width, height := s.height) else m
  }

  /** The metadata after the boxes from `at` to `limit`. */
  function Range(f: File, at: nat, limit: nat, m: Metadata): Result<Metadata, Mp4Error>
    requires limit <= |f.data|
    decreases limit - at
  {
    if at + 8 > limit then Ok(m) else
      match HeaderAt(f, at, limit)
      case Err(e) => Err(e)
      case Ok(None) => Ok(m)
      case Ok(Some(h)) =>
        match RangeBox(f, at, limit, h, m)
        case Err(e) => Err(e)
        case Ok(next) => Range(f, h.end, limit, next)
  }

  function RangeBox(f: File, at: nat, limit: nat, h: Header, m: Metadata): Result<Metadata, Mp4Error>
    requires at < h.end <= limit <= |f.data| && at < h.body
    decreases limit - at, 0
  {
    if h.name == Some(MOOV) || h.name == Some(MDIA) then
      Range(f, h.body, h.end, m)
    else if h.name == Some(TRAK) then
      match Track(f, h.body, h.end, TrackState(m.width, m.height, false))
      case Err(e) => Err(e)
      case Ok(s) => Ok(Added(m, s))
    else if h.name == Some(MVHD) then
      match MovieDuration(f.data, h.body)
      case Err(e) => Err(e)
      case Ok(d) => Ok(m.(duration := d))
    else Ok(m)
  }

  // ---- the parser ----

  /** BinaryReader over a file stream. */
  class Reader {
    const file: File
    var position: nat

    constructor (file: File)
      ensures this.file == file && position == 0
    {
      this.file := file;
      position := 0;
    }

    method ReadUInt32BigEndian() returns (v: nat)
      modifies this
      ensures v == Big32(file.data, old(position)) && position == Advanced(file.data, old(position), 4)
    {
      v := Big32(file.data, position);
      position := Advanced(file.data, position, 4);
    }

    method ReadUInt64BigEndian() returns (v: nat)
      modifies this
      ensures v == Big64(file.data, old(position)) && position == Advanced(file.data, old(position), 8)
    {
      v := Big64(file.data, position);
      position := Advanced(file.data, position, 8);
    }

    method ReadName() returns (name: Option<seq<byte>>)
      modifies this
      ensures name == NameAt(file.data, old(position))
      ensures position == old(position) + if name.Some? then 4 else file.unread(old(position))
    {
      name := NameAt(file.data, position);
      position := position + if name.Some? then 4 else file.unread(position);
    }

    method ReadByte() returns (b: Option<byte>)
      modifies this
      ensures b.None? <==> old(position) >= |file.data|
      ensures b.Some? ==> b.value == file.data[old(position)] && position == old(position) + 1
    {
      if position >= |file.data| {
        return None;
      }
      b := Some(file.data[position]);
      position := position + 1;
    }

    method Skip(n: nat)
      modifies this
      ensures position == Advanced(file.data, old(position), n)
    {
      position := Advanced(file.data, position, n);
    }

    /** The header part that every walk repeats. */
    method ReadHeader(limit: nat) returns (r: Result<Option<Header>, Mp4Error>)
      requires position + 8 <= limit <= |file.data|
      modifies this
      ensures r == HeaderAt(file, old(position), limit)
      ensures r.Ok? && r.value.Some? ==> position == r.value.value.body
    {
      var start := position;
      var size := ReadUInt32BigEndian();
      var name := ReadName();
      var payload := size;
      if size == 0 {
        payload := limit - start;
      } else if size == 1 {
        payload := ReadUInt64BigEndian();
        if payload >= 0x8000_0000_0000_0000 {
          return Err(SizeOverflow);
        }
      }
      if payload < 8 {
        return Ok(None);
      }
      var end := start + payload;
      if end > limit || end > |file.data| {
        return Ok(None);
      }
      return Ok(Some(Header(name, position, end)));
    }

    method ParseMovieHeader() returns (r: Result<real, Mp4Error>)
      modifies this
      ensures r == MovieDuration(file.data, old(position))
    {
      var p := position;
      var version := ReadByte();
      if version.None? {
        return Err(EndOfStream);
      }
      Skip(3);
      if version.value == 1 {
        Skip(16);
        SameWord(file.data, position, p + 20);
        var timescale := ReadUInt32BigEndian();
        SameWord(file.data, position, p + 24);
        SameWord(file.data, position + 4, p + 28);
        var duration := ReadUInt64BigEndian();
        return Ok(Quotient(duration, timescale));
      }
      Skip(8);
      SameWord(file.data, position, p + 12);
      var timescale := ReadUInt32BigEndian();
      SameWord(file.data, position, p + 16);
      var duration := ReadUInt32BigEndian();
      return Ok(Quotient(duration, timescale));
    }

    method ParseTrackHeader() returns (r: Result<(nat, nat), Mp4Error>)
      modifies this
      ensures r == TrackSize(file.data, old(position))
    {
      var p := position;
      var version := ReadByte();
      if version.None? {
        return Err(EndOfStream);
      }
      Skip(3);
      if version.value == 1 {
        Skip(8 + 8 + 4 + 4 + 8 + 8 + 2 + 2 + 2 + 2 + 36);
      } else {
        Skip(4 + 4 + 4 + 4 + 4 + 8 + 2 + 2 + 2 + 2 + 36);
      }
      ghost var q := p + if version.value == 1 then 88 else 76;
      SameWord(file.data, position, q);
      var width := ReadUInt32BigEndian();
      SameWord(file.data, position, q + 4);
      var height := ReadUInt32BigEndian();
      return Ok((width / 65536, height / 65536));
    }

    method ParseMedia(limit: nat, isVideo: bool) returns (r: Result<bool, Mp4Error>)
      requires limit <= |file.data|
      modifies this
      ensures r == Media(file, old(position), limit, isVideo)
    {
      hide HeaderAt;
      var video := isVideo;
      while position + 8 <= limit
        invariant Media(file, old(position), limit, isVideo) == Media(file, position, limit, video)
        decreases limit - position
      {
        var header := ReadHeader(limit);
        if header.Err? {
          return Err(header.error);
        }
        if header.value.None? {
          break;
        }
        if header.value.value.name == Some(HDLR) {
          position := position + 8;
          var handler := ReadName();
          video := handler == Some(VIDE);
        }
        position := header.value.value.end;
      }
      return Ok(video);
    }

    method ParseTrack(limit: nat, start: TrackState) returns (r: Result<TrackState, Mp4Error>)
      requires limit <= |file.data|
      modifies this
      ensures r == Track(file, old(position), limit, start)
    {
      hide HeaderAt;
      var s := start;
      while position + 8 <= limit
        invariant Track(file, old(position), limit, start) == Track(file, position, limit, s)
        decreases limit - position
      {
        var header := ReadHeader(limit);
        if header.Err? {
          return Err(header.error);
        }
        if header.value.None? {
          break;
        }
        var h := header.value.value;
        if h.name == Some(MDIA) {
          var video := ParseMedia(h.end, s.video);
          if video.Err? {
            return Err(video.error);
          }
          s := s.(video := video.value);
        } else if h.name == Some(TKHD) {
          var size := ParseTrackHeader();
          if size.Err? {
            return Err(size.error);
          }
          s := s.(width := size.value.0, height := size.value.1);
        }
        position := h.end;
      }
      return Ok(s);
    }

    /** The walk terminates on every file: reads inside a box may pass its end, but every round
        lands at the box's end, at least 8 bytes on and inside the parent. */
    method ParseBoxRange(limit: nat, start: Metadata) returns (r: Result<Metadata, Mp4Error>)
      requires limit <= |file.data|
      modifies this
      ensures r == Range(file, old(position), limit, start)
      decreases limit - position
    {
      hide HeaderAt;
      var m := start;
      while position + 8 <= limit
        invariant position >= old(position)
        invariant Range(file, old(position), limit, start) == Range(file, position, limit, m)
        decreases limit - position
      {
        var at := position;
        var header := ReadHeader(limit);
        if header.Err? {
          return Err(header.error);
        }
        if header.value.None? {
          break;
        }
        var h := header.value.value;
        if h.name == Some(MOOV) || h.name == Some(MDIA) {
          var inner := ParseBoxRange(h.end, m);
          if inner.Err? {
            return Err(inner.error);
          }
          m := inner.value;
        } else if h.name == Some(TRAK) {
          var track := ParseTrack(h.end, TrackState(m.width, m.height, false));
          if track.Err? {
            return Err(track.error);
          }
          if track.value.video {
            m := m.(width := track.value.width, height := track.value.height);
          }
        } else if h.name == Some(MVHD) {
          var duration := ParseMovieHeader();
          if duration.Err? {
            return Err(duration.error);
          }
          m := m.(duration := duration.value);
        }
        position := h.end;
      }
      return Ok(m);
    }
  }

  /** Past the end of the file, where a read starts makes no difference. */
  lemma SameWord(data: seq<byte>, p: nat, q: nat)
    requires p == q || (p >= |data| && q >= |data|)
    ensures Big32(data, p) == Big32(data, q)
  {
  }

  method TryParse(file: File) returns (r: Result<(bool, Metadata), Mp4Error>)
    ensures match Range(file, 0, |file.data|, Metadata(0.0, 0, 0))
            case Err(e) => r == Err(e)
            case Ok(m) => r == Ok((m.width > 0 && m.height > 0 && m.duration > 0.0, m))
  {
    hide Range;
    var reader := new Reader(file);
    var m := reader.ParseBoxRange(|file.data|, Metadata(0.0, 0, 0));
    if m.Err? {
      return Err(m.error);
    }
    return Ok((m.value.width > 0 && m.value.height > 0 && m.value.duration > 0.0, m.value));
  }

  // ---- what can change the picture size ----

  /** Some track the walk from `at` reaches is a video track. */
  predicate ReachesVideo(f: File, at: nat, limit: nat)
    requires limit <= |f.data|
    decreases limit - at
  {
    at + 8 <= limit &&
    match HeaderAt(f, at, limit)
    case Err(_) => false
    case Ok(None) => false
    case Ok(Some(h)) => BoxReachesVideo(f, at, limit, h) || ReachesVideo(f, h.end, limit)
  }

  predicate BoxReachesVideo(f: File, at: nat, limit: nat, h: Header)
    requires at < h.end <= limit <= |f.data| && at < h.body
    decreases limit - at, 0
  {
    if h.name == Some(MOOV) || h.name == Some(MDIA) then ReachesVideo(f, h.body, h.end)
    else h.name == Some(TRAK) && IsVideoTrack(f, h)
  }

  predicate IsVideoTrack(f: File, h: Header)
    requires h.end <= |f.data|
  {
    var t := Track(f, h.body, h.end, TrackState(0, 0, false));
    t.Ok? && t.value.video
  }

  /** Whether a track is video does not depend on the size found before it. */
  lemma {:induction false} VideoRegardlessOfSize(f: File, at: nat, limit: nat, s: TrackState, t: TrackState)
    requires limit <= |f.data| && s.video == t.video
    ensures Track(f, at, limit, s).Ok? <==> Track(f, at, limit, t).Ok?
    ensures Track(f, at, limit, s).Ok? ==> Track(f, at, limit, s).value.video == Track(f, at, limit, t).value.video
    decreases limit - at
  {
    hide HeaderAt, Media, TrackSize;
    if at + 8 <= limit && HeaderAt(f, at, limit).Ok? && HeaderAt(f, at, limit).value.Some? {
      var h := HeaderAt(f, at, limit).value.value;
      var s1, t1 := TrackBox(f, h, s), TrackBox(f, h, t);
      if s1.Ok? && t1.Ok? { VideoRegardlessOfSize(f, h.end, limit, s1.value, t1.value); }
    }
  }

  /** On any file, well formed or not: without a video track on the way, width and height stay
      as they were. */
  lemma {:induction false} OnlyVideoTracks(f: File, at: nat, limit: nat, m: Metadata)
    requires limit <= |f.data| && !ReachesVideo(f, at, limit) && Range(f, at, limit, m).Ok?
    ensures var r := Range(f, at, limit, m).value; r.width == m.width && r.height == m.height
    decreases limit - at
  {
    hide HeaderAt, Track, MovieDuration;
    if at + 8 <= limit && HeaderAt(f, at, limit).value.Some? {
      var h := HeaderAt(f, at, limit).value.value;
      if h.name == Some(MOOV) || h.name == Some(MDIA) {
        OnlyVideoTracks(f, h.body, h.end, m);
      } else if h.name == Some(TRAK) {
        VideoRegardlessOfSize(f, h.body, h.end, TrackState(m.width, m.height, false), TrackState(0, 0, false));
      }
      OnlyVideoTracks(f, h.end, limit, RangeBox(f, at, limit, h, m).value);
    }
  }

  // ---- printed box trees ----

  /** The payload of a box without children: the records the parser looks into, by their fields
      in sections 8.2.2, 8.3.2 and 8.4.3 of ISO/IEC 14496-12, and any other. Widths and heights
      are 16.16 fixed-point numbers. */
  datatype Content =
    | MovieHeader(version: byte, flags: seq<byte>, creation: nat, modification: nat, timescale: nat, duration: nat,
                  tail: seq<byte>)
    | TrackHeader(version: byte, flags: seq<byte>, creation: nat, modification: nat, trackId: nat, reserved: seq<byte>,
                  duration: nat, layout: seq<byte>, width: nat, height: nat, tail: seq<byte>)
    | Handler(front: seq<byte>, handlerType: seq<byte>, tail: seq<byte>)
    | Other(boxName: seq<byte>, payload: seq<byte>)
  {
    function Name(): seq<byte> {
      match this
      case MovieHeader(_, _, _, _, _, _, _) => MVHD
      case TrackHeader(_, _, _, _, _, _, _, _, _, _, _) => TKHD
      case Handler(_, _, _) => HDLR
      case Other(name, _) => name
    }

    function Payload(): seq<byte> {
      match this
      case MovieHeader(version, flags, creation, modification, timescale, duration, tail) =>
        Front(version, flags, creation, modification) + (Big32Bytes(timescale) + (Time(version, duration) + tail))
      case TrackHeader(version, flags, creation, modification, trackId, reserved, duration, layout, width, height,
                       tail) =>
        Front(version, flags, creation, modification)
          + (Big32Bytes(trackId) + reserved + Time(version, duration) + layout)
        + (Big32Bytes(width) + (Big32Bytes(height) + tail))
      case Handler(front, handlerType, tail) => front + (handlerType + tail)
      case Other(_, payload) => payload
    }

    /** Every field fits its place. */
    predicate Fits() {
      match this
      case MovieHeader(version, flags, creation, modification, timescale, duration, _) =>
        |flags| == 3 && timescale < 0x1_0000_0000 && duration < TimeRange(version)
      case TrackHeader(version, flags, creation, modification, trackId, reserved, _, layout, width, height, _) =>
        |flags| == 3 && |reserved| == 4 && |layout| == 52 && width < 0x1_0000_0000 && height < 0x1_0000_0000
      case Handler(front, handlerType, _) => |front| == 8 && |handlerType| == 4
      case Other(_, _) => true
    }
  }

  /** Version 1 records have 64-bit times, all others 32-bit ones. */
  function TimeRange(version: byte): nat {
    if version == 1 then 0x1_0000_0000_0000_0000 else 0x1_0000_0000
  }

  function Time(version: byte, v: nat): (s: seq<byte>)
    ensures |s| == if version == 1 then 8 else 4
  {
    if version == 1 then Big64Bytes(v) else Big32Bytes(v)
  }

  function Front(version: byte, flags: seq<byte>, creation: nat, modification: nat): seq<byte> {
    [version] + flags + Time(version, creation) + Time(version, modification)
  }

  /** A list of boxes; `long` picks the 64-bit size form. */
  datatype Boxes =
    | Nil
    | Leaf(long: bool, content: Content, rest: Boxes)
    | Branch(long: bool, name: seq<byte>, children: Boxes, rest: Boxes)

  function Big32Bytes(v: nat): (s: seq<byte>)
    ensures |s| == 4
  {
    [v / 16777216 % 256, v / 65536 % 256, v / 256 % 256, v % 256]
  }

  function Big64Bytes(v: nat): (s: seq<byte>)
    ensures |s| == 8
  {
    Big32Bytes(v / 0x1_0000_0000) + Big32Bytes(v % 0x1_0000_0000)
  }

  function HeaderBytes(long: bool, name: seq<byte>, size: nat): seq<byte> {
    if long then Big32Bytes(1) + name + Big64Bytes(16 + size) else Big32Bytes(8 + size) + name
  }

  function Print(b: Boxes): seq<byte> {
    match b
    case Nil => []
    case Leaf(long, content, rest) =>
      HeaderBytes(long, content.Name(), |content.Payload()|) + content.Payload() + Print(rest)
    case Branch(long, name, children, rest) =>
      HeaderBytes(long, name, |Print(children)|) + Print(children) + Print(rest)
  }

  predicate Printable(long: bool, name: seq<byte>, size: nat) {
    && |name| == 4 && (forall i :: 0 <= i < 4 ==> name[i] < 128)
    && (if long then 16 + size < 0x8000_0000_0000_0000 else 8 + size < 0x1_0000_0000)
  }

  predicate PrintableLeaf(long: bool, content: Content) {
    content.Fits() && Printable(long, content.Name(), |content.Payload()|)
  }

  /** Trees whose boxes with a meaning of their own are what their name says. */
  predicate MediaBoxes(b: Boxes) {
    match b
    case Nil => true
    case Leaf(long, content, rest) =>
      PrintableLeaf(long, content) && (content.Other? ==> content.Name() != HDLR) && MediaBoxes(rest)
    case Branch(long, name, children, rest) =>
      Printable(long, name, |Print(children)|) && name != HDLR && MediaBoxes(rest)
  }

  predicate TrackBoxes(b: Boxes) {
    match b
    case Nil => true
    case Leaf(long, content, rest) =>
      PrintableLeaf(long, content) && (content.Other? ==> content.Name() !in {MDIA, TKHD}) && TrackBoxes(rest)
    case Branch(long, name, children, rest) =>
      Printable(long, name, |Print(children)|) && name != TKHD && (name == MDIA ==> MediaBoxes(children))
        && TrackBoxes(rest)
  }

  predicate MovieBoxes(b: Boxes) {
    match b
    case Nil => true
    case Leaf(long, content, rest) =>
      PrintableLeaf(long, content) && (content.Other? ==> content.Name() !in {MOOV, MDIA, TRAK, MVHD})
        && MovieBoxes(rest)
    case Branch(long, name, children, rest) =>
      Printable(long, name, |Print(children)|) && name != MVHD && (name == TRAK ==> TrackBoxes(children))
      && (name == MOOV || name == MDIA ==> MovieBoxes(children)) && MovieBoxes(rest)
  }

  // ---- what a tree says ----

  /** The last handler decides whether a track is a video track. */
  function MediaOf(b: Boxes, video: bool): bool {
    match b
    case Nil => video
    case Leaf(_, content, rest) => MediaOf(rest, if content.Handler? then content.handlerType == VIDE else video)
    case Branch(_, _, _, rest) => MediaOf(rest, video)
  }

  function TrackOf(b: Boxes, s: TrackState): TrackState {
    if b == Nil then s else TrackOf(b.rest, TrackStep(b, s))
  }

  /** What the first box says about its track. */
  function TrackStep(b: Boxes, s: TrackState): TrackState
    requires b != Nil
  {
    match b
    case Leaf(_, content, _) =>
      if content.TrackHeader? then s.(width := content.width / 65536, height := content.height / 65536) else s
    case Branch(_, name, children, _) => if name == MDIA then s.(video := MediaOf(children, s.video)) else s
  }

  function MovieOf(b: Boxes, m: Metadata): Metadata
    decreases b, 1
  {
    if b == Nil then m else MovieOf(b.rest, MovieStep(b, m))
  }

  /** What the first box says about the movie. */
  function MovieStep(b: Boxes, m: Metadata): Metadata
    requires b != Nil
    decreases b, 0
  {
    match b
    case Leaf(_, content, _) =>
      if content.MovieHeader? then m.(duration := Quotient(content.duration, content.timescale)) else m
    case Branch(_, name, children, _) =>
      if name == TRAK then Added(m, TrackOf(children, TrackState(m.width, m.height, false)))
      else if name == MOOV || name == MDIA then MovieOf(children, m)
      else m
  }

  // ---- the same in terms of the fields printed ----

  function LastOf<T>(s: seq<T>): Option<T> {
    if s == [] then None else Some(s[|s| - 1])
  }

  lemma LastOfConcat<T>(a: seq<T>, b: seq<T>)
    ensures LastOf(a + b) == if b == [] then LastOf(a) else LastOf(b)
  {
  }

  /** The movie headers on the parser's way, in file order. */
  function MovieHeaders(b: Boxes): seq<Content> {
    match b
    case Nil => []
    case Leaf(_, content, rest) => (if content.MovieHeader? then [content] else []) + MovieHeaders(rest)
    case Branch(_, name, children, rest) =>
      (if name == MOOV || name == MDIA then MovieHeaders(children) else []) + MovieHeaders(rest)
  }

  /** The track headers of one track. */
  function TrackHeaders(b: Boxes): seq<Content> {
    match b
    case Nil => []
    case Leaf(_, content, rest) => (if content.TrackHeader? then [content] else []) + TrackHeaders(rest)
    case Branch(_, _, _, rest) => TrackHeaders(rest)
  }

  function MediaHandlers(b: Boxes): seq<Content> {
    match b
    case Nil => []
    case Leaf(_, content, rest) => (if content.Handler? then [content] else []) + MediaHandlers(rest)
    case Branch(_, _, _, rest) => MediaHandlers(rest)
  }

  /** The handlers of one track. */
  function TrackHandlers(b: Boxes): seq<Content> {
    match b
    case Nil => []
    case Leaf(_, _, rest) => TrackHandlers(rest)
    case Branch(_, name, children, rest) =>
      (if name == MDIA then MediaHandlers(children) else []) + TrackHandlers(rest)
  }

  /** The handler's type spells vide. */
  predicate SaysVideo(handler: Content) {
    handler.Handler? && handler.handlerType == ['v' as int, 'i' as int, 'd' as int, 'e' as int]
  }

  /** The header that sizes a track, if it is a video track. */
  function PictureOf(b: Boxes): Option<Content> {
    var handler := LastOf(TrackHandlers(b));
    if handler.Some? && SaysVideo(handler.value) then LastOf(TrackHeaders(b)) else None
  }

  /** The headers that size the video tracks on the parser's way, in file order. */
  function Pictures(b: Boxes): seq<Content> {
    match b
    case Nil => []
    case Leaf(_, _, rest) => Pictures(rest)
    case Branch(_, name, children, rest) =>
      (if name == TRAK then (match PictureOf(children) case None => [] case Some(c) => [c])
       else if name == MOOV || name == MDIA then Pictures(children) else []) + Pictures(rest)
  }

  /** `m` has the size of the last of `pictures`, or `before`'s if there is none. */
  ghost predicate Sized(m: Metadata, before: Metadata, pictures: seq<Content>) {
    match LastOf(pictures)
    case None => m.width == before.width && m.height == before.height
    case Some(c) => c.TrackHeader? && Whole(m.width, c.width) && Whole(m.height, c.height)
  }

  /** The whole part of a 16.16 fixed-point number. */
  predicate Whole(v: nat, fixed: nat) {
    v * 65536 <= fixed < (v + 1) * 65536
  }

  /** `m` has the duration of the last of `headers`: its duration field in timescale units. */
  ghost predicate Timed(m: Metadata, before: Metadata, headers: seq<Content>) {
    match LastOf(headers)
    case None => m.duration == before.duration
    case Some(c) =>
      c.MovieHeader? && if c.timescale == 0 then m.duration == 0.0
                        else m.duration * c.timescale as real == c.duration as real
  }

  lemma VideIs()
    ensures VIDE == ['v' as int, 'i' as int, 'd' as int, 'e' as int]
  {
  }

  lemma {:induction false} MediaSays(b: Boxes, video: bool)
    ensures MediaOf(b, video) == match LastOf(MediaHandlers(b))
                                 case None => video
                                 case Some(c) => SaysVideo(c)
    decreases b
  {
    VideIs();
    hide VIDE;
    if b.Leaf? {
      MediaSays(b.rest, if b.content.Handler? then b.content.handlerType == VIDE else video);
      LastOfConcat(if b.content.Handler? then [b.content] else [], MediaHandlers(b.rest));
    } else if b.Branch? {
      MediaSays(b.rest, video);
    }
  }

  lemma {:induction false} VideoSays(b: Boxes, s: TrackState)
    ensures TrackOf(b, s).video == match LastOf(TrackHandlers(b))
                                   case None => s.video
                                   case Some(c) => SaysVideo(c)
    decreases b
  {
    hide MDIA, SaysVideo;
    if b.Leaf? {
      VideoSays(b.rest, TrackStep(b, s));
    } else if b.Branch? {
      VideoSays(b.rest, TrackStep(b, s));
      MediaSays(b.children, s.video);
      LastOfConcat(if b.name == MDIA then MediaHandlers(b.children) else [], TrackHandlers(b.rest));
    }
  }

  lemma {:induction false} SizeSays(b: Boxes, s: TrackState)
    ensures match LastOf(TrackHeaders(b))
            case None => TrackOf(b, s).width == s.width && TrackOf(b, s).height == s.height
            case Some(c) => c.TrackHeader? && Whole(TrackOf(b, s).width, c.width)
                            && Whole(TrackOf(b, s).height, c.height)
    decreases b
  {
    hide MDIA, MediaOf;
    if b.Leaf? {
      SizeSays(b.rest, TrackStep(b, s));
      LastOfConcat(if b.content.TrackHeader? then [b.content] else [], TrackHeaders(b.rest));
    } else if b.Branch? {
      SizeSays(b.rest, TrackStep(b, s));
    }
  }

  /** One track: it sizes the movie exactly if its last handler is video and it has a header. */
  lemma TrackSays(b: Boxes, m: Metadata)
    ensures Sized(Added(m, TrackOf(b, TrackState(m.width, m.height, false))), m,
                  match PictureOf(b) case None => [] case Some(c) => [c])
  {
    VideoSays(b, TrackState(m.width, m.height, false));
    SizeSays(b, TrackState(m.width, m.height, false));
    hide TrackOf, TrackHandlers, TrackHeaders, SaysVideo, Whole;
  }

  lemma SizedOn(m: Metadata, mid: Metadata, before: Metadata, a: seq<Content>, b: seq<Content>)
    requires Sized(mid, before, a) && Sized(m, mid, b)
    ensures Sized(m, before, a + b)
  {
    hide Whole;
    LastOfConcat(a, b);
  }

  lemma TimedOn(m: Metadata, mid: Metadata, before: Metadata, a: seq<Content>, b: seq<Content>)
    requires Timed(mid, before, a) && Timed(m, mid, b)
    ensures Timed(m, before, a + b)
  {
    LastOfConcat(a, b);
  }

  lemma AddedTime(m: Metadata, s: TrackState)
    ensures Added(m, s).duration == m.duration
  {
  }

  /** What a tree says, from its fields: the last movie header gives the duration, the last video
      track with a header gives the size. */
  lemma {:induction false} MovieSays(b: Boxes, m: Metadata)
    ensures Timed(MovieOf(b, m), m, MovieHeaders(b)) && Sized(MovieOf(b, m), m, Pictures(b))
    decreases b, 1
  {
    if b != Nil {
      StepSays(b, m);
      MovieSays(b.rest, MovieStep(b, m));
      hide MovieStep, Timed, Sized, MovieHeaders, Pictures;
      TimedOn(MovieOf(b, m), MovieStep(b, m), m, FirstHeaders(b), MovieHeaders(b.rest));
      SizedOn(MovieOf(b, m), MovieStep(b, m), m, FirstPictures(b), Pictures(b.rest));
    }
  }

  /** What the first box of a list contributes. */
  function FirstHeaders(b: Boxes): (r: seq<Content>)
    requires b != Nil
    ensures MovieHeaders(b) == r + MovieHeaders(b.rest)
  {
    match b
    case Leaf(_, content, _) => if content.MovieHeader? then [content] else []
    case Branch(_, name, children, _) => if name == MOOV || name == MDIA then MovieHeaders(children) else []
  }

  function FirstPictures(b: Boxes): (r: seq<Content>)
    requires b != Nil
    ensures Pictures(b) == r + Pictures(b.rest)
  {
    match b
    case Leaf(_, _, _) => assert [] + Pictures(b.rest) == Pictures(b.rest); []
    case Branch(_, name, children, _) =>
      if name == TRAK then (match PictureOf(children) case None => [] case Some(c) => [c])
      else if name == MOOV || name == MDIA then Pictures(children) else []
  }

  lemma {:induction false} StepSays(b: Boxes, m: Metadata)
    requires b != Nil
    ensures Timed(MovieStep(b, m), m, FirstHeaders(b)) && Sized(MovieStep(b, m), m, FirstPictures(b))
    decreases b, 0
  {
    NamesDiffer();
    hide MOOV, MDIA, TRAK, MVHD, TKHD, HDLR, PictureOf, TrackOf, Sized;
    if b.Branch? && b.name == TRAK {
      TrackSays(b.children, m);
      AddedTime(m, TrackOf(b.children, TrackState(m.width, m.height, false)));
    } else if b.Branch? && (b.name == MOOV || b.name == MDIA) {
      MovieSays(b.children, m);
    } else {
      NotSized(MovieStep(b, m), m);
    }
  }

  lemma NotSized(m: Metadata, before: Metadata)
    requires m.width == before.width && m.height == before.height
    ensures Sized(m, before, [])
  {
  }

  /** The names, byte by byte. */
  lemma NamesAre()
    ensures MOOV == [0x6D, 0x6F, 0x6F, 0x76] && MDIA == [0x6D, 0x64, 0x69, 0x61] && TRAK == [0x74, 0x72, 0x61, 0x6B]
    ensures MVHD == [0x6D, 0x76, 0x68, 0x64] && TKHD == [0x74, 0x6B, 0x68, 0x64] && HDLR == [0x68, 0x64, 0x6C, 0x72]
    ensures VIDE == [0x76, 0x69, 0x64, 0x65]
  {
  }

  // ---- parsing inverts printing ----

  ghost predicate Holds(data: seq<byte>, at: nat, b: seq<byte>) {
    at + |b| <= |data| && data[at..at + |b|] == b
  }

  lemma HoldsSplit(data: seq<byte>, at: nat, x: seq<byte>, y: seq<byte>)
    requires Holds(data, at, x + y)
    ensures Holds(data, at, x) && Holds(data, at + |x|, y)
  {
    var all := data[at..at + |x + y|];
    assert data[at..at + |x|] == all[..|x|] && data[at + |x|..at + |x| + |y|] == all[|x|..];
  }

  lemma HeldBytes(data: seq<byte>, at: nat, b: seq<byte>)
    requires Holds(data, at, b)
    ensures forall i :: 0 <= i < |b| ==> ByteAt(data, at + i) == b[i]
  {
    forall i | 0 <= i < |b| ensures ByteAt(data, at + i) == b[i] { assert data[at..at + |b|][i] == data[at + i]; }
  }

  lemma HeldWord(data: seq<byte>, at: nat, v: nat)
    requires Holds(data, at, Big32Bytes(v)) && v < 0x1_0000_0000
    ensures Big32(data, at) == v
  {
    HeldBytes(data, at, Big32Bytes(v));
    var b := Big32Bytes(v);
    assert ByteAt(data, at + 0) == b[0] && ByteAt(data, at + 1) == b[1] && ByteAt(data, at + 2) == b[2]
           && ByteAt(data, at + 3) == b[3];
    WordSplits(v);
  }

  lemma HeldLong(data: seq<byte>, at: nat, v: nat)
    requires Holds(data, at, Big64Bytes(v)) && v < 0x1_0000_0000_0000_0000
    ensures Big64(data, at) == v
  {
    hide Holds, Big32, Big32Bytes;
    HoldsSplit(data, at, Big32Bytes(v / 0x1_0000_0000), Big32Bytes(v % 0x1_0000_0000));
    HeldWord(data, at, v / 0x1_0000_0000);
    HeldWord(data, at + 4, v % 0x1_0000_0000);
  }

  lemma HeldName(data: seq<byte>, at: nat, name: seq<byte>)
    requires Holds(data, at, name) && |name| == 4 && forall i :: 0 <= i < 4 ==> name[i] < 128
    ensures NameAt(data, at) == Some(name)
  {
    HeldBytes(data, at, name);
    forall i | at <= i < at + 4 ensures data[i] < 128 { assert ByteAt(data, at + (i - at)) == name[i - at]; }
  }

  /** A printed header is read back, in either size form. */
  lemma HeaderPrinted(f: File, at: nat, limit: nat, long: bool, name: seq<byte>, body: seq<byte>)
    requires Printable(long, name, |body|) && Holds(f.data, at, HeaderBytes(long, name, |body|) + body)
    requires at + |HeaderBytes(long, name, |body|) + body| <= limit <= |f.data|
    ensures var h := HeaderBytes(long, name, |body|);
            && |h| == (if long then 16 else 8) && Holds(f.data, at + |h|, body)
            && HeaderAt(f, at, limit) == Ok(Some(Header(Some(name), at + |h|, at + |h| + |body|)))
  {
    hide Holds, Big32, Big64, Big32Bytes, Big64Bytes, NameAt;
    var h := HeaderBytes(long, name, |body|);
    HoldsSplit(f.data, at, h, body);
    if long {
      HoldsSplit(f.data, at, Big32Bytes(1) + name, Big64Bytes(16 + |body|));
      HoldsSplit(f.data, at, Big32Bytes(1), name);
      HeldWord(f.data, at, 1);
      HeldName(f.data, at + 4, name);
      HeldLong(f.data, at + 8, 16 + |body|);
    } else {
      HoldsSplit(f.data, at, Big32Bytes(8 + |body|), name);
      HeldWord(f.data, at, 8 + |body|);
      HeldName(f.data, at + 4, name);
    }
  }

  /** Every other size field: zero reaches to the end of the parent, and what does not cover the
      header or leaves the parent ends the walk. */
  lemma OtherSizes(f: File, at: nat, limit: nat, size: nat, name: seq<byte>)
    requires at + 8 <= limit <= |f.data| && |name| == 4 && (forall i :: 0 <= i < 4 ==> name[i] < 128)
    requires size < 0x1_0000_0000 && Holds(f.data, at, Big32Bytes(size) + name)
    ensures size == 0 ==> HeaderAt(f, at, limit) == Ok(Some(Header(Some(name), at + 8, limit)))
    ensures 2 <= size < 8 || (size >= 8 && at + size > limit) ==> HeaderAt(f, at, limit) == Ok(None)
  {
    hide Holds, Big32, Big64, Big32Bytes, NameAt;
    HoldsSplit(f.data, at, Big32Bytes(size), name);
    HeldWord(f.data, at, size);
    HeldName(f.data, at + 4, name);
  }

  /** The same for 64-bit sizes; one past 63 bits is an error. */
  lemma OtherLongSizes(f: File, at: nat, limit: nat, size: nat, name: seq<byte>)
    requires at + 8 <= limit <= |f.data| && |name| == 4 && (forall i :: 0 <= i < 4 ==> name[i] < 128)
    requires size < 0x1_0000_0000_0000_0000 && Holds(f.data, at, Big32Bytes(1) + name + Big64Bytes(size))
    ensures size >= 0x8000_0000_0000_0000 ==> HeaderAt(f, at, limit) == Err(SizeOverflow)
    ensures size < 8 || limit < at + size < at + 0x8000_0000_0000_0000 ==> HeaderAt(f, at, limit) == Ok(None)
  {
    hide Holds, Big32, Big64, Big32Bytes, Big64Bytes, NameAt;
    HoldsSplit(f.data, at, Big32Bytes(1) + name, Big64Bytes(size));
    HoldsSplit(f.data, at, Big32Bytes(1), name);
    HeldWord(f.data, at, 1);
    HeldName(f.data, at + 4, name);
    HeldLong(f.data, at + 8, size);
  }

  lemma PrintSplit(b: Boxes)
    requires b != Nil
    ensures Print(b) == HeaderBytes(b.long, NameOf(b), |BodyOf(b)|) + BodyOf(b) + Print(b.rest)
  {
    hide HeaderBytes;
  }

  function HeaderSize(b: Boxes): nat
    requires b != Nil
  {
    if b.long then 16 else 8
  }

  function NameOf(b: Boxes): seq<byte>
    requires b != Nil
  {
    if b.Leaf? then b.content.Name() else b.name
  }

  function BodyOf(b: Boxes): seq<byte>
    requires b != Nil
  {
    if b.Leaf? then b.content.Payload() else Print(b.children)
  }

  /** One box of a list and the rest of it. */
  lemma BoxPrinted(f: File, at: nat, b: Boxes)
    requires b != Nil && Holds(f.data, at, Print(b)) && Printable(b.long, NameOf(b), |BodyOf(b)|)
    ensures at + |Print(b)| == at + HeaderSize(b) + |BodyOf(b)| + |Print(b.rest)| <= |f.data|
    ensures Holds(f.data, at + HeaderSize(b), BodyOf(b))
    ensures Holds(f.data, at + HeaderSize(b) + |BodyOf(b)|, Print(b.rest))
    ensures at + 8 <= at + |Print(b)|
    ensures var body := at + HeaderSize(b);
            HeaderAt(f, at, at + |Print(b)|) == Ok(Some(Header(Some(NameOf(b)), body, body + |BodyOf(b)|)))
  {
    hide HeaderBytes, HeaderAt, Printable, Print, Holds, BodyOf, NameOf;
    PrintSplit(b);
    HoldsInside(f.data, at, Print(b));
    var header, body := HeaderBytes(b.long, NameOf(b), |BodyOf(b)|), BodyOf(b);
    HoldsSplit(f.data, at, header + body, Print(b.rest));
    HeaderPrinted(f, at, at + |Print(b)|, b.long, NameOf(b), body);
  }

  /** The version byte tells how wide the times are. */
  lemma FrontPrinted(data: seq<byte>, at: nat, version: byte, flags: seq<byte>, creation: nat, modification: nat)
    requires |flags| == 3 && Holds(data, at, Front(version, flags, creation, modification))
    ensures at < |data| && data[at] == version
    ensures |Front(version, flags, creation, modification)| == if version == 1 then 20 else 12
  {
    hide Time;
    HeldBytes(data, at, Front(version, flags, creation, modification));
    assert ByteAt(data, at + 0) == version;
  }

  lemma HeldTime(data: seq<byte>, at: nat, version: byte, v: nat)
    requires Holds(data, at, Time(version, v)) && v < TimeRange(version)
    ensures if version == 1 then Big64(data, at) == v else Big32(data, at) == v
  {
    hide Holds, Big32, Big64, Big32Bytes, Big64Bytes;
    if version == 1 { HeldLong(data, at, v); } else { HeldWord(data, at, v); }
  }

  /** The duration of a printed movie header, in either layout. */
  lemma DurationPrinted(data: seq<byte>, at: nat, c: Content)
    requires c.MovieHeader? && c.Fits() && Holds(data, at, c.Payload())
    ensures MovieDuration(data, at) == Ok(Quotient(c.duration, c.timescale))
  {
    hide Holds, Big32, Big64, Big32Bytes, Time, Front;
    var front, t, d := Front(c.version, c.flags, c.creation, c.modification), Big32Bytes(c.timescale),
      Time(c.version, c.duration);
    HoldsSplit(data, at, front, t + (d + c.tail));
    FrontPrinted(data, at, c.version, c.flags, c.creation, c.modification);
    HoldsSplit(data, at + |front|, t, d + c.tail);
    HoldsSplit(data, at + |front| + 4, d, c.tail);
    HeldWord(data, at + |front|, c.timescale);
    HeldTime(data, at + |front| + 4, c.version, c.duration);
  }

  /** The size in a printed track header, in either layout. */
  lemma SizePrinted(data: seq<byte>, at: nat, c: Content)
    requires c.TrackHeader? && c.Fits() && Holds(data, at, c.Payload())
    ensures TrackSize(data, at) == Ok((c.width / 65536, c.height / 65536))
  {
    hide Holds, Big32, Big32Bytes, Time, Front;
    var front := Front(c.version, c.flags, c.creation, c.modification);
    var middle := Big32Bytes(c.trackId) + c.reserved + Time(c.version, c.duration) + c.layout;
    var w, h := Big32Bytes(c.width), Big32Bytes(c.height);
    HoldsSplit(data, at, front + middle, w + (h + c.tail));
    HoldsSplit(data, at, front, middle);
    FrontPrinted(data, at, c.version, c.flags, c.creation, c.modification);
    var q := at + |front| + |middle|;
    HoldsSplit(data, q, w, h + c.tail);
    HoldsSplit(data, q + 4, h, c.tail);
    HeldWord(data, q, c.width);
    HeldWord(data, q + 4, c.height);
  }

  /** The type in a printed handler. */
  lemma HandlerPrinted(data: seq<byte>, at: nat, c: Content)
    requires c.Handler? && c.Fits() && Holds(data, at, c.Payload())
    ensures NameAt(data, at + 8) == Some(VIDE) <==> c.handlerType == VIDE
  {
    hide Holds;
    HoldsSplit(data, at, c.front, c.handlerType + c.tail);
    HoldsSplit(data, at + 8, c.handlerType, c.tail);
    HeldSlice(data, at + 8, c.handlerType);
    if c.handlerType == VIDE { HeldName(data, at + 8, VIDE); }
  }

  lemma HeldSlice(data: seq<byte>, at: nat, b: seq<byte>)
    requires Holds(data, at, b)
    ensures at + |b| <= |data| && data[at..at + |b|] == b
  {
  }

  lemma {:induction false} MediaPrinted(f: File, at: nat, b: Boxes, video: bool)
    requires MediaBoxes(b) && Holds(f.data, at, Print(b))
    ensures at + |Print(b)| <= |f.data| && Media(f, at, at + |Print(b)|, video) == Ok(MediaOf(b, video))
    decreases b
  {
    hide HeaderAt, Holds, HeaderBytes, NameAt, Printable, Content.Payload, Content.Fits;
    HoldsInside(f.data, at, Print(b));
    if b != Nil {
      BoxPrinted(f, at, b);
      var body := at + HeaderSize(b);
      var next := video;
      if b.Leaf? && b.content.Handler? {
        HandlerPrinted(f.data, body, b.content);
        next := b.content.handlerType == VIDE;
      }
      NamesDiffer();
      assert next == if NameOf(b) == HDLR then NameAt(f.data, body + 8) == Some(VIDE) else video;
      MediaPrinted(f, body + |BodyOf(b)|, b.rest, next);
    }
  }

  lemma HoldsInside(data: seq<byte>, at: nat, b: seq<byte>)
    requires Holds(data, at, b)
    ensures at + |b| <= |data|
  {
  }

  /** The first box of a printed track. */
  lemma TrackBoxPrinted(f: File, body: nat, b: Boxes, s: TrackState)
    requires b != Nil && TrackBoxes(b) && Holds(f.data, body, BodyOf(b)) && body + |BodyOf(b)| <= |f.data|
    ensures TrackBox(f, Header(Some(NameOf(b)), body, body + |BodyOf(b)|), s) == Ok(TrackStep(b, s))
  {
    NamesDiffer();
    hide Holds, Media, MediaOf, TrackSize, MediaBoxes, Printable, Print, Content.Payload, Content.Fits;
    hide MOOV, MDIA, TRAK, MVHD, TKHD, HDLR;
    if b.Leaf? && b.content.TrackHeader? {
      SizePrinted(f.data, body, b.content);
    } else if b.Branch? && b.name == MDIA {
      MediaPrinted(f, body, b.children, s.video);
    }
  }

  lemma {:induction false} TrackPrinted(f: File, at: nat, b: Boxes, s: TrackState)
    requires TrackBoxes(b) && Holds(f.data, at, Print(b))
    ensures at + |Print(b)| <= |f.data| && Track(f, at, at + |Print(b)|, s) == Ok(TrackOf(b, s))
    decreases b
  {
    hide HeaderAt, Holds, TrackBox, Track, TrackStep, TrackBoxes, Printable, BodyOf, NameOf, Print;
    HoldsInside(f.data, at, Print(b));
    if b == Nil {
      NothingPrinted(f, at, Metadata(0.0, 0, 0), s);
    } else {
      LeafOrBranch(b);
      BoxPrinted(f, at, b);
      TrackBoxPrinted(f, at + HeaderSize(b), b, s);
      TrackOn(f, at, at + |Print(b)|, s);
      TrackPrinted(f, at + HeaderSize(b) + |BodyOf(b)|, b.rest, TrackStep(b, s));
    }
  }

  /** Both walks, one box on. */
  lemma TrackOn(f: File, at: nat, limit: nat, s: TrackState)
    requires at + 8 <= limit <= |f.data| && HeaderAt(f, at, limit).Ok? && HeaderAt(f, at, limit).value.Some?
    ensures var h := HeaderAt(f, at, limit).value.value;
            TrackBox(f, h, s).Ok? ==> Track(f, at, limit, s) == Track(f, h.end, limit, TrackBox(f, h, s).value)
  {
    hide HeaderAt, TrackBox;
  }

  lemma RangeOn(f: File, at: nat, limit: nat, m: Metadata)
    requires at + 8 <= limit <= |f.data| && HeaderAt(f, at, limit).Ok? && HeaderAt(f, at, limit).value.Some?
    ensures var h := HeaderAt(f, at, limit).value.value;
            RangeBox(f, at, limit, h, m).Ok? ==>
              Range(f, at, limit, m) == Range(f, h.end, limit, RangeBox(f, at, limit, h, m).value)
  {
    hide HeaderAt, RangeBox;
  }

  lemma NothingPrinted(f: File, at: nat, m: Metadata, s: TrackState)
    requires at <= |f.data|
    ensures Print(Nil) == [] && Range(f, at, at, m) == Ok(m) && Track(f, at, at, s) == Ok(s)
  {
  }

  /** Every box of a tree is printable, and the boxes after it are a tree of the same kind. */
  lemma LeafOrBranch(b: Boxes)
    requires b != Nil
    ensures TrackBoxes(b) || MovieBoxes(b) ==> Printable(b.long, NameOf(b), |BodyOf(b)|)
    ensures (TrackBoxes(b) ==> TrackBoxes(b.rest)) && (MovieBoxes(b) ==> MovieBoxes(b.rest))
  {
    hide Printable, Print, Content.Payload;
  }

  lemma NamesDiffer()
    ensures MVHD !in {MOOV, MDIA, TRAK, TKHD, HDLR} && TKHD !in {MOOV, MDIA, TRAK, HDLR} && HDLR !in {MOOV, MDIA, TRAK}
    ensures MOOV != MDIA && MOOV != TRAK && MDIA != TRAK
  {
    assert MOOV[0] == 109 && MDIA[0] == 109 && MVHD[0] == 109 && TRAK[0] == 116 && TKHD[0] == 116 && HDLR[0] == 104;
    assert MOOV[1] == 111 && MDIA[1] == 100 && MVHD[1] == 118 && TRAK[1] == 114 && TKHD[1] == 107;
  }

  /** The first box of a printed movie. */
  lemma {:induction false} MovieBoxPrinted(f: File, at: nat, body: nat, limit: nat, b: Boxes, m: Metadata)
    requires b != Nil && MovieBoxes(b) && Holds(f.data, body, BodyOf(b))
    requires at < body && at < body + |BodyOf(b)| <= limit <= |f.data|
    ensures RangeBox(f, at, limit, Header(Some(NameOf(b)), body, body + |BodyOf(b)|), m) == Ok(MovieStep(b, m))
    decreases b, 0
  {
    NamesDiffer();
    hide Holds, Track, TrackOf, MovieDuration, TrackBoxes, Printable, Content.Payload, Content.Fits;
    hide MOOV, MDIA, TRAK, MVHD, TKHD, HDLR;
    if b.Leaf? && b.content.MovieHeader? {
      DurationPrinted(f.data, body, b.content);
    } else if b.Branch? && b.name == TRAK {
      TrackPrinted(f, body, b.children, TrackState(m.width, m.height, false));
    } else if b.Branch? && (b.name == MOOV || b.name == MDIA) {
      MoviePrinted(f, body, b.children, m);
    }
  }

  /** Parsing a printed tree gives what the tree says, for every nesting, box order, size form
      and payload. */
  lemma {:induction false} MoviePrinted(f: File, at: nat, b: Boxes, m: Metadata)
    requires MovieBoxes(b) && Holds(f.data, at, Print(b))
    ensures at + |Print(b)| <= |f.data| && Range(f, at, at + |Print(b)|, m) == Ok(MovieOf(b, m))
    decreases b, 1
  {
    hide HeaderAt, Holds, RangeBox, Range, MovieStep, MovieBoxes, Printable, BodyOf, NameOf, Print;
    HoldsInside(f.data, at, Print(b));
    if b == Nil {
      NothingPrinted(f, at, m, TrackState(0, 0, false));
    } else {
      LeafOrBranch(b);
      BoxPrinted(f, at, b);
      MovieBoxPrinted(f, at, at + HeaderSize(b), at + |Print(b)|, b, m);
      RangeOn(f, at, at + |Print(b)|, m);
      MoviePrinted(f, at + HeaderSize(b) + |BodyOf(b)|, b.rest, MovieStep(b, m));
    }
  }

  /** A whole printed file, from its fields to the parser's answer. */
  method ParsePrinted(b: Boxes, unread: nat -> nat) returns (r: Result<(bool, Metadata), Mp4Error>)
    requires MovieBoxes(b)
    ensures var m := MovieOf(b, Metadata(0.0, 0, 0)); r == Ok((m.width > 0 && m.height > 0 && m.duration > 0.0, m))
    ensures Timed(r.value.1, Metadata(0.0, 0, 0), MovieHeaders(b)) && Sized(r.value.1, Metadata(0.0, 0, 0), Pictures(b))
  {
    hide Timed, Sized, Pictures, MovieHeaders, MovieOf, Print, MovieBoxes, Range;
    MovieSays(b, Metadata(0.0, 0, 0));
    var file := File(Print(b), unread);
    assert Print(b)[0..0 + |Print(b)|] == Print(b);
    MoviePrinted(file, 0, b, Metadata(0.0, 0, 0));
    r := TryParse(file);
  }
}
