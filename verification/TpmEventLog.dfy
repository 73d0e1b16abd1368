/** The TPM event log walker (PlatformPeiTpmEventLog.c): an iterator over raw memory, the HOB
    builder behind it, and the printer they invert. The record formats are those of sections 5.1
    and 5.2 of the TCG EFI Protocol Specification. */
module TpmEventLog {
  import opened Bytes

  /** All of memory; the walker reads wherever the log's own fields send it. */
  type Memory = nat -> byte

  const EV_NO_ACTION := 3
  const MaxWord := 0x1_0000_0000

  // ---- memory ----

  function Mem16(mem: Memory, a: nat): nat {
    mem(a) as int + 256 * (mem(a + 1) as int)
  }

  function Mem32(mem: Memory, a: nat): nat {
    mem(a) as int + 256 * (mem(a + 1) as int) + 65536 * (mem(a + 2) as int) + 16777216 * (mem(a + 3) as int)
  }

  function Slice(mem: Memory, a: nat, n: nat): (r: seq<byte>)
    ensures |r| == n
  {
    seq(n, i requires 0 <= i < n => mem(a + i))
  }

  ghost predicate Holds(mem: Memory, a: nat, b: seq<byte>) {
    forall i :: 0 <= i < |b| ==> mem(a + i) == b[i]
  }

  lemma HoldsSplit(mem: Memory, a: nat, x: seq<byte>, y: seq<byte>)
    ensures Holds(mem, a, x + y) <==> Holds(mem, a, x) && Holds(mem, a + |x|, y)
  {
    if Holds(mem, a, x + y) {
      forall i | 0 <= i < |x| ensures mem(a + i) == x[i] { assert (x + y)[i] == x[i]; }
      forall i | 0 <= i < |y| ensures mem(a + |x| + i) == y[i] { assert (x + y)[|x| + i] == y[i]; }
    }
    if Holds(mem, a, x) && Holds(mem, a + |x|, y) {
      forall i | 0 <= i < |x + y| ensures mem(a + i) == (x + y)[i] {
        if i >= |x| { assert mem(a + |x| + (i - |x|)) == y[i - |x|]; }
      }
    }
  }

  lemma HoldsSlice(mem: Memory, a: nat, b: seq<byte>)
    requires Holds(mem, a, b)
    ensures Slice(mem, a, |b|) == b
  {
  }

  lemma HeldWord(mem: Memory, a: nat, v: nat)
    requires Holds(mem, a, Le32(v)) && v < MaxWord
    ensures Mem32(mem, a) == v
  {
    var b := Le32(v);
    assert mem(a + 0) == b[0] && mem(a + 1) == b[1] && mem(a + 2) == b[2] && mem(a + 3) == b[3];
    WordSplits(v);
  }

  lemma HeldHalf(mem: Memory, a: nat, v: nat)
    requires Holds(mem, a, Le16(v)) && v < 65536
    ensures Mem16(mem, a) == v
  {
    var b := Le16(v);
    assert mem(a + 0) == b[0] && mem(a + 1) == b[1];
  }

  // ---- hash algorithms ----

  datatype HashInfo = HashInfo(algorithm: nat, mask: nat, size: nat)

  const HASH_INFO: seq<HashInfo> :=
    [HashInfo(0x0004, 1, 20), HashInfo(0x000B, 2, 32), HashInfo(0x000C, 4, 48), HashInfo(0x000D, 8, 64)]

  function HashSize(algorithm: nat): Option<nat> {
    match algorithm
    case 0x0004 => Some(20)
    case 0x000B => Some(32)
    case 0x000C => Some(48)
    case 0x000D => Some(64)
    case _ => None
  }

  method GetHashInfo(algorithm: nat) returns (info: Option<HashInfo>)
    ensures info.Some? <==> HashSize(algorithm).Some?
    ensures info.Some? ==> info.value in HASH_INFO && info.value.algorithm == algorithm
    ensures info.Some? ==> HashSize(algorithm) == Some(info.value.size)
  {
    var i := 0;
    while i < |HASH_INFO|
      invariant 0 <= i <= |HASH_INFO|
      invariant forall j :: 0 <= j < i ==> HASH_INFO[j].algorithm != algorithm
    {
      if HASH_INFO[i].algorithm == algorithm {
        return Some(HASH_INFO[i]);
      }
      i := i + 1;
    }
    assert HASH_INFO[0].algorithm != algorithm && HASH_INFO[1].algorithm != algorithm
        && HASH_INFO[2].algorithm != algorithm && HASH_INFO[3].algorithm != algorithm;
    return None;
  }

  // ---- what the walker computes ----

  function Text(s: string): seq<byte> {
    seq(|s|, i requires 0 <= i < |s| => s[i] as int % 256) + [0]
  }

  const SPEC_ID_02: seq<byte> := Text("Spec ID Event02")
  const SPEC_ID_03: seq<byte> := Text("Spec ID Event03")
  const STARTUP_LOCALITY: seq<byte> := Text("StartupLocality")

  predicate IsSpecId(mem: Memory, at: nat) {
    Mem32(mem, at + 4) == EV_NO_ACTION
      && (Slice(mem, at + 32, 16) == SPEC_ID_02 || Slice(mem, at + 32, 16) == SPEC_ID_03)
  }

  function SpecIdSize(mem: Memory, at: nat): nat {
    32 + Mem32(mem, at + 28)
  }

  /** Where `count` digests starting at `q` end, if every algorithm is known. */
  function DigestsEnd(mem: Memory, q: nat, count: nat): (r: Option<nat>)
    ensures r.Some? ==> r.value >= q && (count > 0 ==> r.value >= q + 22)
    decreases count
  {
    if count == 0 then Some(q) else
      match HashSize(Mem16(mem, q))
      case None => None
      case Some(size) => DigestsEnd(mem, q + 2 + size, count - 1)
  }

  function DigestListSize(mem: Memory, at: nat): nat {
    match DigestsEnd(mem, at + 12, Mem32(mem, at + 8))
    case None => 0
    case Some(q) => q - (at + 12)
  }

  /** The size of the record at `at`, or None when it cannot be parsed. */
  function RecordSize(mem: Memory, at: nat): (r: Option<nat>)
    ensures r.Some? ==> r.value >= 32
  {
    if IsSpecId(mem, at) then Some(SpecIdSize(mem, at))
    else if DigestListSize(mem, at) == 0 then None
    else
      var q := at + 12 + DigestListSize(mem, at);
      DigestListAtLeast(mem, at);
      Some(q + 4 + Mem32(mem, q) - at)
  }

  lemma DigestListAtLeast(mem: Memory, at: nat)
    ensures DigestListSize(mem, at) != 0 ==> DigestListSize(mem, at) >= 22
  {
  }

  datatype Record = Record(at: nat, size: nat)

  datatype Status = Success | NotFound | InvalidParameter | Unsupported | OutOfResources

  datatype Walked = Walked(records: seq<Record>, status: Status)

  /** The iterator run to its end from `at`. */
  function Walk(mem: Memory, at: nat, end: nat): Walked
    decreases end - at
  {
    if at >= end then Walked([], NotFound) else
      match RecordSize(mem, at)
      case None => Walked([], InvalidParameter)
      case Some(size) =>
        var rest := Walk(mem, at + size, end);
        Walked([Record(at, size)] + rest.records, rest.status)
  }

  method GetDigestListSize(mem: Memory, event: nat) returns (size: nat)
    ensures size == DigestListSize(mem, event)
  {
    hide Mem16, Mem32;
    var count := Mem32(mem, event + 8);
    var algorithm, digest := Mem16(mem, event + 12), event + 14;
    var i := 0;
    while i < count
      invariant 0 <= i <= count && digest >= event + 14 && algorithm == Mem16(mem, digest - 2)
      invariant DigestsEnd(mem, event + 12, count) == DigestsEnd(mem, digest - 2, count - i)
    {
      var info := GetHashInfo(algorithm);
      if info.None? {
        return 0;
      }
      digest := digest + info.value.size;
      algorithm := Mem16(mem, digest);
      digest := digest + 2;
      i := i + 1;
    }
    digest := digest - 2;
    return digest - (event + 12);
  }

  /** EVENT_LOG_ITERATOR; a null Event is None. */
  class EventLogIterator {
    const base: nat
    const size: nat
    var event: Option<nat>
    var eventSize: nat

    constructor (base: nat, size: nat)
      ensures this.base == base && this.size == size && event.None? && eventSize == 0
    {
      this.base, this.size := base, size;
      event, eventSize := None, 0;
    }

    /** Where the next record is looked for; after an error that is the beginning again. */
    ghost function Position(): nat
      reads this
    {
      if event.None? then base else event.value + eventSize
    }

    method GetNext(mem: Memory) returns (status: Status, next: Option<nat>, nextSize: nat)
      modifies this
      ensures var at := old(Position()); (
        && (at >= base + size ==> status == NotFound)
        && (at < base + size && RecordSize(mem, at).None? ==> status == InvalidParameter)
        && (at < base + size && RecordSize(mem, at).Some? ==>
            status == Success && next == Some(at) && Some(nextSize) == RecordSize(mem, at)))
      ensures event == next && eventSize == nextSize
      ensures status != Success ==> next.None? && nextSize == 0
    {
      hide IsSpecId, DigestListSize, Mem32;
      if event.None? {
        event := Some(base);
      } else {
        event := Some(event.value + eventSize);
      }
      var at := event.value;
      if at >= base + size {
        event, eventSize := None, 0;
        return NotFound, event, eventSize;
      }
      if IsSpecId(mem, at) {
        eventSize := SpecIdSize(mem, at);
        return Success, event, eventSize;
      }
      var listSize := GetDigestListSize(mem, at);
      if listSize == 0 {
        event, eventSize := None, 0;
        return InvalidParameter, event, eventSize;
      }
      var p := at + 12 + listSize;
      var dataSize := Mem32(mem, p);
      p := p + 4 + dataSize;
      eventSize := p - at;
      return Success, event, eventSize;
    }
  }

  function Prepended(records: seq<Record>, rest: Walked): Walked {
    Walked(records + rest.records, rest.status)
  }

  /** DumpTpmEventLog: every record the iterator yields, in the order they are dumped, and the
      status that ends the loop. */
  method DumpTpmEventLog(mem: Memory, base: nat, size: nat) returns (dumped: seq<Record>, status: Status)
    ensures Walked(dumped, status) == Walk(mem, base, base + size)
  {
    hide RecordSize;
    var iter := new EventLogIterator(base, size);
    dumped := [];
    ghost var at := base;
    var nextEvent, nextEventSize;
    status, nextEvent, nextEventSize := iter.GetNext(mem);
    while status == Success
      invariant status == Success ==>
                  at < base + size && RecordSize(mem, at) == Some(nextEventSize) && nextEvent == Some(at)
      invariant status == Success ==> iter.Position() == at + nextEventSize
      invariant status == Success ==> Walk(mem, base, base + size) == Prepended(dumped, Walk(mem, at, base + size))
      invariant status != Success ==> Walk(mem, base, base + size) == Walked(dumped, status)
      decreases if status == Success then base + size - at else 0
    {
      WalkOn(mem, dumped, at, base + size);
      dumped := dumped + [Record(nextEvent.value, nextEventSize)];
      at := at + nextEventSize;
      status, nextEvent, nextEventSize := iter.GetNext(mem);
    }
  }

  /** One record further along the walk. */
  lemma WalkOn(mem: Memory, before: seq<Record>, at: nat, end: nat)
    requires at < end && RecordSize(mem, at).Some?
    ensures var n := RecordSize(mem, at).value; (
      && Prepended(before, Walk(mem, at, end)) == Prepended(before + [Record(at, n)], Walk(mem, at + n, end))
      && (at + n >= end || RecordSize(mem, at + n).None? ==>
            Walk(mem, at + n, end).records == [] && before + [Record(at, n)] + [] == before + [Record(at, n)]))
  {
    hide RecordSize;
    var n := RecordSize(mem, at).value;
    var rest := Walk(mem, at + n, end).records;
    assert before + ([Record(at, n)] + rest) == (before + [Record(at, n)]) + rest;
  }

  // ---- HOBs ----

  /** The HOB list as far as this code sees it: data blocks appended while there is room. */
  class HobList {
    var blocks: seq<seq<byte>>
    var room: nat

    constructor (room: nat)
      ensures blocks == [] && this.room == room
    {
      blocks, this.room := [], room;
    }

    method BuildGuidDataHob(data: seq<byte>) returns (ok: bool)
      modifies this
      ensures ok == (|data| <= old(room))
      ensures ok ==> blocks == old(blocks) + [data] && room == old(room) - |data|
      ensures !ok ==> blocks == old(blocks) && room == old(room)
    {
      ok := |data| <= room;
      if ok {
        blocks, room := blocks + [data], room - |data|;
      }
    }
  }

  /** The event data at `q`, behind the digests, is a startup locality other than 3. */
  predicate Skipped(mem: Memory, q: nat) {
    Mem32(mem, q) == 17 && Slice(mem, q + 4, 16) == STARTUP_LOCALITY && mem(q + 4 + 16) != 3
  }

  /** The blocks one record adds, given the room that is left. */
  function OneHob(mem: Memory, r: Record, room: nat): (h: Result<seq<seq<byte>>, Status>)
    ensures h.Ok? && h.value != [] ==> r.size <= room
    ensures h.Err? ==> h.error == Unsupported || h.error == OutOfResources
  {
    match DigestsEnd(mem, r.at + 12, Mem32(mem, r.at + 8))
    case None => Err(Unsupported)
    case Some(q) =>
      if Skipped(mem, q) then Ok([])
      else if r.size <= room then Ok([Slice(mem, r.at, r.size)])
      else Err(OutOfResources)
  }

  method BuildOnePeiEventLogHob(mem: Memory, hobs: HobList, event: nat, eventSize: nat) returns (status: Status)
    modifies hobs
    ensures match OneHob(mem, Record(event, eventSize), old(hobs.room))
            case Ok(added) => status == Success && hobs.blocks == old(hobs.blocks) + added
                              && hobs.room == old(hobs.room) - (if added == [] then 0 else eventSize)
            case Err(e) => status == e && hobs.blocks == old(hobs.blocks) && hobs.room == old(hobs.room)
  {
    hide Skipped, Slice, Mem16, Mem32;
    var count := Mem32(mem, event + 8);
    var algorithm, p := Mem16(mem, event + 12), event + 14;
    var i := 0;
    while i < count
      invariant 0 <= i <= count && p >= event + 14 && algorithm == Mem16(mem, p - 2)
      invariant DigestsEnd(mem, event + 12, count) == DigestsEnd(mem, p - 2, count - i)
      invariant hobs.blocks == old(hobs.blocks) && hobs.room == old(hobs.room)
    {
      var info := GetHashInfo(algorithm);
      if info.None? {
        return Unsupported;
      }
      p := p + info.value.size;
      algorithm := Mem16(mem, p);
      p := p + 2;
      i := i + 1;
    }
    p := p - 2;
    if Skipped(mem, p) {
      return Success;
    }
    var ok := hobs.BuildGuidDataHob(Slice(mem, event, eventSize));
    return if ok then Success else OutOfResources;
  }

  function RoomLeft(room: nat, r: Record, added: seq<seq<byte>>): (left: int)
    ensures left == if added == [] then room else room - r.size
  {
    room - (if added == [] then 0 else r.size)
  }

  /** The blocks the records from `at` on add, and how it ends. */
  function Built(mem: Memory, at: nat, end: nat, room: nat): (seq<seq<byte>>, Status)
    decreases end - at
  {
    if at >= end then ([], Success) else
      match RecordSize(mem, at)
      case None => ([], InvalidParameter)
      case Some(size) =>
        match OneHob(mem, Record(at, size), room)
        case Err(e) => ([], e)
        case Ok(added) =>
          var rest := Built(mem, at + size, end, RoomLeft(room, Record(at, size), added));
          (added + rest.0, rest.1)
  }

  /** The builder's loop, from wherever the iterator stands. It ends on any memory, since a
      record takes at least 32 bytes. */
  method BuildRemaining(mem: Memory, it: EventLogIterator, hobs: HobList) returns (status: Status)
    requires it.event.Some?
    modifies it, hobs
    ensures var b := Built(mem, old(it.Position()), it.base + it.size, old(hobs.room));
            hobs.blocks == old(hobs.blocks) + b.0 && status == b.1
  {
    hide IsSpecId, SpecIdSize, OneHob, DigestListSize, RecordSize;
    ghost var end := it.base + it.size;
    ghost var all := Built(mem, it.Position(), end, hobs.room);
    var stop := false;
    status := Success;
    while !stop
      invariant !stop ==> it.event.Some?
      invariant !stop ==> var rest := Built(mem, it.Position(), end, hobs.room);
                          hobs.blocks + rest.0 == old(hobs.blocks) + all.0 && rest.1 == all.1
      invariant stop ==> hobs.blocks == old(hobs.blocks) + all.0
      invariant stop ==> all.1 == (if status == NotFound then Success else status)
      decreases !stop, end - it.Position()
    {
      var next, nextSize;
      status, next, nextSize := it.GetNext(mem);
      if status == Success {
        status := BuildOnePeiEventLogHob(mem, hobs, next.value, nextSize);
      }
      stop := status != Success;
    }
    if status == NotFound {
      status := Success;
    }
  }

  /** A log without a leading SpecId record is invalid; otherwise every later record becomes a
      block or is skipped, until one fails. */
  method BuildPeiEventLogHobs(mem: Memory, log: Option<Record>, hobs: HobList) returns (status: Status)
    modifies hobs
    ensures log.None? ==> status == Success && hobs.blocks == old(hobs.blocks)
    ensures log.Some? ==>
              var base, end := log.value.at, log.value.at + log.value.size;
              if base < end && IsSpecId(mem, base) then
                var b := Built(mem, base + SpecIdSize(mem, base), end, old(hobs.room));
                hobs.blocks == old(hobs.blocks) + b.0 && status == b.1
              else status == InvalidParameter && hobs.blocks == old(hobs.blocks)
  {
    hide IsSpecId, SpecIdSize, OneHob, DigestListSize;
    if log.None? {
      return Success;
    }
    var it := new EventLogIterator(log.value.at, log.value.size);
    var next, nextSize;
    status, next, nextSize := it.GetNext(mem);
    if status != Success {
      return InvalidParameter;
    }
    if !IsSpecId(mem, next.value) {
      return InvalidParameter;
    }
    status := BuildRemaining(mem, it, hobs);
  }

  // ---- the printed form ----

  datatype Digest = Digest(algorithm: nat, value: seq<byte>)

  datatype Event2 = Event2(pcr: nat, eventType: nat, digests: seq<Digest>, data: seq<byte>)

  /** The four algorithms the firmware knows, by the numbers and digest sizes of the TCG algorithm
      registry: SHA-1, SHA-256, SHA-384 and SHA-512. */
  predicate Known(d: Digest) {
    || (d.algorithm == 4 && |d.value| == 160 / 8) || (d.algorithm == 11 && |d.value| == 256 / 8)
    || (d.algorithm == 12 && |d.value| == 384 / 8) || (d.algorithm == 13 && |d.value| == 512 / 8)
  }

  ghost predicate Supported(e: Event2) {
    && e.pcr < MaxWord && e.eventType < MaxWord && |e.data| < MaxWord && 0 < |e.digests| < MaxWord
    && forall i :: 0 <= i < |e.digests| ==> Known(e.digests[i])
  }

  /** A digest is known exactly if the walker finds its size; any other algorithm stops it. */
  lemma KnownSize(d: Digest)
    ensures Known(d) <==> HashSize(d.algorithm) == Some(|d.value|)
    ensures HashSize(d.algorithm).Some? <==> d.algorithm in {4, 11, 12, 13}
  {
  }

  function DigestBytes(ds: seq<Digest>): seq<byte> {
    if ds == [] then [] else Le16(ds[0].algorithm) + ds[0].value + DigestBytes(ds[1..])
  }

  /** A crypto-agile entry, section 5.2. */
  function EventBytes(e: Event2): seq<byte> {
    Le32(e.pcr) + Le32(e.eventType) + Le32(|e.digests|) + (DigestBytes(e.digests) + (Le32(|e.data|) + e.data))
  }

  /** The leading SHA-1 format entry that announces the crypto-agile format. */
  datatype Header = Header(pcr: nat, digest: seq<byte>, data: seq<byte>)

  predicate Announces(h: Header) {
    && h.pcr < MaxWord && |h.digest| == 20 && 16 <= |h.data| < MaxWord
    && (h.data[..16] == Signature('2') || h.data[..16] == Signature('3'))
  }

  /** The signature of the SpecId event, version 2.0 or 3.0 of the format, with its final zero. */
  function Signature(version: char): seq<byte> {
    ['S' as int, 'p' as int, 'e' as int, 'c' as int, ' ' as int, 'I' as int, 'D' as int, ' ' as int, 'E' as int,
     'v' as int, 'e' as int, 'n' as int, 't' as int, '0' as int, version as int % 256, 0]
  }

  lemma SignaturesAre()
    ensures Signature('2') == SPEC_ID_02 && Signature('3') == SPEC_ID_03
  {
  }

  function HeaderBytes(h: Header): seq<byte> {
    Le32(h.pcr) + Le32(3) + h.digest + (Le32(|h.data|) + h.data)
  }

  function EventsBytes(es: seq<Event2>): seq<byte> {
    if es == [] then [] else EventBytes(es[0]) + EventsBytes(es[1..])
  }

  function LogBytes(h: Header, es: seq<Event2>): seq<byte> {
    HeaderBytes(h) + EventsBytes(es)
  }

  // ---- one record read back ----

  lemma {:induction false} DigestsReadBack(mem: Memory, q: nat, ds: seq<Digest>)
    requires Holds(mem, q, DigestBytes(ds))
    requires forall i :: 0 <= i < |ds| ==> Known(ds[i])
    ensures DigestsEnd(mem, q, |ds|) == Some(q + |DigestBytes(ds)|)
    ensures |ds| > 0 ==> |DigestBytes(ds)| >= 22
    decreases |ds|
  {
    hide Holds, Mem16;
    if ds != [] {
      var d, rest := ds[0], DigestBytes(ds[1..]);
      KnownSize(d);
      HoldsSplit(mem, q, Le16(d.algorithm) + d.value, rest);
      HoldsSplit(mem, q, Le16(d.algorithm), d.value);
      HeldHalf(mem, q, d.algorithm);
      DigestsReadBack(mem, q + 2 + |d.value|, ds[1..]);
    }
  }

  /** An algorithm that is not known stops the walk over the digests, and no size is found. */
  lemma {:induction false} UnknownAlgorithm(mem: Memory, q: nat, ds: seq<Digest>, algorithm: nat, count: nat)
    requires (forall i :: 0 <= i < |ds| ==> Known(ds[i])) && algorithm < 65536 && algorithm !in {4, 11, 12, 13}
    requires Holds(mem, q, DigestBytes(ds)) && Holds(mem, q + |DigestBytes(ds)|, Le16(algorithm)) && count > |ds|
    ensures DigestsEnd(mem, q, count) == None
    decreases |ds|
  {
    hide Holds, Mem16;
    if ds == [] {
      HeldHalf(mem, q, algorithm);
      KnownSize(Digest(algorithm, []));
    } else {
      var d, rest := ds[0], DigestBytes(ds[1..]);
      KnownSize(d);
      HoldsSplit(mem, q, Le16(d.algorithm) + d.value, rest);
      HoldsSplit(mem, q, Le16(d.algorithm), d.value);
      HeldHalf(mem, q, d.algorithm);
      UnknownAlgorithm(mem, q + 2 + |d.value|, ds[1..], algorithm, count - 1);
    }
  }

  lemma EventPieces(mem: Memory, at: nat, e: Event2)
    requires Holds(mem, at, EventBytes(e))
    ensures Holds(mem, at + 4, Le32(e.eventType)) && Holds(mem, at + 8, Le32(|e.digests|))
    ensures Holds(mem, at + 12, DigestBytes(e.digests))
    ensures var q := at + 12 + |DigestBytes(e.digests)|; Holds(mem, q, Le32(|e.data|)) && Holds(mem, q + 4, e.data)
  {
    var front, ds, tail := Le32(e.pcr) + Le32(e.eventType) + Le32(|e.digests|), DigestBytes(e.digests),
      Le32(|e.data|) + e.data;
    hide Holds, Le32, DigestBytes;
    HoldsSplit(mem, at, front, ds + tail);
    HoldsSplit(mem, at, Le32(e.pcr) + Le32(e.eventType), Le32(|e.digests|));
    HoldsSplit(mem, at, Le32(e.pcr), Le32(e.eventType));
    HoldsSplit(mem, at + 12, ds, tail);
    HoldsSplit(mem, at + 12 + |ds|, Le32(|e.data|), e.data);
  }

  /** The fields of a printed entry, where the walkers look for them. */
  lemma EventFields(mem: Memory, at: nat, e: Event2)
    requires Supported(e) && Holds(mem, at, EventBytes(e))
    ensures Mem32(mem, at + 4) == e.eventType && Mem32(mem, at + 8) == |e.digests|
    ensures |DigestBytes(e.digests)| >= 22
    ensures DigestsEnd(mem, at + 12, |e.digests|) == Some(at + 12 + |DigestBytes(e.digests)|)
    ensures var q := at + 12 + |DigestBytes(e.digests)|;
            Mem32(mem, q) == |e.data| && Slice(mem, q + 4, |e.data|) == e.data
              && |EventBytes(e)| == q + 4 + |e.data| - at
    ensures Slice(mem, at, |EventBytes(e)|) == EventBytes(e)
  {
    hide Holds, Mem32, DigestsEnd, DigestBytes, Slice, Le32;
    EventPieces(mem, at, e);
    var ds := DigestBytes(e.digests);
    HeldWord(mem, at + 4, e.eventType);
    HeldWord(mem, at + 8, |e.digests|);
    HeldWord(mem, at + 12 + |ds|, |e.data|);
    DigestsReadBack(mem, at + 12, e.digests);
    HoldsSlice(mem, at + 12 + |ds| + 4, e.data);
    HoldsSlice(mem, at, EventBytes(e));
  }

  /** The record at `at` passes for a SpecId record and its bytes 28 to 31 give another size. */
  predicate Misread(mem: Memory, at: nat, size: nat) {
    IsSpecId(mem, at) && SpecIdSize(mem, at) != size
  }

  /** A printed entry is read with its own size exactly when it is not taken for a SpecId record
      of another size. */
  lemma EntrySize(mem: Memory, at: nat, e: Event2)
    requires Supported(e) && Holds(mem, at, EventBytes(e))
    ensures RecordSize(mem, at) == Some(|EventBytes(e)|) <==> !Misread(mem, at, |EventBytes(e)|)
    ensures e.eventType != EV_NO_ACTION ==> !Misread(mem, at, |EventBytes(e)|)
  {
    hide Holds, Mem32, EventBytes, DigestBytes, Supported, Slice;
    EventFields(mem, at, e);
  }

  lemma HeaderRecord(mem: Memory, at: nat, h: Header)
    requires Announces(h) && Holds(mem, at, HeaderBytes(h))
    ensures IsSpecId(mem, at) && RecordSize(mem, at) == Some(|HeaderBytes(h)|) == Some(SpecIdSize(mem, at))
  {
    hide Holds, Mem32, Le32, Signature, SPEC_ID_02, SPEC_ID_03;
    SignaturesAre();
    var n := Le32(h.pcr) + Le32(3);
    HoldsSplit(mem, at, n + h.digest, Le32(|h.data|) + h.data);
    HoldsSplit(mem, at, n, h.digest);
    HoldsSplit(mem, at, Le32(h.pcr), Le32(3));
    HoldsSplit(mem, at + 28, Le32(|h.data|), h.data);
    HeldWord(mem, at + 4, 3);
    HeldWord(mem, at + 28, |h.data|);
    assert h.data == h.data[..16] + h.data[16..];
    HoldsSplit(mem, at + 32, h.data[..16], h.data[16..]);
    HoldsSlice(mem, at + 32, h.data[..16]);
  }

  // ---- the whole log read back ----

  /** The records a printed log consists of. */
  function Records(at: nat, es: seq<Event2>): seq<Record>
    decreases |es|
  {
    if es == [] then [] else [Record(at, |EventBytes(es[0])|)] + Records(at + |EventBytes(es[0])|, es[1..])
  }

  ghost predicate AllSupported(es: seq<Event2>) {
    forall i :: 0 <= i < |es| ==> Supported(es[i])
  }

  /** No entry is taken for a SpecId record of another size. */
  ghost predicate NoneMisread(mem: Memory, records: seq<Record>) {
    forall i :: 0 <= i < |records| ==> !Misread(mem, records[i].at, records[i].size)
  }

  /** The iterator run over printed entries yields exactly those entries, in order, and then
      NOT_FOUND, if and only if no entry is misread. */
  lemma {:induction false} EntriesReadBack(mem: Memory, at: nat, es: seq<Event2>)
    requires AllSupported(es) && Holds(mem, at, EventsBytes(es))
    ensures Walk(mem, at, at + |EventsBytes(es)|) == Walked(Records(at, es), NotFound) <==>
              NoneMisread(mem, Records(at, es))
    decreases |es|
  {
    hide Holds, RecordSize, EventBytes, Misread;
    if es == [] {
    } else {
      var n, end := |EventBytes(es[0])|, at + |EventsBytes(es)|;
      var r, rest := Records(at, es), Records(at + n, es[1..]);
      HoldsSplit(mem, at, EventBytes(es[0]), EventsBytes(es[1..]));
      EntrySize(mem, at, es[0]);
      EventAtLeast(mem, at, es[0]);
      EntriesReadBack(mem, at + n, es[1..]);
      assert r == [Record(at, n)] + rest;
      NoneMisreadSplit(mem, Record(at, n), rest);
      WalkSplit(mem, at, end, n);
    }
  }

  /** The same for a whole printed log: the leading SpecId record, then the entries. */
  lemma LogReadBack(mem: Memory, base: nat, h: Header, es: seq<Event2>)
    requires Announces(h) && AllSupported(es) && Holds(mem, base, LogBytes(h, es))
    ensures var entries := Records(base + |HeaderBytes(h)|, es);
            Walk(mem, base, base + |LogBytes(h, es)|) == Walked([Record(base, |HeaderBytes(h)|)] + entries, NotFound)
            <==> NoneMisread(mem, entries)
  {
    hide Holds, RecordSize, HeaderBytes, EventsBytes, Announces, Misread, IsSpecId, SpecIdSize;
    HoldsSplit(mem, base, HeaderBytes(h), EventsBytes(es));
    HeaderRecord(mem, base, h);
    EntriesReadBack(mem, base + |HeaderBytes(h)|, es);
    WalkSplit(mem, base, base + |LogBytes(h, es)|, |HeaderBytes(h)|);
  }

  lemma EventAtLeast(mem: Memory, at: nat, e: Event2)
    requires Supported(e) && Holds(mem, at, EventBytes(e))
    ensures |EventBytes(e)| >= 38
  {
    hide Holds, Supported, EventBytes;
    EventFields(mem, at, e);
  }

  lemma NoneMisreadSplit(mem: Memory, r: Record, rest: seq<Record>)
    ensures NoneMisread(mem, [r] + rest) <==> !Misread(mem, r.at, r.size) && NoneMisread(mem, rest)
  {
    hide Misread;
    var all := [r] + rest;
    if NoneMisread(mem, all) {
      assert !Misread(mem, all[0].at, all[0].size);
      forall i | 0 <= i < |rest| ensures !Misread(mem, rest[i].at, rest[i].size) { assert rest[i] == all[i + 1]; }
    }
  }

  lemma WalkSplit(mem: Memory, at: nat, end: nat, n: nat)
    requires at < end
    ensures forall rest: seq<Record> ::
              Walk(mem, at, end) == Walked([Record(at, n)] + rest, NotFound)
              <==> RecordSize(mem, at) == Some(n) && Walk(mem, at + n, end) == Walked(rest, NotFound)
  {
    hide RecordSize;
    var w := Walk(mem, at, end);
    forall rest: seq<Record>
      ensures w == Walked([Record(at, n)] + rest, NotFound)
              <==> RecordSize(mem, at) == Some(n) && Walk(mem, at + n, end) == Walked(rest, NotFound)
    {
      if w == Walked([Record(at, n)] + rest, NotFound) {
        assert w.records[0] == Record(at, n) && w.records[1..] == rest;
      }
    }
  }

  // ---- the HOBs of a printed log ----

  /** A startup locality event whose locality is not 3. */
  predicate Dropped(e: Event2) {
    |e.data| == 17 && e.data[..16] == LocalityName() && e.data[16] != 3
  }

  function LocalityName(): seq<byte> {
    ['S' as int, 't' as int, 'a' as int, 'r' as int, 't' as int, 'u' as int, 'p' as int, 'L' as int, 'o' as int,
     'c' as int, 'a' as int, 'l' as int, 'i' as int, 't' as int, 'y' as int, 0]
  }

  lemma LocalityIs()
    ensures LocalityName() == STARTUP_LOCALITY
  {
  }

  /** The printed entries that become HOBs: all but the dropped ones. */
  function Kept(es: seq<Event2>): seq<seq<byte>> {
    if es == [] then [] else (if Dropped(es[0]) then [] else [EventBytes(es[0])]) + Kept(es[1..])
  }

  /** Blocks stored one after the other until the room runs out. */
  function StoredIn(blocks: seq<seq<byte>>, room: nat): (seq<seq<byte>>, Status) {
    if blocks == [] then ([], Success)
    else if |blocks[0]| > room then ([], OutOfResources)
    else var rest := StoredIn(blocks[1..], room - |blocks[0]|); ([blocks[0]] + rest.0, rest.1)
  }

  lemma EntryHob(mem: Memory, at: nat, e: Event2, room: nat)
    requires Supported(e) && Holds(mem, at, EventBytes(e))
    ensures OneHob(mem, Record(at, |EventBytes(e)|), room) ==
            if Dropped(e) then Ok([]) else if |EventBytes(e)| <= room then Ok([EventBytes(e)]) else Err(OutOfResources)
  {
    hide Holds, Mem32, EventBytes, DigestBytes, Supported, DigestsEnd, LocalityName, STARTUP_LOCALITY;
    LocalityIs();
    EventFields(mem, at, e);
    var q := at + 12 + |DigestBytes(e.digests)|;
    if |e.data| == 17 {
      assert e.data[16] == Slice(mem, q + 4, 17)[16] == mem(q + 4 + 16);
      assert e.data[..16] == Slice(mem, q + 4, 17)[..16] == Slice(mem, q + 4, 16);
    }
  }

  /** The first printed entry and the rest of them. */
  lemma FirstEntry(mem: Memory, at: nat, es: seq<Event2>)
    requires es != [] && AllSupported(es) && Holds(mem, at, EventsBytes(es)) && NoneMisread(mem, Records(at, es))
    ensures var n := |EventBytes(es[0])|;
            && n >= 38 && RecordSize(mem, at) == Some(n) && Holds(mem, at, EventBytes(es[0]))
            && Holds(mem, at + n, EventsBytes(es[1..]))
            && Supported(es[0]) && AllSupported(es[1..]) && NoneMisread(mem, Records(at + n, es[1..]))
            && |EventsBytes(es)| == n + |EventsBytes(es[1..])|
  {
    hide Holds, RecordSize, EventBytes, Misread, AllSupported;
    var e, n := es[0], |EventBytes(es[0])|;
    AllSupportedTail(es);
    HoldsSplit(mem, at, EventBytes(e), EventsBytes(es[1..]));
    EntrySize(mem, at, e);
    EventAtLeast(mem, at, e);
    NoneMisreadSplit(mem, Record(at, n), Records(at + n, es[1..]));
  }

  /** What a printed log leaves in the HOB list: its entries, without the startup localities
      other than 3, as far as there is room. */
  lemma {:induction false} EntriesBuilt(mem: Memory, at: nat, es: seq<Event2>, room: nat)
    requires AllSupported(es) && Holds(mem, at, EventsBytes(es)) && NoneMisread(mem, Records(at, es))
    ensures Built(mem, at, at + |EventsBytes(es)|, room) == StoredIn(Kept(es), room)
    decreases |es|
  {
    hide Holds, RecordSize, EventBytes, Misread, OneHob, Dropped, AllSupported, NoneMisread, Supported, Records;
    if es != [] {
      var e, n := es[0], |EventBytes(es[0])|;
      FirstEntry(mem, at, es);
      EntryHob(mem, at, e, room);
      KeptStep(es, room);
      BuiltStep(mem, at, at + |EventsBytes(es)|, room);
      if Dropped(e) {
        EntriesBuilt(mem, at + n, es[1..], room);
      } else if n <= room {
        EntriesBuilt(mem, at + n, es[1..], room - n);
      }
    }
  }

  lemma AllSupportedTail(es: seq<Event2>)
    requires AllSupported(es) && es != []
    ensures Supported(es[0]) && AllSupported(es[1..])
  {
    hide Supported;
  }

  lemma KeptStep(es: seq<Event2>, room: nat)
    requires es != []
    ensures Dropped(es[0]) ==> StoredIn(Kept(es), room) == StoredIn(Kept(es[1..]), room)
    ensures !Dropped(es[0]) && |EventBytes(es[0])| > room ==> StoredIn(Kept(es), room) == ([], OutOfResources)
    ensures !Dropped(es[0]) && |EventBytes(es[0])| <= room ==>
              var rest := StoredIn(Kept(es[1..]), room - |EventBytes(es[0])|);
              StoredIn(Kept(es), room) == ([EventBytes(es[0])] + rest.0, rest.1)
  {
    hide Dropped, EventBytes;
    if Dropped(es[0]) {
      assert Kept(es) == Kept(es[1..]);
    } else {
      assert Kept(es)[1..] == Kept(es[1..]);
    }
  }

  lemma BuiltStep(mem: Memory, at: nat, end: nat, room: nat)
    requires at < end && RecordSize(mem, at).Some?
    ensures var r := Record(at, RecordSize(mem, at).value);
            match OneHob(mem, r, room)
            case Err(e) => Built(mem, at, end, room) == ([], e)
            case Ok(added) =>
              var rest := Built(mem, at + r.size, end, RoomLeft(room, r, added));
              Built(mem, at, end, room) == (added + rest.0, rest.1)
                && (added == [] ==> Built(mem, at, end, room) == rest)
  {
    hide RecordSize, OneHob;
    var r := Record(at, RecordSize(mem, at).value);
    if OneHob(mem, r, room) == Ok([]) {
      var rest := Built(mem, at + r.size, end, room);
      assert [] + rest.0 == rest.0;
    }
  }

  /** The whole path: the HOBs built from a printed log are its entries, bytes and order kept,
      without the startup localities other than 3. */
  method BuildFromPrinted(mem: Memory, base: nat, size: nat, hobs: HobList, ghost h: Header, ghost es: seq<Event2>)
    returns (status: Status)
    requires Announces(h) && AllSupported(es) && size == |LogBytes(h, es)| && Holds(mem, base, LogBytes(h, es))
    requires NoneMisread(mem, Records(base + |HeaderBytes(h)|, es))
    modifies hobs
    ensures var s := StoredIn(Kept(es), old(hobs.room)); hobs.blocks == old(hobs.blocks) + s.0 && status == s.1
  {
    hide Holds, NoneMisread, HeaderBytes, EventsBytes, IsSpecId, SpecIdSize, Announces, Built;
    HoldsSplit(mem, base, HeaderBytes(h), EventsBytes(es));
    HeaderRecord(mem, base, h);
    EntriesBuilt(mem, base + |HeaderBytes(h)|, es, hobs.room);
    status := BuildPeiEventLogHobs(mem, Some(Record(base, size)), hobs);
  }

  /** An entry that is misread: its SHA-384 digest carries the SpecId signature. */
  lemma MisreadEntryExists()
    ensures exists mem: Memory, at, e ::
              Supported(e) && Holds(mem, at, EventBytes(e)) && Misread(mem, at, |EventBytes(e)|)
  {
    var value := Zeros(18) + SPEC_ID_03 + Zeros(14);
    var e := Event2(0, EV_NO_ACTION, [Digest(0x000C, value)], []);
    var b := EventBytes(e);
    var mem: Memory := (a: nat) => if a < |b| then b[a] else 0;
    assert Holds(mem, 0, b);
    MisreadFields(mem, e, b);
  }

  lemma MisreadFields(mem: Memory, e: Event2, b: seq<byte>)
    requires b == EventBytes(e) && Holds(mem, 0, b)
    requires e == Event2(0, EV_NO_ACTION, [Digest(0x000C, Zeros(18) + SPEC_ID_03 + Zeros(14))], [])
    ensures Supported(e) && Misread(mem, 0, |b|)
  {
    hide Holds;
    var d := e.digests[0];
    EventPieces(mem, 0, e);
    assert DigestBytes(e.digests) == Le16(0x000C) + (Zeros(18) + (SPEC_ID_03 + Zeros(14)));
    HoldsSplit(mem, 12, Le16(0x000C), Zeros(18) + (SPEC_ID_03 + Zeros(14)));
    HoldsSplit(mem, 14, Zeros(18), SPEC_ID_03 + Zeros(14));
    HoldsSplit(mem, 32, SPEC_ID_03, Zeros(14));
    HoldsSlice(mem, 32, SPEC_ID_03);
    HeldWord(mem, 4, EV_NO_ACTION);
    assert Zeros(18) == Zeros(14) + Zeros(4);
    HoldsSplit(mem, 14, Zeros(14), Zeros(4));
    assert Zeros(4) == Le32(0);
    HeldWord(mem, 28, 0);
  }
}
