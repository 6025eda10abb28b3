/** The dump ring: a fixed number of slots that the most recent surface dumps are copied to,
    each overwriting the oldest. */
module DumpSpec {
  import opened Common

  newtype Byte = x: int | 0 <= x < 256

  datatype Format = Argb8888 | Xrgb8888 | Yvu420 | Yuv420 | Nv12 | Nv21 | Yuyv | Uyvy | Other

  datatype Info = Info(format: Format, height: nat, size: nat, stride0: nat, stride1: nat, stride2: nat)

  const ZeroInfo := Info(Other, 0, 0, 0, 0, 0)

  /** A mapped surface: what the backend tells of it, and the memory its plane pointers reach. */
  datatype Mapped = Mapped(info: Info, plane0: seq<Byte>, plane1: seq<Byte>, plane2: seq<Byte>)

  /** The file a slot is written to: an image of four bytes a pixel, or up to three raw blocks. */
  datatype Picture = Png(width: nat, height: nat, pixels: seq<Byte>) | Raw(blocks: seq<seq<Byte>>)

  /** A slot: the bytes of its bo and the fields beside them. */
  datatype Slot = Slot(data: seq<Byte>, info: Info, dirty: bool, dirtyShm: bool, shmStride: nat, shmH: nat)

  predicate Rgb(f: Format) { f.Argb8888? || f.Xrgb8888? }
  predicate Planar(f: Format) { f.Yvu420? || f.Yuv420? }
  predicate SemiPlanar(f: Format) { f.Nv12? || f.Nv21? }
  predicate Packed(f: Format) { f.Yuyv? || f.Uyvy? }

  function Luma(i: Info): nat { i.stride0 * i.height }
  function Chroma1(i: Info): nat { i.stride1 * (i.height / 2) }
  function Chroma2(i: Info): nat { i.stride2 * (i.height / 2) }

  /** The backend's sizes agree: the planes lie within the surface, whose memory is there. */
  ghost predicate Consistent(m: Mapped) {
    var i := m.info;
    if Rgb(i.format) then Luma(i) <= i.size <= |m.plane0|
    else if Planar(i.format) then
      Luma(i) <= |m.plane0| && Chroma1(i) <= |m.plane1| && Chroma2(i) <= |m.plane2|
      && Luma(i) + Chroma1(i) + Chroma2(i) <= i.size
    else if SemiPlanar(i.format) then
      Luma(i) <= |m.plane0| && Chroma1(i) <= |m.plane1| && Luma(i) + Chroma1(i) <= i.size
    else Packed(i.format) ==> Luma(i) <= |m.plane0| && Luma(i) <= i.size
  }

  /** An image of rows of `stride` bytes, as far as the file takes it. */
  function Image(bytes: seq<Byte>, stride: nat, height: nat): Picture
    requires stride * height <= |bytes|
  {
    Png(stride / 4, height, bytes[..(stride / 4) * 4 * height])
  }

  /** A row of the image is as many whole pixels as its stride holds, and the pixels are the first
      bytes there are. */
  lemma ImageExactly(bytes: seq<Byte>, stride: nat, height: nat)
    requires stride * height <= |bytes|
    ensures var p := Image(bytes, stride, height);
            && p.Png? && p.height == height
            && 4 * p.width <= stride < 4 * p.width + 4
            && |p.pixels| == (p.width * 4) * height
            && (forall i :: 0 <= i < |p.pixels| ==> p.pixels[i] == bytes[i])
  {
  }

  /** What a dump should show: the planes of the surface, each at its own length. */
  function PictureOf(m: Mapped): Picture
    requires Consistent(m) && m.info.format != Other
  {
    var i := m.info;
    if Rgb(i.format) then Image(m.plane0, i.stride0, i.height)
    else if Planar(i.format) then
      Raw([m.plane0[..Luma(i)], m.plane1[..Chroma1(i)], m.plane2[..Chroma2(i)]])
    else if SemiPlanar(i.format) then Raw([m.plane0[..Luma(i)], m.plane1[..Chroma1(i)]])
    else Raw([m.plane0[..Luma(i)]])
  }

  /** The bytes a dump copies into the bo, back to back. */
  function Copied(m: Mapped): seq<Byte>
    requires Consistent(m) && m.info.format != Other
  {
    var i := m.info;
    if Rgb(i.format) then m.plane0[..i.size]
    else if Planar(i.format) then m.plane0[..Luma(i)] + m.plane1[..Chroma1(i)] + m.plane2[..Chroma2(i)]
    else if SemiPlanar(i.format) then m.plane0[..Luma(i)] + m.plane1[..Chroma1(i)]
    else m.plane0[..Luma(i)]
  }

  function Zeros(n: nat): seq<Byte> { seq(n, _ => 0) }

  /** A bo of `n` bytes cleared, then written from its start. */
  function Filled(n: nat, bytes: seq<Byte>): seq<Byte>
    requires |bytes| <= n
  {
    bytes + Zeros(n - |bytes|)
  }

  /** The ranges of the bo that ending the dump writes to a file lie within the bo. */
  ghost predicate Readable(s: Slot) {
    var i := s.info;
    if s.dirty then
      if Rgb(i.format) || Packed(i.format) then Luma(i) <= |s.data|
      else if Planar(i.format) then Luma(i) + Chroma1(i) + Chroma2(i) <= |s.data|
      else SemiPlanar(i.format) ==> Luma(i) + Chroma1(i) <= |s.data|
    else s.dirtyShm ==> s.shmStride * s.shmH <= |s.data|
  }

  predicate Clean(s: Slot) { !s.dirty && !s.dirtyShm }

  /** The file that ending the dump makes of a slot. */
  function Shown(s: Slot): Option<Picture>
    requires Readable(s)
  {
    var i := s.info;
    if s.dirty then
      if Rgb(i.format) then Some(Image(s.data, i.stride0, i.height))
      else if Planar(i.format) then
        var at1 := Luma(i);
        var at2 := at1 + Chroma1(i);
        Some(Raw([s.data[..at1], s.data[at1..at2], s.data[at2..at2 + Chroma2(i)]]))
      else if SemiPlanar(i.format) then
        var at1 := Luma(i);
        Some(Raw([s.data[..at1], s.data[at1..at1 + Chroma1(i)]]))
      else if Packed(i.format) then Some(Raw([s.data[..Luma(i)]]))
      else None
    else if s.dirtyShm then Some(Image(s.data, s.shmStride, s.shmH))
    else None
  }

  function Dumped(m: Mapped, s: Slot): Slot
    requires Consistent(m) && m.info.format != Other && m.info.size <= |s.data|
  {
    CopiedLength(m);
    s.(data := Filled(|s.data|, Copied(m)), info := m.info, dirty := true, dirtyShm := false)
  }

  lemma CopiedLength(m: Mapped)
    requires Consistent(m) && m.info.format != Other
    ensures |Copied(m)| <= m.info.size
  {
  }

  /** Every supported format comes back as it went in, whatever else the slot held. */
  lemma RoundTrip(m: Mapped, s: Slot)
    requires Consistent(m) && m.info.format != Other && m.info.size <= |s.data|
    ensures Readable(Dumped(m, s)) && Shown(Dumped(m, s)) == Some(PictureOf(m))
  {
    if Rgb(m.info.format) {
      RoundTripRgb(m, s);
    } else if Planar(m.info.format) {
      RoundTripPlanar(m, s);
    } else {
      RoundTripPlain(m, s);
    }
  }

  /** The same without a word for the picture: what the file of each format holds. */
  lemma RoundTripExactly(m: Mapped, s: Slot)
    requires Consistent(m) && m.info.format != Other && m.info.size <= |s.data|
    ensures Readable(Dumped(m, s)) && Shown(Dumped(m, s)).Some?
    ensures var p, i := Shown(Dumped(m, s)).value, m.info;
            match i.format
            case Argb8888 | Xrgb8888 =>
              && p.Png? && p.height == i.height
              && 4 * p.width <= i.stride0 < 4 * p.width + 4
              && |p.pixels| == (p.width * 4) * i.height
              && (forall k :: 0 <= k < |p.pixels| ==> p.pixels[k] == m.plane0[k])
            case Yvu420 | Yuv420 =>
              p == Raw([m.plane0[..i.stride0 * i.height], m.plane1[..i.stride1 * (i.height / 2)],
                        m.plane2[..i.stride2 * (i.height / 2)]])
            case Nv12 | Nv21 =>
              p == Raw([m.plane0[..i.stride0 * i.height], m.plane1[..i.stride1 * (i.height / 2)]])
            case Yuyv | Uyvy => p == Raw([m.plane0[..i.stride0 * i.height]])
            case Other => true
  {
    RoundTrip(m, s);
    hide Shown, Readable, Dumped, Image;
    if Rgb(m.info.format) {
      ImageExactly(m.plane0, m.info.stride0, m.info.height);
    }
  }

  lemma RoundTripRgb(m: Mapped, s: Slot)
    requires Consistent(m) && Rgb(m.info.format) && m.info.size <= |s.data|
    ensures Readable(Dumped(m, s)) && Shown(Dumped(m, s)) == Some(PictureOf(m))
  {
    var i := m.info;
    ImageWithin(m.plane0, Zeros(|s.data| - i.size), i.size, i.stride0, i.height);
  }

  /** Bytes past the image do not show. */
  lemma ImageWithin(bytes: seq<Byte>, rest: seq<Byte>, size: nat, stride: nat, height: nat)
    requires stride * height <= size <= |bytes|
    ensures Image(bytes[..size] + rest, stride, height) == Image(bytes, stride, height)
  {
    var n := (stride / 4) * 4 * height;
    assert (bytes[..size] + rest)[..n] == bytes[..n];
  }

  lemma RoundTripPlanar(m: Mapped, s: Slot)
    requires Consistent(m) && Planar(m.info.format) && m.info.size <= |s.data|
    ensures Readable(Dumped(m, s)) && Shown(Dumped(m, s)) == Some(PictureOf(m))
  {
    hide Luma, Chroma1, Chroma2;
    var i := m.info;
    var a, b, c := m.plane0[..Luma(i)], m.plane1[..Chroma1(i)], m.plane2[..Chroma2(i)];
    var rest := Zeros(|s.data| - |Copied(m)|);
    Parts(a, b, c + rest);
    Parts(a + b, c, rest);
    assert Dumped(m, s).data == a + b + (c + rest) == (a + b) + c + rest;
  }

  lemma RoundTripPlain(m: Mapped, s: Slot)
    requires Consistent(m) && (SemiPlanar(m.info.format) || Packed(m.info.format))
    requires m.info.size <= |s.data|
    ensures Readable(Dumped(m, s)) && Shown(Dumped(m, s)) == Some(PictureOf(m))
  {
    hide Luma, Chroma1, Chroma2;
    var i := m.info;
    var a, rest := m.plane0[..Luma(i)], Zeros(|s.data| - |Copied(m)|);
    if SemiPlanar(i.format) {
      Parts(a, m.plane1[..Chroma1(i)], rest);
    } else {
      Parts(a, [], rest);
      assert Dumped(m, s).data == a + [] + rest;
    }
  }

  lemma Parts(a: seq<Byte>, b: seq<Byte>, c: seq<Byte>)
    ensures (a + b + c)[..|a|] == a && (a + b + c)[|a|..|a| + |b|] == b
  {
  }

  lemma ShmRoundTrip(bytes: seq<Byte>, stride: nat, h: nat, s: Slot)
    requires stride * h <= |bytes| && stride * h <= |s.data|
    ensures var t := s.(data := Filled(|s.data|, bytes[..stride * h]), info := ZeroInfo,
                        dirty := false, dirtyShm := true, shmStride := stride, shmH := h);
            Readable(t) && Shown(t) == Some(Image(bytes, stride, h))
  {
    ImageWithin(bytes, Zeros(|s.data| - stride * h), stride * h, stride, h);
  }

  // ----- the ring of slots -----

  /** `link` is the slot dumped to last, or -1 for the list head. */
  datatype Ring = Ring(slots: seq<Slot>, link: int, count: nat)

  datatype Call =
    | Buffer(surface: Option<Mapped>, boMaps: bool)
    | Shm(bytes: seq<Byte>, w: int, h: int, stride: int, boMaps: bool)

  /** Callers pass consistent surfaces and shared memory of the size they claim. */
  ghost predicate CallOk(c: Call) {
    match c
    case Buffer(m, _) => m.Some? ==> Consistent(m.value)
    case Shm(bytes, w, h, stride, _) => h > 0 && stride > 0 ==> stride * h <= |bytes|
  }

  datatype Fate = Skipped | Spoilt | Made(picture: Picture)

  /** What becomes of a dump, for slots of `size` bytes. */
  function FateOf(c: Call, size: nat): Fate
    requires CallOk(c)
  {
    match c
    case Buffer(None, _) => Skipped
    case Buffer(Some(m), boMaps) =>
      if m.info.size > size then Skipped
      else if !boMaps || m.info.format == Other then Spoilt
      else Made(PictureOf(m))
    case Shm(bytes, w, h, stride, boMaps) =>
      if w <= 0 || h <= 0 || stride <= 0 || stride * h > size || !boMaps then Skipped
      else Made(Image(bytes, stride, h))
  }

  /** The slot after `link`, passing over the list head. */
  function Ahead(r: Ring): int {
    if r.link + 1 == |r.slots| then 0 else r.link + 1
  }

  ghost predicate RingOk(r: Ring, size: nat) {
    && |r.slots| > 0 && -1 <= r.link < |r.slots| && r.count < 1000
    && forall i :: 0 <= i < |r.slots| ==> |r.slots[i].data| == size && Readable(r.slots[i])
  }

  function EmptySlot(size: nat): Slot {
    Slot(Zeros(size), ZeroInfo, false, false, 0, 0)
  }

  function Advance(r: Ring, s: Slot): Ring
    requires 0 <= Ahead(r) < |r.slots|
  {
    Ring(r.slots[Ahead(r) := s], Ahead(r), if r.count + 1 == 1000 then 0 else r.count + 1)
  }

  function SlotAfter(c: Call, s: Slot): Slot
    requires CallOk(c)
  {
    match c
    case Buffer(None, _) => s
    case Buffer(Some(m), boMaps) =>
      if m.info.size > |s.data| then s
      else if !boMaps then s.(info := m.info)
      else if m.info.format == Other then s.(info := m.info, data := Zeros(|s.data|))
      else
        Dumped(m, s)
    case Shm(bytes, w, h, stride, boMaps) =>
      if w <= 0 || h <= 0 || stride <= 0 || stride * h > |s.data| || !boMaps then s
      else s.(data := Filled(|s.data|, bytes[..stride * h]), info := ZeroInfo,
              dirty := false, dirtyShm := true, shmStride := stride, shmH := h)
  }

  function Step(r: Ring, c: Call): Ring
    requires CallOk(c) && 0 <= Ahead(r) < |r.slots|
  {
    var s := r.slots[Ahead(r)];
    if FateOf(c, |s.data|).Made? then Advance(r, SlotAfter(c, s))
    else r.(slots := r.slots[Ahead(r) := SlotAfter(c, s)])
  }

  /** What a dump makes of its slot. */
  ghost predicate Kept(c: Call, s: Slot)
    requires CallOk(c) && Readable(s)
  {
    var t := SlotAfter(c, s);
    && |t.data| == |s.data| && Readable(t)
    && match FateOf(c, |s.data|)
       case Skipped => t == s
       case Spoilt =>
         && t.dirty == s.dirty && t.dirtyShm == s.dirtyShm && (Clean(s) ==> Clean(t))
         && (t.data == s.data || forall i :: 0 <= i < |t.data| ==> t.data[i] == 0)
       case Made(p) => Shown(t) == Some(p)
  }

  /** A picture is made exactly of a mapped surface of a supported format that fits, when the bo
      maps too; a fitting surface that fails on format or bo spoils the slot; all else is skipped. */
  lemma FateExactly(c: Call, size: nat)
    requires CallOk(c)
    ensures match c
            case Buffer(m, boMaps) =>
              var fits := m.Some? && m.value.info.size <= size;
              && (FateOf(c, size).Made? <==> fits && boMaps && m.value.info.format != Other)
              && (FateOf(c, size).Spoilt? <==> fits && (!boMaps || m.value.info.format == Other))
            case Shm(bytes, w, h, stride, boMaps) =>
              && !FateOf(c, size).Spoilt?
              && (FateOf(c, size).Made? <==> w > 0 && h > 0 && stride > 0 && stride * h <= size && boMaps)
              && (FateOf(c, size).Made? ==>
                    var p := FateOf(c, size).picture;
                    && p.Png? && p.height == h && 4 * p.width <= stride < 4 * p.width + 4
                    && |p.pixels| == (p.width * 4) * h
                    && (forall k :: 0 <= k < |p.pixels| ==> p.pixels[k] == bytes[k]))
  {
    if c.Shm? && c.h > 0 && c.stride > 0 {
      ImageExactly(c.bytes, c.stride, c.h);
      hide Image;
    }
  }

  lemma BufferKept(m: Mapped, boMaps: bool, s: Slot)
    requires Consistent(m) && Readable(s)
    ensures Kept(Buffer(Some(m), boMaps), s)
  {
    hide Copied, PictureOf, Image;
    if m.info.size <= |s.data| && m.info.format != Other {
      CopiedLength(m);
      RoundTrip(m, s);
    }
  }

  lemma ShmKept(c: Call, s: Slot)
    requires c.Shm? && CallOk(c) && Readable(s)
    ensures Kept(c, s)
  {
    if c.h > 0 && c.stride > 0 && c.stride * c.h <= |s.data| {
      ShmRoundTrip(c.bytes, c.stride, c.h, s);
    }
  }

  lemma SlotKept(c: Call, s: Slot)
    requires CallOk(c) && Readable(s)
    ensures Kept(c, s)
  {
    match c
    case Buffer(Some(m), boMaps) =>
      BufferKept(m, boMaps, s);
    case Buffer(None, _) =>
    case Shm(_, _, _, _, _) =>
      hide Kept;
      ShmKept(c, s);
  }

  /** Nothing to dump, or more than a slot holds. */
  predicate Refused(c: Call, size: nat) {
    match c
    case Buffer(m, _) => m.None? || m.value.info.size > size
    case Shm(_, w, h, stride, boMaps) => w <= 0 || h <= 0 || stride <= 0 || stride * h > size || !boMaps
  }

  lemma StepKept(r: Ring, size: nat, c: Call)
    requires RingOk(r, size) && CallOk(c)
    ensures RingOk(Step(r, c), size)
    ensures FateOf(c, size).Skipped? ==> Step(r, c) == r
    ensures FateOf(c, size).Skipped? <==> Refused(c, size)
    ensures c.Shm? && !Refused(c, size) ==> FateOf(c, size).Made?
  {
    hide Readable, Shown, Clean, SlotAfter;
    SlotKept(c, r.slots[Ahead(r)]);
  }

  // ----- whole runs -----

  function Start(k: nat, size: nat): Ring { Ring(seq(k, _ => EmptySlot(size)), -1, 0) }

  ghost predicate CallsOk(calls: seq<Call>) { forall c :: c in calls ==> CallOk(c) }

  function Run(k: nat, size: nat, calls: seq<Call>): (r: Ring)
    requires k > 0 && CallsOk(calls)
    ensures |r.slots| == k && -1 <= r.link < k
  {
    if calls == [] then Start(k, size)
    else Step(Run(k, size, calls[..|calls| - 1]), calls[|calls| - 1])
  }

  /** The pictures dumped so far. */
  function History(size: nat, calls: seq<Call>): seq<Picture>
    requires CallsOk(calls)
  {
    if calls == [] then []
    else
      var past, fate := History(size, calls[..|calls| - 1]), FateOf(calls[|calls| - 1], size);
      if fate.Made? then past + [fate.picture] else past
  }

  /** A dump was given up, with its slot already written to, since the last picture was made. */
  predicate Spoiling(size: nat, calls: seq<Call>)
    requires CallsOk(calls)
  {
    calls != [] &&
    match FateOf(calls[|calls| - 1], size)
    case Made(_) => false
    case Spoilt => true
    case Skipped => Spoiling(size, calls[..|calls| - 1])
  }

  /** Slot `i` in ring order, from the one to be overwritten next. */
  function Place(r: Ring, i: int): int {
    if Ahead(r) + i < |r.slots| then Ahead(r) + i else Ahead(r) + i - |r.slots|
  }

  /** Number `i` of the `k` last pictures, none while there are fewer. */
  function Recent(past: seq<Picture>, k: nat, i: nat): Option<Picture>
    requires i < k
  {
    var at := |past| - k + i;
    if at < 0 then None else Some(past[at])
  }

  ghost predicate Holds(s: Slot, p: Option<Picture>)
    requires Readable(s)
  {
    if p.None? then Clean(s) else Shown(s) == p
  }

  ghost predicate Window(r: Ring, size: nat, past: seq<Picture>, spoilt: bool) {
    && RingOk(r, size)
    && (|past| <= |r.slots| ==> r.link == |past| - 1)
    && (exists laps: nat :: r.count + 1000 * laps == |past|)
    && forall i :: 0 <= i < |r.slots| ==>
         var p := Recent(past, |r.slots|, i);
         (i == 0 && spoilt && p.Some?) || Holds(r.slots[Place(r, i)], p)
  }

  lemma WindowStep(r: Ring, size: nat, past: seq<Picture>, spoilt: bool, c: Call)
    requires Window(r, size, past, spoilt) && CallOk(c)
    ensures match FateOf(c, size)
            case Skipped => Step(r, c) == r
            case Spoilt => Window(Step(r, c), size, past, true)
            case Made(p) => Window(Step(r, c), size, past + [p], false)
  {
    hide Readable, Shown, Clean, SlotAfter, FateOf;
    var k, at, t := |r.slots|, Ahead(r), Step(r, c);
    SlotKept(c, r.slots[at]);
    assert forall i :: 0 <= i < k && i != at ==> t.slots[i] == r.slots[i];
    assert Place(r, 0) == at;
    match FateOf(c, size)
    case Skipped =>
    case Spoilt =>
      forall i | 0 <= i < k
        ensures var p := Recent(past, k, i); (i == 0 && p.Some?) || Holds(t.slots[Place(t, i)], p)
      {
        assert Place(t, i) == Place(r, i);
      }
    case Made(p) =>
      MadeStep(r, size, past, spoilt, c, p);
  }

  lemma MadeStep(r: Ring, size: nat, past: seq<Picture>, spoilt: bool, c: Call, p: Picture)
    requires Window(r, size, past, spoilt) && CallOk(c) && FateOf(c, size) == Made(p)
    ensures Window(Step(r, c), size, past + [p], false)
  {
    hide Readable, Shown, Clean, SlotAfter, FateOf;
    var k, at, t := |r.slots|, Ahead(r), Step(r, c);
    SlotKept(c, r.slots[at]);
    var laps: nat :| r.count + 1000 * laps == |past|;
    assert t.count + 1000 * (if t.count == 0 then laps + 1 else laps) == |past + [p]|;
    forall i | 0 <= i < k ensures Holds(t.slots[Place(t, i)], Recent(past + [p], k, i)) {
      if i == k - 1 {
        assert Place(t, i) == at;
      } else {
        assert Place(t, i) == Place(r, i + 1) != at;
        assert Recent(past + [p], k, i) == Recent(past, k, i + 1);
      }
    }
  }

  /** After any run, the slots in ring order show the last k pictures, oldest first; only the one
      to be overwritten next can have been spoilt, by a dump given up since. */
  lemma {:induction false} LastDumps(k: nat, size: nat, calls: seq<Call>)
    requires k > 0 && CallsOk(calls)
    ensures Window(Run(k, size, calls), size, History(size, calls), Spoiling(size, calls))
  {
    if calls == [] {
      assert Start(k, size).count + 1000 * 0 == 0;
    } else {
      var before, last := calls[..|calls| - 1], calls[|calls| - 1];
      LastDumps(k, size, before);
      WindowStep(Run(k, size, before), size, History(size, before), Spoiling(size, before), last);
    }
  }

  /** The files that ending the dump writes, in slot order; a slot whose bo cannot be mapped is
      dropped. */
  function Files(slots: seq<Slot>, maps: seq<bool>): seq<Picture>
    requires |slots| <= |maps| && forall s :: s in slots ==> Readable(s)
  {
    if slots == [] then []
    else
      var n := |slots| - 1;
      var shown := Shown(slots[n]);
      Files(slots[..n], maps) + if maps[n] && shown.Some? then [shown.value] else []
  }

  /** The pictures of the slots that could be mapped. */
  function Picked(shown: seq<Picture>, maps: seq<bool>): seq<Picture>
    requires |shown| <= |maps|
  {
    if shown == [] then []
    else if maps[|shown| - 1] then Picked(shown[..|shown| - 1], maps) + [shown[|shown| - 1]]
    else Picked(shown[..|shown| - 1], maps)
  }

  lemma {:induction false} PickedAll(shown: seq<Picture>, maps: seq<bool>)
    requires |shown| <= |maps| && forall i :: 0 <= i < |shown| ==> maps[i]
    ensures Picked(shown, maps) == shown
  {
    if shown != [] {
      PickedAll(shown[..|shown| - 1], maps);
    }
  }

  lemma {:induction false} FilesAre(slots: seq<Slot>, maps: seq<bool>, shown: seq<Picture>)
    requires |slots| <= |maps| && forall s :: s in slots ==> Readable(s)
    requires |shown| <= |slots|
    requires forall i :: 0 <= i < |slots| ==>
               Shown(slots[i]) == if i < |shown| then Some(shown[i]) else None
    ensures Files(slots, maps) == Picked(shown, maps)
  {
    if slots != [] {
      var n := |slots| - 1;
      if |shown| == n + 1 {
        FilesAre(slots[..n], maps, shown[..n]);
      } else {
        FilesAre(slots[..n], maps, shown);
      }
    }
  }

  /** When no dump was given up on the way, ending writes exactly the last min(n, k) pictures, but
      for slots that cannot be mapped: all of them in order, or, once the ring has wrapped,
      rotated to where it stands. */
  lemma EndWritesLast(k: nat, size: nat, calls: seq<Call>, maps: seq<bool>)
    requires k > 0 && CallsOk(calls) && !Spoiling(size, calls) && |maps| == k
    ensures var r, past := Run(k, size, calls), History(size, calls);
            && (forall s :: s in r.slots ==> Readable(s))
            && |InSlots(r, past)| <= k
            && Files(r.slots, maps) == Picked(InSlots(r, past), maps)
            && ((forall i :: 0 <= i < k ==> maps[i]) ==> Files(r.slots, maps) == InSlots(r, past))
  {
    LastDumps(k, size, calls);
    var r, past := Run(k, size, calls), History(size, calls);
    SlotsInOrder(r, size, past);
    FilesAre(r.slots, maps, InSlots(r, past));
    if forall i :: 0 <= i < k ==> maps[i] {
      PickedAll(InSlots(r, past), maps);
    }
  }

  /** The last pictures, as they lie in the slots. */
  function InSlots(r: Ring, past: seq<Picture>): seq<Picture>
    requires 0 <= Ahead(r) < |r.slots|
  {
    var k, at := |r.slots|, Ahead(r);
    if |past| <= k then past
    else
      var last := past[|past| - k..];
      last[k - at..] + last[..k - at]
  }

  lemma SlotsInOrder(r: Ring, size: nat, past: seq<Picture>)
    requires Window(r, size, past, false)
    ensures var shown := InSlots(r, past);
            forall i :: 0 <= i < |r.slots| ==>
              Shown(r.slots[i]) == if i < |shown| then Some(shown[i]) else None
  {
    hide Readable, Shown;
    var k, at, shown := |r.slots|, Ahead(r), InSlots(r, past);
    forall i | 0 <= i < k ensures Shown(r.slots[i]) == if i < |shown| then Some(shown[i]) else None {
      var j := if i >= at then i - at else i - at + k;
      assert Place(r, j) == i;
      if |past| > k {
        assert shown[i] == past[|past| - k + j];
      }
      if Recent(past, k, j).None? {
        CleanShowsNothing(r.slots[i]);
      }
    }
  }

  lemma CleanShowsNothing(s: Slot)
    requires Readable(s) && Clean(s)
    ensures Shown(s) == None
  {
  }
}
