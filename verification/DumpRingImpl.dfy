/** The dump ring in place: slots linked into a circular list, each with a bo that planes are
    copied into byte by byte, and a cursor into the list. */
module DumpRings {
  import opened Common
  import opened Rings
  import DumpSpec

  type Byte = DumpSpec.Byte

  class BufInfo {
    const bo: array<Byte>
    var info: DumpSpec.Info
    var dirty: bool
    var dirtyShm: bool
    var shmStride: nat
    var shmH: nat

    ghost function Contents(): DumpSpec.Slot
      reads this, bo
    {
      DumpSpec.Slot(bo[..], info, dirty, dirtyShm, shmStride, shmH)
    }

    constructor (size: nat)
      ensures Contents() == DumpSpec.EmptySlot(size) && fresh(bo)
    {
      bo := new Byte[size](_ => 0);
      info := DumpSpec.ZeroInfo;
      dirty, dirtyShm, shmStride, shmH := false, false, 0, 0;
      new;
      assert bo[..] == DumpSpec.Zeros(size);
    }

    /** The copying part of `tbm_surface_internal_dump_buffer`. */
    method Dump(m: DumpSpec.Mapped, boMaps: bool) returns (made: bool)
      requires DumpSpec.Consistent(m) && m.info.size <= bo.Length
      modifies this, bo
      ensures Contents() == DumpSpec.SlotAfter(DumpSpec.Buffer(Some(m), boMaps), old(Contents()))
      ensures made == DumpSpec.FateOf(DumpSpec.Buffer(Some(m), boMaps), bo.Length).Made?
    {
      info := m.info;
      if !boMaps {
        return false;
      }
      Memset();
      made := CopyPlanes(m);
      if made {
        dirty, dirtyShm := true, false;
      }
    }

    method CopyPlanes(m: DumpSpec.Mapped) returns (ok: bool)
      requires DumpSpec.Consistent(m) && m.info.size <= bo.Length && bo[..] == DumpSpec.Zeros(bo.Length)
      modifies bo
      ensures ok == (m.info.format != DumpSpec.Other)
      ensures !ok ==> bo[..] == old(bo[..])
      ensures ok ==>
        |DumpSpec.Copied(m)| <= bo.Length && bo[..] == DumpSpec.Filled(bo.Length, DumpSpec.Copied(m))
    {
      hide DumpSpec.Filled, DumpSpec.Zeros, DumpSpec.Consistent;
      Extents(m);
      var i := m.info;
      var luma, chroma1, chroma2 :=
        i.stride0 * i.height, i.stride1 * (i.height / 2), i.stride2 * (i.height / 2);
      ok := i.format != DumpSpec.Other;
      match i.format
      case Argb8888 | Xrgb8888 =>
        Memcpy(0, m.plane0, i.size, []);
      case Yvu420 | Yuv420 =>
        Memcpy(0, m.plane0, luma, []);
        Memcpy(luma, m.plane1, chroma1, m.plane0[..luma]);
        Memcpy(luma + chroma1, m.plane2, chroma2, m.plane0[..luma] + m.plane1[..chroma1]);
      case Nv12 | Nv21 =>
        Memcpy(0, m.plane0, luma, []);
        Memcpy(luma, m.plane1, chroma1, m.plane0[..luma]);
      case Yuyv | Uyvy =>
        Memcpy(0, m.plane0, luma, []);
      case Other =>
    }

    /** The planes a format has lie within the surface. */
    lemma Extents(m: DumpSpec.Mapped)
      requires DumpSpec.Consistent(m)
      ensures DumpSpec.Zeros(bo.Length) == DumpSpec.Filled(bo.Length, [])
      ensures forall s: seq<Byte> :: [] + s == s
      ensures var i := m.info;
              var luma, chroma1, chroma2 :=
                i.stride0 * i.height, i.stride1 * (i.height / 2), i.stride2 * (i.height / 2);
              && (DumpSpec.Rgb(i.format) ==> i.size <= |m.plane0|)
              && (i.format != DumpSpec.Other && !DumpSpec.Rgb(i.format) ==> luma <= |m.plane0| && luma <= i.size)
              && (DumpSpec.Planar(i.format) || DumpSpec.SemiPlanar(i.format) ==>
                    chroma1 <= |m.plane1| && luma + chroma1 <= i.size)
              && (DumpSpec.Planar(i.format) ==> chroma2 <= |m.plane2| && luma + chroma1 + chroma2 <= i.size)
    {
    }

    /** The copying part of `tbm_surface_internal_dump_shm_buffer`. */
    method DumpShm(bytes: seq<Byte>, w: int, h: nat, stride: nat)
      requires w > 0 && h > 0 && stride > 0
      requires stride * h <= |bytes| && stride * h <= bo.Length
      modifies this, bo
      ensures Contents() == DumpSpec.SlotAfter(DumpSpec.Shm(bytes, w, h, stride, true), old(Contents()))
    {
      Memset();
      info := DumpSpec.ZeroInfo;
      Memcpy(0, bytes, stride * h, []);
      dirty, dirtyShm := false, true;
      shmStride, shmH := stride, h;
    }

    /** What `tbm_surface_internal_dump_end` makes of the slot. */
    method MakeFile() returns (file: Option<DumpSpec.Picture>)
      requires DumpSpec.Readable(Contents())
      ensures file == DumpSpec.Shown(Contents())
    {
      file := None;
      if dirty {
        var ptr1 := info.stride0 * info.height;
        var ptr2 := ptr1 + info.stride1 * (info.height / 2);
        var end := ptr2 + info.stride2 * (info.height / 2);
        match info.format
        case Argb8888 | Xrgb8888 =>
          file := Some(DumpSpec.Image(bo[..], info.stride0, info.height));
        case Yvu420 | Yuv420 =>
          file := Some(DumpSpec.Raw([bo[..ptr1], bo[ptr1..ptr2], bo[ptr2..end]]));
        case Nv12 | Nv21 =>
          file := Some(DumpSpec.Raw([bo[..ptr1], bo[ptr1..ptr2]]));
        case Yuyv | Uyvy =>
          file := Some(DumpSpec.Raw([bo[..ptr1]]));
        case Other =>
      } else if dirtyShm {
        file := Some(DumpSpec.Image(bo[..], shmStride, shmH));
      }
    }

    method Memset()
      modifies bo
      ensures bo[..] == DumpSpec.Zeros(bo.Length) == DumpSpec.Filled(bo.Length, [])
    {
      forall i | 0 <= i < bo.Length {
        bo[i] := 0;
      }
    }

    /** Copies to a bo that is still clear from `at` on. */
    method Memcpy(at: nat, bytes: seq<Byte>, n: nat, ghost done: seq<Byte>)
      requires n <= |bytes| && at + n <= bo.Length
      requires at == |done| && bo[..] == DumpSpec.Filled(bo.Length, done)
      modifies bo
      ensures bo[..] == DumpSpec.Filled(bo.Length, done + bytes[..n])
    {
      forall i | 0 <= i < n {
        bo[at + i] := bytes[i];
      }
      assert forall i :: 0 <= i < bo.Length ==> old(bo[..])[i] == (if i < at then done[i] else 0);
    }
  }

  datatype Addr = Head | Link(index: nat)

  function Items(from: nat, k: nat): (r: seq<Addr>)
    requires from <= k
  {
    seq(k - from, i requires 0 <= i < k - from => Link(from + i))
  }

  class DumpInfo {
    var running: bool
    var slots: seq<BufInfo>
    const mem: Memory<Addr>
    var link: Addr
    var count: nat
    ghost var size: nat
    ghost var ring: DumpSpec.Ring

    ghost function Bos(): set<array<Byte>>
      reads this, slots
    {
      set b | b in slots :: b.bo
    }

    ghost predicate Valid()
      reads this, mem, slots, Bos()
    {
      running ==> Linked() && forall i :: 0 <= i < |slots| ==> slots[i].Contents() == ring.slots[i]
    }

    ghost predicate Linked()
      reads this, mem
    {
      && (forall i, j :: 0 <= i < j < |slots| ==> slots[i] != slots[j] && slots[i].bo != slots[j].bo)
      && Ring(mem.links, Head, Items(0, |slots|))
      && |ring.slots| == |slots| && count == ring.count && DumpSpec.RingOk(ring, size)
      && link == if ring.link < 0 then Head else Link(ring.link)
    }

    /** No dump runs at first. */
    constructor ()
      ensures Valid() && !running
    {
      running, slots, link, count := false, [], Head, 0;
      mem := new Memory();
      size, ring := 0, DumpSpec.Start(0, 0);
    }

    /** The slot a dump goes to: `link->next`, or the one after if that is the list head. */
    method NextLink() returns (next: Addr)
      requires running && Valid()
      ensures next == Link(DumpSpec.Ahead(ring)) && 0 <= DumpSpec.Ahead(ring) < |slots|
    {
      assert ring.link >= 0 ==> Items(0, |slots|)[ring.link] == link;
      next := Next(mem.links, link);
      if next == Head {
        next := Next(mem.links, next);
      }
    }

    /** `tbm_surface_internal_dump_start`: `n` bos of `bufferSize` bytes. */
    method DumpStart(n: int, bufferSize: nat, allocs: seq<bool>)
      requires Valid() && n <= |allocs|
      modifies this, mem
      ensures Valid()
      ensures old(running) ==> running && slots == old(slots) && ring == old(ring) && size == old(size)
      ensures !old(running) ==> (running <==> n > 0 && forall i :: 0 <= i < n ==> allocs[i])
      ensures !old(running) && running ==> ring == DumpSpec.Start(n, size) && size == bufferSize
    {
      hide Ring, Items;
      if running || n <= 0 {
        return;
      }
      slots := [];
      mem.ListInitHead(Head);
      NoneYet(old(mem.links));
      var i := 0;
      while i < n
        invariant 0 <= i <= n && i == |slots| && !running
        invariant Ring(mem.links, Head, Items(0, i))
        invariant forall j :: 0 <= j < i ==> allocs[j]
        invariant forall j :: 0 <= j < i ==> fresh(slots[j]) && fresh(slots[j].bo)
        invariant forall j, l :: 0 <= j < l < i ==> slots[j] != slots[l] && slots[j].bo != slots[l].bo
        invariant forall j :: 0 <= j < i ==> slots[j].Contents() == DumpSpec.EmptySlot(bufferSize)
      {
        if !allocs[i] {
          var _ := Unlink();
          return;
        }
        var bufInfo := new BufInfo(bufferSize);
        AddLast(mem.links, i);
        mem.ListAddTail(Link(i), Head);
        slots := slots + [bufInfo];
        i := i + 1;
      }
      link, count, running := Head, 0, true;
      size, ring := bufferSize, DumpSpec.Start(n, bufferSize);
    }

    /** The end of a dump that wrote to its slot. */
    method Record(ghost call: DumpSpec.Call, next: Addr, made: bool)
      requires running && Linked() && DumpSpec.CallOk(call) && next == Link(DumpSpec.Ahead(ring))
      requires made == DumpSpec.FateOf(call, size).Made?
      requires forall i :: 0 <= i < |slots| ==>
        slots[i].Contents() == if i == next.index then DumpSpec.SlotAfter(call, ring.slots[i]) else ring.slots[i]
      modifies this`link, this`count, this`ring
      ensures Valid() && ring == DumpSpec.Step(old(ring), call)
    {
      hide Ring, DumpSpec.SlotAfter, DumpSpec.Readable, DumpSpec.FateOf;
      DumpSpec.StepKept(ring, size, call);
      if made {
        count := count + 1;
        if count == 1000 {
          count := 0;
        }
        link := next;
      }
      ring := DumpSpec.Step(ring, call);
    }

    /** `tbm_surface_internal_dump_buffer`; the surface is absent when it cannot be mapped. */
    method DumpBuffer(surface: Option<DumpSpec.Mapped>, boMaps: bool)
      requires Valid() && DumpSpec.CallOk(DumpSpec.Buffer(surface, boMaps))
      modifies this`link, this`count, this`ring, slots, Bos()
      ensures Valid() && size == old(size)
      ensures ring == if running then DumpSpec.Step(old(ring), DumpSpec.Buffer(surface, boMaps)) else old(ring)
    {
      hide Ring, DumpSpec.SlotAfter, DumpSpec.Readable, DumpSpec.Consistent, DumpSpec.FateOf;
      if !running {
        return;
      }
      var next := NextLink();
      var bufInfo := slots[next.index];
      DumpSpec.StepKept(ring, size, DumpSpec.Buffer(surface, boMaps));
      if surface.None? || surface.value.info.size > bufInfo.bo.Length {
        return;
      }
      var made := bufInfo.Dump(surface.value, boMaps);
      Record(DumpSpec.Buffer(surface, boMaps), next, made);
    }

    /** `tbm_surface_internal_dump_shm_buffer`. */
    method DumpShmBuffer(bytes: seq<Byte>, w: int, h: int, stride: int, boMaps: bool)
      requires Valid() && DumpSpec.CallOk(DumpSpec.Shm(bytes, w, h, stride, boMaps))
      modifies this`link, this`count, this`ring, slots, Bos()
      ensures Valid() && size == old(size)
      ensures ring == if running then DumpSpec.Step(old(ring), DumpSpec.Shm(bytes, w, h, stride, boMaps)) else old(ring)
    {
      hide Ring, DumpSpec.SlotAfter, DumpSpec.Readable, DumpSpec.Consistent, DumpSpec.FateOf;
      if !running {
        return;
      }
      DumpSpec.StepKept(ring, size, DumpSpec.Shm(bytes, w, h, stride, boMaps));
      if w <= 0 || h <= 0 || stride <= 0 {
        return;
      }
      var next := NextLink();
      var bufInfo := slots[next.index];
      if stride * h > bufInfo.bo.Length || !boMaps {
        return;
      }
      bufInfo.DumpShm(bytes, w, h, stride);
      Record(DumpSpec.Shm(bytes, w, h, stride, boMaps), next, true);
    }

    /** `tbm_surface_internal_dump_end`: writes the files, and gives up every bo once. */
    method DumpEnd(maps: seq<bool>) returns (files: seq<DumpSpec.Picture>, released: nat)
      requires Valid() && |slots| <= |maps|
      modifies this`running, mem
      ensures !running && released == if old(running) then |slots| else 0
      ensures old(running) ==>
        (forall s :: s in ring.slots ==> DumpSpec.Readable(s)) && files == DumpSpec.Files(ring.slots, maps)
      ensures !old(running) ==> files == []
    {
      files, released := [], 0;
      if !running {
        return;
      }
      var k := |slots|;
      var cur := Next(mem.links, Head);
      var after := Next(mem.links, cur);
      while cur != Head
        invariant released <= k
        invariant Ring(mem.links, Head, Items(released, k))
        invariant cur == At(Head, Items(released, k), 1)
        invariant after == Next(mem.links, cur)
        invariant files == DumpSpec.Files(ring.slots[..released], maps)
        decreases k - released
      {
        if maps[cur.index] {
          var file := slots[cur.index].MakeFile();
          if file.Some? {
            files := files + [file.value];
          }
        }
        assert ring.slots[..released + 1][..released] == ring.slots[..released];
        DropFirst(mem.links, released, k);
        mem.ListDel(cur);
        released := released + 1;
        cur, after := after, Next(mem.links, after);
      }
      assert ring.slots[..released] == ring.slots;
      running := false;
    }

    /** Unlinks every slot, as starting a dump does when a bo cannot be allocated. */
    method Unlink() returns (released: nat)
      requires Ring(mem.links, Head, Items(0, |slots|))
      modifies mem
      ensures released == |slots| && Ring(mem.links, Head, [])
    {
      released := 0;
      var k := |slots|;
      var cur := Next(mem.links, Head);
      var after := Next(mem.links, cur);
      while cur != Head
        invariant released <= k
        invariant Ring(mem.links, Head, Items(released, k))
        invariant cur == At(Head, Items(released, k), 1)
        invariant after == Next(mem.links, cur)
        decreases k - released
      {
        DropFirst(mem.links, released, k);
        mem.ListDel(cur);
        released := released + 1;
        cur, after := after, Next(mem.links, after);
      }
    }
  }

  lemma NoneYet(m: Links<Addr>)
    ensures Ring(InitHead(m, Head), Head, Items(0, 0))
  {
    InitRing(m, Head);
  }

  lemma AddLast(m: Links<Addr>, k: nat)
    requires Ring(m, Head, Items(0, k))
    ensures Ring(AddTail(m, Link(k), Head), Head, Items(0, k + 1))
  {
    AddTailRing(m, Link(k), Head, Items(0, k));
    assert Items(0, k + 1) == Items(0, k) + [Link(k)];
  }

  lemma DropFirst(m: Links<Addr>, from: nat, k: nat)
    requires from < k && Ring(m, Head, Items(from, k))
    ensures Ring(Del(m, Link(from)), Head, Items(from + 1, k))
    ensures Next(m, Link(from)) == At(Head, Items(from + 1, k), 1)
  {
    var s := Items(from, k);
    DelRing(m, Head, s, 0);
    assert s[0] == Link(from) && s[..0] + s[1..] == Items(from + 1, k);
  }
}
