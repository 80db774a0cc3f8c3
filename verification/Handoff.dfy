/** Leaving boot services: the retry loop against firmware whose memory map may change at any
    moment, and the strided walk over the map it has copied out. */
module Handoff {
  import opened Machine
  import opened Text

  const PAGE: int := 4096
  const BUFFER_SIZE: nat := 128 * 1024
  const DESCRIPTOR_SIZE: nat := 40

  const EFI_SUCCESS: int := 0
  const EFI_INVALID_PARAMETER: int := 2
  const EFI_BUFFER_TOO_SMALL: int := 5
  const EFI_LOAD_ERROR: int := 21

  /** A descriptor; the firmware may append fields of its own. */
  datatype Descriptor = Descriptor(
    kind: Word32, pad: Word32, physical: Word64, virtual: Word64, pages: Word64, attribute: Word64,
    vendor: seq<Byte>)

  /** The memory types that count as memory for the kernel. */
  predicate Usable(kind: Word32) {
    kind == 7 || kind == 1 || kind == 2 || kind == 3 || kind == 4
  }

  /** The pages of the usable descriptors, as a plain sum. */
  function UsablePages(entries: seq<Descriptor>): nat {
    if entries == [] then 0
    else
      var last := entries[|entries| - 1];
      UsablePages(entries[..|entries| - 1]) + (if Usable(last.kind) then last.pages else 0)
  }

  /** The pages of the descriptors of one type. */
  function PagesOf(entries: seq<Descriptor>, kind: Word32): nat {
    if entries == [] then 0
    else
      var last := entries[|entries| - 1];
      PagesOf(entries[..|entries| - 1], kind) + (if last.kind == kind then last.pages else 0)
  }

  /** The usable pages are those of loader code and data, boot services code and data, and
      conventional memory, and each is counted once. */
  lemma {:induction false} UsableByType(entries: seq<Descriptor>)
    ensures UsablePages(entries)
         == PagesOf(entries, 1) + PagesOf(entries, 2) + PagesOf(entries, 3) + PagesOf(entries, 4) + PagesOf(entries, 7)
    decreases |entries|
  {
    if entries != [] {
      UsableByType(entries[..|entries| - 1]);
    }
  }

  /** The sum over the memory types that count, in bytes and modulo 2^64. */
  lemma MemoryByType(entries: seq<Descriptor>)
    ensures MemoryBytes(entries)
         == 4096 * (PagesOf(entries, 1) + PagesOf(entries, 2) + PagesOf(entries, 3) + PagesOf(entries, 4)
                    + PagesOf(entries, 7)) % 0x1_0000_0000_0000_0000
  {
    hide UsablePages;
    UsableByType(entries);
  }

  /** What the kernel is told, with the wrap-around of a 64-bit sum. */
  function MemoryBytes(entries: seq<Descriptor>): Word64 {
    (PAGE * UsablePages(entries)) % TWO_64
  }

  // ----- The map as bytes

  function Little32(b: seq<Byte>): Word32
    requires |b| == 4
  {
    var b1: int, b2: int, b3: int := b[1], b[2], b[3];
    b[0] + 0x100 * b1 + 0x1_0000 * b2 + 0x100_0000 * b3
  }

  function Bytes32(w: Word32): (b: seq<Byte>)
    ensures |b| == 4
  {
    [w % 0x100, w / 0x100 % 0x100, w / 0x1_0000 % 0x100, w / 0x100_0000]
  }

  function Little64(b: seq<Byte>): Word64
    requires |b| == 8
  {
    Little32(b[..4]) + 0x1_0000_0000 * Little32(b[4..])
  }

  function Bytes64(w: Word64): (b: seq<Byte>)
    ensures |b| == 8
  {
    Bytes32(w % 0x1_0000_0000) + Bytes32(w / 0x1_0000_0000)
  }

  lemma Little32Reads(w: Word32)
    ensures Little32(Bytes32(w)) == w
  {
    assert w / 0x1_0000 == w / 0x100 / 0x100 && w / 0x100_0000 == w / 0x1_0000 / 0x100;
  }

  lemma Little64Reads(w: Word64)
    ensures Little64(Bytes64(w)) == w
  {
    Little32Reads(w % 0x1_0000_0000);
    Little32Reads(w / 0x1_0000_0000);
    assert Bytes64(w)[..4] == Bytes32(w % 0x1_0000_0000);
    assert Bytes64(w)[4..] == Bytes32(w / 0x1_0000_0000);
  }

  /** Descriptors that all fill the firmware's descriptor size. */
  predicate Sized(entries: seq<Descriptor>, stride: nat) {
    stride >= DESCRIPTOR_SIZE && forall i :: 0 <= i < |entries| ==> DESCRIPTOR_SIZE + |entries[i].vendor| == stride
  }

  /** One descriptor as the firmware lays it out; it may be longer than the structure known here. */
  function Layout(d: Descriptor): (b: seq<Byte>)
    ensures |b| == DESCRIPTOR_SIZE + |d.vendor|
  {
    Bytes32(d.kind) + Bytes32(d.pad) + Bytes64(d.physical) + Bytes64(d.virtual)
    + Bytes64(d.pages) + Bytes64(d.attribute) + d.vendor
  }

  lemma LayoutReads(d: Descriptor)
    ensures Little32(Layout(d)[0..4]) == d.kind
    ensures Little64(Layout(d)[24..32]) == d.pages
  {
    Little32Reads(d.kind);
    Little64Reads(d.pages);
    assert Layout(d)[0..4] == Bytes32(d.kind);
    assert Layout(d)[24..32] == Bytes64(d.pages);
  }

  function LayoutMap(entries: seq<Descriptor>, stride: nat): (b: seq<Byte>)
    requires Sized(entries, stride)
    ensures |b| == |entries| * stride
  {
    if entries == [] then [] else
      var n := |entries| - 1;
      assert (n + 1) * stride == n * stride + stride;
      LayoutMap(entries[..n], stride) + Layout(entries[n])
  }

  lemma {:induction false} DescriptorAt(entries: seq<Descriptor>, stride: nat, i: nat)
    requires Sized(entries, stride) && i < |entries|
    ensures i * stride + stride <= |entries| * stride
    ensures LayoutMap(entries, stride)[i * stride..i * stride + stride] == Layout(entries[i])
    decreases |entries|
  {
    hide Layout;
    var n := |entries| - 1;
    var front := LayoutMap(entries[..n], stride);
    assert (n + 1) * stride == n * stride + stride;
    if i < n {
      DescriptorAt(entries[..n], stride, i);
      assert LayoutMap(entries, stride)[i * stride..i * stride + stride] == front[i * stride..i * stride + stride];
    }
  }

  // ----- Firmware

  /** A memory map, the key that stands for it, and the firmware's descriptor size. The reported
      size of the map need not be a multiple of that size: `slack` is what is left over. */
  datatype MapState = MapState(key: Word64, stride: nat, descriptors: seq<Descriptor>, slack: seq<Byte>)

  predicate ValidMap(m: MapState) {
    m.stride < TWO_64 && (m.stride > 0 ==> Sized(m.descriptors, m.stride) && |m.slack| < m.stride)
  }

  /** What happens just before a firmware call is served: nothing, a change of the memory map,
      or a failure of the call with some error of its own. */
  datatype Event = Quiet | Change(next: MapState) | Fail(status: int)

  predicate ValidEvent(e: Event) {
    && (e.Change? ==> ValidMap(e.next))
    && (e.Fail? ==> e.status != EFI_SUCCESS && e.status != EFI_INVALID_PARAMETER)
  }

  predicate ValidEvents(events: seq<Event>) {
    forall i :: 0 <= i < |events| ==> ValidEvent(events[i])
  }

  /** A key stands for one map: a change that keeps the key keeps the map. */
  predicate Keyed(current: MapState, events: seq<Event>)
    decreases |events|
  {
    events != [] ==>
      && (events[0].Change? && events[0].next.key == current.key ==> events[0].next == current)
      && Keyed(AfterEvent(current, events), events[1..])
  }

  /** How often the firmware will still change its map. */
  function Changes(events: seq<Event>): nat {
    if events == [] then 0 else (if events[0].Change? then 1 else 0) + Changes(events[1..])
  }

  /** A map that the loader's buffer can hold. */
  predicate Fits(m: MapState) {
    m.stride > 0 && |m.descriptors| * m.stride + |m.slack| <= BUFFER_SIZE
  }

  /** Firmware that serves every call, with maps the loader can hold. */
  predicate Cooperates(current: MapState, events: seq<Event>) {
    && Fits(current)
    && forall i :: 0 <= i < |events| ==> !events[i].Fail? && (events[i].Change? ==> Fits(events[i].next))
  }

  /** The map in force when the next call is served. A change to another map takes a new key. */
  function AfterEvent(current: MapState, events: seq<Event>): MapState {
    if events != [] && events[0].Change? then events[0].next else current
  }

  function Rest(events: seq<Event>): seq<Event> {
    if events == [] then [] else events[1..]
  }

  predicate Failing(events: seq<Event>) {
    events != [] && events[0].Fail?
  }

  class Firmware {
    var current: MapState
    /** Everything that will still happen; once it is used up, the map stays as it is. */
    var events: seq<Event>
    var exited: bool
    ghost var exitKey: Word64
    ghost var lastKey: Word64
    /** What the last call has reported. */
    ghost var lastStatus: int

    ghost predicate Valid()
      reads this
    {
      ValidMap(current) && ValidEvents(events) && Keyed(current, events)
    }

    constructor (current: MapState, events: seq<Event>)
      requires ValidMap(current) && ValidEvents(events) && Keyed(current, events)
      ensures Valid() && !exited && this.current == current && this.events == events
    {
      this.current := current;
      this.events := events;
      exited := false;
    }

    /** Copies the map in force into the buffer, or reports why it cannot. */
    method GetMemoryMap(buffer: array<Byte>) returns (status: int, size: nat, key: Word64, stride: nat)
      requires Valid() && buffer.Length == BUFFER_SIZE
      modifies this, buffer
      ensures Valid() && exited == old(exited) && exitKey == old(exitKey)
      ensures events == Rest(old(events)) && current == AfterEvent(old(current), old(events))
      ensures status == EFI_SUCCESS ==>
                && key == current.key == lastKey && stride == current.stride
                && (stride > 0 ==>
                      && size == |current.descriptors| * stride + |current.slack| <= BUFFER_SIZE
                      && buffer[..|current.descriptors| * stride] == LayoutMap(current.descriptors, stride))
      ensures lastStatus == status != EFI_INVALID_PARAMETER
      ensures status == if Failing(old(events)) then old(events)[0].status
                        else if current.stride == 0 || Fits(current) then EFI_SUCCESS else EFI_BUFFER_TOO_SMALL
    {
      hide LayoutMap, Changes;
      status, size, key, stride := EFI_SUCCESS, 0, 0, 0;
      var event := if events == [] then Quiet else events[0];
      events := if events == [] then [] else events[1..];
      match event {
        case Fail(s) =>
          lastStatus := s;
          return s, 0, 0, 0;
        case Change(m) => current := m;
        case Quiet =>
      }
      key, stride, lastKey, lastStatus := current.key, current.stride, current.key, EFI_SUCCESS;
      if stride == 0 {
        return;
      }
      var bytes := LayoutMap(current.descriptors, stride) + current.slack;
      if |bytes| > BUFFER_SIZE {
        status, lastStatus := EFI_BUFFER_TOO_SMALL, EFI_BUFFER_TOO_SMALL;
        return;
      }
      size := |bytes|;
      forall i | 0 <= i < |bytes| {
        buffer[i] := bytes[i];
      }
      assert buffer[..|current.descriptors| * stride] == bytes[..|current.descriptors| * stride];
    }

    /** Ends boot services if the key still stands for the map in force. */
    method ExitBootServices(key: Word64) returns (status: int)
      requires Valid() && !exited && key == current.key
      modifies this
      ensures Valid() && lastKey == old(lastKey)
      ensures events == Rest(old(events)) && current == AfterEvent(old(current), old(events))
      ensures lastStatus == status && (exited <==> status == EFI_SUCCESS)
      ensures status == if Failing(old(events)) then old(events)[0].status
                        else if key == current.key then EFI_SUCCESS else EFI_INVALID_PARAMETER
      ensures exited ==> current == old(current) && exitKey == key
    {
      var event := if events == [] then Quiet else events[0];
      events := if events == [] then [] else events[1..];
      match event {
        case Fail(s) =>
          lastStatus := s;
          return s;
        case Change(m) => current := m;
        case Quiet =>
      }
      if key != current.key {
        lastStatus := EFI_INVALID_PARAMETER;
        return EFI_INVALID_PARAMETER;
      }
      exited, exitKey, lastStatus := true, key, EFI_SUCCESS;
      return EFI_SUCCESS;
    }
  }

  // ----- How the handoff ends

  /** The end of the handoff and the map then in force: boot services are gone, or the loader gave
      up on a descriptor size of zero, or on an error of a firmware call. */
  datatype Outcome = Left(map_: MapState) | SizeZero(map_: MapState) | Failed(map_: MapState, status: int)

  /** The outcome as a function of the firmware's map and everything that will still happen to it:
      the first map that is still in force when the call that exits is served. */
  function OutcomeOf(current: MapState, events: seq<Event>): Outcome
    decreases |events|
  {
    var read := AfterEvent(current, events);
    var later := Rest(events);
    if Failing(events) then Failed(read, events[0].status)
    else if read.stride == 0 then SizeZero(read)
    else if !Fits(read) then Failed(read, EFI_BUFFER_TOO_SMALL)
    else if Failing(later) then Failed(read, later[0].status)
    else if AfterEvent(read, later).key == read.key then Left(read)
    else OutcomeOf(AfterEvent(read, later), Rest(later))
  }

  /** What the caller is told: a descriptor size of zero also reads as success. */
  function StatusOf(o: Outcome): int {
    if o.Failed? then o.status else EFI_SUCCESS
  }

  /** With nothing more to happen, the handoff depends on the map alone. */
  lemma QuietOutcome(current: MapState)
    ensures OutcomeOf(current, [])
         == if current.stride == 0 then SizeZero(current)
            else if |current.descriptors| * current.stride + |current.slack| <= 131072 then Left(current)
            else Failed(current, EFI_BUFFER_TOO_SMALL)
  {
  }

  /** Firmware that serves every call is always left, and with a map it has had. */
  lemma {:induction false} CooperativeIsLeft(current: MapState, events: seq<Event>)
    requires Cooperates(current, events)
    ensures OutcomeOf(current, events).Left?
    decreases |events|
  {
    var read, later := AfterEvent(current, events), Rest(events);
    if AfterEvent(read, later).key != read.key {
      assert forall i :: 0 <= i < |Rest(later)| ==> Rest(later)[i] == events[i + 2];
      CooperativeIsLeft(AfterEvent(read, later), Rest(later));
    }
  }

  /** Success without having left is the descriptor size zero, and nothing else. */
  lemma {:induction false} SuccessOrSizeZero(current: MapState, events: seq<Event>)
    requires ValidEvents(events)
    ensures var o := OutcomeOf(current, events);
            && (StatusOf(o) == EFI_SUCCESS <==> !o.Failed?) && StatusOf(o) != EFI_INVALID_PARAMETER
            && (!o.Failed? ==> (o.Left? <==> o.map_.stride > 0))
    decreases |events|
  {
    var read, later := AfterEvent(current, events), Rest(events);
    if !Failing(events) && Fits(read) && !Failing(later) && AfterEvent(read, later).key != read.key {
      assert forall i :: 0 <= i < |Rest(later)| ==> Rest(later)[i] == events[i + 2];
      SuccessOrSizeZero(AfterEvent(read, later), Rest(later));
    }
  }

  // ----- The walk

  lemma NoMemory(entries: seq<Descriptor>)
    ensures MemoryBytes(entries[..0]) == 0
  {
  }

  lemma {:induction false} ProductOrder(x: nat, y: nat, stride: nat)
    requires x < y
    ensures x * stride + stride <= y * stride
    decreases y
  {
    assert y * stride == (y - 1) * stride + stride;
    if x < y - 1 {
      ProductOrder(x, y - 1, stride);
    }
  }

  /** The number of rounds of the walk, whatever is left over behind the last descriptor. */
  lemma WholeDescriptors(n: nat, stride: nat, size: nat)
    requires stride > 0 && n * stride <= size < n * stride + stride
    ensures size / stride == n
  {
    var q := size / stride;
    QuotientBounds(size, stride);
    if q < n {
      ProductOrder(q, n, stride);
      assert false;
    } else if q > n {
      ProductOrder(n, q, stride);
      assert false;
    }
  }

  lemma QuotientBounds(size: nat, stride: nat)
    requires stride > 0
    ensures size / stride * stride <= size < size / stride * stride + stride
  {
  }

  /** The two fields the walk reads, at the cursor of descriptor `i`. */
  lemma {:induction false} DescriptorFields(
    buffer: seq<Byte>, entries: seq<Descriptor>, stride: nat, i: nat, cursor: nat)
    requires Sized(entries, stride) && i < |entries| && cursor == i * stride
    requires |entries| * stride <= |buffer| && buffer[..|entries| * stride] == LayoutMap(entries, stride)
    ensures cursor + DESCRIPTOR_SIZE <= |buffer|
    ensures Little32(buffer[cursor..cursor + 4]) == entries[i].kind
    ensures Little64(buffer[cursor + 24..cursor + 32]) == entries[i].pages
  {
    hide LayoutMap, Layout, Little32, Little64;
    DescriptorAt(entries, stride, i);
    LayoutReads(entries[i]);
    var size := |entries| * stride;
    SliceOfPrefix(buffer, size, cursor, stride, 0, 4);
    SliceOfPrefix(buffer, size, cursor, stride, 24, 32);
  }

  lemma SliceOfPrefix(buffer: seq<Byte>, size: nat, start: nat, length: nat, lo: nat, hi: nat)
    requires start + length <= size <= |buffer| && lo <= hi <= length
    ensures buffer[start + lo..start + hi] == buffer[..size][start..start + length][lo..hi]
  {
    SliceOfSlice(buffer[..size], start, start + length, lo, hi);
    SliceOfTake(buffer, size, start + lo, start + hi);
  }

  lemma SliceOfSlice(s: seq<Byte>, start: nat, end: nat, lo: nat, hi: nat)
    requires start <= end <= |s| && lo <= hi <= end - start
    ensures s[start..end][lo..hi] == s[start + lo..start + hi]
  {
    forall k | 0 <= k < hi - lo ensures s[start..end][lo..hi][k] == s[start + lo..start + hi][k] {
      assert s[start..end][lo + k] == s[start + lo + k];
    }
  }

  lemma SliceOfTake(s: seq<Byte>, size: nat, lo: nat, hi: nat)
    requires lo <= hi <= size <= |s|
    ensures s[..size][lo..hi] == s[lo..hi]
  {
  }

  /** Adding one descriptor modulo 2^64 is adding it to the plain sum. */
  lemma SumStep(entries: seq<Descriptor>, i: nat)
    requires i < |entries|
    ensures MemoryBytes(entries[..i + 1]) ==
            if Usable(entries[i].kind) then (MemoryBytes(entries[..i]) + entries[i].pages * PAGE % TWO_64) % TWO_64
            else MemoryBytes(entries[..i])
  {
    assert entries[..i + 1][..i] == entries[..i];
    var sum, pages := UsablePages(entries[..i]), entries[i].pages;
    if Usable(entries[i].kind) {
      ModuloAdds(PAGE * sum, PAGE * pages);
      assert PAGE * (sum + pages) == PAGE * sum + PAGE * pages;
    }
  }

  lemma ModuloAdds(a: nat, b: nat)
    ensures (a % TWO_64 + b % TWO_64) % TWO_64 == (a + b) % TWO_64
  {
  }

  // ----- The loader

  /** How one round of the retry loop ends. */
  datatype Attempt = Retry | GaveUp | Exited(total: Word64)

  class BootInfo {
    var memoryBytes: Word64
    var rsdp: Word64
  }

  class Loader {
    var bootServices: Firmware?

    /** Reads the 32-bit type of a descriptor in the buffer. */
    method ReadKind(buffer: array<Byte>, cursor: nat) returns (kind: Word32)
      requires cursor + 4 <= buffer.Length
      ensures kind == Little32(buffer[cursor..cursor + 4])
    {
      kind := Little32(buffer[cursor..cursor + 4]);
    }

    method ReadPages(buffer: array<Byte>, cursor: nat) returns (pages: Word64)
      requires cursor + 32 <= buffer.Length
      ensures pages == Little64(buffer[cursor + 24..cursor + 32])
    {
      pages := Little64(buffer[cursor + 24..cursor + 32]);
    }

    /** Walks the copied map with the firmware's stride. Every read lies inside the buffer. */
    method SumMemory(buffer: array<Byte>, size: nat, stride: nat, ghost entries: seq<Descriptor>)
      returns (total: Word64)
      requires buffer.Length == BUFFER_SIZE && Sized(entries, stride)
      requires |entries| == size / stride && |entries| * stride <= size <= BUFFER_SIZE
      requires buffer[..|entries| * stride] == LayoutMap(entries, stride)
      ensures total == MemoryBytes(entries)
      ensures total == 4096 * (PagesOf(entries, 1) + PagesOf(entries, 2) + PagesOf(entries, 3) + PagesOf(entries, 4)
                               + PagesOf(entries, 7)) % 0x1_0000_0000_0000_0000
    {
      hide PagesOf;
      MemoryByType(entries);
      hide LayoutMap, Little32, Little64, UsablePages, MemoryBytes;
      total := 0;
      NoMemory(entries);
      var cursor, i := 0, 0;
      while i < size / stride
        invariant i <= |entries| == size / stride && cursor == i * stride
        invariant total == MemoryBytes(entries[..i])
      {
        DescriptorFields(buffer[..], entries, stride, i, cursor);
        var kind := ReadKind(buffer, cursor);
        if kind == 7 || kind == 1 || kind == 2 || kind == 3 || kind == 4 {
          var pages := ReadPages(buffer, cursor);
          total := (total + pages * PAGE % TWO_64) % TWO_64;
        }
        SumStep(entries, i);
        cursor := cursor + stride;
        i := i + 1;
      }
      assert entries[..i] == entries;
    }

    /** One round of the retry loop: read the map, add it up, try to exit. It asks for another round
        only after a change of the map, and then the outcome is still the same. */
    method TryExit(firmware: Firmware, buffer: array<Byte>) returns (status: int, end: Attempt)
      requires firmware.Valid() && !firmware.exited && buffer.Length == BUFFER_SIZE
      modifies firmware, buffer
      ensures firmware.Valid() && (firmware.exited <==> end.Exited?)
      ensures end.Retry? ==>
                && Changes(firmware.events) < old(Changes(firmware.events))
                && OutcomeOf(firmware.current, firmware.events) == old(OutcomeOf(firmware.current, firmware.events))
      ensures !end.Retry? ==>
                var o := old(OutcomeOf(firmware.current, firmware.events));
                && status == StatusOf(o) == firmware.lastStatus
                && (end.Exited? <==> o.Left?) && (!o.Failed? ==> firmware.current == o.map_)
      ensures end.Exited? ==>
                && end.total == MemoryBytes(firmware.current.descriptors)
                && firmware.exitKey == firmware.lastKey == firmware.current.key
    {
      hide Sized, LayoutMap, MemoryBytes;
      var size, key, stride;
      status, size, key, stride := firmware.GetMemoryMap(buffer);
      if status != EFI_SUCCESS || stride == 0 {
        return status, GaveUp;
      }
      WholeDescriptors(|firmware.current.descriptors|, stride, size);
      var total := SumMemory(buffer, size, stride, firmware.current.descriptors);
      status := firmware.ExitBootServices(key);
      end := if status == EFI_SUCCESS then Exited(total)
             else if status == EFI_INVALID_PARAMETER then Retry else GaveUp;
    }

    /** The handoff. Its outcome is that of the firmware: boot services are left exactly with the
        first map that is still in force at the exit, and then this map is what the kernel is told
        about; on any other end the loader and the boot information are as they were. */
    method LeaveBootServices(bootInfo: BootInfo) returns (status: int, ghost rounds: nat)
      requires bootServices != null ==> bootServices.Valid() && !bootServices.exited
      modifies this, bootInfo, bootServices
      ensures old(bootServices) == null ==> status == EFI_LOAD_ERROR && bootServices == null
      ensures old(bootServices) != null ==>
                var o := old(OutcomeOf(bootServices.current, bootServices.events));
                && status == StatusOf(o) == old(bootServices).lastStatus
                && (old(bootServices).exited <==> o.Left?)
                && (!o.Failed? ==> old(bootServices).current == o.map_)
      ensures old(bootServices) != null && old(bootServices).exited ==>
                && bootServices == null
                && var entries := old(bootServices).current.descriptors;
                && bootInfo.memoryBytes
                   == 4096 * (PagesOf(entries, 1) + PagesOf(entries, 2) + PagesOf(entries, 3) + PagesOf(entries, 4)
                              + PagesOf(entries, 7)) % 0x1_0000_0000_0000_0000
                && old(bootServices).exitKey == old(bootServices).lastKey == old(bootServices).current.key
      ensures old(bootServices) == null || !old(bootServices).exited ==>
                bootServices == old(bootServices) && bootInfo.memoryBytes == old(bootInfo.memoryBytes)
      ensures bootInfo.rsdp == old(bootInfo.rsdp)
      ensures old(bootServices) != null && status == EFI_SUCCESS ==>
                (old(bootServices).exited <==> old(bootServices).current.stride > 0)
      ensures old(bootServices != null && bootServices.events == [] && bootServices.current.stride == 0) ==>
                status == EFI_SUCCESS && !old(bootServices).exited
      ensures old(bootServices != null && Cooperates(bootServices.current, bootServices.events)) ==>
                status == EFI_SUCCESS && old(bootServices).exited
      ensures old(bootServices) != null ==>
                status != EFI_INVALID_PARAMETER && rounds <= 1 + old(Changes(bootServices.events))
    {
      hide OutcomeOf, MemoryBytes, PagesOf;
      rounds := 0;
      if bootServices == null {
        status := EFI_LOAD_ERROR;
        return;
      }
      var firmware: Firmware := bootServices;
      SuccessOrSizeZero(firmware.current, firmware.events);
      QuietOutcome(firmware.current);
      if Cooperates(firmware.current, firmware.events) {
        CooperativeIsLeft(firmware.current, firmware.events);
      }
      var buffer := new Byte[BUFFER_SIZE];
      while true
        invariant firmware.Valid() && !firmware.exited && bootServices == firmware == old(bootServices)
        invariant bootInfo.memoryBytes == old(bootInfo.memoryBytes) && bootInfo.rsdp == old(bootInfo.rsdp)
        invariant rounds + Changes(firmware.events) <= old(Changes(bootServices.events))
        invariant OutcomeOf(firmware.current, firmware.events)
               == old(OutcomeOf(bootServices.current, bootServices.events))
        decreases Changes(firmware.events)
      {
        rounds := rounds + 1;
        var end;
        status, end := TryExit(firmware, buffer);
        match end {
          case Exited(total) =>
            MemoryByType(firmware.current.descriptors);
            bootInfo.memoryBytes := total;
            bootServices := null;
            return;
          case GaveUp => return;
          case Retry =>
        }
      }
    }
  }

  /** Firmware that reports a descriptor size of zero: the loader is told of success, and yet boot
      services are still there. */
  method SizeZeroIsNotLeft(key: Word64, bootInfo: BootInfo) returns (status: int, left: bool)
    modifies bootInfo
    ensures status == EFI_SUCCESS && !left && bootInfo.memoryBytes == old(bootInfo.memoryBytes)
  {
    var firmware := new Firmware(MapState(key, 0, [], []), []);
    var loader := new Loader;
    loader.bootServices := firmware;
    ghost var rounds;
    status, rounds := loader.LeaveBootServices(bootInfo);
    left := firmware.exited;
  }
}
