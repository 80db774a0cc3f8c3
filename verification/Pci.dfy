/** PCI configuration space: the packed address, the byte lanes of a read, and the ordered search
    for a device class. Eight-bit values are 32-bit vectors below 256, as the code widens them. */
module Pci {

  /** What reading the data port gives for an address written to the address port. */
  type Space = bv32 -> bv32

  /** `pci_config_address`. */
  function Address(bus: bv32, device: bv32, number: bv32, offset: bv32): bv32 {
    0x8000_0000 | (bus << 16) | (device << 11) | (number << 8) | (offset & 0xFC)
  }

  predicate InRange(bus: bv32, device: bv32, number: bv32) {
    bus < 256 && device < 32 && number < 8
  }

  function Read32(space: Space, bus: bv32, device: bv32, number: bv32, offset: bv32): bv32 {
    space(Address(bus, device, number, offset))
  }

  /** The cast to 16 bits of a dword shifted to the word of an offset. */
  function WordAt(value: bv32, offset: bv32): bv32 {
    (value >> ((offset & 0x2) * 8)) & 0xFFFF
  }

  function ByteAt(value: bv32, offset: bv32): bv32 {
    (value >> ((offset & 0x3) * 8)) & 0xFF
  }

  function Read16(space: Space, bus: bv32, device: bv32, number: bv32, offset: bv32): bv32 {
    WordAt(Read32(space, bus, device, number, offset), offset)
  }

  function Read8(space: Space, bus: bv32, device: bv32, number: bv32, offset: bv32): bv32 {
    ByteAt(Read32(space, bus, device, number, offset), offset)
  }

  // ----- The packed address

  function BusOf(address: bv32): bv32 {
    (address >> 16) & 0xFF
  }

  function DeviceOf(address: bv32): bv32 {
    (address >> 11) & 0x1F
  }

  function FunctionOf(address: bv32): bv32 {
    (address >> 8) & 0x7
  }

  function DwordOf(address: bv32): bv32 {
    address & 0xFC
  }

  /** The address holds the four coordinates in their fields, the enable bit is set, and every other
      bit is clear. */
  lemma AddressFields(bus: bv32, device: bv32, number: bv32, offset: bv32)
    requires InRange(bus, device, number) && offset < 256
    ensures var a := Address(bus, device, number, offset);
            && BusOf(a) == bus && DeviceOf(a) == device && FunctionOf(a) == number && DwordOf(a) == DwordOf(offset)
            && a & 0x8000_0000 == 0x8000_0000 && a & 0x7F00_0003 == 0
  {
  }

  lemma AddressOfDword(bus: bv32, device: bv32, number: bv32, o: bv32, o': bv32)
    requires DwordOf(o) == DwordOf(o')
    ensures Address(bus, device, number, o) == Address(bus, device, number, o')
  {
  }

  /** Different functions, or different dwords of one function, never share an address. */
  lemma AddressIsInjective(b: bv32, d: bv32, f: bv32, o: bv32, b': bv32, d': bv32, f': bv32, o': bv32)
    requires InRange(b, d, f) && InRange(b', d', f') && o < 256 && o' < 256
    ensures Address(b, d, f, o) == Address(b', d', f', o')
       <==> b == b' && d == d' && f == f' && DwordOf(o) == DwordOf(o')
  {
    hide Address, BusOf, DeviceOf, FunctionOf, DwordOf;
    AddressFields(b, d, f, o);
    AddressFields(b', d', f', o');
    if b == b' && d == d' && f == f' && DwordOf(o) == DwordOf(o') {
      AddressOfDword(b, d, f, o, o');
    }
  }

  // ----- The lanes of a read

  /** A dword whose bytes, lowest address first, are these. */
  function Dword(b0: bv32, b1: bv32, b2: bv32, b3: bv32): bv32 {
    b0 | (b1 << 8) | (b2 << 16) | (b3 << 24)
  }

  predicate AreBytes(b0: bv32, b1: bv32, b2: bv32, b3: bv32) {
    b0 < 256 && b1 < 256 && b2 < 256 && b3 < 256
  }

  lemma LanesOfDword(b0: bv32, b1: bv32, b2: bv32, b3: bv32)
    requires AreBytes(b0, b1, b2, b3)
    ensures ByteAt(Dword(b0, b1, b2, b3), 0) == b0 && ByteAt(Dword(b0, b1, b2, b3), 1) == b1
    ensures ByteAt(Dword(b0, b1, b2, b3), 2) == b2 && ByteAt(Dword(b0, b1, b2, b3), 3) == b3
  {
  }

  lemma PairsOfDword(b0: bv32, b1: bv32, b2: bv32, b3: bv32)
    requires AreBytes(b0, b1, b2, b3)
    ensures WordAt(Dword(b0, b1, b2, b3), 0) == b0 | (b1 << 8)
    ensures WordAt(Dword(b0, b1, b2, b3), 2) == b2 | (b3 << 8)
  {
  }

  lemma LaneIsOneOf(lane: bv32)
    requires lane < 4
    ensures lane == 0 || lane == 1 || lane == 2 || lane == 3
  {
  }

  lemma LaneOfOffset(value: bv32, dword: bv32, lane: bv32)
    requires dword & 0x3 == 0 && lane < 4
    ensures ByteAt(value, dword | lane) == ByteAt(value, lane)
    ensures WordAt(value, dword | lane) == WordAt(value, if lane < 2 then 0 else 2)
  {
  }

  lemma SameDword(space: Space, bus: bv32, device: bv32, number: bv32, dword: bv32, lane: bv32)
    requires lane < 4
    ensures Read32(space, bus, device, number, dword | lane) == Read32(space, bus, device, number, dword)
  {
  }

  /** Byte reads take the byte at their offset. */
  lemma ByteReadIsLane(space: Space, bus: bv32, device: bv32, number: bv32, dword: bv32, lane: bv32,
                       b0: bv32, b1: bv32, b2: bv32, b3: bv32)
    requires AreBytes(b0, b1, b2, b3) && dword & 0x3 == 0 && lane < 4
    requires Read32(space, bus, device, number, dword) == Dword(b0, b1, b2, b3)
    ensures Read8(space, bus, device, number, dword | lane)
         == if lane == 0 then b0 else if lane == 1 then b1 else if lane == 2 then b2 else b3
  {
    hide Read32, Dword, ByteAt, WordAt;
    SameDword(space, bus, device, number, dword, lane);
    LaneOfOffset(Dword(b0, b1, b2, b3), dword, lane);
    LaneIsOneOf(lane);
    LanesOfDword(b0, b1, b2, b3);
  }

  /** Word reads take the aligned pair of bytes around their offset. */
  lemma WordReadIsPair(space: Space, bus: bv32, device: bv32, number: bv32, dword: bv32, lane: bv32,
                       b0: bv32, b1: bv32, b2: bv32, b3: bv32)
    requires AreBytes(b0, b1, b2, b3) && dword & 0x3 == 0 && lane < 4
    requires Read32(space, bus, device, number, dword) == Dword(b0, b1, b2, b3)
    ensures Read16(space, bus, device, number, dword | lane)
         == if lane < 2 then b0 | (b1 << 8) else b2 | (b3 << 8)
  {
    hide Read32, Dword, ByteAt, WordAt;
    SameDword(space, bus, device, number, dword, lane);
    LaneOfOffset(Dword(b0, b1, b2, b3), dword, lane);
    PairsOfDword(b0, b1, b2, b3);
  }

  // ----- The search

  type Octet = b: bv32 | b < 256

  datatype Class = Class(code: Octet, subclass: Octet, progIf: Octet)

  /** A function that is present and has the class. */
  predicate Matches(space: Space, c: Class, bus: bv32, device: bv32, number: bv32) {
    && Read16(space, bus, device, number, 0x00) != 0xFFFF
    && Read8(space, bus, device, number, 0x0B) == c.code
    && Read8(space, bus, device, number, 0x0A) == c.subclass
    && Read8(space, bus, device, number, 0x09) == c.progIf
  }

  /** The same, read off two dwords of the configuration space: a vendor is there, and the dword at
      offset 8 holds the class above some revision number. */
  ghost predicate HasClass(space: Space, c: Class, bus: bv32, device: bv32, number: bv32) {
    && Read32(space, bus, device, number, 0) & 0xFFFF != 0xFFFF
    && exists revision: Octet ::
         Read32(space, bus, device, number, 8) == Dword(revision, c.progIf, c.subclass, c.code)
  }

  lemma DwordOfBytes(value: bv32)
    ensures value == Dword(ByteAt(value, 8), ByteAt(value, 9), ByteAt(value, 10), ByteAt(value, 11))
    ensures ByteAt(value, 8) < 256
  {
  }

  lemma BytesAtEight(b0: Octet, b1: Octet, b2: Octet, b3: Octet)
    ensures var value := Dword(b0, b1, b2, b3);
            ByteAt(value, 9) == b1 && ByteAt(value, 10) == b2 && ByteAt(value, 11) == b3
  {
  }

  lemma ReadsOfDwordTwo(space: Space, bus: bv32, device: bv32, number: bv32)
    ensures var value := Read32(space, bus, device, number, 8);
            && Read8(space, bus, device, number, 9) == ByteAt(value, 9)
            && Read8(space, bus, device, number, 10) == ByteAt(value, 10)
            && Read8(space, bus, device, number, 11) == ByteAt(value, 11)
  {
    hide ByteAt;
    assert DwordOf(8) == DwordOf(9) == DwordOf(10) == DwordOf(11);
    AddressOfDword(bus, device, number, 8, 9);
    AddressOfDword(bus, device, number, 8, 10);
    AddressOfDword(bus, device, number, 8, 11);
  }

  /** The four partial reads of the search see exactly this. */
  lemma MatchesIsClass(space: Space, c: Class, bus: bv32, device: bv32, number: bv32)
    ensures Matches(space, c, bus, device, number) <==> HasClass(space, c, bus, device, number)
  {
    hide Read32, Read8, ByteAt, Dword;
    var value := Read32(space, bus, device, number, 8);
    ReadsOfDwordTwo(space, bus, device, number);
    DwordOfBytes(value);
    VendorIsLowHalf(space, bus, device, number);
    if HasClass(space, c, bus, device, number) {
      var revision: Octet :| value == Dword(revision, c.progIf, c.subclass, c.code);
      BytesAtEight(revision, c.progIf, c.subclass, c.code);
    }
  }

  lemma Halves(value: bv32)
    ensures WordAt(value, 0) == value & 0xFFFF && WordAt(value, 2) == value >> 16
  {
  }

  lemma ThirdByte(value: bv32)
    ensures ByteAt(value, 14) == (value >> 16) & 0xFF
  {
  }

  lemma VendorIsLowHalf(space: Space, bus: bv32, device: bv32, number: bv32)
    ensures Read16(space, bus, device, number, 0) == Read32(space, bus, device, number, 0) & 0xFFFF
  {
    hide Read32, WordAt;
    Halves(Read32(space, bus, device, number, 0));
  }

  /** The reads that the search only writes down. */
  lemma OtherReads(space: Space, bus: bv32, device: bv32, number: bv32)
    ensures Read16(space, bus, device, number, 0) == Read32(space, bus, device, number, 0) & 0xFFFF
    ensures Read16(space, bus, device, number, 2) == Read32(space, bus, device, number, 0) >> 16
    ensures Read8(space, bus, device, number, 14) == (Read32(space, bus, device, number, 12) >> 16) & 0xFF
  {
    hide WordAt, ByteAt, Address;
    Halves(Read32(space, bus, device, number, 0));
    ThirdByte(Read32(space, bus, device, number, 12));
    assert DwordOf(0) == DwordOf(2) && DwordOf(12) == DwordOf(14);
    AddressOfDword(bus, device, number, 0, 2);
    AddressOfDword(bus, device, number, 12, 14);
  }

  /** Search order: by bus, then device, then function. */
  predicate Earlier(b: bv32, d: bv32, f: bv32, b': bv32, d': bv32, f': bv32) {
    b < b' || (b == b' && (d < d' || (d == d' && f < f')))
  }

  /** Nothing before this place matches. */
  ghost predicate NoneBefore(space: Space, c: Class, bus: bv32, device: bv32, number: bv32) {
    forall b, d, f :: InRange(b, d, f) && Earlier(b, d, f, bus, device, number) ==> !HasClass(space, c, b, d, f)
  }

  class PciDevice {
    var bus: bv32
    var device: bv32
    var number: bv32
    var vendorId: bv32
    var deviceId: bv32
    var class_: Class
    var headerType: bv32

    /** What the search writes for a function it has found. */
    ghost predicate Describes(space: Space, c: Class)
      reads this
    {
      && InRange(bus, device, number) && HasClass(space, c, bus, device, number)
      && vendorId == Read32(space, bus, device, number, 0) & 0xFFFF
      && deviceId == Read32(space, bus, device, number, 0) >> 16
      && class_ == c
      && headerType == (Read32(space, bus, device, number, 12) >> 16) & 0xFF
    }
  }

  /** Finds the first function of the class in search order, or reports that there is none. */
  method FindDevice(space: Space, c: Class, out: PciDevice?) returns (found: bool)
    modifies out
    ensures found <==> out != null && exists b, d, f :: InRange(b, d, f) && HasClass(space, c, b, d, f)
    ensures found ==> out.Describes(space, c) && NoneBefore(space, c, out.bus, out.device, out.number)
    ensures !found && out != null ==> unchanged(out)
  {
    hide Read8, Read16, HasClass;
    if out == null {
      return false;
    }
    var bus: bv32 := 0;
    while bus < 256
      invariant bus <= 256 && NoneBefore(space, c, bus, 0, 0)
      invariant unchanged(out)
      decreases 256 - bus
    {
      var device: bv32 := 0;
      while device < 32
        invariant device <= 32 && NoneBefore(space, c, bus, device, 0)
        invariant unchanged(out)
        decreases 32 - device
      {
        var number: bv32 := 0;
        while number < 8
          invariant number <= 8 && NoneBefore(space, c, bus, device, number)
          invariant unchanged(out)
          decreases 8 - number
        {
          MatchesIsClass(space, c, bus, device, number);
          OtherReads(space, bus, device, number);
          var vendorId := Read16(space, bus, device, number, 0x00);
          if vendorId != 0xFFFF {
            var headerType := Read8(space, bus, device, number, 0x0E);
            var code := Read8(space, bus, device, number, 0x0B);
            var subclass := Read8(space, bus, device, number, 0x0A);
            var progIf := Read8(space, bus, device, number, 0x09);
            if code == c.code && subclass == c.subclass && progIf == c.progIf {
              out.bus, out.device, out.number := bus, device, number;
              out.vendorId := vendorId;
              out.deviceId := Read16(space, bus, device, number, 0x02);
              out.class_ := Class(code, subclass, progIf);
              out.headerType := headerType;
              return true;
            }
          }
          NextPlace(space, c, bus, device, number);
          number := number + 1;
        }
        NextDevice(space, c, bus, device);
        device := device + 1;
      }
      NextBus(space, c, bus);
      bus := bus + 1;
    }
    return false;
  }

  lemma NextPlace(space: Space, c: Class, bus: bv32, device: bv32, number: bv32)
    requires number < 8 && NoneBefore(space, c, bus, device, number) && !HasClass(space, c, bus, device, number)
    ensures NoneBefore(space, c, bus, device, number + 1)
  {
  }

  lemma NextDevice(space: Space, c: Class, bus: bv32, device: bv32)
    requires device < 32 && NoneBefore(space, c, bus, device, 8)
    ensures NoneBefore(space, c, bus, device + 1, 0)
  {
  }

  lemma NextBus(space: Space, c: Class, bus: bv32)
    requires bus < 256 && NoneBefore(space, c, bus, 32, 0)
    ensures NoneBefore(space, c, bus + 1, 0, 0)
  {
  }
}
