// What every run of block reads and writes keeps, the window's round trip, and the reset
// handshake the status register shows.
module TransferPakRuns {
  import opened Words
  import opened Rdram
  import opened TransferPak

  // --- Invariants ------------------------------------------------------------------------------

  predicate CartOk(c: Cart) {
    && c.romLow >= 1 && c.romLow < 0x80 && (c.mbc.Mbc1? ==> c.romLow < 0x20)
    && c.high < 4 && c.ramBank < 0x10 && c.mode < 2 && c.mbc5Rom < 0x200
  }

  // The bank register stays below 4, the reset state never reaches 3, and an enabled
  // cartridge has just been reset.
  predicate PortOk(p: Port) { p.bank <= 3 && p.reset <= 2 && (p.cartOn ==> p.reset == 2) && CartOk(p.cart) }

  lemma CartWriteOk(c: Cart, address: u16, value: byte)
    requires CartOk(c)
    ensures CartOk(CartWrite(c, address, value)) && CartWrite(c, address, value).mbc == c.mbc
  {}

  lemma PortWriteOk(p: Port, address: u16, value: byte)
    requires PortOk(p)
    ensures PortOk(PortWrite(p, address, value))
  {
    CartWriteOk(p.cart, BusAddress(p.bank, address % 0x8000), value);
    hide CartOk, CartWrite;
  }

  lemma PortReadOk(p: Port, address: u16)
    requires PortOk(p)
    ensures PortOk(PortRead(p, address).1) && PortRead(p, address).1.cart == p.cart
  {
    hide CartOk, CartRead;
  }

  lemma {:induction false} WriteBytesOk(p: Port, block: u16, data: seq<byte>, n: nat)
    requires PortOk(p) && n <= |data| == BLOCK
    ensures PortOk(WriteBytes(p, block, data, n))
    decreases n
  {
    hide PortOk, PortWrite;
    if n > 0 {
      WriteBytesOk(p, block, data, n - 1);
      BlockFits(block, n - 1);
      PortWriteOk(WriteBytes(p, block, data, n - 1), ByteAddress(block) + (n - 1), data[n - 1]);
    }
  }

  datatype Op = Read(block: u16) | Write(block: u16, data: seq<byte>, written: bool)

  predicate WholeBlocks(ops: seq<Op>) { forall op :: op in ops && op.Write? ==> |op.data| == BLOCK }

  function Run(p: Port, ops: seq<Op>, hasSave: bool): Port
    requires WholeBlocks(ops)
  {
    if ops == [] then p
    else
      var p' := Run(p, ops[..|ops| - 1], hasSave);
      match ops[|ops| - 1]
      case Read(block) => ReadBlock(p', block).1
      case Write(block, data, written) => WriteBlock(p', block, data, hasSave, written)
  }

  // Over every sequence of block reads and writes.
  lemma {:induction false} RunOk(p: Port, ops: seq<Op>, hasSave: bool)
    requires PortOk(p) && WholeBlocks(ops)
    ensures PortOk(Run(p, ops, hasSave))
    decreases |ops|
  {
    hide PortRead, WriteBytes;
    if ops != [] {
      RunOk(p, ops[..|ops| - 1], hasSave);
      var p', op := Run(p, ops[..|ops| - 1], hasSave), ops[|ops| - 1];
      if op.Read? {
        PortReadOk(p', ByteAddress(op.block));
      } else {
        WriteBytesOk(p', op.block, op.data, |op.data|);
      }
    }
  }

  // --- ROM banks ---------------------------------------------------------------------------------

  // The switchable window of MBC1 and MBC3 never shows bank 0, nor, for MBC1, any bank whose
  // low five bits are 0.
  lemma SwitchedBank(c: Cart)
    requires CartOk(c)
    ensures c.mbc.Mbc1? ==> 1 <= SwitchableBank(c) < 0x80 && SwitchableBank(c) % 0x20 != 0
    ensures c.mbc.Mbc3? ==> 1 <= SwitchableBank(c) < 0x80
    ensures c.mbc.Mbc5? ==> SwitchableBank(c) < 0x200
  {
    if c.mbc.Mbc1? { assert SwitchableBank(c) == c.romLow + 0x20 * c.high; }
  }

  // The two registers of MBC5 set the nine bits of its bank in either order, whatever it was.
  lemma Mbc5Bank(c: Cart, low: byte, high: byte, a: u16, b: u16)
    requires CartOk(c) && c.mbc.Mbc5? && 0x2000 <= a < 0x3000 <= b < 0x4000
    ensures SwitchableBank(CartWrite(CartWrite(c, a, low), b, high)) == high % 2 * 0x100 + low
    ensures SwitchableBank(CartWrite(CartWrite(c, b, high), a, low)) == high % 2 * 0x100 + low
  {
    var first, second := CartWrite(c, a, low), CartWrite(c, b, high);
    assert first.mbc5Rom % 0x100 == low && second.mbc5Rom / 0x100 % 2 == high % 2;
  }

  // --- The window -------------------------------------------------------------------------------

  // With four banks the window's bus addresses never wrap, and each bus address has one bank
  // and one place in the window.
  lemma BusAddressIs(bank: byte, a: nat)
    requires bank <= 3 && 0x4000 <= a < 0x8000
    ensures BusAddress(bank, a) == 0x4000 * bank + (a - 0x4000)
  {}

  lemma BusAddressOnce(bus: u16, bank: byte, a: nat)
    requires bank <= 3 && 0x4000 <= a < 0x8000
    ensures BusAddress(bank, a) == bus <==> bank == bus / 0x4000 && a == 0x4000 + bus % 0x4000
  {
    BusAddressIs(bank, a);
    assert bus == bus / 0x4000 * 0x4000 + bus % 0x4000;
  }

  // A bank of 4 would reach the bus addresses of bank 0 again: the write that refuses it is
  // what keeps addresses unique.
  lemma BankFourWouldWrap(a: nat)
    requires 0x4000 <= a < 0x8000
    ensures BusAddress(4, a) == BusAddress(0, a)
  {}

  // --- Round trip ---------------------------------------------------------------------------------

  // The block lies in cartridge RAM: upper half of the window, bank 2, everything enabled.
  predicate InRam(p: Port, block: u16) {
    && p.pak && p.cartOn && p.bank == 2 && p.cart.ramEnabled && !p.cart.mbc.RomOnly?
    && 0x6000 <= ByteAddress(block) % 0x8000
    && RamStart(p.cart, block) + BLOCK <= |p.cart.ram|
  }

  // Where the block begins in RAM.
  function RamStart(c: Cart, block: u16): nat {
    (if c.mbc.Mbc1? && c.mode == 0 then 0 else c.ramBank % 4) * 0x2000 + Above(ByteAddress(block) % 0x8000, 0x6000)
  }

  function Above(a: nat, base: nat): nat { if a < base then 0 else a - base }

  lemma InWindow(p: Port, block: u16, i: nat)
    requires InRam(p, block) && i < BLOCK
    ensures var a := ByteAddress(block) % 0x8000 + i;
            && 0x6000 <= a < 0x8000 && 0xA000 <= BusAddress(2, a) < 0xC000
            && RamOffset(p.cart, BusAddress(2, a)) == RamStart(p.cart, block) + i
            && (ByteAddress(block) + i) % 0x8000 == a
  {
    BlockFits(block, i);
    BlockFits(block, BLOCK - 1);
    BusAddressIs(2, ByteAddress(block) % 0x8000 + i);
  }

  lemma WriteOne(p: Port, block: u16, i: nat, value: byte)
    requires InRam(p, block) && i < BLOCK && ByteAddress(block) + i < 0x1_0000
    ensures PortWrite(p, ByteAddress(block) + i, value) == p.(cart := RamWrite(p.cart, RamStart(p.cart, block) + i, value))
  {
    InWindow(p, block, i);
    hide ByteAddress, RamOffset, RamWrite, RamStart, BusAddress;
  }

  // Only RAM and the dirty mark differ.
  predicate OnlyRam(p: Port, q: Port) { q == p.(cart := p.cart.(ram := q.cart.ram, dirty := q.cart.dirty)) }

  lemma {:induction false} Written(p: Port, block: u16, data: seq<byte>, n: nat)
    requires InRam(p, block) && n <= |data| == BLOCK && RamStart(p.cart, block) + BLOCK <= |p.cart.ram|
    ensures var q := WriteBytes(p, block, data, n);
            && OnlyRam(p, q) && q.cart.ram == Splice(p.cart.ram, RamStart(p.cart, block), data[..n])
            && (q.cart.dirty <==> p.cart.dirty || q.cart.ram != p.cart.ram)
    decreases n
  {
    hide RamStart, ByteAddress, PortWrite, InRam, Splice;
    var at := RamStart(p.cart, block);
    if n == 0 {
      NothingSpliced(p.cart.ram, at, data);
    } else {
      var q := WriteBytes(p, block, data, n - 1);
      Written(p, block, data, n - 1);
      BlockFits(block, n - 1);
      StillInRam(p, q, block);
      WriteOne(q, block, n - 1, data[n - 1]);
      OneMore(p.cart.ram, at, data, n);
    }
  }

  lemma NothingSpliced(ram: seq<byte>, at: nat, data: seq<byte>)
    requires at <= |ram|
    ensures Splice(ram, at, data[..0]) == ram
  {}

  lemma OneMore(ram0: seq<byte>, at: nat, data: seq<byte>, n: nat)
    requires 0 < n <= |data| && at + n <= |ram0|
    ensures var ram, after := Splice(ram0, at, data[..n - 1]), Splice(ram0, at, data[..n]);
            && after == ram[at + n - 1 := data[n - 1]]
            && (ram[at + n - 1] == data[n - 1] ==> after == ram)
            && (ram[at + n - 1] != data[n - 1] ==> after != ram0)
  {
    var ram, after := Splice(ram0, at, data[..n - 1]), Splice(ram0, at, data[..n]);
    assert ram[at + n - 1] == ram0[at + n - 1] && after[at + n - 1] == data[n - 1];
  }

  // What a block write put in RAM a block read gives back; nothing else of the port differs.
  lemma RoundTrip(p: Port, block: u16, data: seq<byte>, hasSave: bool, written: bool)
    requires InRam(p, block) && |data| == BLOCK
    ensures var q, at := WriteBlock(p, block, data, hasSave, written), RamStart(p.cart, block);
            && ReadBlock(q, block) == (data, q) && OnlyRam(p, q)
            && q.cart.ram == Splice(p.cart.ram, at, data)
  {
    RamBound(p, block);
    Written(p, block, data, |data|);
    assert data[..|data|] == data;
    var q, at := WriteBlock(p, block, data, hasSave, written), RamStart(p.cart, block);
    StillInRam(p, q, block);
    hide WriteBytes, ByteAddress;
    forall i | 0 <= i < BLOCK ensures ByteAt(q, block, i) == data[i] {
      ReadOne(q, block, i);
      assert q.cart.ram[at + i] == data[i];
    }
    NotControl(p, block);
    assert ReadBlock(q, block).0 == data;
  }

  lemma RamBound(p: Port, block: u16)
    requires InRam(p, block)
    ensures RamStart(p.cart, block) + BLOCK <= |p.cart.ram|
  {}

  lemma NotControl(p: Port, block: u16)
    requires InRam(p, block)
    ensures !IsControl(block)
  {}

  lemma StillInRam(p: Port, q: Port, block: u16)
    requires InRam(p, block) && OnlyRam(p, q) && |q.cart.ram| == |p.cart.ram|
    ensures InRam(q, block) && RamStart(q.cart, block) == RamStart(p.cart, block)
  {
    hide ByteAddress;
  }

  lemma ReadOne(p: Port, block: u16, i: nat)
    requires InRam(p, block) && i < BLOCK
    ensures RamStart(p.cart, block) + i < |p.cart.ram| && ByteAt(p, block, i) == p.cart.ram[RamStart(p.cart, block) + i]
  {
    InWindow(p, block, i);
    BlockFits(block, i);
    hide ByteAddress, RamOffset, RamStart, BusAddress;
  }

  // --- The reset handshake -------------------------------------------------------------------------

  predicate IsStatus(block: u16) { 0x3000 <= ByteAddress(block) % 0x8000 <= 0x3FFF }

  // Bits 0x08 and 0x04 of a status byte, as a number from 3 down to 0.
  function ResetBits(status: byte): nat { status / 4 % 4 }

  lemma ShownReset(p: Port)
    requires p.reset <= 3
    ensures ResetBits(StatusByte(p)) == p.reset
  {
    var low, high := if p.cartOn then 0x01 else 0, (if p.configured then 0 else 0x40) + if p.pak then 0x80 else 0;
    assert StatusByte(p) == 4 * (p.reset + 4 * (high / 0x10)) + low;
  }

  // A status read shows the reset state in every byte of the block and advances it once.
  lemma StatusRead(p: Port, block: u16)
    requires PortOk(p) && p.pak && IsStatus(block)
    ensures var (s, q) := ReadBlock(p, block);
            && q == AfterStatus(p) && forall i :: 0 <= i < BLOCK ==> ResetBits(s[i]) == p.reset
  {
    ShownReset(p);
    hide StatusByte, ResetBits, ByteAddress, CartRead;
  }

  function StatusReads(p: Port, block: u16, n: nat): Port {
    if n == 0 then p else ReadBlock(StatusReads(p, block, n - 1), block).1
  }

  // While the cartridge is enabled any number of status reads show 0x08 set and 0x04 clear,
  // and change nothing.
  lemma {:induction false} StatusWhileOn(p: Port, block: u16, n: nat)
    requires PortOk(p) && p.pak && p.cartOn && IsStatus(block)
    ensures StatusReads(p, block, n) == p
    ensures forall i :: 0 <= i < BLOCK ==> ResetBits(ReadBlock(StatusReads(p, block, n), block).0[i]) == 2
    decreases n
  {
    hide ReadBlock, ResetBits;
    StatusRead(p, block);
    if n > 0 { StatusWhileOn(p, block, n - 1); }
  }

  predicate AllEven(data: seq<byte>) { forall i :: 0 <= i < |data| ==> data[i] % 2 == 0 }

  lemma {:induction false} Disabled(p: Port, block: u16, data: seq<byte>, n: nat)
    requires p.pak && IsStatus(block) && n <= |data| == BLOCK && AllEven(data)
    ensures WriteBytes(p, block, data, n) == if n == 0 then p else p.(cartOn := false)
    decreases n
  {
    if n > 0 {
      Disabled(p, block, data, n - 1);
      BlockFits(block, n - 1);
      BlockFits(block, BLOCK - 1);
      hide ByteAddress;
    }
  }

  // Once it is disabled three status reads show 0x08, then 0x04, then neither, and neither
  // from then on.
  lemma ResetHandshake(p: Port, control: u16, data: seq<byte>, hasSave: bool, written: bool,
                       block: u16)
    requires PortOk(p) && p.pak && p.cartOn && IsStatus(control) && IsStatus(block)
    requires |data| == BLOCK && AllEven(data)
    ensures var p0 := WriteBlock(p, control, data, hasSave, written);
            var (s1, p1) := ReadBlock(p0, block);
            var (s2, p2) := ReadBlock(p1, block);
            var (s3, p3) := ReadBlock(p2, block);
            && ResetBits(s1[BLOCK - 1]) == 2 && ResetBits(s2[BLOCK - 1]) == 1 && ResetBits(s3[BLOCK - 1]) == 0
            && p3 == p2 && !p3.cartOn && p3.reset == 0
  {
    Disabled(p, control, data, |data|);
    var p0 := WriteBlock(p, control, data, hasSave, written);
    hide ReadBlock, ResetBits, WriteBytes, IsStatus, CartOk;
    StatusRead(p0, block);
    var p1 := ReadBlock(p0, block).1;
    StatusRead(p1, block);
    var p2 := ReadBlock(p1, block).1;
    StatusRead(p2, block);
  }
}
