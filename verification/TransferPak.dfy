// The Transfer Pak accessory and the Game Boy cartridge behind it (gbcart.cpp), on values.
module TransferPak {
  import opened Words

  datatype Mbc = RomOnly | Mbc1 | Mbc3 | Mbc5

  datatype Cart = Cart(
    rom: seq<byte>, openBus: nat, mbc: Mbc, ram: seq<byte>, ramEnabled: bool, dirty: bool,
    romLow: byte, high: byte, ramBank: byte, mode: byte, mbc5Rom: u16)

  datatype Port = Port(configured: bool, pak: bool, cartOn: bool, bank: byte, reset: byte, cart: Cart)

  const BLOCK: nat := 32

  // --- The cartridge -------------------------------------------------------------------------

  function RomByte(c: Cart, bank: nat, offset: nat): byte {
    var banks := (|c.rom| + 0x3FFF) / 0x4000;
    var index := if c.rom == [] then 0 else bank % banks * 0x4000 + offset;
    if index < c.openBus && index < |c.rom| then c.rom[index] else 0xFF
  }

  function SwitchableBank(c: Cart): nat {
    if c.mbc.Mbc5? then c.mbc5Rom
    else if c.mbc.Mbc1? then
      var bank := c.romLow % 0x20 + c.high % 4 * 0x20;
      if bank % 0x20 == 0 then bank + 1 else bank
    else if c.romLow % 0x80 == 0 then 1 else c.romLow % 0x80
  }

  function RamOffset(c: Cart, address: nat): nat
    requires address >= 0xA000
  {
    (if c.mbc.Mbc1? && c.mode == 0 then 0 else c.ramBank % 4) * 0x2000 + (address - 0xA000)
  }

  function CartRead(c: Cart, address: u16): byte {
    if address < 0x4000 then RomByte(c, if c.mbc.Mbc1? && c.mode != 0 then c.high % 4 * 0x20 else 0, address)
    else if address < 0x8000 then RomByte(c, SwitchableBank(c), address - 0x4000)
    else if 0xA000 <= address < 0xC000 && c.ramEnabled then
      var index := RamOffset(c, address);
      if index < |c.ram| then c.ram[index] else 0xFF
    else 0xFF
  }

  function RamWrite(c: Cart, index: nat, value: byte): Cart {
    if index < |c.ram| && c.ram[index] != value then c.(ram := c.ram[index := value], dirty := true) else c
  }

  function OneAtLeast(v: byte): byte { if v == 0 then 1 else v }

  function CartWrite(c: Cart, address: u16, value: byte): Cart {
    if c.mbc.RomOnly? then
      if 0xA000 <= address < 0xC000 then RamWrite(c, address - 0xA000, value) else c
    else if address < 0x2000 then c.(ramEnabled := value % 0x10 == 0x0A)
    else if address < 0x4000 then
      if c.mbc.Mbc1? then c.(romLow := OneAtLeast(value % 0x20))
      else if c.mbc.Mbc3? then c.(romLow := OneAtLeast(value % 0x80))
      else if address < 0x3000 then c.(mbc5Rom := c.mbc5Rom / 0x100 % 2 * 0x100 + value)
      else c.(mbc5Rom := c.mbc5Rom % 0x100 + value % 2 * 0x100)
    else if address < 0x6000 then
      if c.mbc.Mbc1? then c.(high := value % 4, ramBank := value % 4)
      else if c.mbc.Mbc5? then c.(ramBank := value % 0x10)
      else if value <= 3 then c.(ramBank := value) else c
    else if address < 0x8000 then
      if c.mbc.Mbc1? then c.(mode := value % 2) else c
    else if 0xA000 <= address < 0xC000 && c.ramEnabled then RamWrite(c, RamOffset(c, address), value)
    else c
  }

  // Writing the save file clears the mark when there is a file and it can be written.
  function Flushed(c: Cart, hasSave: bool, written: bool): Cart {
    if c.dirty && hasSave && written then c.(dirty := false) else c
  }

  // --- The accessory port ----------------------------------------------------------------------

  function StatusByte(p: Port): byte {
    (if p.cartOn then 0x01 else 0) + p.reset % 4 * 4 + (if p.configured then 0 else 0x40) + (if p.pak then 0x80 else 0)
  }

  // Reading the status register advances the reset state.
  function AfterStatus(p: Port): Port {
    if p.cartOn && p.reset == 3 then p.(reset := 2)
    else if !p.cartOn && p.reset == 2 then p.(reset := 1)
    else if !p.cartOn && p.reset == 1 then p.(reset := 0)
    else p
  }

  function BusAddress(bank: byte, accessory: nat): u16 { (0x4000 * bank + accessory - 0x4000) % 0x1_0000 }

  // The byte an accessory address reads, and the port afterwards.
  function PortRead(p: Port, address: u16): (byte, Port) {
    var a := address % 0x8000;
    if !p.pak then (0, p)
    else if a <= 0x1FFF then (0x84, p)
    else if a <= 0x2FFF then (p.bank, p)
    else if a <= 0x3FFF then (StatusByte(p), AfterStatus(p))
    else if !p.cartOn then (0, p)
    else (CartRead(p.cart, BusAddress(p.bank, a)), p)
  }

  function PortWrite(p: Port, address: u16, value: byte): Port {
    var a := address % 0x8000;
    if a <= 0x1FFF then
      var on := if value == 0x84 then true else if value == 0xFE then false else p.pak;
      if !p.pak && on then p.(pak := on, bank := 3, cartOn := false, reset := 0) else p.(pak := on)
    else if !p.pak then p
    else if a <= 0x2FFF then p.(bank := if value > 3 then 0 else value)
    else if a <= 0x3FFF then
      var on := value % 2 != 0;
      if !p.cartOn && on then p.(cartOn := on, reset := 2) else p.(cartOn := on)
    else if !p.cartOn then p
    else p.(cart := CartWrite(p.cart, BusAddress(p.bank, a), value))
  }

  // --- Blocks ------------------------------------------------------------------------------------

  function ByteAddress(block: u16): u16 { block * BLOCK % 0x1_0000 }

  // A block lies in one 0x8000 window, so adding an index never wraps.
  lemma BlockFits(block: u16, i: nat)
    requires i < BLOCK
    ensures ByteAddress(block) % BLOCK == 0 && ByteAddress(block) + i < 0x1_0000
    ensures (ByteAddress(block) + i) % 0x8000 == ByteAddress(block) % 0x8000 + i
    ensures ByteAddress(block) % 0x8000 % BLOCK == 0
  {
    var a := ByteAddress(block);
    assert block * BLOCK == block * BLOCK / 0x1_0000 * 0x1_0000 + a;
    assert a % BLOCK == 0;
    if a >= 0x8000 { assert a % 0x8000 == a - 0x8000; } else { assert a % 0x8000 == a; }
  }

  function ByteAt(p: Port, block: u16, i: nat): byte
    requires i < BLOCK
  {
    BlockFits(block, i);
    PortRead(p, ByteAddress(block) + i).0
  }

  predicate IsControl(block: u16) { ByteAddress(block) % 0x8000 <= 0x3FFF }

  // Control registers are read once and repeated over the block; the window byte by byte.
  function ReadBlock(p: Port, block: u16): (r: (seq<byte>, Port))
    ensures |r.0| == BLOCK
  {
    if IsControl(block) then
      var (v, p') := PortRead(p, ByteAddress(block));
      (seq(BLOCK, _ => v), p')
    else (seq(BLOCK, i requires 0 <= i < BLOCK => ByteAt(p, block, i)), p)
  }

  // The first n bytes of a block, one after the other.
  function WriteBytes(p: Port, block: u16, data: seq<byte>, n: nat): Port
    requires n <= |data| == BLOCK
  {
    if n == 0 then p
    else
      BlockFits(block, n - 1);
      PortWrite(WriteBytes(p, block, data, n - 1), ByteAddress(block) + (n - 1), data[n - 1])
  }

  function WriteBlock(p: Port, block: u16, data: seq<byte>, hasSave: bool, written: bool): Port
    requires |data| == BLOCK
  {
    var p' := WriteBytes(p, block, data, |data|);
    p'.(cart := Flushed(p'.cart, hasSave, written))
  }
}
