// What the game sees through the Transfer Pak's registers and window: which ROM or RAM byte is
// where, after which register writes.
module TransferPakBanks {
  import opened Words
  import opened TransferPak
  import opened TransferPakRuns

  // --- ROM ------------------------------------------------------------------------------------------

  // Byte o of ROM bank b as the cartridge shows it: banks past the last repeat from the first,
  // and open bus reads as 0xFF.
  predicate ShowsRom(c: Cart, v: byte, b: nat, o: nat) {
    var banks := (|c.rom| + 0x3FFF) / 0x4000;
    if |c.rom| == 0 then v == 0xFF
    else
      var at := b % banks * 0x4000 + o;
      if at < |c.rom| && at < c.openBus then v == c.rom[at] else v == 0xFF
  }

  // The bank in the window at 0x4000, by its registers.
  function WindowBank(c: Cart): nat {
    match c.mbc
    case Mbc1 => c.high * 0x20 + c.romLow
    case Mbc5 => c.mbc5Rom
    case _ => c.romLow
  }

  lemma WindowBankIs(c: Cart)
    requires CartOk(c)
    ensures SwitchableBank(c) == WindowBank(c)
  {}

  // Nothing but the registers named differs.
  predicate SameMemory(c: Cart, c': Cart) {
    c'.rom == c.rom && c'.openBus == c.openBus && c'.ram == c.ram && c'.mbc == c.mbc
  }

  lemma Mbc1Registers(c: Cart, low: byte, high: byte, mode: byte, a: u16, b: u16, m: u16)
    requires CartOk(c) && c.mbc.Mbc1? && 0x2000 <= a < 0x4000 <= b < 0x6000 <= m < 0x8000
    ensures var c' := c.(romLow := if low % 0x20 == 0 then 1 else low % 0x20, high := high % 4, ramBank := high % 4,
                         mode := mode % 2);
            && CartWrite(CartWrite(CartWrite(c, a, low), b, high), m, mode) == c'
            && CartWrite(CartWrite(CartWrite(c, m, mode), b, high), a, low) == c' && CartOk(c')
  {}

  lemma RomReads(c: Cart, x: nat)
    requires CartOk(c) && x < 0x4000
    ensures ShowsRom(c, CartRead(c, 0x4000 + x), WindowBank(c), x)
    ensures ShowsRom(c, CartRead(c, x), if c.mbc.Mbc1? && c.mode == 1 then c.high * 0x20 else 0, x)
  {
    WindowBankIs(c);
    hide SwitchableBank, WindowBank;
  }

  // MBC1: the low and high registers in either order select one of 128 banks for the window at
  // 0x4000, where a low part of 0 counts as 1; in mode 1 the high part selects the bank at 0 too.
  lemma SelectMbc1(c: Cart, low: byte, high: byte, mode: byte, a: u16, b: u16, m: u16, x: nat)
    requires CartOk(c) && c.mbc.Mbc1? && 0x2000 <= a < 0x4000 <= b < 0x6000 <= m < 0x8000 && x < 0x4000
    ensures var c' := CartWrite(CartWrite(CartWrite(c, a, low), b, high), m, mode);
            var part := if low % 0x20 == 0 then 1 else low % 0x20;
            && c' == CartWrite(CartWrite(CartWrite(c, m, mode), b, high), a, low) && SameMemory(c, c')
            && ShowsRom(c', CartRead(c', 0x4000 + x), high % 4 * 0x20 + part, x)
            && ShowsRom(c', CartRead(c', x), if mode % 2 == 1 then high % 4 * 0x20 else 0, x)
  {
    hide CartWrite, CartRead, ShowsRom, CartOk;
    Mbc1Registers(c, low, high, mode, a, b, m);
    RomReads(CartWrite(CartWrite(CartWrite(c, a, low), b, high), m, mode), x);
  }

  // MBC3: seven bits select the bank, and 0 counts as 1. The bank at 0 is always the first.
  lemma SelectMbc3(c: Cart, v: byte, a: u16, x: nat)
    requires CartOk(c) && c.mbc.Mbc3? && 0x2000 <= a < 0x4000 && x < 0x4000
    ensures var c' := CartWrite(c, a, v);
            && SameMemory(c, c')
            && ShowsRom(c', CartRead(c', 0x4000 + x), if v % 0x80 == 0 then 1 else v % 0x80, x)
            && ShowsRom(c', CartRead(c', x), 0, x)
  {
    CartWriteOk(c, a, v);
    WindowBankIs(CartWrite(c, a, v));
    hide SwitchableBank;
  }

  // MBC5: nine bits in two registers, in either order, and 0 is bank 0.
  lemma SelectMbc5(c: Cart, low: byte, high: byte, a: u16, b: u16, x: nat)
    requires CartOk(c) && c.mbc.Mbc5? && 0x2000 <= a < 0x3000 <= b < 0x4000 && x < 0x4000
    ensures var c', c'' := CartWrite(CartWrite(c, a, low), b, high), CartWrite(CartWrite(c, b, high), a, low);
            && SameMemory(c, c') && SameMemory(c, c'')
            && ShowsRom(c', CartRead(c', 0x4000 + x), high % 2 * 0x100 + low, x)
            && ShowsRom(c'', CartRead(c'', 0x4000 + x), high % 2 * 0x100 + low, x)
            && ShowsRom(c', CartRead(c', x), 0, x)
  {
    Mbc5Bank(c, low, high, a, b);
    hide SwitchableBank;
  }

  // --- RAM ------------------------------------------------------------------------------------------

  // A cartridge with a controller opens its RAM by a write of a value ending in 0xA below 0x2000
  // and closes it by any other. Closed, RAM reads as 0xFF and keeps what is written to it out.
  lemma RamGate(c: Cart, gate: byte, a: u16, x: u16, v: byte)
    requires !c.mbc.RomOnly? && a < 0x2000 && 0xA000 <= x < 0xC000
    ensures var c' := CartWrite(c, a, gate);
            && SameMemory(c, c')
            && (if gate % 0x10 == 0xA then RamOffset(c', x) < |c.ram| ==> CartRead(c', x) == c.ram[RamOffset(c', x)]
                else CartRead(c', x) == 0xFF && CartWrite(c', x, v) == c')
  {}

  // Which RAM byte an address shows, by the value last written to the bank register.
  lemma SelectRam(c: Cart, v: byte, b: u16, x: u16)
    requires CartOk(c) && c.ramEnabled && 0x4000 <= b < 0x6000 && 0xA000 <= x < 0xC000 && !c.mbc.RomOnly?
    requires c.mbc.Mbc3? ==> v <= 3
    ensures var c', o := CartWrite(c, b, v), x - 0xA000;
            var bank := if c.mbc.Mbc1? && c.mode == 0 then 0 else v % 4;
            && SameMemory(c, c')
            && CartRead(c', x) == if bank * 0x2000 + o < |c.ram| then c.ram[bank * 0x2000 + o] else 0xFF
  {}

  // MBC3 keeps its RAM bank when the value names a clock register instead.
  lemma ClockSelectIgnored(c: Cart, v: byte, b: u16)
    requires c.mbc.Mbc3? && 0x4000 <= b < 0x6000 && v > 3
    ensures CartWrite(c, b, v) == c
  {}

  // A cartridge without a controller starts with its RAM closed and has no register to open it:
  // over any sequence of writes RAM takes bytes that can never be read.
  function Writes(c: Cart, ws: seq<(u16, byte)>): Cart {
    if ws == [] then c else CartWrite(Writes(c, ws[..|ws| - 1]), ws[|ws| - 1].0, ws[|ws| - 1].1)
  }

  lemma {:induction false} RomOnlyRamUnread(c: Cart, ws: seq<(u16, byte)>, x: u16)
    requires c.mbc.RomOnly? && !c.ramEnabled && 0xA000 <= x < 0xC000
    ensures CartRead(Writes(c, ws), x) == 0xFF
    ensures Writes(c, ws) == c.(ram := Writes(c, ws).ram, dirty := Writes(c, ws).dirty)
    decreases |ws|
  {
    if ws != [] { RomOnlyRamUnread(c, ws[..|ws| - 1], x); }
  }

  lemma RomOnlyRamWritten(c: Cart, x: u16, v: byte)
    requires c.mbc.RomOnly? && 0xA000 <= x < 0xC000 && x - 0xA000 < |c.ram| && c.ram[x - 0xA000] != v
    ensures CartWrite(c, x, v) == c.(ram := c.ram[x - 0xA000 := v], dirty := true)
  {}

  // --- The accessory's registers --------------------------------------------------------------------

  predicate PowerAt(a: u16) { a % 0x8000 < 0x2000 }
  predicate BankAt(a: u16) { 0x2000 <= a % 0x8000 < 0x3000 }
  predicate StatusAt(a: u16) { 0x3000 <= a % 0x8000 < 0x4000 }
  predicate WindowAt(a: u16) { 0x4000 <= a % 0x8000 }

  // 0x84 turns the accessory on and 0xFE off; it reads as 0x84 while on and 0 while off.
  lemma PowerRegister(p: Port, a: u16, v: byte, b: u16)
    requires PowerAt(a) && PowerAt(b)
    ensures var on := v == 0x84 || (v != 0xFE && p.pak);
            && PortWrite(p, a, v).pak == on && PortRead(PortWrite(p, a, v), b).0 == (if on then 0x84 else 0)
            && PortRead(p, b).1 == p
  {}

  // Turning it on selects bank 3 and disables the cartridge; turning it off keeps the rest.
  lemma PowerUp(p: Port, a: u16, v: byte)
    requires PowerAt(a)
    ensures PortWrite(p, a, v) ==
            if v == 0x84 && !p.pak then p.(pak := true, bank := 3, cartOn := false, reset := 0)
            else if v == 0xFE then p.(pak := false)
            else p
  {}

  // While it is off every address reads 0, and only the power register takes a write.
  lemma WhileOff(p: Port, a: u16, v: byte)
    requires !p.pak
    ensures PortRead(p, a) == (0, p) && (!PowerAt(a) ==> PortWrite(p, a, v) == p)
  {}

  // The bank register holds 0 to 3 and takes any other value as 0.
  lemma BankRegister(p: Port, a: u16, v: byte, b: u16)
    requires p.pak && BankAt(a) && BankAt(b)
    ensures PortWrite(p, a, v) == p.(bank := if v < 4 then v else 0)
    ensures PortRead(PortWrite(p, a, v), b) == (if v < 4 then v else 0, PortWrite(p, a, v))
  {}

  // The status register: 0x01 while the cartridge is enabled, 0x40 without one, 0x80 while the
  // accessory is on. A write enables the cartridge by bit 0, and resets it when it was not.
  lemma StatusRegister(p: Port, a: u16, v: byte, b: u16)
    requires PortOk(p) && p.pak && StatusAt(a) && StatusAt(b)
    ensures PortWrite(p, a, v) ==
            if v % 2 == 0 then p.(cartOn := false)
            else if p.cartOn then p
            else p.(cartOn := true, reset := 2)
    ensures var s := PortRead(PortWrite(p, a, v), b).0;
            && (s % 2 == 1 <==> v % 2 == 1) && s / 0x80 == 1
            && (s / 0x40 % 2 == 0 <==> p.configured) && s / 0x10 % 4 == 0 && s / 2 % 2 == 0
  {
    hide AfterStatus, CartOk;
  }

  // The window reaches the cartridge's bus at 0x4000 times the bank, and reads 0 and loses
  // writes while the cartridge is disabled.
  lemma Window(p: Port, a: u16, v: byte)
    requires PortOk(p) && p.pak && WindowAt(a)
    ensures var bus := 0x4000 * p.bank + (a % 0x8000 - 0x4000);
            && bus < 0x1_0000
            && PortRead(p, a) == (if p.cartOn then CartRead(p.cart, bus) else 0, p)
            && PortWrite(p, a, v) == if p.cartOn then p.(cart := CartWrite(p.cart, bus, v)) else p
  {
    BusAddressIs(p.bank, a % 0x8000);
    hide CartRead, CartWrite, CartOk;
  }

  // --- ROM, block by block ----------------------------------------------------------------------------

  // A block of the window is 32 bytes of the cartridge's bus, from 0x4000 times the bank on.
  lemma WindowBlock(p: Port, block: u16, i: nat)
    requires PortOk(p) && p.pak && p.cartOn && i < BLOCK && 0x4000 <= ByteAddress(block) % 0x8000
    ensures var bus := 0x4000 * p.bank + (ByteAddress(block) % 0x8000 - 0x4000) + i;
            && bus < 0x1_0000 && ReadBlock(p, block).0[i] == CartRead(p.cart, bus) && ReadBlock(p, block).1 == p
  {
    hide PortRead, CartRead, ByteAddress, PortOk;
    BlockFits(block, i);
    Window(p, ByteAddress(block) + i, 0);
  }

  // The two ROM windows, as the game reads them a block at a time with bank 0 or 1 of the
  // accessory selected.
  lemma RomBlock(p: Port, block: u16, i: nat)
    requires PortOk(p) && p.pak && p.cartOn && p.bank <= 1 && i < BLOCK && 0x4000 <= ByteAddress(block) % 0x8000
    ensures var c, o := p.cart, ByteAddress(block) % 0x8000 - 0x4000 + i;
            var bank := if p.bank == 1 then WindowBank(c) else if c.mbc.Mbc1? && c.mode == 1 then c.high * 0x20 else 0;
            && ShowsRom(c, ReadBlock(p, block).0[i], bank, o) && ReadBlock(p, block).1 == p
  {
    hide PortRead, CartRead, ByteAddress, ReadBlock, ShowsRom, WindowBank;
    WindowBlock(p, block, i);
    BlockFits(block, i);
    RomReads(p.cart, ByteAddress(block) % 0x8000 - 0x4000 + i);
  }
}
