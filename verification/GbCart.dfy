// The Transfer Pak model as the source has it: cartridge and port objects updated in place,
// and the block interface over the four ports.
module GbCart {
  import opened Options
  import opened Words
  import TransferPak
  import TransferPakRuns

  const PORTS := 4
  const NO_PAK := 1
  const INVALID := 5

  // --- Loading -------------------------------------------------------------------------------

  function MbcOf(code: byte): (r: Option<TransferPak.Mbc>)
    ensures r == Some(TransferPak.RomOnly) <==> code in {0x00, 0x08, 0x09}
    ensures r == Some(TransferPak.Mbc1) <==> code in {0x01, 0x02, 0x03}
    ensures r == Some(TransferPak.Mbc3) <==> code in {0x0F, 0x10, 0x11, 0x12, 0x13}
    ensures r == Some(TransferPak.Mbc5) <==> code in {0x19, 0x1A, 0x1B, 0x1C, 0x1D, 0x1E}
  {
    if code == 0x00 || code == 0x08 || code == 0x09 then Some(TransferPak.RomOnly)
    else if 0x01 <= code <= 0x03 then Some(TransferPak.Mbc1)
    else if 0x0F <= code <= 0x13 then Some(TransferPak.Mbc3)
    else if 0x19 <= code <= 0x1E then Some(TransferPak.Mbc5)
    else None
  }

  function HeaderRamSize(code: byte): (r: nat)
    ensures r / 0x400 == if code < 6 then [0, 2, 8, 32, 128, 64][code] else 0
    ensures r % 0x400 == 0
  {
    if code == 1 then 0x800 else if code == 2 then 0x2000 else if code == 3 then 0x8000
    else if code == 4 then 0x2_0000 else if code == 5 then 0x1_0000 else 0
  }

  // Where the trailing zeroes of a ROM begin.
  function DataEnd(rom: seq<byte>): (r: nat)
    ensures r <= |rom| && (r > 0 ==> rom[r - 1] != 0) && forall i :: r <= i < |rom| ==> rom[i] == 0
  {
    if rom == [] then 0 else if rom[|rom| - 1] != 0 then |rom| else DataEnd(rom[..|rom| - 1])
  }

  // A whole bank or more of trailing zeroes is open bus, unless the ROM is nothing else.
  function OpenBusStart(rom: seq<byte>): (r: nat)
    ensures r <= |rom|
    ensures r < |rom| ==>
              0 < r <= |rom| - 0x4000 && rom[r - 1] != 0 && forall i :: r <= i < |rom| ==> rom[i] == 0
    ensures r == |rom| ==>
              || (forall i :: 0 <= i < |rom| ==> rom[i] == 0)
              || (exists i :: 0 <= i < |rom| && |rom| - 0x4000 <= i && rom[i] != 0)
  {
    var end := DataEnd(rom);
    if end > 0 && |rom| - end >= 0x4000 then end else |rom|
  }

  method FindOpenBus(rom: seq<byte>) returns (start: nat)
    ensures start == OpenBusStart(rom)
  {
    var n := |rom|;
    assert rom[..|rom|] == rom;
    while n > 0 && rom[n - 1] == 0
      invariant 0 <= n <= |rom| && DataEnd(rom[..n]) == DataEnd(rom)
    {
      assert rom[..n][..n - 1] == rom[..n - 1];
      n := n - 1;
    }
    start := if n > 0 && |rom| - n >= 0x4000 then n else |rom|;
  }

  // A save file shorter than the RAM the header declares is filled up with 0xFF.
  function Padded(file: seq<byte>, size: nat): (r: seq<byte>)
    ensures |r| == (if |file| < size then size else |file|) && file <= r
    ensures forall i :: |file| <= i < |r| ==> r[i] == 0xFF
  {
    if |file| < size then file + seq(size - |file|, _ => 0xFF) else file
  }

  class Cartridge {
    var rom: seq<byte>
    var openBus: nat
    var mbc: TransferPak.Mbc
    var ram: seq<byte>
    var hasSave: bool
    var ramEnabled: bool
    var dirty: bool
    var romLow: byte
    var high: byte
    var ramBank: byte
    var mode: byte
    var mbc5Rom: u16

    ghost function State(): TransferPak.Cart
      reads this
    {
      TransferPak.Cart(rom, openBus, mbc, ram, ramEnabled, dirty, romLow, high, ramBank, mode, mbc5Rom)
    }

    constructor ()
      ensures rom == [] && ram == [] && romLow == 1 && mbc5Rom == 1 && high == ramBank == mode == 0
      ensures !ramEnabled && !dirty
    {
      rom, openBus, mbc, ram, hasSave := [], 0, TransferPak.RomOnly, [], false;
      ramEnabled, dirty, romLow, high, ramBank, mode, mbc5Rom := false, false, 1, 0, 0, 0, 1;
    }

    // Start over with this ROM and save; `saved` is absent without a save file.
    method Load(image: seq<byte>, saved: Option<seq<byte>>) returns (ok: bool)
      modifies this
      ensures ok <==> |image| >= 0x150 && MbcOf(image[0x147]).Some?
      ensures romLow == 1 && mbc5Rom == 1 && high == ramBank == mode == 0 && !ramEnabled && !dirty
      ensures hasSave == saved.Some?
      ensures ok ==> rom == image && mbc == MbcOf(image[0x147]).value && openBus == OpenBusStart(image)
      ensures ok ==> ram == Padded(if saved.Some? then saved.value else [], HeaderRamSize(image[0x149]))
    {
      hide HeaderRamSize, MbcOf, OpenBusStart, Padded;
      Reset(image, saved.Some?);
      if |image| < 0x150 { return false; }
      var start := FindOpenBus(image);
      var kind := MbcOf(image[0x147]);
      if kind.None? { return false; }
      var file := if saved.Some? then saved.value else [];
      openBus, mbc, ram := start, kind.value, Padded(file, HeaderRamSize(image[0x149]));
      return true;
    }

    method Reset(image: seq<byte>, save: bool)
      modifies this
      ensures rom == image && hasSave == save
      ensures romLow == 1 && mbc5Rom == 1 && high == ramBank == mode == 0 && !ramEnabled && !dirty
    {
      ramEnabled, dirty, romLow, high, ramBank, mode, mbc5Rom := false, false, 1, 0, 0, 0, 1;
      rom, ram, openBus, hasSave := image, [], |image|, save;
      mbc := TransferPak.RomOnly;
    }

    method Read(address: u16) returns (v: byte)
      ensures v == TransferPak.CartRead(State(), address)
    {
      if address < 0x4000 {
        var bank := if mbc.Mbc1? && mode != 0 then high % 4 * 0x20 else 0;
        v := RomAt(bank, address);
        return;
      }
      if address < 0x8000 {
        v := RomAt(TransferPak.SwitchableBank(TransferPak.Cart(rom, openBus, mbc, ram, ramEnabled, dirty, romLow, high,
                                                               ramBank, mode, mbc5Rom)), address - 0x4000);
        return;
      }
      if 0xA000 <= address < 0xC000 && ramEnabled {
        var index := RamIndex(address);
        return if index < |ram| then ram[index] else 0xFF;
      }
      return 0xFF;
    }

    method RomAt(bank: nat, offset: nat) returns (v: byte)
      ensures v == TransferPak.RomByte(State(), bank, offset)
    {
      var banks := (|rom| + 0x3FFF) / 0x4000;
      var index := if rom == [] then 0 else bank % banks * 0x4000 + offset;
      if index >= openBus { return 0xFF; }
      return if index < |rom| then rom[index] else 0xFF;
    }

    function RamIndex(address: u16): (r: nat)
      requires address >= 0xA000
      reads this
      ensures r == TransferPak.RamOffset(State(), address)
    {
      (if mbc.Mbc1? && mode == 0 then 0 else ramBank % 4) * 0x2000 + (address - 0xA000)
    }

    method StoreRam(index: nat, value: byte)
      modifies this`ram, this`dirty
      ensures State() == TransferPak.RamWrite(old(State()), index, value)
    {
      if index < |ram| && ram[index] != value {
        ram := ram[index := value];
        dirty := true;
      }
    }

    method Write(address: u16, value: byte)
      modifies this
      ensures State() == TransferPak.CartWrite(old(State()), address, value) && hasSave == old(hasSave)
    {
      if mbc.RomOnly? {
        if 0xA000 <= address < 0xC000 { StoreRam(address - 0xA000, value); }
        return;
      }
      if address < 0x2000 {
        ramEnabled := value % 0x10 == 0x0A;
      } else if address < 0x4000 {
        if mbc.Mbc1? {
          romLow := value % 0x20;
          if romLow == 0 { romLow := 1; }
        } else if mbc.Mbc5? {
          if address < 0x3000 {
            mbc5Rom := mbc5Rom / 0x100 % 2 * 0x100 + value;
          } else {
            mbc5Rom := mbc5Rom % 0x100 + value % 2 * 0x100;
          }
        } else {
          romLow := value % 0x80;
          if romLow == 0 { romLow := 1; }
        }
      } else if address < 0x6000 {
        if mbc.Mbc1? {
          high := value % 4;
          ramBank := high;
        } else if mbc.Mbc5? {
          ramBank := value % 0x10;
        } else if value <= 3 {
          ramBank := value;
        }
      } else if address < 0x8000 {
        if mbc.Mbc1? { mode := value % 2; }
      } else if 0xA000 <= address < 0xC000 && ramEnabled {
        StoreRam(RamIndex(address), value);
      }
    }

    // `written` says whether the file could be written.
    method FlushSave(written: bool)
      modifies this`dirty
      ensures State() == TransferPak.Flushed(old(State()), hasSave, written)
    {
      if !dirty || !hasSave { return; }
      if written { dirty := false; }
    }
  }

  class PakPort {
    var configured: bool
    var pak: bool
    var cartOn: bool
    var bank: byte
    var reset: byte
    const cart: Cartridge

    ghost function State(): TransferPak.Port
      reads this, cart
    {
      TransferPak.Port(configured, pak, cartOn, bank, reset, cart.State())
    }

    constructor ()
      ensures !configured && !pak && !cartOn && bank == 3 && reset == 0 && fresh(cart)
    {
      configured, pak, cartOn, bank, reset := false, false, false, 3, 0;
      cart := new Cartridge();
    }

    method Status() returns (v: byte)
      modifies this`reset
      ensures v == TransferPak.StatusByte(old(State())) && State() == TransferPak.AfterStatus(old(State()))
    {
      v := (if cartOn then 0x01 else 0) + reset % 4 * 4 + (if configured then 0 else 0x40) + (if pak then 0x80 else 0);
      if cartOn && reset == 3 {
        reset := 2;
      } else if !cartOn && reset == 2 {
        reset := 1;
      } else if !cartOn && reset == 1 {
        reset := 0;
      }
    }

    method Read(address: u16) returns (v: byte)
      modifies this`reset
      ensures (v, State()) == TransferPak.PortRead(old(State()), address)
    {
      var a := address % 0x8000;
      if !pak { return 0; }
      if a <= 0x1FFF { return 0x84; }
      if a <= 0x2FFF { return bank; }
      if a <= 0x3FFF { v := Status(); return; }
      if !cartOn { return 0; }
      v := cart.Read(TransferPak.BusAddress(bank, a));
    }

    method Write(address: u16, value: byte)
      modifies this, cart
      ensures State() == TransferPak.PortWrite(old(State()), address, value) && cart.hasSave == old(cart.hasSave)
    {
      var a := address % 0x8000;
      if a <= 0x1FFF {
        var wasOn := pak;
        if value == 0x84 { pak := true; } else if value == 0xFE { pak := false; }
        if !wasOn && pak { bank, cartOn, reset := 3, false, 0; }
        return;
      }
      if !pak { return; }
      if a <= 0x2FFF {
        bank := if value > 3 then 0 else value;
        return;
      }
      if a <= 0x3FFF {
        var wasOn := cartOn;
        cartOn := value % 2 != 0;
        if !wasOn && cartOn { reset := 2; }
        return;
      }
      if !cartOn { return; }
      cart.Write(TransferPak.BusAddress(bank, a), value);
    }

    method WriteBytes(block: u16, data: seq<byte>)
      requires |data| == TransferPak.BLOCK
      modifies this, cart
      ensures State() == TransferPak.WriteBytes(old(State()), block, data, |data|) && cart.hasSave == old(cart.hasSave)
    {
      hide TransferPak.PortWrite, TransferPak.ByteAddress;
      for i := 0 to |data|
        invariant State() == TransferPak.WriteBytes(old(State()), block, data, i) && cart.hasSave == old(cart.hasSave)
      {
        TransferPak.BlockFits(block, i);
        Write(TransferPak.ByteAddress(block) + i, data[i]);
      }
    }
  }

  // The four ports and the block interface.
  class GbCart {
    const ports: seq<PakPort>

    ghost predicate Valid()
      reads this, ports, set i | 0 <= i < |ports| :: ports[i].cart
    {
      && |ports| == PORTS
      && (forall i, j :: 0 <= i < j < |ports| ==> ports[i] != ports[j] && ports[i].cart != ports[j].cart)
    }

    constructor ()
      ensures Valid() && forall i :: 0 <= i < PORTS ==> !ports[i].configured
    {
      var p0 := new PakPort();
      var p1 := new PakPort();
      var p2 := new PakPort();
      var p3 := new PakPort();
      ports := [p0, p1, p2, p3];
    }

    predicate IsConfigured(port: int)
      reads ports
    {
      0 <= port < |ports| && ports[port].configured
    }

    // The four ports as values.
    ghost function States(): (r: seq<TransferPak.Port>)
      reads this, ports, set i | 0 <= i < |ports| :: ports[i].cart
      ensures |r| == |ports| && forall i :: 0 <= i < |ports| ==> r[i] == ports[i].State()
    {
      seq(|ports|, i requires 0 <= i < |ports| reads ports, set j | 0 <= j < |ports| :: ports[j].cart => ports[i].State())
    }

    ghost function Saves(): (r: seq<bool>)
      reads this, ports, set i | 0 <= i < |ports| :: ports[i].cart
      ensures |r| == |ports| && forall i :: 0 <= i < |ports| ==> r[i] == ports[i].cart.hasSave
    {
      seq(|ports|, i requires 0 <= i < |ports| reads ports, set j | 0 <= j < |ports| :: ports[j].cart => ports[i].cart.hasSave)
    }

    // An empty image clears the port.
    method SetCart(port: int, image: seq<byte>, saved: Option<seq<byte>>)
      requires Valid()
      modifies ports, set i | 0 <= i < |ports| :: ports[i].cart
      ensures Valid() && forall i :: 0 <= i < PORTS && i != port ==> States()[i] == old(States())[i]
      ensures 0 <= port < PORTS ==>
                TransferPakRuns.PortOk(States()[port]) &&
                var p := ports[port];
                && !p.pak && !p.cartOn && p.bank == 3 && p.reset == 0
                && (p.configured <==> image != [] && |image| >= 0x150 && MbcOf(image[0x147]).Some?)
                && p.cart.romLow == 1 && p.cart.mbc5Rom == 1 && p.cart.high == p.cart.ramBank == p.cart.mode == 0
    {
      if port < 0 || port >= PORTS { return; }
      var p := ports[port];
      p.configured, p.pak, p.cartOn, p.bank, p.reset := false, false, false, 3, 0;
      var ok := p.cart.Load(image, saved);
      p.configured := image != [] && ok;
    }

    method HasPak(port: int) returns (has: bool)
      requires Valid()
      ensures has <==> IsConfigured(port)
    {
      has := port >= 0 && port < PORTS && ports[port].configured;
    }

    // `buffer` says whether the caller gave somewhere to put the bytes.
    method ReadBlock(port: int, block: u16, buffer: bool) returns (code: int, out: seq<byte>)
      requires Valid()
      modifies ports
      ensures Valid()
      ensures code == if !old(IsConfigured(port)) then NO_PAK else if !buffer then INVALID else 0
      ensures code == 0 ==>
                0 <= port < PORTS &&
                var (data, p) := TransferPak.ReadBlock(old(States())[port], block);
                out == data && States() == old(States())[port := p]
      ensures code != 0 ==> States() == old(States())
    {
      hide TransferPak.PortRead, TransferPak.ByteAddress;
      out := [];
      if port < 0 || port >= PORTS || !ports[port].configured { return NO_PAK, out; }
      if !buffer { return INVALID, out; }
      var p := ports[port];
      ghost var before := p.State();
      var address := TransferPak.ByteAddress(block);
      if address % 0x8000 <= 0x3FFF {
        var v := p.Read(address);
        out := seq(TransferPak.BLOCK, _ => v);
      } else {
        for i := 0 to TransferPak.BLOCK
          invariant Valid() && States() == old(States()) && |out| == i
          invariant forall j :: 0 <= j < i ==> out[j] == TransferPak.ByteAt(before, block, j)
        {
          TransferPak.BlockFits(block, i);
          WindowReadKeeps(before, block, i);
          var v := p.Read(address + i);
          out := out + [v];
        }
        assert out == TransferPak.ReadBlock(before, block).0;
      }
      code := 0;
    }

    // `data` is absent when the caller gave none.
    method WriteBlock(port: int, block: u16, data: Option<seq<byte>>, written: bool) returns (code: int)
      requires Valid() && (data.Some? ==> |data.value| == TransferPak.BLOCK)
      modifies ports, set i | 0 <= i < |ports| :: ports[i].cart
      ensures Valid() && Saves() == old(Saves())
      ensures code == if !old(IsConfigured(port)) then NO_PAK else if data.None? then INVALID else 0
      ensures code == 0 ==>
                0 <= port < PORTS &&
                States() == old(States())[port := TransferPak.WriteBlock(old(States())[port], block, data.value,
                                                                         old(Saves())[port], written)]
      ensures code != 0 ==> States() == old(States())
    {
      hide TransferPak.WriteBytes;
      if port < 0 || port >= PORTS || !ports[port].configured { return NO_PAK; }
      if data.None? { return INVALID; }
      var p := ports[port];
      p.WriteBytes(block, data.value);
      p.cart.FlushSave(written);
      code := 0;
    }
  }

  lemma WindowReadKeeps(p: TransferPak.Port, block: u16, i: nat)
    requires i < TransferPak.BLOCK && !TransferPak.IsControl(block)
    ensures TransferPak.ByteAddress(block) + i < 0x1_0000
    ensures TransferPak.PortRead(p, TransferPak.ByteAddress(block) + i) == (TransferPak.ByteAt(p, block, i), p)
  {
    TransferPak.BlockFits(block, i);
  }
}
