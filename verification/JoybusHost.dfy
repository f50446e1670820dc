// The processor as the source runs it: the block copied out of guest memory, answered in one
// loop over the shared cartridge model, and copied back.
module JoybusHost {
  import opened Options
  import opened Words
  import opened Rdram
  import opened Joybus
  import DataCrc
  import GbCart
  import TransferPak

  method PutBytes(blk: array<byte>, at: nat, bytes: seq<byte>)
    requires at + |bytes| <= blk.Length
    modifies blk
    ensures blk[..] == Splice(old(blk[..]), at, bytes)
  {
    ghost var before := blk[..];
    assert Splice(before, at, bytes[..0]) == before;
    for i := 0 to |bytes|
      invariant blk[..] == Splice(before, at, bytes[..i])
    {
      ghost var now := blk[..];
      blk[at + i] := bytes[i];
      assert blk[..] == now[at + i := bytes[i]];
      SpliceMore(before, at, bytes, i);
    }
    assert bytes[..|bytes|] == bytes;
  }

  lemma SpliceMore(blk: seq<byte>, at: nat, bytes: seq<byte>, i: nat)
    requires at + |bytes| <= |blk| && i < |bytes|
    ensures Splice(blk, at, bytes[..i])[at + i := bytes[i]] == Splice(blk, at, bytes[..i + 1])
  {}

  method SetNoDevice(blk: array<byte>, f: Frame)
    requires f.at + 1 < blk.Length
    modifies blk
    ensures blk[..] == NoDevice(old(blk[..]), f)
  {
    ghost var before := blk[..];
    blk[f.at + 1] := NoDeviceBit(blk[f.at + 1]);
    assert blk[..] == before[f.at + 1 := blk[f.at + 1]];
  }

  method AnswerRead(blk: array<byte>, carts: GbCart.GbCart, f: Frame, ghost d: Disk)
    requires carts.Valid() && blk.Length == SIZE && |d.saves| == 4 && End(f) <= SIZE && f.chan < 4
    requires Readable(blk[..], f) && blk[f.at + 2] == READ
    modifies blk, carts.ports
    ensures carts.Valid() && carts.Saves() == old(carts.Saves())
    ensures Bus(blk[..], carts.States()) == Respond(Bus(old(blk[..]), old(carts.States())), d, f)
  {
    hide TransferPak.ReadBlock, DataCrc.Crc, Splice, NoDevice, BlockOf, Respond;
    ghost var s := Bus(blk[..], carts.States());
    RespondRead(s, d, f);
    var code, data := carts.ReadBlock(f.chan, BlockOf(blk[..], f), true);
    if code == 0 && f.rx >= 33 {
      var crc := DataCrc.ComputeCrc(data);
      PutBytes(blk, RxAt(f), data + [crc]);
    } else {
      SetNoDevice(blk, f);
    }
  }

  lemma RespondRead(s: Bus, d: Disk, f: Frame)
    requires BusOk(s, d) && End(f) <= SIZE && f.chan < 4 && Readable(s.blk, f) && s.blk[f.at + 2] == READ
    ensures Respond(s, d, f) ==
            var port := s.ports[f.chan];
            if !port.configured then s.(blk := NoDevice(s.blk, f))
            else
              var (data, port') := TransferPak.ReadBlock(port, BlockOf(s.blk, f));
              Bus(if f.rx >= 33 then Splice(s.blk, RxAt(f), data + [DataCrc.Crc(data)]) else NoDevice(s.blk, f),
                  s.ports[f.chan := port'])
  {
    hide TransferPak.ReadBlock, DataCrc.Crc, Splice, NoDevice, BlockOf;
  }

  method AnswerWrite(blk: array<byte>, carts: GbCart.GbCart, f: Frame, written: bool)
    requires carts.Valid() && blk.Length == SIZE && End(f) <= SIZE && f.chan < 4
    requires Readable(blk[..], f) && blk[f.at + 2] == WRITE
    modifies blk, carts.ports, set i | 0 <= i < |carts.ports| :: carts.ports[i].cart
    ensures carts.Valid() && carts.Saves() == old(carts.Saves())
    ensures Bus(blk[..], carts.States()) ==
            Respond(Bus(old(blk[..]), old(carts.States())), Disk(old(carts.Saves()), written), f)
  {
    hide TransferPak.WriteBlock, DataCrc.Crc, Splice, NoDevice, BlockOf, Respond;
    ghost var s, d := Bus(blk[..], carts.States()), Disk(carts.Saves(), written);
    RespondWrite(s, d, f);
    var data := blk[f.at + 5..f.at + 37];
    assert data == s.blk[f.at + 5..f.at + 37];
    var code := carts.WriteBlock(f.chan, BlockOf(blk[..], f), Some(data), written);
    if code == 0 && f.rx >= 1 {
      var crc := DataCrc.ComputeCrc(data);
      PutBytes(blk, RxAt(f), [crc]);
    } else {
      SetNoDevice(blk, f);
    }
  }

  lemma RespondWrite(s: Bus, d: Disk, f: Frame)
    requires BusOk(s, d) && End(f) <= SIZE && f.chan < 4 && Readable(s.blk, f) && s.blk[f.at + 2] == WRITE
    ensures Respond(s, d, f) ==
            var port, data := s.ports[f.chan], s.blk[f.at + 5..f.at + 37];
            if !port.configured then s.(blk := NoDevice(s.blk, f))
            else
              Bus(if f.rx >= 1 then Splice(s.blk, RxAt(f), [DataCrc.Crc(data)]) else NoDevice(s.blk, f),
                  s.ports[f.chan := TransferPak.WriteBlock(port, BlockOf(s.blk, f), data, d.saves[f.chan], d.written)])
  {
    hide TransferPak.WriteBlock, DataCrc.Crc, Splice, NoDevice, BlockOf;
  }

  // Answer one frame in place.
  method Answer(blk: array<byte>, carts: GbCart.GbCart, f: Frame, written: bool)
    requires carts.Valid() && blk.Length == SIZE && End(f) <= SIZE && f.chan < 4 && Readable(blk[..], f)
    modifies blk, carts.ports, set i | 0 <= i < |carts.ports| :: carts.ports[i].cart
    ensures carts.Valid() && carts.Saves() == old(carts.Saves())
    ensures Bus(blk[..], carts.States()) ==
            Respond(Bus(old(blk[..]), old(carts.States())), Disk(old(carts.Saves()), written), f)
  {
    hide TransferPak.ReadBlock, TransferPak.WriteBlock, DataCrc.Crc, Splice, NoDevice, BlockOf;
    var cmd, rxAt := blk[f.at + 2], RxAt(f);
    if cmd == INFO {
      if f.rx >= 3 {
        var has := carts.HasPak(f.chan);
        PutBytes(blk, rxAt, [0x05, 0x00, if has then 0x01 else 0x00]);
      }
    } else if cmd == READ {
      AnswerRead(blk, carts, f, Disk(carts.Saves(), written));
    } else if cmd == WRITE {
      AnswerWrite(blk, carts, f, written);
    } else if cmd == STATE {
      PutBytes(blk, rxAt, seq(f.rx, _ => 0));
    }
  }

  // The guest's 64 bytes at pif.
  ghost function GuestBlock(m: seq<byte>, pif: nat): (r: seq<byte>)
    ensures |r| == SIZE
  {
    seq<byte>(SIZE, i requires 0 <= i < SIZE => Guest(m, pif + i))
  }

  // The block is answered in place, the ports are left as its frames leave them, and no other
  // guest byte changes.
  method RunJoybus(rdram: array<byte>, carts: GbCart.GbCart, pif: nat, written: bool)
    requires carts.Valid() && rdram.Length % 4 == 0 && pif + SIZE <= rdram.Length
    modifies rdram, carts.ports, set i | 0 <= i < |carts.ports| :: carts.ports[i].cart
    ensures var after := Process(Bus(GuestBlock(old(rdram[..]), pif), old(carts.States())),
                                 Disk(old(carts.Saves()), written), 0, 0);
            carts.States() == after.ports && GuestBlock(rdram[..], pif) == after.blk
    ensures forall x: nat :: x < pif || pif + SIZE <= x ==> Guest(rdram[..], x) == Guest(old(rdram[..]), x)
  {
    hide *;
    var blk := CopyIn(rdram, pif);
    RunBlock(blk, carts, written);
    CopyOut(rdram, pif, blk);
  }

  method CopyIn(rdram: array<byte>, pif: nat) returns (blk: array<byte>)
    requires rdram.Length % 4 == 0 && pif + SIZE <= rdram.Length
    ensures fresh(blk) && blk.Length == SIZE && blk[..] == GuestBlock(rdram[..], pif)
  {
    blk := new byte[SIZE];
    for i := 0 to SIZE
      invariant forall j :: 0 <= j < i ==> blk[j] == Guest(rdram[..], pif + j)
    {
      SwizzleInvolution(pif + i);
      blk[i] := rdram[Swizzle(pif + i)];
    }
  }

  method CopyOut(rdram: array<byte>, pif: nat, blk: array<byte>)
    requires blk != rdram && blk.Length == SIZE && rdram.Length % 4 == 0 && pif + SIZE <= rdram.Length
    modifies rdram
    ensures GuestBlock(rdram[..], pif) == blk[..]
    ensures forall x: nat :: x < pif || pif + SIZE <= x ==> Guest(rdram[..], x) == Guest(old(rdram[..]), x)
  {
    hide Guest;
    ghost var m0 := rdram[..];
    for i := 0 to SIZE
      invariant forall x: nat :: Guest(rdram[..], x) == if pif <= x < pif + i then blk[x - pif] else Guest(m0, x)
    {
      StoreGuest(rdram, pif + i, blk[i]);
    }
  }

  method RunBlock(blk: array<byte>, carts: GbCart.GbCart, written: bool)
    requires carts.Valid() && blk.Length == SIZE
    modifies blk, carts.ports, set i | 0 <= i < |carts.ports| :: carts.ports[i].cart
    ensures carts.Valid() && Bus(blk[..], carts.States()) ==
            Process(Bus(old(blk[..]), old(carts.States())), Disk(old(carts.Saves()), written), 0, 0)
  {
    hide Respond;
    ghost var d := Disk(carts.Saves(), written);
    var chan, p := 0, 0;
    while p < SIZE - 1
      invariant carts.Valid() && carts.Saves() == d.saves
      invariant Process(Bus(blk[..], carts.States()), d, p, chan)
                == Process(Bus(old(blk[..]), old(carts.States())), d, 0, 0)
      decreases SIZE - p
    {
      var t := blk[p];
      if t == 0xFE { return; }
      if t == 0xFF { p := p + 1; continue; }
      if t == 0x00 { p, chan := p + 1, chan + 1; continue; }
      if t == 0xFD { p := p + 1; continue; }
      var f := FrameAt(blk[..], p, chan);
      if End(f) > SIZE { return; }
      if chan > 3 { p, chan := End(f), chan + 1; continue; }
      if !Readable(blk[..], f) { return; }
      Answer(blk, carts, f, written);
      p, chan := End(f), chan + 1;
    }
  }
}
