// The joybus processor (si_joybus.cpp): a 64-byte block of command frames answered in place.
module Joybus {
  import opened Words
  import opened Rdram
  import DataCrc
  import TransferPak

  const SIZE := 64
  const INFO: byte := 0
  const STATE: byte := 1
  const READ: byte := 2
  const WRITE: byte := 3

  // The block and the ports behind the four channels. `saves` says which cartridges have a
  // save file, `written` whether it can be written.
  datatype Bus = Bus(blk: seq<byte>, ports: seq<TransferPak.Port>)

  datatype Disk = Disk(saves: seq<bool>, written: bool)

  predicate BusOk(s: Bus, d: Disk) { |s.blk| == SIZE && |s.ports| == 4 && |d.saves| == 4 }

  // A frame as its header gives it: where it begins, its channel, and how many bytes are
  // sent and received.
  datatype Frame = Frame(at: nat, chan: nat, tx: nat, rx: nat)

  function FrameAt(blk: seq<byte>, p: nat, chan: nat): Frame
    requires p + 1 < |blk|
  {
    Frame(p, chan, blk[p] % 0x40, blk[p + 1] % 0x40)
  }

  function RxAt(f: Frame): nat { f.at + 2 + f.tx }
  function End(f: Frame): nat { RxAt(f) + f.rx }

  // The command byte, and the address and data bytes its command reads, lie in the block,
  // wherever the frame's own send area ends.
  predicate Readable(blk: seq<byte>, f: Frame) {
    && f.at + 2 < |blk|
    && (blk[f.at + 2] == READ ==> f.at + 4 < |blk|) && (blk[f.at + 2] == WRITE ==> f.at + 36 < |blk|)
  }

  // --- Answering one frame -------------------------------------------------------------------

  // v | 0x80
  function NoDeviceBit(v: byte): byte { if v < 0x80 then v + 0x80 else v }

  function NoDevice(blk: seq<byte>, f: Frame): seq<byte>
    requires f.at + 1 < |blk|
  {
    blk[f.at + 1 := NoDeviceBit(blk[f.at + 1])]
  }

  function BlockOf(blk: seq<byte>, f: Frame): u16
    requires f.at + 4 < |blk|
  {
    var high: int, low: int := blk[f.at + 3], blk[f.at + 4];
    (high * 0x100 + low) / 0x20
  }

  function Respond(s: Bus, d: Disk, f: Frame): (r: Bus)
    requires BusOk(s, d) && End(f) <= SIZE && f.chan < 4 && Readable(s.blk, f)
    ensures BusOk(r, d)
  {
    var cmd, rxAt, port := s.blk[f.at + 2], RxAt(f), s.ports[f.chan];
    if cmd == INFO then
      if f.rx >= 3 then s.(blk := Splice(s.blk, rxAt, [0x05, 0x00, if port.configured then 0x01 else 0x00])) else s
    else if cmd == READ then
      if !port.configured then s.(blk := NoDevice(s.blk, f))
      else
        var (data, port') := TransferPak.ReadBlock(port, BlockOf(s.blk, f));
        Bus(if f.rx >= 33 then Splice(s.blk, rxAt, data + [DataCrc.Crc(data)]) else NoDevice(s.blk, f),
            s.ports[f.chan := port'])
    else if cmd == WRITE then
      if !port.configured then s.(blk := NoDevice(s.blk, f))
      else
        var data := s.blk[f.at + 5..f.at + 37];
        var port' := TransferPak.WriteBlock(port, BlockOf(s.blk, f), data, d.saves[f.chan], d.written);
        Bus(if f.rx >= 1 then Splice(s.blk, rxAt, [DataCrc.Crc(data)]) else NoDevice(s.blk, f),
            s.ports[f.chan := port'])
    else if cmd == STATE then s.(blk := Splice(s.blk, rxAt, seq(f.rx, _ => 0)))
    else s
  }

  // --- The whole block -----------------------------------------------------------------------

  // From position p on; a frame that runs past the block ends the run, and so, here, does one
  // whose command would read past it.
  function Process(s: Bus, d: Disk, p: nat, chan: nat): (r: Bus)
    requires BusOk(s, d)
    ensures BusOk(r, d)
    decreases SIZE - p
  {
    if p >= SIZE - 1 || s.blk[p] == 0xFE then s
    else if s.blk[p] == 0xFF || s.blk[p] == 0xFD then Process(s, d, p + 1, chan)
    else if s.blk[p] == 0x00 then Process(s, d, p + 1, chan + 1)
    else
      var f := FrameAt(s.blk, p, chan);
      if End(f) > SIZE then s
      else if chan > 3 then Process(s, d, End(f), chan + 1)
      else if !Readable(s.blk, f) then s
      else Process(Respond(s, d, f), d, End(f), chan + 1)
  }

  // The frames of a block, answered or not.
  function Parse(blk: seq<byte>, p: nat, chan: nat): seq<Frame>
    requires |blk| == SIZE
    decreases SIZE - p
  {
    if p >= SIZE - 1 || blk[p] == 0xFE then []
    else if blk[p] == 0xFF || blk[p] == 0xFD then Parse(blk, p + 1, chan)
    else if blk[p] == 0x00 then Parse(blk, p + 1, chan + 1)
    else
      var f := FrameAt(blk, p, chan);
      if End(f) > SIZE then [] else [f] + Parse(blk, End(f), chan + 1)
  }

  ghost predicate AllReadable(blk: seq<byte>, fs: seq<Frame>) {
    forall k :: 0 <= k < |fs| && fs[k].chan < 4 ==> Readable(blk, fs[k])
  }
}
