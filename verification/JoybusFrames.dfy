// What answering a block in place leaves alone: only response areas and no-device bits
// change, and the block still parses to the same frames on the same channels.
module JoybusFrames {
  import opened Words
  import opened Rdram
  import opened Joybus
  import DataCrc
  import TransferPak
  import TransferPakRuns

  // Byte i of a block may change from v to w when answering frame f.
  predicate Allowed(f: Frame, i: nat, v: byte, w: byte) {
    w == v || RxAt(f) <= i < End(f) || (i == f.at + 1 && w == NoDeviceBit(v))
  }

  lemma RespondChanges(s: Bus, d: Disk, f: Frame)
    requires BusOk(s, d) && End(f) <= SIZE && f.chan < 4 && Readable(s.blk, f)
    ensures forall i :: 0 <= i < SIZE ==> Allowed(f, i, s.blk[i], Respond(s, d, f).blk[i])
  {
    hide TransferPak.ReadBlock, TransferPak.WriteBlock, DataCrc.Crc, NoDeviceBit, BlockOf;
  }

  lemma {:induction false} ParseFrom(a: seq<byte>, b: seq<byte>, p: nat, chan: nat)
    requires |a| == |b| == SIZE && forall i :: p <= i < SIZE ==> a[i] == b[i]
    ensures Parse(a, p, chan) == Parse(b, p, chan)
    decreases SIZE - p
  {
    if p >= SIZE - 1 || a[p] == 0xFE {
    } else if a[p] == 0xFF || a[p] == 0xFD {
      ParseFrom(a, b, p + 1, chan);
    } else if a[p] == 0x00 {
      ParseFrom(a, b, p + 1, chan + 1);
    } else if End(FrameAt(a, p, chan)) <= SIZE {
      ParseFrom(a, b, End(FrameAt(a, p, chan)), chan + 1);
    }
  }

  // Byte i may change from v to w when answering the given frames.
  ghost predicate AllowedBy(fs: seq<Frame>, i: nat, v: byte, w: byte) {
    w == v || exists k :: 0 <= k < |fs| && fs[k].chan < 4 && Allowed(fs[k], i, v, w)
  }

  // Frames begin where the parse does or later, and in order, each after the one before ends.
  ghost predicate InOrder(fs: seq<Frame>, p: nat, chan: nat) {
    && (forall k :: 0 <= k < |fs| ==> p <= fs[k].at && chan <= fs[k].chan && End(fs[k]) <= SIZE)
    && (forall j, k :: 0 <= j < k < |fs| ==> End(fs[j]) <= fs[k].at && fs[j].chan < fs[k].chan)
  }

  lemma Prepended(f: Frame, rest: seq<Frame>)
    requires InOrder(rest, End(f), f.chan + 1) && End(f) <= SIZE
    ensures InOrder([f] + rest, f.at, f.chan)
  {
    var fs := [f] + rest;
    assert fs[0] == f && forall k :: 0 < k < |fs| ==> fs[k] == rest[k - 1];
  }

  lemma {:induction false} FramesInOrder(blk: seq<byte>, p: nat, chan: nat)
    requires |blk| == SIZE
    ensures InOrder(Parse(blk, p, chan), p, chan)
    decreases SIZE - p
  {
    if p >= SIZE - 1 || blk[p] == 0xFE {
    } else if blk[p] == 0xFF || blk[p] == 0xFD {
      FramesInOrder(blk, p + 1, chan);
    } else if blk[p] == 0x00 {
      FramesInOrder(blk, p + 1, chan + 1);
    } else if End(FrameAt(blk, p, chan)) <= SIZE {
      var f := FrameAt(blk, p, chan);
      FramesInOrder(blk, End(f), chan + 1);
      Prepended(f, Parse(blk, End(f), chan + 1));
    }
  }

  // Bytes before the current position are final; the others change only as their frame allows.
  lemma {:induction false} ProcessIs(s: Bus, d: Disk, p: nat, chan: nat)
    requires BusOk(s, d)
    ensures var r, fs := Process(s, d, p, chan), Parse(s.blk, p, chan);
            && (forall i :: 0 <= i < p && i < SIZE ==> r.blk[i] == s.blk[i])
            && (forall i :: 0 <= i < SIZE ==> AllowedBy(fs, i, s.blk[i], r.blk[i]))
            && Parse(r.blk, p, chan) == fs
    decreases SIZE - p
  {
    hide Respond, Allowed;
    if p >= SIZE - 1 || s.blk[p] == 0xFE {
    } else if s.blk[p] == 0xFF || s.blk[p] == 0xFD {
      ProcessIs(s, d, p + 1, chan);
    } else if s.blk[p] == 0x00 {
      ProcessIs(s, d, p + 1, chan + 1);
    } else {
      var f := FrameAt(s.blk, p, chan);
      if End(f) <= SIZE {
        if chan > 3 {
          ProcessIs(s, d, End(f), chan + 1);
          LaterFrames(f, Parse(s.blk, End(f), chan + 1), s.blk, s.blk, Process(s, d, End(f), chan + 1).blk);
        } else if Readable(s.blk, f) {
          ProcessFrame(s, d, f);
        }
      }
    }
  }

  lemma LaterFrames(f: Frame, rest: seq<Frame>, a: seq<byte>, b: seq<byte>, c: seq<byte>)
    requires |a| == |b| == |c| == SIZE
    requires forall i :: 0 <= i < SIZE ==> b[i] == a[i] || (f.chan < 4 && i < End(f) && Allowed(f, i, a[i], b[i]))
    requires forall i :: 0 <= i < End(f) && i < SIZE ==> c[i] == b[i]
    requires forall i :: 0 <= i < SIZE ==> AllowedBy(rest, i, b[i], c[i])
    ensures forall i :: 0 <= i < SIZE ==> AllowedBy([f] + rest, i, a[i], c[i])
  {
    hide Allowed;
    var fs := [f] + rest;
    assert fs[0] == f && forall k :: 0 <= k < |rest| ==> fs[k + 1] == rest[k];
  }

  lemma ProcessFrame(s: Bus, d: Disk, f: Frame)
    requires BusOk(s, d) && f.at < SIZE - 1 && f == FrameAt(s.blk, f.at, f.chan) && End(f) <= SIZE && f.chan < 4
    requires Readable(s.blk, f) && s.blk[f.at] !in {0, 0xFD, 0xFE, 0xFF}
    ensures var r, fs := Process(s, d, f.at, f.chan), Parse(s.blk, f.at, f.chan);
            && (forall i :: 0 <= i < f.at ==> r.blk[i] == s.blk[i])
            && (forall i :: 0 <= i < SIZE ==> AllowedBy(fs, i, s.blk[i], r.blk[i]))
            && Parse(r.blk, f.at, f.chan) == fs
    decreases SIZE - f.at, 0
  {
    hide Respond, Allowed, AllowedBy;
    var s1 := Respond(s, d, f);
    var r, rest := Process(s1, d, End(f), f.chan + 1), Parse(s.blk, End(f), f.chan + 1);
    FrameKept(s, d, f);
    ProcessIs(s1, d, End(f), f.chan + 1);
    ParseFrom(s.blk, s1.blk, End(f), f.chan + 1);
    LaterFrames(f, rest, s.blk, s1.blk, r.blk);
    assert r.blk[f.at] == s1.blk[f.at] && r.blk[f.at + 1] == s1.blk[f.at + 1];
  }

  // Answering a frame leaves what is before and after it, and the sizes its header gives.
  lemma FrameKept(s: Bus, d: Disk, f: Frame)
    requires BusOk(s, d) && End(f) <= SIZE && f.chan < 4 && Readable(s.blk, f)
    ensures var blk := Respond(s, d, f).blk;
            && (forall i :: 0 <= i <= f.at || End(f) <= i < SIZE ==> blk[i] == s.blk[i])
            && blk[f.at + 1] % 0x40 == s.blk[f.at + 1] % 0x40
            && (forall i :: 0 <= i < SIZE ==> blk[i] == s.blk[i] || (i < End(f) && Allowed(f, i, s.blk[i], blk[i])))
  {
    hide Respond, NoDeviceBit;
    RespondChanges(s, d, f);
    SameHeader(s.blk[f.at + 1]);
  }

  lemma SameHeader(v: byte)
    ensures NoDeviceBit(v) % 0x40 == v % 0x40
  {}

  // --- Every frame gets its answer ------------------------------------------------------------------

  // The block and the ports as they stand when frame k's turn comes.
  ghost function StateAt(s: Bus, d: Disk, p: nat, chan: nat, k: nat): (r: Bus)
    requires BusOk(s, d)
    ensures BusOk(r, d)
    decreases SIZE - p
  {
    if p >= SIZE - 1 || s.blk[p] == 0xFE then s
    else if s.blk[p] == 0xFF || s.blk[p] == 0xFD then StateAt(s, d, p + 1, chan, k)
    else if s.blk[p] == 0x00 then StateAt(s, d, p + 1, chan + 1, k)
    else
      var f := FrameAt(s.blk, p, chan);
      if End(f) > SIZE || k == 0 then s
      else if chan > 3 then StateAt(s, d, End(f), chan + 1, k - 1)
      else if !Readable(s.blk, f) then s
      else StateAt(Respond(s, d, f), d, End(f), chan + 1, k - 1)
  }

  // When every frame's command bytes lie in the block, each frame on one of the four channels
  // ends up holding the answer given to it, which no later frame disturbs.
  lemma {:induction false} Answered(s: Bus, d: Disk, p: nat, chan: nat, k: nat)
    requires BusOk(s, d) && k < |Parse(s.blk, p, chan)| && AllReadable(s.blk, Parse(s.blk, p, chan))
    requires Parse(s.blk, p, chan)[k].chan < 4
    ensures var f, t := Parse(s.blk, p, chan)[k], StateAt(s, d, p, chan, k);
            && End(f) <= SIZE && Readable(t.blk, f)
            && (forall i :: f.at <= i < SIZE ==> t.blk[i] == s.blk[i])
            && (forall i :: f.at <= i < End(f) ==> Process(s, d, p, chan).blk[i] == Respond(t, d, f).blk[i])
    decreases SIZE - p
  {
    hide Respond;
    FramesInOrder(s.blk, p, chan);
    if s.blk[p] == 0xFF || s.blk[p] == 0xFD {
      Answered(s, d, p + 1, chan, k);
    } else if s.blk[p] == 0x00 {
      Answered(s, d, p + 1, chan + 1, k);
    } else {
      var f := FrameAt(s.blk, p, chan);
      var rest := Parse(s.blk, End(f), chan + 1);
      assert Parse(s.blk, p, chan) == [f] + rest;
      if chan <= 3 {
        assert Parse(s.blk, p, chan)[0] == f && Readable(s.blk, f);
        AnsweredFrom(s, d, f, k);
      }
    }
  }

  lemma AnsweredFrom(s: Bus, d: Disk, f: Frame, k: nat)
    requires BusOk(s, d) && f.at < SIZE - 1 && f == FrameAt(s.blk, f.at, f.chan) && End(f) <= SIZE && f.chan < 4
    requires Readable(s.blk, f) && s.blk[f.at] !in {0, 0xFD, 0xFE, 0xFF}
    requires k < |Parse(s.blk, f.at, f.chan)| && AllReadable(s.blk, Parse(s.blk, f.at, f.chan))
    requires Parse(s.blk, f.at, f.chan)[k].chan < 4
    ensures var g, t := Parse(s.blk, f.at, f.chan)[k], StateAt(s, d, f.at, f.chan, k);
            && End(g) <= SIZE && Readable(t.blk, g)
            && (forall i :: g.at <= i < SIZE ==> t.blk[i] == s.blk[i])
            && (forall i :: g.at <= i < End(g) ==> Process(s, d, f.at, f.chan).blk[i] == Respond(t, d, g).blk[i])
    decreases SIZE - f.at, 0
  {
    hide Respond;
    var s1, rest := Respond(s, d, f), Parse(s.blk, End(f), f.chan + 1);
    assert Parse(s.blk, f.at, f.chan) == [f] + rest;
    RespondChanges(s, d, f);
    if k == 0 {
      ProcessIs(s1, d, End(f), f.chan + 1);
    } else {
      ParseFrom(s.blk, s1.blk, End(f), f.chan + 1);
      FramesInOrder(s.blk, End(f), f.chan + 1);
      RestReadable(s.blk, s1.blk, f, rest);
      assert Parse(s.blk, f.at, f.chan)[k] == rest[k - 1];
      Answered(s1, d, End(f), f.chan + 1, k - 1);
    }
  }

  lemma RestReadable(a: seq<byte>, b: seq<byte>, f: Frame, rest: seq<Frame>)
    requires |a| == |b| == SIZE && AllReadable(a, [f] + rest)
    requires forall i :: End(f) <= i < SIZE ==> a[i] == b[i]
    requires forall k :: 0 <= k < |rest| ==> End(f) <= rest[k].at
    ensures AllReadable(b, rest)
  {
    assert forall k :: 0 <= k < |rest| ==> ([f] + rest)[k + 1] == rest[k];
  }

  // --- A block written and read back over the joybus ---------------------------------------------------

  // Write a block to cartridge RAM with one frame and read it with another: the answer is the
  // bytes that were sent, closed by the same CRC that answered the write.
  lemma WriteThenRead(s: Bus, d: Disk, w: Frame, r: Frame, blk: seq<byte>)
    requires BusOk(s, d) && End(w) <= SIZE && End(r) <= SIZE && w.chan == r.chan < 4 && |blk| == SIZE
    requires Readable(s.blk, w) && s.blk[w.at + 2] == WRITE && w.rx >= 1
    requires Readable(blk, r) && blk[r.at + 2] == READ && r.rx >= 33
    requires BlockOf(blk, r) == BlockOf(s.blk, w)
    requires s.ports[w.chan].configured && TransferPakRuns.InRam(s.ports[w.chan], BlockOf(s.blk, w))
    ensures var s1 := Respond(s, d, w);
            var s2 := Respond(Bus(blk, s1.ports), d, r);
            && s2.blk[RxAt(r)..RxAt(r) + 32] == s.blk[w.at + 5..w.at + 37]
            && s2.blk[RxAt(r) + 32] == s1.blk[RxAt(w)]
            && s2.ports == s1.ports
  {
    var data, block, p := s.blk[w.at + 5..w.at + 37], BlockOf(s.blk, w), s.ports[w.chan];
    TransferPakRuns.RoundTrip(p, block, data, d.saves[w.chan], d.written);
    hide TransferPak.ReadBlock, TransferPak.WriteBlock, DataCrc.Crc, TransferPakRuns.InRam;
    var q := TransferPak.WriteBlock(p, block, data, d.saves[w.chan], d.written);
    var s1 := Respond(s, d, w);
    assert s1.ports == s.ports[w.chan := q] && s1.blk[RxAt(w)] == DataCrc.Crc(data);
    var s2 := Respond(Bus(blk, s1.ports), d, r);
    assert s2.blk == Splice(blk, RxAt(r), data + [DataCrc.Crc(data)]);
  }

  // --- Blocks as they are laid out --------------------------------------------------------------------

  // What a block may hold: a channel skipped, filler (a pad or a channel reset), or a command
  // of tx bytes with room for rx.
  datatype Slot = SkipChannel | Filler(reset: bool) | Command(send: seq<byte>, rx: nat)

  predicate SlotOk(s: Slot) { s.Command? ==> 1 <= |s.send| < 0x40 && s.rx < 0x40 }

  function Bytes(s: Slot): seq<byte>
    requires SlotOk(s)
  {
    match s
    case SkipChannel => [0x00]
    case Filler(reset) => [if reset then 0xFD else 0xFF]
    case Command(send, rx) => [|send|, rx] + send + seq(rx, _ => 0xFF)
  }

  // A block laid out slot by slot and ended by 0xFE, from position p on.
  ghost predicate LaidOut(blk: seq<byte>, slots: seq<Slot>, p: nat)
    decreases |slots|
  {
    |blk| == SIZE &&
    if slots == [] then p < SIZE - 1 ==> blk[p] == 0xFE
    else
      && SlotOk(slots[0]) && p + |Bytes(slots[0])| < SIZE
      && blk[p..p + |Bytes(slots[0])|] == Bytes(slots[0])
      && LaidOut(blk, slots[1..], p + |Bytes(slots[0])|)
  }

  // One frame for each command, on channels counted by commands and skips.
  function FramesOf(slots: seq<Slot>, p: nat, chan: nat): seq<Frame>
    requires forall k :: 0 <= k < |slots| ==> SlotOk(slots[k])
    decreases |slots|
  {
    if slots == [] then []
    else
      var s, next := slots[0], p + |Bytes(slots[0])|;
      match s
      case SkipChannel => FramesOf(slots[1..], next, chan + 1)
      case Filler(_) => FramesOf(slots[1..], next, chan)
      case Command(send, rx) => [Frame(p, chan, |send|, rx)] + FramesOf(slots[1..], next, chan + 1)
  }

  lemma {:induction false} SlotsOk(blk: seq<byte>, slots: seq<Slot>, p: nat)
    requires LaidOut(blk, slots, p)
    ensures forall k :: 0 <= k < |slots| ==> SlotOk(slots[k])
    decreases |slots|
  {
    if slots != [] {
      SlotsOk(blk, slots[1..], p + |Bytes(slots[0])|);
      assert forall k :: 0 < k < |slots| ==> slots[k] == slots[1..][k - 1];
    }
  }

  // A block that is laid out parses to its commands.
  lemma {:induction false} LayoutParses(blk: seq<byte>, slots: seq<Slot>, p: nat, chan: nat)
    requires LaidOut(blk, slots, p)
    ensures forall k :: 0 <= k < |slots| ==> SlotOk(slots[k])
    ensures Parse(blk, p, chan) == FramesOf(slots, p, chan)
    decreases |slots|
  {
    hide Bytes, SlotOk, Parse;
    SlotsOk(blk, slots, p);
    if slots == [] {
      ParseEnd(blk, p, chan);
    } else {
      var s, n := slots[0], |Bytes(slots[0])|;
      ParseSlot(blk, s, p, chan);
      LayoutParses(blk, slots[1..], p + n, if s.Filler? then chan else chan + 1);
    }
  }

  lemma ParseEnd(blk: seq<byte>, p: nat, chan: nat)
    requires |blk| == SIZE && (p < SIZE - 1 ==> blk[p] == 0xFE)
    ensures Parse(blk, p, chan) == []
  {}

  lemma ParseSlot(blk: seq<byte>, s: Slot, p: nat, chan: nat)
    requires SlotOk(s) && p + |Bytes(s)| < SIZE == |blk| && blk[p..p + |Bytes(s)|] == Bytes(s)
    ensures var next := p + |Bytes(s)|;
            Parse(blk, p, chan) ==
            match s
            case SkipChannel => Parse(blk, next, chan + 1)
            case Filler(_) => Parse(blk, next, chan)
            case Command(send, rx) => [Frame(p, chan, |send|, rx)] + Parse(blk, next, chan + 1)
  {
    SlotBytes(blk, s, p);
    hide Bytes;
  }

  lemma SlotBytes(blk: seq<byte>, s: Slot, p: nat)
    requires SlotOk(s) && p + |Bytes(s)| < SIZE == |blk| && blk[p..p + |Bytes(s)|] == Bytes(s)
    ensures match s
            case SkipChannel => blk[p] == 0x00 && |Bytes(s)| == 1
            case Filler(reset) => blk[p] == (if reset then 0xFD else 0xFF) && |Bytes(s)| == 1
            case Command(send, rx) =>
              blk[p] == |send| && blk[p + 1] == rx && |Bytes(s)| == 2 + |send| + rx
  {
    var b := Bytes(s);
    assert blk[p] == blk[p..p + |b|][0];
    if s.Command? { assert blk[p + 1] == blk[p..p + |b|][1]; }
  }

  // --- What each command is answered with -------------------------------------------------------------

  // Blocks that agree outside lo..hi.
  predicate SameBut(a: seq<byte>, b: seq<byte>, lo: nat, hi: nat) {
    |a| == |b| && forall i :: 0 <= i < |a| && !(lo <= i < hi) ==> a[i] == b[i]
  }

  // The no-device bit of the frame's receive size is set and nothing else differs.
  predicate Refuses(a: seq<byte>, b: seq<byte>, f: Frame)
    requires f.at + 1 < |a|
  {
    SameBut(a, b, f.at + 1, f.at + 2) && b[f.at + 1] == a[f.at + 1] % 0x80 + 0x80
  }

  // The accessory address in the two bytes after the command, in blocks of 32 bytes.
  predicate Addresses(blk: seq<byte>, f: Frame, block: u16)
    requires f.at + 4 < |blk|
  {
    block == blk[f.at + 3] as int * 8 + blk[f.at + 4] as int / 0x20
  }

  predicate Answerable(s: Bus, d: Disk, f: Frame) {
    BusOk(s, d) && End(f) <= SIZE && f.chan < 4 && Readable(s.blk, f)
  }

  // INFO: the controller type and whether the channel has a cartridge, given room for them.
  lemma InfoReply(s: Bus, d: Disk, f: Frame)
    requires Answerable(s, d, f) && s.blk[f.at + 2] == 0
    ensures var t, rx := Respond(s, d, f), f.at + 2 + f.tx;
            && t.ports == s.ports && SameBut(s.blk, t.blk, rx, if f.rx >= 3 then rx + 3 else rx)
            && (f.rx >= 3 ==>
                && t.blk[rx] == 0x05 && t.blk[rx + 1] == 0x00
                && t.blk[rx + 2] == if s.ports[f.chan].configured then 0x01 else 0x00)
  {}

  // STATE: an idle controller. Commands there are none of change nothing.
  lemma StateReply(s: Bus, d: Disk, f: Frame)
    requires Answerable(s, d, f)
    ensures var t, rx := Respond(s, d, f), f.at + 2 + f.tx;
            && (s.blk[f.at + 2] == 1 ==>
                && t.ports == s.ports && SameBut(s.blk, t.blk, rx, rx + f.rx)
                && forall i :: rx <= i < rx + f.rx ==> t.blk[i] == 0)
            && (s.blk[f.at + 2] > 3 ==> t == s)
  {
    hide TransferPak.ReadBlock, TransferPak.WriteBlock, DataCrc.Crc;
  }

  // READ: the block at the address sent and its CRC, from the port of the frame's channel.
  lemma ReadReply(s: Bus, d: Disk, f: Frame)
    requires Answerable(s, d, f) && s.blk[f.at + 2] == 2
    ensures var port, t, rx := s.ports[f.chan], Respond(s, d, f), f.at + 2 + f.tx;
            var (data, port') := TransferPak.ReadBlock(port, BlockOf(s.blk, f));
            && Addresses(s.blk, f, BlockOf(s.blk, f))
            && t.ports == (if port.configured then s.ports[f.chan := port'] else s.ports)
            && (if port.configured && f.rx >= 33 then
                  && SameBut(s.blk, t.blk, rx, rx + 33) && t.blk[rx + 32] == DataCrc.Crc(data)
                  && forall i :: 0 <= i < 32 ==> t.blk[rx + i] == data[i]
                else Refuses(s.blk, t.blk, f))
  {
    hide TransferPak.ReadBlock, TransferPak.WriteBlock, DataCrc.Crc;
  }

  // WRITE: the 32 bytes sent go to the address sent, and their CRC comes back.
  lemma WriteReply(s: Bus, d: Disk, f: Frame)
    requires Answerable(s, d, f) && s.blk[f.at + 2] == 3
    ensures var port, t, rx, data := s.ports[f.chan], Respond(s, d, f), f.at + 2 + f.tx, s.blk[f.at + 5..f.at + 37];
            && Addresses(s.blk, f, BlockOf(s.blk, f))
            && t.ports ==
               (if !port.configured then s.ports
                else s.ports[f.chan :=
                       TransferPak.WriteBlock(port, BlockOf(s.blk, f), data, d.saves[f.chan], d.written)])
            && (if port.configured && f.rx >= 1 then
                  SameBut(s.blk, t.blk, rx, rx + 1) && t.blk[rx] == DataCrc.Crc(data)
                else Refuses(s.blk, t.blk, f))
  {
    hide TransferPak.ReadBlock, TransferPak.WriteBlock, DataCrc.Crc;
  }

  // Whether a channel has a cartridge does not change while a block is answered.
  lemma {:induction false} ConfiguredKept(s: Bus, d: Disk, p: nat, chan: nat, k: nat)
    requires BusOk(s, d)
    ensures forall c :: 0 <= c < 4 ==> StateAt(s, d, p, chan, k).ports[c].configured == s.ports[c].configured
    decreases SIZE - p
  {
    hide Respond;
    if p >= SIZE - 1 || s.blk[p] == 0xFE {
    } else if s.blk[p] == 0xFF || s.blk[p] == 0xFD {
      ConfiguredKept(s, d, p + 1, chan, k);
    } else if s.blk[p] == 0x00 {
      ConfiguredKept(s, d, p + 1, chan + 1, k);
    } else {
      var f := FrameAt(s.blk, p, chan);
      if End(f) <= SIZE && k > 0 {
        if chan > 3 {
          ConfiguredKept(s, d, End(f), chan + 1, k - 1);
        } else if Readable(s.blk, f) {
          RespondConfigured(s, d, f);
          ConfiguredKept(Respond(s, d, f), d, End(f), chan + 1, k - 1);
        }
      }
    }
  }

  lemma RespondConfigured(s: Bus, d: Disk, f: Frame)
    requires Answerable(s, d, f)
    ensures forall c :: 0 <= c < 4 ==> Respond(s, d, f).ports[c].configured == s.ports[c].configured
  {
    var port := s.ports[f.chan];
    if port.configured && s.blk[f.at + 2] == WRITE {
      WriteKeepsConfigured(port, BlockOf(s.blk, f), s.blk[f.at + 5..f.at + 37], |s.blk[f.at + 5..f.at + 37]|);
    }
    hide Readable, TransferPak.WriteBytes, TransferPak.CartRead, TransferPak.StatusByte, DataCrc.Crc, BlockOf;
  }

  lemma {:induction false} WriteKeepsConfigured(p: TransferPak.Port, block: u16, data: seq<byte>, n: nat)
    requires n <= |data| == TransferPak.BLOCK
    ensures TransferPak.WriteBytes(p, block, data, n).configured == p.configured
    decreases n
  {
    hide TransferPak.CartWrite, TransferPak.ByteAddress;
    if n > 0 {
      WriteKeepsConfigured(p, block, data, n - 1);
      TransferPak.BlockFits(block, n - 1);
    }
  }

  // Whatever else a block asks for, each INFO frame of it ends up holding the controller type and
  // whether a cartridge was mounted on its channel, and each STATE frame an idle controller.
  lemma DeviceReplies(s: Bus, d: Disk, k: nat)
    requires BusOk(s, d) && k < |Parse(s.blk, 0, 0)| && AllReadable(s.blk, Parse(s.blk, 0, 0))
    requires Parse(s.blk, 0, 0)[k].chan < 4
    ensures var f, out := Parse(s.blk, 0, 0)[k], Process(s, d, 0, 0).blk;
            var rx := f.at + 2 + f.tx;
            && rx + f.rx <= SIZE
            && (s.blk[f.at + 2] == 0 && f.rx >= 3 ==>
                && out[rx] == 0x05 && out[rx + 1] == 0x00
                && (out[rx + 2] == if s.ports[f.chan].configured then 0x01 else 0x00))
            && (s.blk[f.at + 2] == 1 ==> forall i :: rx <= i < rx + f.rx ==> out[i] == 0)
  {
    Answered(s, d, 0, 0, k);
    ConfiguredKept(s, d, 0, 0, k);
    var f, t := Parse(s.blk, 0, 0)[k], StateAt(s, d, 0, 0, k);
    hide Respond, Process, Parse, StateAt, AllReadable, Readable, SameBut;
    if s.blk[f.at + 2] == 0 { InfoReply(t, d, f); }
    if s.blk[f.at + 2] == 1 { StateReply(t, d, f); }
  }
}
