/** The firmware transfer records as the nodes keep them, updated in place. */
module FirmwareNodes {
  import opened Basics
  import opened Firmware

  /** The entry of the node being uploaded to. `notified` lists the calls of the
      sender's callback. */
  class SenderEntry {
    var data: array<word>
    var bytesCurrent: int
    var bytesTotal: int
    var peer: int
    var ubea: bool
    var expectedBlock: nat
    var notified: seq<Reply>

    predicate Valid()
      reads this, data
    {
      Abstract().Valid()
    }

    function Abstract(): Sender
      reads this, data
    {
      Sender(Transfer(data[..], bytesCurrent, bytesTotal, peer, ubea, expectedBlock), notified)
    }

    constructor ()
      ensures Valid() && fresh(data) && Abstract() == Sender(Idle, [])
    {
      data := new word[0];
      bytesCurrent, bytesTotal, peer, ubea, expectedBlock, notified := 0, 0, 0, false, 0, [];
    }

    /** `artnet_send_firmware`: stores the parameters and sends the first block. */
    method SendFirmware(firmware: seq<word>, to: int, isUbea: bool) returns (p: Packet)
      requires |firmware| < WORD_LIMIT
      modifies this
      ensures Valid() && fresh(data)
      ensures var t := Transfer(firmware, 0, 2 * |firmware|, to, isUbea, 0);
              p == NextPacket(t) && Abstract() == Sender(AfterSend(t), old(notified))
    {
      data := new word[|firmware|](i requires 0 <= i < |firmware| => firmware[i]);
      bytesCurrent, bytesTotal, peer, ubea, expectedBlock := 0, 2 * |firmware|, to, isUbea, 0;
      assert data[..] == firmware;
      p := TxFirmwarePacket();
    }

    method TxFirmwarePacket() returns (p: Packet)
      requires Valid()
      modifies this
      ensures Valid() && data == old(data) && p == NextPacket(old(Abstract()).transfer)
      ensures Abstract() == old(Abstract()).(transfer := AfterSend(old(Abstract()).transfer))
    {
      var dataLen := Min(bytesTotal - bytesCurrent, BLOCK_BYTES);
      var kind;
      if bytesCurrent == 0 {
        kind := First;
      } else if dataLen == BLOCK_BYTES {
        kind := Cont;
      } else {
        kind := Last;
      }
      var at := bytesCurrent / 2;
      p := Packet(kind, ubea, expectedBlock % 256, bytesTotal / 2, Pad(data[at..at + dataLen / 2]));
      bytesCurrent := bytesCurrent + dataLen;
      expectedBlock := (expectedBlock + 1) % 256;
    }

    method HandleFirmwareReply(code: Reply) returns (next: Option<Packet>)
      requires Valid()
      modifies this
      ensures Valid() && (fresh(data) || data == old(data))
      ensures (Abstract(), next) == OnReply(old(Abstract()), code)
    {
      next := None;
      if bytesTotal == 0 {
        return;
      }
      match code {
        case AllGood =>
          if bytesTotal == bytesCurrent {
            notified := notified + [AllGood];
            Clear();
          }
        case Fail =>
          notified := notified + [Fail];
          Clear();
        case BlockGood =>
          if bytesTotal != bytesCurrent {
            var p := TxFirmwarePacket();
            next := Some(p);
          }
      }
    }

    /** `memset(&ent->firmware, 0, ...)`. */
    method Clear()
      modifies this
      ensures fresh(data) && Abstract() == old(Abstract()).(transfer := Idle)
    {
      data := new word[0];
      bytesCurrent, bytesTotal, peer, ubea, expectedBlock := 0, 0, 0, false, 0;
    }
  }

  /** The receiving node. `delivered` lists the calls of its firmware handler. */
  class ReceiverNode {
    var data: array<word>
    var bytesCurrent: int
    var bytesTotal: int
    var peer: int
    var ubea: bool
    var expectedBlock: nat
    var delivered: seq<Delivery>

    predicate Valid()
      reads this, data
    {
      Abstract().Valid()
    }

    function Abstract(): Receiver
      reads this, data
    {
      Receiver(Transfer(data[..], bytesCurrent, bytesTotal, peer, ubea, expectedBlock), delivered)
    }

    constructor ()
      ensures Valid() && fresh(data) && Abstract() == Receiver(Idle, [])
    {
      data := new word[0];
      bytesCurrent, bytesTotal, peer, ubea, expectedBlock, delivered := 0, 0, 0, false, 0, [];
    }

    /** `garbage` is the contents of the buffer that a first packet allocates. */
    method HandleFirmware(from: int, p: Packet) returns (code: Reply, ghost garbage: seq<word>)
      requires Valid() && ValidPacket(p)
      modifies this, data
      ensures Valid() && (fresh(data) || data == old(data))
      ensures |garbage| == p.length && (Abstract(), code) == OnPacket(old(Abstract()), from, p, garbage)
    {
      hide *;
      garbage := seq(p.length, _ => 0);
      match p.kind {
        case First => code, garbage := HandleFirst(from, p);
        case Cont => code := HandleCont(from, p, garbage);
        case Last => code := HandleLast(from, p, garbage);
      }
    }

    method HandleFirst(from: int, p: Packet) returns (code: Reply, ghost garbage: seq<word>)
      requires Valid() && ValidPacket(p) && p.kind == First
      modifies this
      ensures Valid() && (fresh(data) || data == old(data))
      ensures |garbage| == p.length && (Abstract(), code) == OnPacket(old(Abstract()), from, p, garbage)
    {
      garbage := seq(p.length, _ => 0);
      if peer != 0 {
        return Fail, garbage;
      }
      var length := 2 * p.length;
      peer := from;
      data := new word[p.length];
      garbage := data[..];
      bytesTotal, expectedBlock, ubea := length, 1, p.ubea;
      var blockLength := Min(length, BLOCK_BYTES);
      MemCpy(data, 0, p.data[..blockLength / 2]);
      bytesCurrent := blockLength;
      if blockLength == length {
        code := AllGood;
        delivered := delivered + [Delivery(ubea, data[..], bytesTotal)];
      } else {
        code := BlockGood;
      }
    }

    method HandleCont(from: int, p: Packet, ghost garbage: seq<word>) returns (code: Reply)
      requires Valid() && ValidPacket(p) && p.kind == Cont && |garbage| == p.length
      modifies this, data
      ensures Valid() && data == old(data)
      ensures (Abstract(), code) == OnPacket(old(Abstract()), from, p, garbage)
    {
      var length := 2 * p.length;
      var totalBlocks := length / BLOCK / 2 + 1;
      var blockId := BlockNumber(p);
      if peer != from || length != bytesTotal || blockId >= totalBlocks - 1 {
        return Fail;
      }
      MemCpy(data, blockId * BLOCK, p.data);
      bytesCurrent := bytesCurrent + BLOCK_BYTES;
      expectedBlock := expectedBlock + 1;
      code := BlockGood;
    }

    method HandleLast(from: int, p: Packet, ghost garbage: seq<word>) returns (code: Reply)
      requires Valid() && ValidPacket(p) && p.kind == Last && |garbage| == p.length
      modifies this, data
      ensures Valid() && (fresh(data) || data == old(data))
      ensures (Abstract(), code) == OnPacket(old(Abstract()), from, p, garbage)
    {
      hide OnPacket, Overwrite, BlockOf;
      OnLast(Abstract(), from, p, garbage);
      var length := 2 * p.length;
      var totalBlocks := length / BLOCK / 2 + 1;
      var blockLength := bytesTotal % BLOCK_BYTES;
      var blockId := BlockNumber(p);
      if peer != from || length != bytesTotal || blockId != totalBlocks - 1 {
        return Fail;
      }
      MemCpy(data, blockId * BLOCK, p.data[..blockLength / 2]);
      delivered := delivered + [Delivery(ubea, data[..], bytesTotal / 2)];
      ResetFirmwareUpload();
      code := AllGood;
    }

    /** The block number is one byte on the wire and wraps. */
    method BlockNumber(p: Packet) returns (blockId: nat)
      ensures blockId == BlockOf(Abstract().transfer, p)
    {
      blockId := p.blockId;
      if expectedBlock > 255 && expectedBlock % 256 == p.blockId {
        blockId := expectedBlock;
      }
    }

    method ResetFirmwareUpload()
      modifies this
      ensures fresh(data) && expectedBlock == old(expectedBlock) && delivered == old(delivered)
      ensures Abstract() == Receiver(Idle.(expected := expectedBlock), delivered)
    {
      bytesCurrent, bytesTotal, peer, ubea := 0, 0, 0, false;
      data := new word[0];
    }
  }

  /** What a last packet does. */
  lemma OnLast(r: Receiver, from: int, p: Packet, garbage: seq<word>)
    requires r.Valid() && ValidPacket(p) && p.kind == Last && |garbage| == p.length
    ensures var t, block, n := r.transfer, BlockOf(r.transfer, p), (r.transfer.total % BLOCK_BYTES) / 2;
            if t.peer == from && 2 * p.length == t.total && block == 2 * p.length / BLOCK / 2 then
              n <= |p.data| && block * BLOCK + n <= |t.data| &&
              OnPacket(r, from, p, garbage) ==
              (Receiver(Transfer([], 0, 0, 0, false, t.expected),
                        r.delivered + [Delivery(t.ubea, Overwrite(t.data, block * BLOCK, p.data[..n]), t.total / 2)]), AllGood)
            else OnPacket(r, from, p, garbage) == (r, Fail)
  {
    hide Overwrite;
  }

  method MemCpy(data: array<word>, at: nat, block: seq<word>)
    requires at + |block| <= data.Length
    modifies data
    ensures data[..] == Overwrite(old(data[..]), at, block)
  {
    forall i | 0 <= i < |block| { data[at + i] := block[i]; }
  }

  /** A sender that has sent a packet, and whose next one is a later block. */
  predicate Started(s: Sender) {
    s.Valid() && (s.transfer.current == 0 ==> s.transfer.total == 0)
  }

  lemma ExchangeRound(s: Sender, r: Receiver, from: int, p: Packet, garbage: seq<word>, g: seq<word>)
    requires Started(s) && r.Valid() && ValidPacket(p) && |garbage| == |g| == p.length == s.transfer.total / 2
    requires p.kind != First || g == garbage
    ensures var (r', code) := OnPacket(r, from, p, g); var (s', next) := OnReply(s, code);
            && r'.Valid() && s'.Valid()
            && (next.Some? ==>
                  && Started(s') && s'.transfer.total == s.transfer.total && s.transfer.current < s'.transfer.current
                  && ValidPacket(next.value) && next.value.length == p.length && next.value.kind != First)
            && Exchange(s, r, from, p, garbage) ==
               if next.Some? then Exchange(s', r', from, next.value, garbage) else Outcome(s', r', code)
  {
  }

  /** A packet to the receiver and its reply back to the sender. */
  method Round(sender: SenderEntry, receiver: ReceiverNode, from: int, p: Packet, ghost garbage: seq<word>)
    returns (code: Reply, next: Option<Packet>)
    requires sender.Valid() && receiver.Valid() && sender.data != receiver.data
    requires Started(sender.Abstract()) && ValidPacket(p) && p.kind != First && |garbage| == p.length == sender.bytesTotal / 2
    modifies sender, receiver, receiver.data
    ensures sender.Valid() && receiver.Valid() && sender.data != receiver.data
    ensures (fresh(sender.data) || sender.data == old(sender.data)) && (fresh(receiver.data) || receiver.data == old(receiver.data))
    ensures next.Some? ==>
              && Started(sender.Abstract()) && ValidPacket(next.value) && next.value.kind != First
              && next.value.length == p.length && sender.bytesTotal == old(sender.bytesTotal) && old(sender.bytesCurrent) < sender.bytesCurrent
    ensures Exchange(old(sender.Abstract()), old(receiver.Abstract()), from, p, garbage) ==
            if next.Some? then Exchange(sender.Abstract(), receiver.Abstract(), from, next.value, garbage)
            else Outcome(sender.Abstract(), receiver.Abstract(), code)
  {
    hide OnPacket, NextPacket, Exchange, OnReply;
    ghost var s, r := sender.Abstract(), receiver.Abstract();
    ghost var g;
    code, g := receiver.HandleFirmware(from, p);
    ExchangeRound(s, r, from, p, garbage, g);
    assert sender.Abstract() == s;
    next := sender.HandleFirmwareReply(code);
  }

  /** The first packet has been received and acknowledged. */
  method FirstRound(firmware: seq<word>, to: int, isUbea: bool, receiver: ReceiverNode, from: int)
    returns (sender: SenderEntry, code: Reply, next: Option<Packet>, ghost garbage: seq<word>)
    requires |firmware| < WORD_LIMIT && receiver.Valid()
    modifies receiver, receiver.data
    ensures fresh(sender) && fresh(sender.data) && (fresh(receiver.data) || receiver.data == old(receiver.data))
    ensures sender.Valid() && receiver.Valid() && sender.data != receiver.data && |garbage| == |firmware|
    ensures next.Some? ==>
              && Started(sender.Abstract()) && ValidPacket(next.value) && next.value.kind != First
              && next.value.length == |firmware| == sender.bytesTotal / 2
    ensures Upload(firmware, to, isUbea, old(receiver.Abstract()), from, garbage) ==
            if next.Some? then Exchange(sender.Abstract(), receiver.Abstract(), from, next.value, garbage)
            else Outcome(sender.Abstract(), receiver.Abstract(), code)
  {
    hide OnPacket, NextPacket, Exchange, OnReply;
    sender := new SenderEntry();
    var p := sender.SendFirmware(firmware, to, isUbea);
    PacketLength(Transfer(firmware, 0, 2 * |firmware|, to, isUbea, 0));
    ghost var s0, r0 := sender.Abstract(), receiver.Abstract();
    code, garbage := receiver.HandleFirmware(from, p);
    ExchangeRound(s0, r0, from, p, garbage, garbage);
    next := sender.HandleFirmwareReply(code);
  }

  /** Both ends on a reliable lock-step link. */
  method RunUpload(firmware: seq<word>, to: int, isUbea: bool, receiver: ReceiverNode, from: int)
    returns (sender: SenderEntry, code: Reply, ghost garbage: seq<word>)
    requires |firmware| < WORD_LIMIT && receiver.Valid()
    modifies receiver, receiver.data
    ensures fresh(sender) && sender.Valid() && receiver.Valid()
    ensures |garbage| == |firmware|
    ensures Outcome(sender.Abstract(), receiver.Abstract(), code) ==
            Upload(firmware, to, isUbea, old(receiver.Abstract()), from, garbage)
  {
    hide Exchange, Upload, Started;
    var next;
    sender, code, next, garbage := FirstRound(firmware, to, isUbea, receiver, from);
    ghost var goal := Upload(firmware, to, isUbea, old(receiver.Abstract()), from, garbage);
    while next.Some?
      invariant sender.Valid() && receiver.Valid() && sender.data != receiver.data
      invariant fresh(sender) && fresh(sender.data) && (fresh(receiver.data) || receiver.data == old(receiver.data))
      invariant next.Some? ==>
                  && Started(sender.Abstract()) && ValidPacket(next.value) && next.value.kind != First
                  && next.value.length == |firmware| == sender.bytesTotal / 2
                  && goal == Exchange(sender.Abstract(), receiver.Abstract(), from, next.value, garbage)
      invariant next.None? ==> goal == Outcome(sender.Abstract(), receiver.Abstract(), code)
      decreases next.Some?, sender.bytesTotal - sender.bytesCurrent
    {
      code, next := Round(sender, receiver, from, next.value, garbage);
    }
  }

  lemma PacketLength(t: Transfer)
    requires t.Valid() && 0 <= t.current <= t.total && t.current % 2 == 0
    ensures NextPacket(t).length == t.total / 2
  {
  }
}
