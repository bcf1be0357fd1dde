/** Art-Net firmware upload: the sender of `artnet_tx_firmware_packet` and
    `handle_firmware_reply`, the receiver of `handle_firmware`, and the exchange
    of the two over a reliable link. */
module Firmware {
  import opened Basics

  type word = x: int | 0 <= x < 0x1_0000

  /** Words per packet, and bytes. */
  const BLOCK := 512
  const BLOCK_BYTES := 1024
  /** Word counts whose size in bytes is an `int`. */
  const WORD_LIMIT := 0x4000_0000

  datatype Kind = First | Cont | Last
  datatype Reply = BlockGood | AllGood | Fail

  /** ArtFirmwareMaster; `ubea` selects the other half of the type codes. */
  datatype Packet = Packet(kind: Kind, ubea: bool, blockId: byte, length: nat, data: seq<word>)

  predicate ValidPacket(p: Packet) {
    |p.data| == BLOCK && p.length < WORD_LIMIT
  }

  /** `firmware_transfer_t`. `data` is the allocation, `total / 2` words. */
  datatype Transfer = Transfer(data: seq<word>, current: int, total: int, peer: int, ubea: bool, expected: nat) {
    predicate Valid() { 0 <= total < 2 * WORD_LIMIT && 2 * |data| == total }
  }

  const Idle := Transfer([], 0, 0, 0, false, 0)

  /** An invocation of the receiver's firmware handler. */
  datatype Delivery = Delivery(ubea: bool, data: seq<word>, length: int)

  function Min(a: int, b: int): int { if a < b then a else b }

  // --------------------------------------------------------------- the sender

  datatype Sender = Sender(transfer: Transfer, notified: seq<Reply>) {
    predicate Valid() { transfer.Valid() && 0 <= transfer.current <= transfer.total && transfer.current % 2 == 0 }
  }

  /** `artnet_tx_firmware_packet`: the next block, zero padded. */
  function NextPacket(t: Transfer): (p: Packet)
    requires t.Valid() && 0 <= t.current <= t.total && t.current % 2 == 0
    ensures ValidPacket(p)
  {
    var len := Min(t.total - t.current, BLOCK_BYTES);
    var kind := if t.current == 0 then First else if len == BLOCK_BYTES then Cont else Last;
    var at := t.current / 2;
    Packet(kind, t.ubea, t.expected % 256, t.total / 2, Pad(t.data[at..at + len / 2]))
  }

  function Pad(ws: seq<word>): (r: seq<word>)
    requires |ws| <= BLOCK
    ensures |r| == BLOCK && r[..|ws|] == ws && forall i :: |ws| <= i < BLOCK ==> r[i] == 0
  {
    ws + seq(BLOCK - |ws|, _ => 0)
  }

  function AfterSend(t: Transfer): Transfer {
    t.(current := t.current + Min(t.total - t.current, BLOCK_BYTES), expected := (t.expected + 1) % 256)
  }

  /** `handle_firmware_reply`. */
  function OnReply(s: Sender, code: Reply): (r: (Sender, Option<Packet>))
    requires s.Valid()
    ensures r.0.Valid()
    ensures r.1.Some? ==> ValidPacket(r.1.value) && r.0.transfer.total == s.transfer.total && s.transfer.current < r.0.transfer.current
  {
    var t := s.transfer;
    if t.total == 0 then (s, None)
    else match code
      case AllGood =>
        if t.total == t.current then (Sender(Idle, s.notified + [AllGood]), None) else (s, None)
      case Fail => (Sender(Idle, s.notified + [Fail]), None)
      case BlockGood =>
        if t.total != t.current then (s.(transfer := AfterSend(t)), Some(NextPacket(t))) else (s, None)
  }

  // ------------------------------------------------------------- the receiver

  datatype Receiver = Receiver(transfer: Transfer, delivered: seq<Delivery>) {
    predicate Valid() { transfer.Valid() }
  }

  function Overwrite(data: seq<word>, at: nat, block: seq<word>): (r: seq<word>)
    requires at + |block| <= |data|
    ensures |r| == |data|
  {
    data[..at] + block + data[at + |block|..]
  }

  /** The block a packet stands for: its 8-bit number, or the expected block
      when that is past 255 and agrees with it modulo 256. */
  function BlockOf(t: Transfer, p: Packet): nat {
    if t.expected > 255 && t.expected % 256 == p.blockId then t.expected else p.blockId
  }

  /** `handle_firmware` for a packet from `from`; `garbage` is what the newly
      allocated buffer happens to hold. */
  function OnPacket(r: Receiver, from: int, p: Packet, garbage: seq<word>): (res: (Receiver, Reply))
    requires r.Valid() && ValidPacket(p) && |garbage| == p.length
    ensures res.0.Valid()
  {
    var t := r.transfer;
    var blocks := 2 * p.length / BLOCK / 2 + 1;
    match p.kind
    case First =>
      if t.peer != 0 then (r, Fail)
      else
        var n := Min(p.length, BLOCK);
        var t' := Transfer(Overwrite(garbage, 0, p.data[..n]), 2 * n, 2 * p.length, from, p.ubea, 1);
        if n == p.length then (Receiver(t', r.delivered + [Delivery(p.ubea, t'.data, t'.total)]), AllGood)
        else (r.(transfer := t'), BlockGood)
    case Cont =>
      var block := BlockOf(t, p);
      if t.peer == from && 2 * p.length == t.total && block < blocks - 1 then
        (r.(transfer := t.(data := Overwrite(t.data, block * BLOCK, p.data), current := t.current + BLOCK_BYTES,
                           expected := t.expected + 1)), BlockGood)
      else (r, Fail)
    case Last =>
      var block := BlockOf(t, p);
      if t.peer == from && 2 * p.length == t.total && block == blocks - 1 then
        var n := (t.total % BLOCK_BYTES) / 2;
        var data := Overwrite(t.data, block * BLOCK, p.data[..n]);
        (Receiver(Transfer([], 0, 0, 0, false, t.expected), r.delivered + [Delivery(t.ubea, data, t.total / 2)]), AllGood)
      else (r, Fail)
  }

  // ------------------------------------------------------------- the exchange

  datatype Outcome = Outcome(sender: Sender, receiver: Receiver, reply: Reply)

  /** Packet, reply, packet, ... until the sender has nothing more to send. */
  function Exchange(s: Sender, r: Receiver, from: int, p: Packet, garbage: seq<word>): Outcome
    requires s.Valid() && r.Valid() && ValidPacket(p) && |garbage| == p.length
    requires p.length == s.transfer.total / 2
    decreases s.transfer.total - s.transfer.current
  {
    var (r', code) := OnPacket(r, from, p, garbage);
    var (s', next) := OnReply(s, code);
    if next.None? then Outcome(s', r', code) else Exchange(s', r', from, next.value, garbage)
  }

  /** The sender's next packet and all that follows. */
  function Onward(s: Sender, r: Receiver, from: int, garbage: seq<word>): Outcome
    requires s.Valid() && r.Valid() && 0 <= s.transfer.current <= s.transfer.total && s.transfer.current % 2 == 0
    requires |garbage| == s.transfer.total / 2
  {
    Exchange(s.(transfer := AfterSend(s.transfer)), r, from, NextPacket(s.transfer), garbage)
  }

  /** `artnet_send_firmware` to an idle node. */
  function Start(data: seq<word>, to: int, ubea: bool): (s: Sender)
    requires |data| < WORD_LIMIT
    ensures s.Valid()
  {
    Sender(AfterSend(Transfer(data, 0, 2 * |data|, to, ubea, 0)), [])
  }

  function Upload(data: seq<word>, to: int, ubea: bool, r: Receiver, from: int, garbage: seq<word>): Outcome
    requires |data| < WORD_LIMIT && r.Valid() && |garbage| == |data|
  {
    Exchange(Start(data, to, ubea), r, from, NextPacket(Transfer(data, 0, 2 * |data|, to, ubea, 0)), garbage)
  }

  /** After `k` acknowledged full blocks. */
  ghost predicate InStep(s: Sender, r: Receiver, data: seq<word>, to: int, ubea: bool, from: int,
                         delivered: seq<Delivery>, k: nat) {
    && s.Valid() && r.Valid()
    && 1 <= k && BLOCK * k <= |data| < WORD_LIMIT && from != 0
    && s == Sender(Transfer(data, BLOCK_BYTES * k, 2 * |data|, to, ubea, k % 256), [])
    && r == Receiver(Transfer(r.transfer.data, BLOCK_BYTES * k, 2 * |data|, from, ubea, k), delivered)
    && r.transfer.data[..BLOCK * k] == data[..BLOCK * k]
  }

  lemma BlockNumbers(words: nat)
    ensures 2 * words / BLOCK / 2 == words / BLOCK
    ensures (2 * words % BLOCK_BYTES) / 2 == words % BLOCK
  {
    var (q, m) := (words / 512, words % 512);
    assert 2 * words / 512 == 2 * q + if m >= 256 then 1 else 0;
    assert 2 * words % 1024 == 2 * m;
  }

  /** The expected block and the 8-bit number on the wire stay together, also
      past block 255. */
  lemma ContinueBlock(s: Sender, r: Receiver, data: seq<word>, to: int, ubea: bool, from: int,
                      delivered: seq<Delivery>, k: nat, garbage: seq<word>)
    requires InStep(s, r, data, to, ubea, from, delivered, k) && BLOCK * (k + 1) <= |data| == |garbage|
    ensures var p := NextPacket(s.transfer); var (r', code) := OnPacket(r, from, p, garbage);
            && code == BlockGood
            && InStep(s.(transfer := AfterSend(s.transfer)), r', data, to, ubea, from, delivered, k + 1)
  {
    hide NextPacket, OnPacket, Overwrite, BlockOf;
    var t := r.transfer;
    var block := data[BLOCK * k..BLOCK * (k + 1)];
    ContinuePacket(data, to, ubea, k);
    BlockTaken(t, NextPacket(s.transfer), k);
    ContinueTaken(r, from, NextPacket(s.transfer), k, garbage);
    OverwrittenFront(t.data, BLOCK * k, block);
    assert data[..BLOCK * (k + 1)] == data[..BLOCK * k] + block;
  }

  lemma ContinuePacket(data: seq<word>, to: int, ubea: bool, k: nat)
    requires 1 <= k && BLOCK * (k + 1) <= |data| < WORD_LIMIT
    ensures var t := Transfer(data, BLOCK_BYTES * k, 2 * |data|, to, ubea, k % 256);
            var p := NextPacket(t);
            && t.Valid() && ValidPacket(p)
            && p.kind == Cont && p.blockId == k % 256 && p.length == |data| && p.data == data[BLOCK * k..BLOCK * (k + 1)]
  {
  }

  lemma BlockTaken(t: Transfer, p: Packet, k: nat)
    requires t.expected == k && p.blockId == k % 256
    ensures BlockOf(t, p) == k
  {
  }

  lemma ContinueTaken(r: Receiver, from: int, p: Packet, k: nat, garbage: seq<word>)
    requires r.Valid() && ValidPacket(p) && |garbage| == p.length && p.kind == Cont && BlockOf(r.transfer, p) == k
    requires r.transfer.peer == from && 2 * p.length == r.transfer.total && BLOCK * (k + 1) <= p.length
    ensures BLOCK * k + |p.data| <= |r.transfer.data|
    ensures OnPacket(r, from, p, garbage) ==
            (r.(transfer := r.transfer.(data := Overwrite(r.transfer.data, BLOCK * k, p.data), current := r.transfer.current + BLOCK_BYTES,
                                        expected := r.transfer.expected + 1)), BlockGood)
  {
    BlockNumbers(p.length);
    assert k < p.length / BLOCK;
  }

  lemma OverwrittenFront(data: seq<word>, at: nat, block: seq<word>)
    requires at + |block| <= |data|
    ensures Overwrite(data, at, block)[..at + |block|] == data[..at] + block
  {
  }

  lemma LastBlock(s: Sender, r: Receiver, data: seq<word>, to: int, ubea: bool, from: int, delivered: seq<Delivery>,
                  k: nat, garbage: seq<word>)
    requires InStep(s, r, data, to, ubea, from, delivered, k) && BLOCK * k < |data| < BLOCK * (k + 1) && |data| == |garbage|
    ensures var (r', code) := OnPacket(r, from, NextPacket(s.transfer), garbage);
            && code == AllGood && r'.delivered == delivered + [Delivery(ubea, data, |data|)]
            && r'.transfer == Idle.(expected := k)
  {
    hide NextPacket, OnPacket, Overwrite, BlockOf;
    var t, p, n := r.transfer, NextPacket(s.transfer), |data| - BLOCK * k;
    LastPacket(data, to, ubea, k);
    BlockTaken(t, p, k);
    LastTaken(r, from, p, k, garbage);
    OverwrittenFront(t.data, BLOCK * k, p.data[..n]);
    assert data == data[..BLOCK * k] + data[BLOCK * k..];
    assert Overwrite(t.data, BLOCK * k, p.data[..n])[..|data|] == Overwrite(t.data, BLOCK * k, p.data[..n]);
  }

  lemma LastPacket(data: seq<word>, to: int, ubea: bool, k: nat)
    requires 1 <= k && BLOCK * k < |data| < BLOCK * (k + 1) && |data| < WORD_LIMIT
    ensures var t := Transfer(data, BLOCK_BYTES * k, 2 * |data|, to, ubea, k % 256);
            var p := NextPacket(t);
            && t.Valid() && ValidPacket(p)
            && p.kind == Last && p.blockId == k % 256 && p.length == |data| && p.data[..|data| - BLOCK * k] == data[BLOCK * k..]
  {
  }

  lemma LastTaken(r: Receiver, from: int, p: Packet, k: nat, garbage: seq<word>)
    requires r.Valid() && ValidPacket(p) && |garbage| == p.length && p.kind == Last && BlockOf(r.transfer, p) == k
    requires r.transfer.peer == from && 2 * p.length == r.transfer.total && BLOCK * k < p.length < BLOCK * (k + 1)
    ensures p.length == |r.transfer.data|
    ensures OnPacket(r, from, p, garbage) ==
            (Receiver(Transfer([], 0, 0, 0, false, r.transfer.expected),
                      r.delivered + [Delivery(r.transfer.ubea, Overwrite(r.transfer.data, BLOCK * k, p.data[..p.length - BLOCK * k]), p.length)]), AllGood)
  {
    BlockNumbers(p.length);
    assert k == p.length / BLOCK && p.length - BLOCK * k == p.length % BLOCK;
  }

  lemma PacketLength(t: Transfer)
    requires t.Valid() && 0 <= t.current <= t.total && t.current % 2 == 0
    ensures NextPacket(t).length == t.total / 2
  {
  }

  lemma OnwardGoesOn(s: Sender, r: Receiver, data: seq<word>, to: int, ubea: bool, from: int,
                     delivered: seq<Delivery>, k: nat, garbage: seq<word>) returns (s': Sender, r': Receiver)
    requires InStep(s, r, data, to, ubea, from, delivered, k) && BLOCK * (k + 1) < |data| == |garbage|
    ensures InStep(s', r', data, to, ubea, from, delivered, k + 1) && Onward(s, r, from, garbage) == Onward(s', r', from, garbage)
  {
    hide OnPacket, NextPacket, Overwrite;
    PacketLength(s.transfer);
    ContinueBlock(s, r, data, to, ubea, from, delivered, k, garbage);
    s', r' := s.(transfer := AfterSend(s.transfer)), OnPacket(r, from, NextPacket(s.transfer), garbage).0;
    assert OnReply(s', BlockGood).1 == Some(NextPacket(s'.transfer));
  }

  lemma OnwardStalls(s: Sender, r: Receiver, data: seq<word>, to: int, ubea: bool, from: int,
                     delivered: seq<Delivery>, k: nat, garbage: seq<word>)
    requires InStep(s, r, data, to, ubea, from, delivered, k) && BLOCK * (k + 1) == |data| == |garbage|
    ensures Stalled(Onward(s, r, from, garbage), data, from, delivered)
  {
    hide OnPacket, NextPacket, Overwrite;
    PacketLength(s.transfer);
    ContinueBlock(s, r, data, to, ubea, from, delivered, k, garbage);
    var s', r' := s.(transfer := AfterSend(s.transfer)), OnPacket(r, from, NextPacket(s.transfer), garbage).0;
    assert OnReply(s', BlockGood) == (s', None);
    assert r'.transfer.data == r'.transfer.data[..|data|] && data == data[..|data|];
  }

  lemma OnwardCompletes(s: Sender, r: Receiver, data: seq<word>, to: int, ubea: bool, from: int,
                        delivered: seq<Delivery>, k: nat, garbage: seq<word>)
    requires InStep(s, r, data, to, ubea, from, delivered, k) && BLOCK * k < |data| < BLOCK * (k + 1) && |data| == |garbage|
    ensures Complete(Onward(s, r, from, garbage), data, ubea, delivered)
  {
    hide OnPacket, NextPacket, Overwrite;
    PacketLength(s.transfer);
    LastBlock(s, r, data, to, ubea, from, delivered, k, garbage);
    var s' := s.(transfer := AfterSend(s.transfer));
    assert OnReply(s', AllGood) == (Sender(Idle, [] + [AllGood]), None);
  }

  /** From block `k` on: the exchange ends with ALLGOOD and the whole firmware
      delivered, or, when the last block is full, stops without either. */
  lemma {:induction false} FromBlock(s: Sender, r: Receiver, data: seq<word>, to: int, ubea: bool, from: int,
                                     delivered: seq<Delivery>, k: nat, garbage: seq<word>)
    requires InStep(s, r, data, to, ubea, from, delivered, k) && BLOCK * k < |data| == |garbage|
    ensures var o := Onward(s, r, from, garbage);
            if |data| % BLOCK != 0 then Complete(o, data, ubea, delivered) else Stalled(o, data, from, delivered)
    decreases |data| - k
  {
    hide Onward, Complete, Stalled;
    if |data| < BLOCK * (k + 1) {
      OnwardCompletes(s, r, data, to, ubea, from, delivered, k, garbage);
    } else if |data| == BLOCK * (k + 1) {
      OnwardStalls(s, r, data, to, ubea, from, delivered, k, garbage);
    } else {
      var s', r' := OnwardGoesOn(s, r, data, to, ubea, from, delivered, k, garbage);
      FromBlock(s', r', data, to, ubea, from, delivered, k + 1, garbage);
    }
  }

  /** The receiver's handler got the firmware, the sender's callback ALLGOOD,
      and both records are free again. */
  predicate Complete(o: Outcome, data: seq<word>, ubea: bool, delivered: seq<Delivery>) {
    && o.reply == AllGood
    && o.sender == Sender(Idle, [AllGood])
    && o.receiver.delivered == delivered + [Delivery(ubea, data, |data|)]
    && o.receiver.transfer.peer == 0
  }

  /** Everything arrived and both byte counts equal the total, but no packet was
      marked last: neither side is told and both records stay taken. */
  predicate Stalled(o: Outcome, data: seq<word>, from: int, delivered: seq<Delivery>) {
    && o.reply == BlockGood
    && o.sender.notified == [] && o.sender.transfer.current == o.sender.transfer.total == 2 * |data|
    && o.receiver.delivered == delivered && o.receiver.transfer.data == data
    && o.receiver.transfer.current == o.receiver.transfer.total == 2 * |data|
    && o.receiver.transfer.peer == from
  }

  /** One packet: delivered and acknowledged, but the receiver's record stays
      taken and its handler is told the size in bytes. */
  predicate OnePacket(o: Outcome, data: seq<word>, ubea: bool, from: int, delivered: seq<Delivery>) {
    && o.reply == AllGood
    && o.sender.notified == (if data == [] then [] else [AllGood])
    && o.receiver.delivered == delivered + [Delivery(ubea, data, 2 * |data|)]
    && o.receiver.transfer.peer == from
  }

  /** The block that an 8-bit number means while block `expected` is due. */
  predicate Means(blockId: int, expected: int, block: int) {
    block == if expected >= 256 && (expected - blockId) % 256 == 0 then expected else blockId
  }

  /** The packets of the transfer under way: from the same address, of the same
      length, and a block in front of the last one or the last one as its kind
      says. */
  ghost predicate Belongs(r: Receiver, from: int, p: Packet) {
    && r.transfer.peer == from && r.transfer.total == 2 * p.length && p.kind != First
    && (forall block :: Means(p.blockId, r.transfer.expected, block) ==>
                          if p.kind == Cont then 512 * (block + 1) <= p.length else 512 * block <= p.length < 512 * (block + 1))
  }

  /** Everything but a first packet for an idle receiver and the packets of the
      transfer under way is answered with FAIL and changes nothing. */
  lemma RefusedIff(r: Receiver, from: int, p: Packet, garbage: seq<word>)
    requires r.Valid() && ValidPacket(p) && |garbage| == p.length
    ensures var (r', reply) := OnPacket(r, from, p, garbage);
            && (reply == Fail <==> !(p.kind == First && r.transfer.peer == 0) && !Belongs(r, from, p))
            && (reply == Fail ==> r' == r)
  {
    hide Overwrite, Belongs, BlockOf;
    WholeBlocks(p.length, BlockOf(r.transfer, p));
    BelongsAsTaken(r, from, p);
  }

  lemma WholeBlocks(words: nat, block: nat)
    ensures var blocks := 2 * words / BLOCK / 2 + 1;
            && (block < blocks - 1 <==> 512 * (block + 1) <= words)
            && (block == blocks - 1 <==> 512 * block <= words < 512 * (block + 1))
  {
    BlockNumbers(words);
  }

  lemma BelongsAsTaken(r: Receiver, from: int, p: Packet)
    ensures var block := BlockOf(r.transfer, p);
            Belongs(r, from, p) <==>
            && r.transfer.peer == from && r.transfer.total == 2 * p.length && p.kind != First
            && if p.kind == Cont then 512 * (block + 1) <= p.length else 512 * block <= p.length < 512 * (block + 1)
  {
    assert Means(p.blockId, r.transfer.expected, BlockOf(r.transfer, p));
  }

  /** What others send during a transfer, each packet with the memory that it
      would have got. */
  datatype Stray = Stray(from: int, packet: Packet, garbage: seq<word>) {
    predicate Valid() { ValidPacket(packet) && |garbage| == packet.length }
  }

  function Disturbed(r: Receiver, strays: seq<Stray>): (r': Receiver)
    requires r.Valid() && forall i :: 0 <= i < |strays| ==> strays[i].Valid()
    ensures r'.Valid()
    decreases |strays|
  {
    if strays == [] then r
    else
      var k := |strays| - 1;
      var x := strays[k];
      assert x.Valid();
      OnPacket(Disturbed(r, strays[..k]), x.from, x.packet, x.garbage).0
  }

  /** A transfer under way survives whatever others send. */
  lemma {:induction false} OthersChangeNothing(r: Receiver, strays: seq<Stray>)
    requires r.Valid() && r.transfer.peer != 0
    requires forall i :: 0 <= i < |strays| ==> strays[i].Valid() && strays[i].from != r.transfer.peer
    ensures Disturbed(r, strays) == r
    decreases |strays|
  {
    hide OnPacket;
    if strays != [] {
      var k := |strays| - 1;
      var x := strays[k];
      assert x.Valid();
      OthersChangeNothing(r, strays[..k]);
      RefusedIff(r, x.from, x.packet, x.garbage);
    }
  }

  /** A sender that is told FAIL gives up and says so; ALLGOOD before everything
      was sent, BLOCKGOOD after that, and any reply to an idle sender do nothing. */
  lemma RepliesOutOfTurn(s: Sender, code: Reply)
    requires s.Valid()
    ensures var (s', next) := OnReply(s, code);
            && (code == Fail && s.transfer.total > 0 ==>
                  s' == Sender(Transfer([], 0, 0, 0, false, 0), s.notified + [Fail]) && next == None)
            && (s.transfer.total == 0 ==> s' == s && next == None)
            && (code == AllGood && s.transfer.current < s.transfer.total ==> s' == s && next == None)
            && (code == BlockGood && s.transfer.current == s.transfer.total ==> s' == s && next == None)
  {
  }

  /** An upload to a receiver that is in a transfer, even one of the same sender. */
  lemma UploadRefused(data: seq<word>, to: int, ubea: bool, r: Receiver, from: int, garbage: seq<word>)
    requires |data| < WORD_LIMIT && r.Valid() && |garbage| == |data| && r.transfer.peer != 0
    ensures var o := Upload(data, to, ubea, r, from, garbage);
            && o.receiver == r && o.reply == Fail
            && (data != [] ==> o.sender == Sender(Transfer([], 0, 0, 0, false, 0), [Fail]))
  {
    hide OnPacket, OnReply;
    var p, s := NextPacket(Transfer(data, 0, 2 * |data|, to, ubea, 0)), Start(data, to, ubea);
    RefusedIff(r, from, p, garbage);
    RepliesOutOfTurn(s, Fail);
    assert Exchange(s, r, from, p, garbage) == Outcome(OnReply(s, Fail).0, r, Fail);
  }

  /** Every upload to a receiver that is not in a transfer. */
  lemma UploadOutcome(data: seq<word>, to: int, ubea: bool, r: Receiver, from: int, garbage: seq<word>)
    requires |data| < WORD_LIMIT && r.Valid() && |garbage| == |data|
    requires r.transfer.peer == 0 && from != 0
    ensures var o := Upload(data, to, ubea, r, from, garbage);
            if |data| <= BLOCK then OnePacket(o, data, ubea, from, r.delivered)
            else if |data| % BLOCK != 0 then Complete(o, data, ubea, r.delivered)
            else Stalled(o, data, from, r.delivered)
  {
    var t := Transfer(data, 0, 2 * |data|, to, ubea, 0);
    var p, s := NextPacket(t), Start(data, to, ubea);
    var (r', code) := OnPacket(r, from, p, garbage);
    if |data| <= BLOCK {
      assert p.data[..|data|] == data;
      assert Overwrite(garbage, 0, p.data[..|data|]) == data;
    } else {
      assert p.data == data[..BLOCK];
      assert r'.transfer.data[..BLOCK] == data[..BLOCK];
      assert p.data[..BLOCK] == p.data;
      assert InStep(s, r', data, to, ubea, from, r.delivered, 1);
      FromBlock(s, r', data, to, ubea, from, r.delivered, 1, garbage);
    }
  }

  /** The upload is acknowledged with ALLGOOD, and the receiver's handler called
      with exactly the sender's firmware, if and only if the firmware fits one
      packet or is not a whole number of blocks. */
  lemma UploadSucceedsIff(data: seq<word>, to: int, ubea: bool, r: Receiver, from: int, garbage: seq<word>)
    requires |data| < WORD_LIMIT && r.Valid() && |garbage| == |data|
    requires r.transfer.peer == 0 && from != 0
    ensures var o := Upload(data, to, ubea, r, from, garbage);
            var good := |data| <= BLOCK || |data| % BLOCK != 0;
            && (o.reply == AllGood <==> good)
            && (good <==> |o.receiver.delivered| == |r.delivered| + 1)
            && (good ==> o.receiver.delivered[|r.delivered|].data == data)
            && (o.sender.notified == [AllGood] <==> good && data != [])
  {
    UploadOutcome(data, to, ubea, r, from, garbage);
  }
}
