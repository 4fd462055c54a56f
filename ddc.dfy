/**
 * DDC/CI on macOS: the byte-level half of talking to a monitor over I2C.
 *
 *  - Set VCP Feature: a 7-byte packet to address 6Eh, XOR checksum.
 *  - Get VCP Feature: a 5-byte request, then an 11-byte reply that is
 *    accepted only if its header, control code and checksum agree; up to
 *    ten attempts are made.
 *  - EDID: a 128-byte block read from address A0h, kept only if its bytes
 *    sum to 0 modulo 256.
 *  - One queue (a semaphore) per display serialises the transfers; the
 *    queues live in a fixed table of 50 slots.
 *
 * The I2C transfer itself is an oracle: each attempt is given as whether
 * the transfer succeeded and what the reply buffer then held. Packet and
 * checksum layouts follow section 4 of the VESA DDC/CI standard (v1.1) and
 * section 3.11 of the VESA E-EDID standard.
 */
module Ddc {
  import opened Bytes
  import opened Results
  import Edids

  // ---------------------------------------------------------------------
  // XOR checksums.

  /** `acc ^ s[0] ^ s[1] ^ ...`, folded from the left as the source writes it. */
  function XorFold(acc: Byte, s: seq<Byte>): Byte
    decreases |s|
  {
    if s == [] then acc else XorFold(Xor(acc, s[0]), s[1..])
  }

  lemma XorSelf(a: Byte)
    ensures Xor(a, a) == 0
  {
    assert (a as bv8) ^ (a as bv8) == 0;
  }

  /** Folding one more byte is one more XOR at the end. */
  lemma {:induction false} XorFoldSnoc(acc: Byte, s: seq<Byte>, x: Byte)
    ensures XorFold(acc, s + [x]) == Xor(XorFold(acc, s), x)
    decreases |s|
  {
    if s == [] {
      assert XorFold(Xor(acc, x), []) == Xor(acc, x);
    } else {
      assert (s + [x])[1..] == s[1..] + [x];
      XorFoldSnoc(Xor(acc, s[0]), s[1..], x);
    }
  }

  /** A message followed by its checksum XORs to zero: the receiver's test in section 4 of the DDC/CI standard. */
  lemma ChecksumCancels(acc: Byte, s: seq<Byte>)
    ensures XorFold(acc, s + [XorFold(acc, s)]) == 0
  {
    XorFoldSnoc(acc, s, XorFold(acc, s));
    XorSelf(XorFold(acc, s));
  }

  // ---------------------------------------------------------------------
  // Set VCP Feature (DDC::Write).

  const DISPLAY_ADDRESS: Byte := 0x6E
  const HOST_SUBADDRESS: Byte := 0x51
  const SET_VCP_LENGTH: Byte := 0x84
  const SET_VCP_OPCODE: Byte := 0x03
  const GET_VCP_LENGTH: Byte := 0x82
  const GET_VCP_OPCODE: Byte := 0x01
  const GET_VCP_REPLY_OPCODE: Byte := 0x02
  const REPLY_ADDRESS: Byte := 0x6F
  /** The virtual host address the standard folds into a reply's checksum. */
  const HOST_ADDRESS: Byte := 0x50

  /** WriteCommand: the control code and its new value (both uint8_t). */
  datatype WriteCommand = WriteCommand(controlId: Byte, newValue: Byte)

  /**
   * The payload of DDC::Write: sub-address, length, opcode, control, value
   * high byte (`newValue >> 8` of an 8-bit value), value low byte, checksum
   * seeded with the destination address.
   */
  function SetVcpPacket(command: WriteCommand): (packet: seq<Byte>)
    ensures |packet| == 7
    ensures packet[..3] == [HOST_SUBADDRESS, SET_VCP_LENGTH, SET_VCP_OPCODE] && packet[3] == command.controlId
    ensures packet[4] as int * 0x100 + packet[5] as int == command.newValue as int
    ensures XorFold(DISPLAY_ADDRESS, packet) == 0
  {
    var body := [HOST_SUBADDRESS, SET_VCP_LENGTH, SET_VCP_OPCODE, command.controlId,
                 (command.newValue as int / 0x100) as Byte, (command.newValue as int % 0x100) as Byte];
    ChecksumCancels(DISPLAY_ADDRESS, body);
    body + [XorFold(DISPLAY_ADDRESS, body)]
  }

  /** The value travels in one byte: its high byte on the wire is always zero. */
  lemma SetVcpHighByteIsZero(command: WriteCommand)
    ensures SetVcpPacket(command)[4] == 0 && SetVcpPacket(command)[5] == command.newValue
  {
  }

  /** What a monitor decodes from a Set VCP packet: the control and the value that were sent. */
  function ParseSetVcp(packet: seq<Byte>): (r: Option<WriteCommand>)
    requires |packet| == 7
    ensures r.Some? ==> XorFold(DISPLAY_ADDRESS, packet) == 0 && packet[3] == r.value.controlId
  {
    if packet[..3] == [HOST_SUBADDRESS, SET_VCP_LENGTH, SET_VCP_OPCODE] && packet[4] == 0
       && XorFold(DISPLAY_ADDRESS, packet) == 0
    then Some(WriteCommand(packet[3], packet[5]))
    else None
  }

  /** Every Set VCP packet the host builds is parsed back to its command. */
  lemma SetVcpRoundTrip(command: WriteCommand)
    ensures ParseSetVcp(SetVcpPacket(command)) == Some(command)
  {
  }

  // ---------------------------------------------------------------------
  // Get VCP Feature (DDC::Read).

  const REPLY_SIZE: nat := 11
  const MAX_REQUESTS: nat := 10

  /** The 5-byte request of DDC::Read: sub-address, length, opcode, control, checksum. */
  function GetVcpRequest(controlId: Byte): (packet: seq<Byte>)
    ensures |packet| == 5
    ensures packet[..3] == [HOST_SUBADDRESS, GET_VCP_LENGTH, GET_VCP_OPCODE] && packet[3] == controlId
    ensures XorFold(DISPLAY_ADDRESS, packet) == 0
  {
    var body := [HOST_SUBADDRESS, GET_VCP_LENGTH, GET_VCP_OPCODE, controlId];
    ChecksumCancels(DISPLAY_ADDRESS, body);
    body + [XorFold(DISPLAY_ADDRESS, body)]
  }

  /**
   * The acceptance test of a reply: it comes from 6Eh, is a Get VCP reply,
   * names the requested control, and its last byte is the XOR of the reply
   * address, the reply sub-address and bytes 1 to 9.
   */
  predicate ReplyAccepted(controlId: Byte, reply: seq<Byte>)
    requires |reply| == REPLY_SIZE
    ensures ReplyAccepted(controlId, reply) ==> reply[0] == DISPLAY_ADDRESS && reply[4] == controlId
  {
    && reply[0] == DISPLAY_ADDRESS
    && reply[2] == GET_VCP_REPLY_OPCODE
    && reply[4] == controlId
    && reply[10] == XorFold(REPLY_ADDRESS, [HOST_SUBADDRESS] + reply[1..10])
  }

  /**
   * The reply a monitor sends, laid out as the standard says: source
   * address, length, opcode, result code, control, type, maximum (high,
   * low), current value (high, low), and a checksum over everything before
   * it seeded with the host address 50h.
   */
  function GetVcpReply(controlId: Byte, maxValue: U16, currentValue: U16): (reply: seq<Byte>)
    ensures |reply| == REPLY_SIZE
    ensures XorFold(HOST_ADDRESS, reply) == 0
  {
    var body := [DISPLAY_ADDRESS, 0x88, GET_VCP_REPLY_OPCODE, 0x00, controlId, 0x00] + Be16(maxValue) + Be16(currentValue);
    ChecksumCancels(HOST_ADDRESS, body);
    body + [XorFold(HOST_ADDRESS, body)]
  }

  /**
   * The source's seed (6Fh ^ 51h, skipping byte 0) is the standard's seed
   * (50h ^ 6Eh, including byte 0) for any reply from 6Eh: acceptance implies
   * the whole reply XORs to zero with the host address.
   */
  lemma AcceptedReplyChecksumsToZero(controlId: Byte, reply: seq<Byte>)
    requires |reply| == REPLY_SIZE && ReplyAccepted(controlId, reply)
    ensures XorFold(HOST_ADDRESS, reply) == 0
  {
    var middle := reply[1..10];
    assert Xor(Xor(REPLY_ADDRESS, HOST_SUBADDRESS), 0) == Xor(Xor(HOST_ADDRESS, DISPLAY_ADDRESS), 0);
    assert XorFold(REPLY_ADDRESS, [HOST_SUBADDRESS] + middle) == XorFold(Xor(REPLY_ADDRESS, HOST_SUBADDRESS), middle);
    assert reply[..10] == [reply[0]] + middle;
    assert XorFold(HOST_ADDRESS, reply[..10]) == XorFold(Xor(HOST_ADDRESS, DISPLAY_ADDRESS), middle);
    ChecksumCancels(HOST_ADDRESS, reply[..10]);
    assert reply == reply[..10] + [reply[10]];
  }

  /** Every well-formed reply to the requested control is accepted, and carries the low bytes of its two values at 7 and 9. */
  lemma StandardReplyAccepted(controlId: Byte, maxValue: U16, currentValue: U16)
    ensures ReplyAccepted(controlId, GetVcpReply(controlId, maxValue, currentValue))
    ensures GetVcpReply(controlId, maxValue, currentValue)[7] as int == maxValue % 0x100
    ensures GetVcpReply(controlId, maxValue, currentValue)[9] as int == currentValue % 0x100
  {
    var reply := GetVcpReply(controlId, maxValue, currentValue);
    var body := reply[..10];
    assert reply == body + [reply[10]];
    assert reply[10] == XorFold(HOST_ADDRESS, body);
    assert Xor(Xor(REPLY_ADDRESS, HOST_SUBADDRESS), 0) == Xor(Xor(HOST_ADDRESS, DISPLAY_ADDRESS), 0);
    assert body == [reply[0]] + reply[1..10];
    assert XorFold(REPLY_ADDRESS, [HOST_SUBADDRESS] + reply[1..10]) == XorFold(Xor(REPLY_ADDRESS, HOST_SUBADDRESS), reply[1..10]);
  }

  /** What one transfer attempt produced: whether the I2C request succeeded, and the reply buffer afterwards. */
  datatype Attempt = Attempt(sent: bool, reply: seq<Byte>)

  predicate WellFormedAttempts(attempts: seq<Attempt>)
  {
    |attempts| >= MAX_REQUESTS && forall i :: 0 <= i < |attempts| ==> |attempts[i].reply| == REPLY_SIZE
  }

  /** The first accepted attempt among attempts `from` to 9, if any. */
  function FirstAccepted(controlId: Byte, attempts: seq<Attempt>, from: nat): (r: Option<nat>)
    requires WellFormedAttempts(attempts)
    ensures r.Some? ==> from <= r.value < MAX_REQUESTS && attempts[r.value].sent && ReplyAccepted(controlId, attempts[r.value].reply)
    ensures r.Some? ==> forall i :: from <= i < r.value ==> !(attempts[i].sent && ReplyAccepted(controlId, attempts[i].reply))
    ensures r.None? ==> forall i :: from <= i < MAX_REQUESTS ==> !(attempts[i].sent && ReplyAccepted(controlId, attempts[i].reply))
    decreases MAX_REQUESTS - from
  {
    if from >= MAX_REQUESTS then None
    else if attempts[from].sent && ReplyAccepted(controlId, attempts[from].reply) then Some(from)
    else FirstAccepted(controlId, attempts, from + 1)
  }

  /** The values a Read reports: maximum and current value from the first accepted reply. */
  datatype Values = Values(maxValue: Byte, currentValue: Byte)

  function ReadOutcome(controlId: Byte, attempts: seq<Attempt>): Option<Values>
    requires WellFormedAttempts(attempts)
  {
    match FirstAccepted(controlId, attempts, 0)
    case None => None
    case Some(i) => Some(Values(attempts[i].reply[7], attempts[i].reply[9]))
  }

  /** A monitor answering correctly on the first try: Read reports the low bytes of its maximum and current value. */
  lemma FirstTryRead(controlId: Byte, maxValue: U16, currentValue: U16, attempts: seq<Attempt>)
    requires WellFormedAttempts(attempts)
    requires attempts[0] == Attempt(true, GetVcpReply(controlId, maxValue, currentValue))
    ensures ReadOutcome(controlId, attempts) == Some(Values((maxValue % 0x100) as Byte, (currentValue % 0x100) as Byte))
  {
    StandardReplyAccepted(controlId, maxValue, currentValue);
  }

  /** Only the first ten attempts count: answers after the tenth are never looked at. */
  lemma ReadIgnoresLateAttempts(controlId: Byte, attempts: seq<Attempt>, later: seq<Attempt>)
    requires WellFormedAttempts(attempts) && WellFormedAttempts(later)
    requires attempts[..MAX_REQUESTS] == later[..MAX_REQUESTS]
    ensures ReadOutcome(controlId, attempts) == ReadOutcome(controlId, later)
  {
    assert forall i :: 0 <= i < MAX_REQUESTS ==> attempts[i] == later[i] by {
      forall i | 0 <= i < MAX_REQUESTS ensures attempts[i] == later[i] {
        assert attempts[..MAX_REQUESTS][i] == later[..MAX_REQUESTS][i];
      }
    }
    var a := FirstAccepted(controlId, attempts, 0);
    var b := FirstAccepted(controlId, later, 0);
    if a.Some? && b.Some? {
      assert !(a.value < b.value) && !(b.value < a.value);
    }
  }

  /** ReadCommand: the control to query and the three fields Read fills in. */
  class ReadCommand {
    var controlId: Byte
    var maxValue: Byte
    var currentValue: Byte
    var success: bool

    constructor (controlId: Byte)
      ensures this.controlId == controlId && maxValue == 0 && currentValue == 0 && !success
    {
      this.controlId := controlId;
      maxValue, currentValue, success := 0, 0, false;
    }
  }

  /**
   * DDC::Read: up to ten attempts; the first accepted reply fills in the
   * command; after ten failures the command is cleared and Read fails.
   */
  method Read(command: ReadCommand, attempts: seq<Attempt>) returns (ok: bool)
    requires WellFormedAttempts(attempts)
    modifies command
    ensures command.controlId == old(command.controlId) && ok == command.success
    ensures ReadOutcome(command.controlId, attempts)
         == if ok then Some(Values(command.maxValue, command.currentValue)) else None
    ensures !ok ==> command.maxValue == 0 && command.currentValue == 0
  {
    var reply: seq<Byte> := [];
    var i := 1;
    while i <= MAX_REQUESTS
      invariant 1 <= i <= MAX_REQUESTS
      invariant command.controlId == old(command.controlId)
      invariant FirstAccepted(command.controlId, attempts, 0) == FirstAccepted(command.controlId, attempts, i - 1)
      decreases MAX_REQUESTS - i
    {
      var attempt := attempts[i - 1];
      reply := attempt.reply;
      var result := attempt.sent && ReplyAccepted(command.controlId, reply);
      if result {
        break;
      }
      if i >= MAX_REQUESTS {
        command.success := false;
        command.maxValue := 0;
        command.currentValue := 0;
        return false;
      }
      i := i + 1;
    }
    command.success := true;
    command.maxValue := reply[7];
    command.currentValue := reply[9];
    ok := true;
  }

  // ---------------------------------------------------------------------
  // EDID block (DDC::ReadEDID).

  const EDID_BLOCK_SIZE: nat := 128

  /** The sum of the bytes, as an unbounded integer. */
  function ByteSum(s: seq<Byte>): nat
  {
    if s == [] then 0 else ByteSum(s[..|s| - 1]) + s[|s| - 1] as nat
  }

  /** The checksum byte that the standard puts last: it makes the block's sum a multiple of 256. */
  function ChecksumByte(prefix: seq<Byte>): Byte
  {
    ((0x100 - ByteSum(prefix) % 0x100) % 0x100) as Byte
  }

  /** A final byte makes the block valid if and only if it is the checksum byte of the rest. */
  lemma ChecksumByteIsTheOnlyOne(prefix: seq<Byte>, last: Byte)
    ensures ByteSum(prefix + [last]) % 0x100 == 0 <==> last == ChecksumByte(prefix)
  {
    assert (prefix + [last])[..|prefix|] == prefix;
    var sum := ByteSum(prefix);
    assert ByteSum(prefix + [last]) == sum + last as nat;
    var low := sum % 0x100;
    assert sum == 0x100 * (sum / 0x100) + low;
    assert (sum + last as nat) % 0x100 == (low + last as nat) % 0x100;
  }

  /**
   * DDC::ReadEDID: if the transfer succeeded, add up the block in a byte
   * (wrapping), and keep the block in `edid` only if the sum is zero. The
   * result is exactly that test.
   */
  method ReadEdid(edid: Edids.Edid, sent: bool, block: seq<Byte>) returns (ok: bool)
    requires |block| == EDID_BLOCK_SIZE
    modifies edid
    ensures ok <==> sent && ByteSum(block) % 0x100 == 0
    ensures ok ==> edid.data == block
    ensures !ok ==> edid.data == old(edid.data)
  {
    if !sent {
      return false;
    }
    var i := 0;
    var sum: Byte := 0;
    while i < |block|
      invariant 0 <= i <= |block|
      invariant sum as int == ByteSum(block[..i]) % 0x100
    {
      if i % 128 == 0 {
        if sum != 0 {
          break;
        }
        sum := 0;
      }
      assert block[..i + 1][..i] == block[..i];
      sum := ((sum as int + block[i] as int) % 0x100) as Byte;
      i := i + 1;
    }
    assert block[..i] == block;
    if sum == 0 {
      edid.SetData(Some(block), EDID_BLOCK_SIZE);
    }
    ok := sum == 0;
  }

  // ---------------------------------------------------------------------
  // Per-display queues (GetDisplayQueue).

  /** A CGDirectDisplayID; 0 is the null display. */
  type DisplayNumber = U32
  /** A dispatch semaphore; 0 is NULL. */
  type QueueHandle = nat

  const NULL_QUEUE: QueueHandle := 0
  const QUEUE_SLOTS: nat := 50

  datatype Slot = Slot(id: DisplayNumber, queue: QueueHandle)

  /** The first slot registered for `id`. */
  function FindSlot(slots: seq<Slot>, id: DisplayNumber): (r: Option<nat>)
    ensures r.Some? ==> r.value < |slots| && slots[r.value].id == id
    ensures r.Some? ==> forall j :: 0 <= j < r.value ==> slots[j].id != id
    ensures r.None? ==> forall j :: 0 <= j < |slots| ==> slots[j].id != id
  {
    if slots == [] then None
    else if slots[|slots| - 1].id == id && FindSlot(slots[..|slots| - 1], id).None? then Some(|slots| - 1)
    else FindSlot(slots[..|slots| - 1], id)
  }

  /**
   * The effect of one GetDisplayQueue call on the registered slots, and the
   * queue returned: a known display gets its queue back; an unknown one is
   * registered with the new queue `created`. The null display is never
   * registered: the probe after the search reads the zeroed next slot,
   * whose id 0 matches it, and returns that slot's NULL queue.
   */
  function QueueStep(slots: seq<Slot>, id: DisplayNumber, created: QueueHandle): (r: (seq<Slot>, QueueHandle))
    ensures slots <= r.0
    ensures |r.0| == |slots| + 1 <==> id != 0 && forall j :: 0 <= j < |slots| ==> slots[j].id != id
    ensures |r.0| <= |slots| + 1
    ensures id != 0 ==> FindSlot(r.0, id).Some? && r.0[FindSlot(r.0, id).value].queue == r.1
  {
    match FindSlot(slots, id)
    case Some(k) => (slots, slots[k].queue)
    case None =>
      if id == 0 then (slots, NULL_QUEUE)
      else
        assert (slots + [Slot(id, created)])[..|slots|] == slots;
        (slots + [Slot(id, created)], created)
  }

  /** Asking twice for the same display returns the same queue and registers nothing the second time. */
  lemma QueueStepIdempotent(slots: seq<Slot>, id: DisplayNumber, created: QueueHandle, again: QueueHandle)
    requires id != 0
    ensures var (after, q) := QueueStep(slots, id, created);
            QueueStep(after, id, again) == (after, q)
  {
    if FindSlot(slots, id).None? {
      var after := slots + [Slot(id, created)];
      assert after[..|after| - 1] == slots;
    }
  }

  /** A non-null display always gets a non-null queue, and at most one slot is added per call. */
  lemma QueueStepNeverNull(slots: seq<Slot>, id: DisplayNumber, created: QueueHandle)
    requires id != 0 && created != NULL_QUEUE
    requires forall j :: 0 <= j < |slots| ==> slots[j].queue != NULL_QUEUE
    ensures QueueStep(slots, id, created).1 != NULL_QUEUE
    ensures |QueueStep(slots, id, created).0| <= |slots| + 1
  {
  }

  /** The static table: 50 zeroed slots (calloc) and the number in use. */
  class DisplayQueueTable {
    var ids: array<DisplayNumber>
    var queues: array<QueueHandle>
    var count: nat

    predicate Valid()
      reads this, ids, queues
    {
      && ids.Length == QUEUE_SLOTS && queues.Length == QUEUE_SLOTS && count <= QUEUE_SLOTS
      && (forall j :: count <= j < QUEUE_SLOTS ==> ids[j] == 0 && queues[j] == NULL_QUEUE)
    }

    /** The registered slots, in registration order. */
    function Slots(): (slots: seq<Slot>)
      reads this, ids, queues
      requires Valid()
      ensures |slots| == count
    {
      var ids, queues, n := this.ids, this.queues, count;
      seq(n, j requires 0 <= j < n reads ids, queues => Slot(ids[j], queues[j]))
    }

    constructor ()
      ensures Valid() && fresh(ids) && fresh(queues) && Slots() == []
    {
      ids := new DisplayNumber[QUEUE_SLOTS](_ => 0);
      queues := new QueueHandle[QUEUE_SLOTS](_ => NULL_QUEUE);
      count := 0;
    }

    /**
     * GetDisplayQueue: search the used slots for `id`, then probe the slot
     * where the search stopped; on a miss, register `id` with the fresh
     * semaphore `created` in the next slot. The table has no bound check,
     * so a caller asking for an unknown display must leave a free slot.
     */
    method GetDisplayQueue(id: DisplayNumber, created: QueueHandle) returns (q: QueueHandle)
      requires Valid()
      requires count < QUEUE_SLOTS || exists j :: 0 <= j < count && ids[j] == id
      modifies this, ids, queues
      ensures Valid() && ids == old(ids) && queues == old(queues)
      ensures (Slots(), q) == QueueStep(old(Slots()), id, created)
    {
      ghost var before := Slots();
      var i := 0;
      while i < count && ids[i] != id
        invariant 0 <= i <= count
        invariant forall j :: 0 <= j < i ==> ids[j] != id
      {
        i := i + 1;
      }
      if i < count {
        q := queues[i];
        assert FindSlot(before, id) == Some(i) by {
          assert before[i].id == id;
          assert forall j :: 0 <= j < i ==> before[j].id != id;
          FindSlotIsFirst(before, id, i);
        }
      } else if ids[i] == id {
        q := queues[i];
      } else {
        ids[count] := id;
        queues[count] := created;
        count := count + 1;
        q := created;
        assert Slots() == before + [Slot(id, created)];
      }
    }
  }

  /** The first index holding `id` is the one FindSlot returns. */
  lemma FindSlotIsFirst(slots: seq<Slot>, id: DisplayNumber, k: nat)
    requires k < |slots| && slots[k].id == id
    requires forall j :: 0 <= j < k ==> slots[j].id != id
    ensures FindSlot(slots, id) == Some(k)
  {
    var r := FindSlot(slots, id);
    assert r.Some?;
  }
}
