/**
 * The Modbus side of the unit: 16-bit register words, the two requests the
 * driver issues (Read Holding Registers, function code 0x03 of section 6.3,
 * and Write Single Register, function code 0x06 of section 6.6 of the Modbus
 * Application Protocol Specification V1.1b3), and the client connection,
 * modelled as an oracle that answers reads from a script of replies and
 * records every request it is sent.
 */
module Modbus {
  import opened Wrappers

  /** One 16-bit register word as the protocol carries it. */
  type Word = w: int | 0 <= w < 0x1_0000

  /** What one read brings back: the response's register words, or None when
      the response carries no `registers` (an error response, or no reply). */
  type Reply = Option<seq<Word>>

  datatype Request =
    | ReadHoldingRegisters(unit: int, address: nat, count: nat)
    | WriteRegister(unit: int, address: nat, value: int)

  /** The function code that goes on the wire for a request. */
  function FunctionCode(req: Request): (code: int)
    ensures code == 0x03 <==> req.ReadHoldingRegisters?
    ensures code == 0x06 <==> req.WriteRegister?
  {
    match req
    case ReadHoldingRegisters(_, _, _) => 0x03
    case WriteRegister(_, _, _) => 0x06
  }

  /** The reply the i-th next read receives; a script that has run out means
      the unit did not answer. */
  function ReplyAt(replies: seq<Reply>, i: nat): Reply
  {
    if i < |replies| then replies[i] else None
  }

  /** The replies left once one read has been answered. */
  function Rest(replies: seq<Reply>): (rest: seq<Reply>)
    ensures forall i: nat :: ReplyAt(rest, i) == ReplyAt(replies, i + 1)
  {
    if replies == [] then [] else replies[1..]
  }

  /** The replies left once n reads have been answered. */
  function Drop(replies: seq<Reply>, n: nat): (rest: seq<Reply>)
    ensures forall i: nat :: ReplyAt(rest, i) == ReplyAt(replies, n + i)
  {
    if n <= |replies| then replies[n..] else []
  }

  /** Reply i after n answered reads is reply n + i. */
  lemma DropAt(replies: seq<Reply>, n: nat, i: nat)
    ensures ReplyAt(Drop(replies, n), i) == ReplyAt(replies, n + i)
  {
  }

  /** Answering t reads after n leaves what answering n + t leaves. */
  lemma DropDrop(replies: seq<Reply>, n: nat, t: nat)
    ensures Drop(Drop(replies, n), t) == Drop(replies, n + t)
  {
  }

  /** Answering one more read after n leaves what answering n + 1 leaves. */
  lemma RestOfDrop(replies: seq<Reply>, n: nat)
    ensures Rest(Drop(replies, n)) == Drop(replies, n + 1)
  {
  }

  /**
   * The connection to the unit. `replies` is the script of answers the next
   * reads receive, in order; `requests` is everything sent so far.
   */
  class ModbusClient {
    var replies: seq<Reply>
    var requests: seq<Request>

    constructor (script: seq<Reply>)
      ensures replies == script && requests == []
    {
      replies := script;
      requests := [];
    }

    /** Function 0x03: sends one read request and takes the next reply. */
    method ReadHoldingRegisters(unit: int, address: nat, count: nat) returns (reply: Reply)
      modifies this
      ensures requests == old(requests) + [Request.ReadHoldingRegisters(unit, address, count)]
      ensures reply == ReplyAt(old(replies), 0)
      ensures replies == Rest(old(replies))
    {
      requests := requests + [Request.ReadHoldingRegisters(unit, address, count)];
      reply := ReplyAt(replies, 0);
      replies := Rest(replies);
    }

    /** Function 0x06: sends one write request; the driver ignores the answer. */
    method WriteRegister(unit: int, address: nat, value: int)
      modifies this
      ensures requests == old(requests) + [Request.WriteRegister(unit, address, value)]
      ensures replies == old(replies)
    {
      requests := requests + [Request.WriteRegister(unit, address, value)];
    }
  }
}
