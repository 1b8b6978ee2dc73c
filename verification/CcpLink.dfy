/** The channel between master and slave: in order, lossy, at most one reply to a command. */
module CcpLink {
  import opened Bytes
  import opened CcpSlave
  import opened Wrappers

  const REPLY: u8 := 0xFF

  /** A reply on its way, with the serial number of the command it answers. */
  datatype Reply = Reply(data: bytes, serial: nat)

  /** What a device says of a frame it was to send. */
  datatype SendResult = Whole | Part | Failed

  /** As far as both go, the bytes are the same. */
  predicate Agree(a: bytes, b: bytes) {
    forall i :: 0 <= i < |a| && i < |b| ==> a[i] == b[i]
  }

  /** A reply of any length: code, error, counter, data. A positive one comes from a slave that has obeyed. */
  predicate IsReply(data: bytes, ctr: u8, c: Command, before: Slave, after: Slave) {
    && data != [] && data[0] == REPLY
    && (|data| > 1 && data[1] == 0 ==> after == Exec(before, c) && (|data| > 3 ==> Agree(data[3..], Answer(before, c))))
    && (|data| > 2 ==> data[2] == ctr)
  }

  /** At most one reply to the command has joined the queue. */
  ghost predicate Replied(queue: seq<Reply>, after: seq<Reply>, serial: nat, ctr: u8, c: Command, s: Slave, t: Slave) {
    || after == queue
    || exists data :: after == queue + [Reply(data, serial)] && IsReply(data, ctr, c, s, t)
  }

  lemma OneReply(queue: seq<Reply>, data: bytes, serial: nat, ctr: u8, c: Command, s: Slave, t: Slave)
    requires IsReply(data, ctr, c, s, t)
    ensures Replied(queue, queue + [Reply(data, serial)], serial, ctr, c, s, t)
  {
    hide IsReply;
  }

  lemma NoReply(queue: seq<Reply>, serial: nat, ctr: u8, c: Command, s: Slave, t: Slave)
    ensures Replied(queue, queue, serial, ctr, c, s, t)
  {
  }

  /** Replies wait in the order of their commands and repeat their counters. */
  ghost predicate InOrder(queue: seq<Reply>, serial: nat) {
    && (forall i, j :: 0 <= i < j < |queue| ==> queue[i].serial < queue[j].serial)
    && (forall i :: 0 <= i < |queue| ==>
          queue[i].serial < serial && queue[i].data != [] && queue[i].data[0] == REPLY
          && (|queue[i].data| > 2 ==> queue[i].data[2] == queue[i].serial % 256))
  }

  // ----- The environment -----

  type ErrorCode = c: u8 | c != 0 witness 1

  /**
   What becomes of a command. `Free` leaves every outcome open. The others fix one: the command is obeyed and
   answered, refused, or lost; or lost, obeyed or refused while all replies are held back.
   */
  datatype Fate = Free | Obeyed | Refused(code: ErrorCode) | Lost | Mute | Late | LateRefusal(code: ErrorCode) {
    predicate Delivers() {
      Obeyed? || Refused? || Lost?
    }
  }

  function AfterFate(fate: Fate, c: Command, s: Slave): Slave {
    if fate.Obeyed? || fate.Late? then Exec(s, c) else s
  }

  /** The whole positive reply, eight bytes long. */
  function FullReply(ctr: u8, c: Command, s: Slave): (data: bytes)
    ensures |data| == 8
  {
    [REPLY, 0, ctr] + (Answer(s, c) + Zeros(5))[..5]
  }

  function RepliesOf(fate: Fate, ctr: u8, c: Command, s: Slave, serial: nat): seq<Reply> {
    match fate
    case Obeyed => [Reply(FullReply(ctr, c, s), serial)]
    case Late => [Reply(FullReply(ctr, c, s), serial)]
    case Refused(code) => [Reply([REPLY, code, ctr], serial)]
    case LateRefusal(code) => [Reply([REPLY, code, ctr], serial)]
    case _ => []
  }

  lemma RepliesAreReplies(fate: Fate, ctr: u8, c: Command, s: Slave, serial: nat, queue: seq<Reply>)
    ensures Replied(queue, queue + RepliesOf(fate, ctr, c, s, serial), serial, ctr, c, s, AfterFate(fate, c, s))
  {
    hide Exec, Answer;
    if fate.Refused? || fate.LateRefusal? {
      OneReply(queue, [REPLY, fate.code, ctr], serial, ctr, c, s, s);
    } else if fate.Obeyed? || fate.Late? {
      OneReply(queue, FullReply(ctr, c, s), serial, ctr, c, s, Exec(s, c));
    } else {
      assert queue + [] == queue;
    }
  }

  /**
   The bus and the slave. A policy says what becomes of each command; what it leaves free, the environment chooses.
   */
  class Device {
    const policy: (nat, Command) -> Fate
    var slave: Slave
    var queue: seq<Reply>
    var serial: nat
    /** The fate of the last command. */
    var fate: Fate

    constructor (slave: Slave, policy: (nat, Command) -> Fate)
      ensures this.slave == slave && queue == [] && serial == 0 && this.policy == policy
    {
      this.slave, queue, serial, this.policy, fate := slave, [], 0, policy, Free;
    }

    /** The frame may be lost, refused or obeyed, and its reply may be lost, whatever the device says. */
    method Send(ctr: u8, c: Command) returns (sent: SendResult)
      modifies this
      ensures serial == old(serial) + 1 && fate == policy(old(serial), c)
      ensures slave == old(slave) || slave == Exec(old(slave), c)
      ensures Replied(old(queue), queue, old(serial), ctr, c, old(slave), slave)
      ensures !fate.Free? ==>
                sent == Whole && slave == AfterFate(fate, c, old(slave))
                && queue == old(queue) + RepliesOf(fate, ctr, c, old(slave), old(serial))
    {
      hide Exec, Answer, IsReply, RepliesOf, Replied;
      var before := slave;
      fate := policy(serial, c);
      if fate.Free? {
        if * {
          slave := Exec(before, c);
        }
        var data: bytes := *;
        var answered: bool := *;
        if answered && IsReply(data, ctr, c, before, slave) {
          queue := queue + [Reply(data, serial)];
          OneReply(old(queue), data, serial, ctr, c, before, slave);
        } else {
          NoReply(queue, serial, ctr, c, before, slave);
        }
        sent := *;
      } else {
        slave := AfterFate(fate, c, before);
        RepliesAreReplies(fate, ctr, c, before, serial, queue);
        queue := queue + RepliesOf(fate, ctr, c, before, serial);
        sent := Whole;
      }
      serial := serial + 1;
    }

    /** The next frame, if any: events and measured data as they come, replies in order, sooner or later. */
    method Receive() returns (frame: Option<bytes>)
      modifies this
      ensures slave == old(slave) && serial == old(serial) && fate == old(fate)
      ensures (queue == old(queue) && (frame.Some? ==> frame.value == [] || frame.value[0] != REPLY))
           || (old(queue) != [] && queue == old(queue)[1..] && frame == Some(old(queue)[0].data))
      ensures !fate.Free? ==>
                if fate.Delivers() && old(queue) != [] then frame == Some(old(queue)[0].data)
                  && queue == old(queue)[1..]
                              else frame == None && queue == old(queue)
    {
      frame := None;
      if !fate.Free? && (queue == [] || !fate.Delivers()) {
        return;
      }
      var noisy: bool := *;
      if fate.Free? && noisy {
        var noise: bytes := *;
        if noise == [] || noise[0] != REPLY {
          frame := Some(noise);
        }
      } else if queue != [] {
        frame := Some(queue[0].data);
        queue := queue[1..];
      }
    }
  }

  // ----- The queue of replies -----

  lemma SentInOrder(queue: seq<Reply>, after: seq<Reply>, serial: nat, c: Command, s: Slave, t: Slave)
    requires InOrder(queue, serial) && Replied(queue, after, serial, serial % 256, c, s, t)
    ensures InOrder(after, serial + 1)
    ensures after != [] ==> if queue == [] then after[0].serial == serial else after[0] == queue[0]
  {
    hide Exec, Answer, Agree;
  }

  lemma TakenInOrder(queue: seq<Reply>, serial: nat)
    requires InOrder(queue, serial) && queue != []
    ensures InOrder(queue[1..], serial) && (|queue| > 1 ==> queue[0].serial < queue[1].serial)
  {
  }

  lemma PositiveReply(data: bytes, ctr: u8, c: Command, before: Slave, after: Slave)
    requires IsReply(data, ctr, c, before, after) && |data| >= 3 && data[1] == 0
    ensures after == Exec(before, c) && Agree(data[3..], Answer(before, c))
  {
  }

  /** The eight-bit counter tells a late reply from the awaited one while fewer than 256 commands lie between. */
  lemma CounterIdentifies(queue: seq<Reply>, serial: nat, unanswered: nat)
    requires InOrder(queue, serial) && queue != [] && serial - queue[0].serial <= unanswered < 256
    ensures |queue[0].data| > 2 ==> queue[0].data[2] != serial % 256
  {
    var gap := serial - queue[0].serial;
    assert 0 < gap < 256 && serial == queue[0].serial + gap;
    assert queue[0].serial % 256 != serial % 256;
  }

  /** The first reply is the one to the command just sent exactly if no other was outstanding. */
  lemma FirstIsOurs(queue: seq<Reply>, serial: nat, arrived: seq<Reply>, ctr: u8, c: Command, before: Slave,
                    after: Slave)
    requires InOrder(queue, serial) && Replied(queue, arrived, serial, ctr, c, before, after) && arrived != []
    ensures arrived[0].serial == serial <==> queue == []
  {
    hide IsReply;
    if queue != [] {
      assert arrived[0] == queue[0];
    }
  }

  /** A positive first reply with the awaited counter is the reply to the command just sent, and its answer. */
  lemma AnswerIsOurs(queue: seq<Reply>, serial: nat, unanswered: nat, arrived: seq<Reply>, c: Command, before: Slave,
                     after: Slave)
    requires InOrder(queue, serial) && (queue != [] ==> serial - queue[0].serial <= unanswered) && unanswered < 256
    requires Replied(queue, arrived, serial, serial % 256, c, before, after)
    requires arrived != [] && |arrived[0].data| > 2 && arrived[0].data[1] == 0 && arrived[0].data[2] == serial % 256
    ensures arrived[0].serial == serial && queue == []
    ensures after == Exec(before, c) && Agree(arrived[0].data[3..], Answer(before, c))
  {
    hide InOrder, IsReply, Exec, Answer, Agree;
    if queue != [] {
      assert arrived[0] == queue[0];
      CounterIdentifies(queue, serial, unanswered);
    } else {
      PositiveReply(arrived[0].data, serial % 256, c, before, after);
    }
  }

  /**
   The first reply is the one to the command just sent exactly if no command was unanswered. With fewer than 256
   unanswered ones, it can only be positive under the awaited counter if it is.
   */
  lemma FirstReply(queue: seq<Reply>, serial: nat, unanswered: nat, arrived: seq<Reply>, c: Command, before: Slave,
                   after: Slave)
    requires InOrder(queue, serial) && (queue != [] ==> serial - queue[0].serial <= unanswered)
    requires queue == [] <==> unanswered == 0
    requires Replied(queue, arrived, serial, serial % 256, c, before, after)
    requires arrived != [] && |arrived[0].data| > 2
    ensures arrived[0].serial == serial <==> unanswered == 0
    ensures arrived[0].data[1] == 0 && arrived[0].data[2] == serial % 256 && unanswered < 256 ==>
              && unanswered == 0 && after == Exec(before, c) && Agree(arrived[0].data[3..], Answer(before, c))
  {
    hide InOrder, Replied, Exec, Answer, Agree;
    FirstIsOurs(queue, serial, arrived, serial % 256, c, before, after);
    if arrived[0].data[1] == 0 && arrived[0].data[2] == serial % 256 && unanswered < 256 {
      AnswerIsOurs(queue, serial, unanswered, arrived, c, before, after);
    }
  }
}
