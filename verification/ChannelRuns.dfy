/** Every sequence of channel calls by any threads: the answers are those of a FIFO log. */
module ChannelRuns {
  import opened Options
  import opened PacketChannel

  datatype Call =
    | TryPublishes(caller: Thread, packet: Packet)
    | Publishes(caller: Thread, packet: Packet)
    | TryConsumes(caller: Thread)
    | Consumes(caller: Thread)
    | Closes

  // The channel, the packets whose publication was answered with Sent, and those handed to a consumer.
  datatype Log = Log(channel: Channel, accepted: seq<Packet>, received: seq<Packet>)

  predicate IsSend(call: Call) {
    call.TryPublishes? || call.Publishes?
  }

  predicate IsReceive(call: Call) {
    call.TryConsumes? || call.Consumes?
  }

  function SendAnswer(c: Channel, call: Call): (Sent, Channel)
    requires IsSend(call)
  {
    if call.TryPublishes? then TrySend(c, call.caller, call.packet) else Send(c, call.caller, call.packet)
  }

  function ReceiveAnswer(c: Channel, call: Call): (Received, Channel)
    requires IsReceive(call)
  {
    if call.TryConsumes? then TryReceive(c, call.caller) else Receive(c, call.caller)
  }

  function After(log: Log, call: Call): Log {
    if IsSend(call) then
      var (answer, channel) := SendAnswer(log.channel, call);
      Log(channel, if answer == Sent.Sent then log.accepted + [call.packet] else log.accepted, log.received)
    else if IsReceive(call) then
      var (answer, channel) := ReceiveAnswer(log.channel, call);
      Log(channel, log.accepted, if answer.Received? then log.received + [answer.packet] else log.received)
    else log.(channel := log.channel.(closed := true))
  }

  function Run(capacity: nat, calls: seq<Call>): Log {
    if calls == [] then Log(Channel([], capacity, false, None, None), [], [])
    else After(Run(capacity, calls[..|calls| - 1]), calls[|calls| - 1])
  }

  // What the calls alone say: who publishes, who consumes, and whether the channel was closed.
  function FirstSender(calls: seq<Call>): Option<Thread> {
    if calls == [] then None
    else
      var before, last := FirstSender(calls[..|calls| - 1]), calls[|calls| - 1];
      if before.None? && IsSend(last) then Some(last.caller) else before
  }

  function FirstReceiver(calls: seq<Call>): Option<Thread> {
    if calls == [] then None
    else
      var before, last := FirstReceiver(calls[..|calls| - 1]), calls[|calls| - 1];
      if before.None? && IsReceive(last) then Some(last.caller) else before
  }

  predicate FollowsLog(log: Log, capacity: nat, calls: seq<Call>) {
    && log.accepted == log.received + log.channel.queue
    && log.channel == Channel(log.channel.queue, capacity, Closes in calls, FirstSender(calls), FirstReceiver(calls))
    && |log.channel.queue| <= capacity
  }

  lemma OneMoreCall(calls: seq<Call>, call: Call)
    ensures FirstSender(calls + [call]) ==
      if FirstSender(calls).None? && IsSend(call) then Some(call.caller) else FirstSender(calls)
    ensures FirstReceiver(calls + [call]) ==
      if FirstReceiver(calls).None? && IsReceive(call) then Some(call.caller) else FirstReceiver(calls)
    ensures Closes in calls + [call] <==> Closes in calls || call == Closes
  {
    assert (calls + [call])[..|calls|] == calls;
  }

  lemma SendFollows(log: Log, capacity: nat, calls: seq<Call>, call: Call)
    requires FollowsLog(log, capacity, calls) && IsSend(call)
    ensures FollowsLog(After(log, call), capacity, calls + [call])
  {
    hide FirstSender, FirstReceiver;
    OneMoreCall(calls, call);
    assert log.received + (log.channel.queue + [call.packet]) == log.received + log.channel.queue + [call.packet];
  }

  lemma ReceiveFollows(log: Log, capacity: nat, calls: seq<Call>, call: Call)
    requires FollowsLog(log, capacity, calls) && IsReceive(call)
    ensures FollowsLog(After(log, call), capacity, calls + [call])
  {
    hide FirstSender, FirstReceiver;
    OneMoreCall(calls, call);
    var queue := log.channel.queue;
    if queue != [] {
      assert log.received + queue == log.received + [queue[0]] + queue[1..];
    }
  }

  lemma {:induction false} RunFollowsLog(capacity: nat, calls: seq<Call>)
    ensures FollowsLog(Run(capacity, calls), capacity, calls)
  {
    if calls != [] {
      hide FollowsLog, After;
      var before, last := calls[..|calls| - 1], calls[|calls| - 1];
      RunFollowsLog(capacity, before);
      assert calls == before + [last];
      if IsSend(last) {
        SendFollows(Run(capacity, before), capacity, before, last);
      } else if IsReceive(last) {
        ReceiveFollows(Run(capacity, before), capacity, before, last);
      } else {
        CloseFollows(Run(capacity, before), capacity, before);
      }
    } else {
      NothingFollows(capacity);
    }
  }

  lemma CloseFollows(log: Log, capacity: nat, calls: seq<Call>)
    requires FollowsLog(log, capacity, calls)
    ensures FollowsLog(After(log, Closes), capacity, calls + [Closes])
  {
    hide FirstSender, FirstReceiver;
    OneMoreCall(calls, Closes);
  }

  lemma NothingFollows(capacity: nat)
    ensures FollowsLog(Run(capacity, []), capacity, [])
  {
  }

  /** First in, first out: at all times what has been received and what is queued is what was accepted, in
      order, and the queue is within the capacity. */
  lemma ReceivedInOrder(capacity: nat, calls: seq<Call>)
    ensures var log := Run(capacity, calls);
      log.received + log.channel.queue == log.accepted && |log.channel.queue| <= capacity
  {
    RunFollowsLog(capacity, calls);
  }

  /** What a publishing call answers, by the calls made before it: the first publishing thread alone is
      admitted, and it is refused only when the channel was closed or holds as many packets as its capacity;
      the blocking call tells the two apart and waits when it is merely full. */
  lemma SendAnswers(capacity: nat, calls: seq<Call>, call: Call)
    requires IsSend(call)
    ensures var log := Run(capacity, calls);
      var answer, owner := SendAnswer(log.channel, call).0, FirstSender(calls);
      var full := |log.accepted| - |log.received| == capacity;
      && (answer == SendWrongThread <==> owner.Some? && owner.value != call.caller)
      && (answer == Sent.Sent <==> answer != SendWrongThread && Closes !in calls && !full)
      && (answer == SendFull <==> answer != SendWrongThread && call.TryPublishes? && (Closes in calls || full))
      && (answer == SendClosed <==> answer != SendWrongThread && call.Publishes? && Closes in calls)
      && (answer == SendBlocks <==> answer != SendWrongThread && call.Publishes? && Closes !in calls && full)
  {
    RunFollowsLog(capacity, calls);
  }

  /** What a consuming call answers: the oldest accepted packet not yet received, to the first consuming thread
      alone; without one the blocking call waits until the channel is closed. */
  lemma ReceiveAnswers(capacity: nat, calls: seq<Call>, call: Call)
    requires IsReceive(call)
    ensures var log := Run(capacity, calls);
      var answer, owner := ReceiveAnswer(log.channel, call).0, FirstReceiver(calls);
      var left := |log.accepted| - |log.received|;
      && (answer == ReceiveWrongThread <==> owner.Some? && owner.value != call.caller)
      && (answer.Received? <==> answer != ReceiveWrongThread && left > 0)
      && (answer.Received? ==> answer.packet == log.accepted[|log.received|])
      && (answer == Drained <==> answer != ReceiveWrongThread && left == 0 && (call.TryConsumes? || Closes in calls))
      && (answer == ReceiveBlocks <==> answer != ReceiveWrongThread && left == 0 && call.Consumes? && Closes !in calls)
  {
    RunFollowsLog(capacity, calls);
  }

  /** Once closed, nothing more is accepted, whatever is called. */
  lemma {:induction false} NothingAfterClose(capacity: nat, calls: seq<Call>, more: seq<Call>)
    requires Closes in calls
    ensures Run(capacity, calls + more).accepted == Run(capacity, calls).accepted
    decreases |more|
  {
    if more == [] {
      assert calls + more == calls;
    } else {
      var rest, last := more[..|more| - 1], more[|more| - 1];
      NothingAfterClose(capacity, calls, rest);
      assert (calls + more)[..|calls + more| - 1] == calls + rest;
      RunFollowsLog(capacity, calls + rest);
    }
  }
}
