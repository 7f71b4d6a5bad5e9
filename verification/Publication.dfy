/**
 A publication: its counters and the pending request of its writes, updated in place by the
 writing calls and by the reply handlers.  Each method is tied to the counters' specification.
 */
module Publication {
  import opened Words
  import opened Wrappers
  import opened WriteAccounting

  const TOPIC_NAME_MAX_LENGTH := 65535

  /** A topic, which may be NULL, must have between 1 and 65535 characters. */
  predicate ValidTopic(topic: Option<string>) {
    topic.Some? && 0 < |topic.value| <= TOPIC_NAME_MAX_LENGTH
  }

  class Publication {
    var pending: Word
    var okCount: Word
    var errorCount: Word
    var sent: Word
    var lastWriteQos: Qos
    var triggered: bool
    var result: Result

    ghost function Status(): Status
      reads this
    {
      WriteAccounting.Status(pending, okCount, errorCount, sent, lastWriteQos, triggered, result)
    }

    constructor ()
      ensures Status() == Fresh()
      ensures pending == okCount == errorCount == sent == 0 && !triggered
    {
      pending, okCount, errorCount, sent := 0, 0, 0, 0;
      lastWriteQos, triggered, result := Zero, false, Failed;
    }

    /** What a write does before it hands the message to the MQTT library. */
    method BeginWrite(qos: Qos)
      modifies this
      ensures Status() == WriteAccounting.BeginWrite(old(Status()), qos)
    {
      lastWriteQos := qos;
      pending := U32(pending + 1);
    }

    /** The library refused the message, or took it. */
    method EndSend(taken: bool)
      modifies this
      ensures Status() == if taken then old(Status()).(sent := U32(old(sent) + 1))
                          else old(Status()).(pending := U32(old(pending) - 1))
    {
      if taken {
        sent := U32(sent + 1);
      } else {
        pending := U32(pending - 1);
      }
    }

    /** The publication's part of an acknowledged write. */
    method OnWriteResult(reply: Result)
      modifies this
      ensures Status() == WriteAccounting.OnWriteResult(old(Status()), reply)
    {
      match lastWriteQos
      case Two =>
        if reply != Ok {
          pending := U32(pending - 1);
          errorCount := U32(errorCount + 1);
        }
      case _ =>
        pending := U32(pending - 1);
        if reply == Ok {
          okCount := U32(okCount + 1);
        } else {
          errorCount := U32(errorCount + 1);
        }
    }

    /** The publication's part of a completed delivery. */
    method OnWriteDeliveryResult(reply: Result) returns (handled: Result)
      modifies this
      ensures (Status(), handled) == OnDeliveryResult(old(Status()), reply)
    {
      if lastWriteQos != Two || pending == 0 {
        return Failed;
      }
      pending := U32(pending - 1);
      if reply == Ok {
        okCount := U32(okCount + 1);
      } else {
        errorCount := U32(errorCount + 1);
      }
      handled := Ok;
    }

    /** Stores the result and triggers the condition the caller waits for. */
    method HandleRequestResult(reply: Result)
      modifies this
      ensures Status() == Notify(old(Status()), reply)
    {
      result := reply;
      triggered := true;
    }

    /** The client's handler of a completed delivery. */
    method HandleDelivery(reply: Result)
      modifies this
      ensures Status() ==
        var delivery := OnDeliveryResult(old(Status()), reply);
        Notify(delivery.0, if delivery.1 == Ok then reply else Failed)
    {
      var outcome := Failed;
      if lastWriteQos == Two {
        var handled := OnWriteDeliveryResult(reply);
        if handled == Ok {
          outcome := reply;
        }
      }
      HandleRequestResult(outcome);
    }

    /** The client's handler of the broker's reply to a write. */
    method HandleReply(reply: Result)
      modifies this
      ensures Status() == OnReply(old(Status()), reply)
    {
      var qos := lastWriteQos;
      OnWriteResult(reply);
      if qos != Two {
        HandleRequestResult(reply);
      } else {
        HandleDelivery(reply);
      }
    }

    /** The caller finds the condition triggered, clears it and takes the result, or its wait timed out. */
    method WaitForRequest() returns (outcome: Result)
      modifies this
      ensures Status() == old(Status()).(triggered := false)
      ensures outcome == if old(triggered) then old(result) else Failed
    {
      if !triggered {
        return Failed;
      }
      triggered := false;
      outcome := result;
    }

    /**
     A write that nothing disturbs but at most one reply.  A refusal leaves no trace in the counters.  A
     reply settles the message once and is returned, exactly when QoS 2 is not involved or what is pending
     fits: only this message for a failure, and some for a success.  Without a reply the wait takes what
     was left behind.
     */
    method Write(qos: Qos, topic: Option<string>, taken: bool, reply: Option<Result>) returns (outcome: Result)
      modifies this
      ensures topic == None || topic.value == "" || |topic.value| > 65535 ==>
                outcome == Failed && Status() == old(Status())
      ensures topic.Some? && 0 < |topic.value| <= 65535 && !taken ==>
                outcome == Failed && Status() == old(Status()).(lastQos := qos)
      ensures topic.Some? && 0 < |topic.value| <= 65535 && taken ==>
                var s := WriteAccounting.BeginWrite(old(Status()), qos).(sent := U32(old(sent) + 1));
                if reply.None? then
                  && Status() == s.(triggered := false)
                  && outcome == if old(triggered) then old(result) else Failed
                else
                  (Status() == Settle(s, reply.value).(result := reply.value, triggered := false)
                   && outcome == reply.value
                   <==> qos != Two || (if reply.value == Ok then s.pending != 0 else s.pending == 1))
    {
      hide OnReply;
      if !ValidTopic(topic) {
        return Failed;
      }
      BeginWrite(qos);
      EndSend(taken);
      if !taken {
        return Failed;
      }
      ghost var sent := Status();
      if reply.Some? {
        CountsOnceExactlyWhen(sent, reply.value);
        ReplyGives(sent, reply.value);
        HandleReply(reply.value);
      }
      ghost var replied := Status();
      outcome := WaitForRequest();
      assert reply.Some? ==>
               (replied == Notify(Settle(sent, reply.value), reply.value) <==>
                Status() == Settle(sent, reply.value).(result := reply.value, triggered := false));
    }
  }
}
