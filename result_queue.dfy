/** The result queue between the detection task and its consumer: a FreeRTOS
    queue of `sr_result_t` created with length 3. Every send from the detection
    task uses a zero timeout, so a send into a full queue drops the event. */
module ResultQueue {
  import opened Esp
  import opened SrTypes

  /** `xQueueCreate(3, sizeof(sr_result_t))`. */
  const QueueLength := 3

  /** The queue after a send with a zero timeout. */
  function Sent(items: seq<SrResult>, e: SrResult): (r: seq<SrResult>)
    requires |items| <= QueueLength
    ensures |items| <= |r| <= QueueLength
    ensures r[..|items|] == items
    ensures |r| == |items| + 1 <==> |items| < QueueLength
    ensures |r| != |items| + 1 ==> r == items
    ensures |r| == |items| + 1 ==> r[|items|] == e
  {
    if |items| < QueueLength then items + [e] else items
  }

  class ResultQueue {
    /** The queued events, oldest first. */
    var items: seq<SrResult>

    ghost predicate Valid()
      reads this
    {
      |items| <= QueueLength
    }

    /** `xQueueCreate`: an empty queue. */
    constructor ()
      ensures Valid() && items == []
    {
      items := [];
    }

    /** `xQueueSend(q, &e, 0)`: never blocks; reports whether the event was queued. */
    method Send(e: SrResult) returns (queued: bool)
      requires Valid()
      modifies this
      ensures Valid()
      ensures queued <==> |old(items)| < QueueLength
      ensures items == Sent(old(items), e)
    {
      queued := |items| < QueueLength;
      if queued {
        items := items + [e];
      }
    }

    /** `xQueueReceive(q, buffer, ticks)` in a model where nothing is sent while
        the caller waits: the oldest event, or the untouched buffer when empty. */
    method Receive(buffer: SrResult) returns (received: bool, result: SrResult)
      requires Valid()
      modifies this
      ensures Valid()
      ensures received <==> old(items) != []
      ensures received ==> result == old(items)[0] && items == old(items)[1..]
      ensures !received ==> result == buffer && items == old(items)
    {
      received := items != [];
      if received {
        result := items[0];
        items := items[1..];
      } else {
        result := buffer;
      }
    }
  }
}
