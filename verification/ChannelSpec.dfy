/** What one pass through a channel's mutex does to the queue and the waiting counters (libchannel/ch.c). */
module ChannelSpec {
  import opened CTypes

  /** The block value that marks the end of transmission. */
  const CH_ENDOFTRANSMISSION: Ptr := 0xE

  /** Where a put places its element: behind the last, or (ch_put_head) in front of the first. */
  datatype Place = Last | First

  /** A channel as seen with its mutex held; maxSize 0 means no limit. */
  datatype Chan = Chan(queue: seq<Ptr>, maxSize: nat, blocking: bool, getWaiting: int, putWaiting: int)

  /** How a pass through the mutex ends: with a return value, or asleep on the condition variable. */
  datatype PutEnd = PutFull | PutSleeps | PutDone(count: nat)
  datatype GetEnd = NoData | GetSleeps | Got(block: Ptr) | EndOfTransmission

  ghost predicate Full(c: Chan)
  {
    c.maxSize > 0 && |c.queue| >= c.maxSize
  }

  /** A put that has just taken the mutex, for the first time or coming from the condition variable. */
  ghost function Put(c: Chan, block: Ptr, place: Place): (Chan, PutEnd)
  {
    if Full(c) && !c.blocking then (c, PutFull)
    else if Full(c) then (c.(putWaiting := c.putWaiting + 1), PutSleeps)
    else
      var q := if place == Last then c.queue + [block] else [block] + c.queue;
      (c.(queue := q), PutDone(|q|))
  }

  /** A get that has just taken the mutex, for the first time or coming from the condition variable. */
  ghost function Get(c: Chan): (Chan, GetEnd)
  {
    if c.queue == [] && !c.blocking then (c, NoData)
    else if c.queue == [] then (c.(getWaiting := c.getWaiting + 1), GetSleeps)
    else
      (c.(queue := c.queue[1..]),
       if c.queue[0] == CH_ENDOFTRANSMISSION then EndOfTransmission else Got(c.queue[0]))
  }

  /** A completed put signals one waiting get, in blocking mode. */
  ghost predicate PutSignals(c: Chan, e: PutEnd)
  {
    e.PutDone? && c.blocking
  }

  /** A completed get signals one waiting put, if the channel is limited and a put is waiting. */
  ghost predicate GetSignals(c: Chan, e: GetEnd)
  {
    (e.Got? || e.EndOfTransmission?) && c.maxSize != 0 && c.putWaiting > 0
  }
}
