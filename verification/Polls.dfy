/** What a delta collector lives through: polls that fail or answer with rows. */
module Polls {
  import opened Rings

  datatype PollEvent<R> = Failed | Answered(now: Instant, rows: seq<R>)

  // Its own state: the last readings and the time of the last successful poll.
  datatype Collector<B> = Collector(baselines: B, lastPoll: Time)

  // Successful polls are at least an interval apart, the first one excepted.
  ghost predicate Apart<R>(poll: Duration, last: Time, run: seq<PollEvent<R>>)
    decreases |run|
  {
    run != [] ==>
      && (run[0].Answered? ==> last == NEVER || run[0].now >= last + poll)
      && Apart(poll, if run[0].Answered? then run[0].now else last, run[1..])
  }
}
