/** The aggregation stage of tasks.py: `DataAggregationTask`. */
module Aggregation {
  import opened Weather
  import opened HandOff

  class AggregationTask {
    const queue: HandOffQueue

    constructor (queue: HandOffQueue)
      ensures this.queue == queue
    {
      this.queue := queue;
    }

    /**
     * `run`: takes records off the queue until it is observed empty and
     * returns them in the order taken; this list is what the stage writes
     * to the durable store. Sequentially, the drain loses and duplicates
     * nothing, keeps first-in first-out order and leaves the queue empty.
     */
    method Run() returns (result: seq<CityStat>)
      modifies queue
      ensures result == old(queue.items)
      ensures queue.items == []
    {
      result := [];
      while true
        invariant result + queue.items == old(queue.items)
        decreases |queue.items|
      {
        var isEmpty := queue.Empty();
        if isEmpty {
          break;
        }
        var data := queue.Get();
        result := result + [data];
      }
    }
  }
}
