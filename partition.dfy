/** The static split of the task range [0, W*H) among a fixed pool of workers, as
  * processImageWithWaitGroup computes it (main.go, lines 104-114). */
module Partition {
  import opened Tasks
  import opened Geometry

  /** The number of workers the source uses. */
  const NumWorkers: nat := 4

  /** Pixels per worker: the largest chunk of which the workers together fit into the
    * total, so fewer than one more pixel per worker is left over. */
  function PixelsPerWorker(total: nat, workers: nat): (chunk: nat)
    requires workers >= 1
    ensures chunk * workers <= total < chunk * workers + workers
  {
    total / workers
  }

  /** First task of a worker: no worker starts beyond the covered prefix. */
  function StartPixel(total: nat, workers: nat, id: nat): (start: nat)
    requires workers >= 1
    ensures id <= workers ==> start <= Covered(total, workers)
  {
    var chunk := PixelsPerWorker(total, workers);
    assert id <= workers ==> id * chunk <= workers * chunk by {
      if id <= workers {
        MulLeft(id, workers, chunk);
      }
    }
    id * chunk
  }

  /** One past the last task of a worker. The next worker starts exactly there, and
    * no worker's range reaches past the covered prefix. */
  function EndPixel(total: nat, workers: nat, id: nat): (end: nat)
    requires workers >= 1
    ensures end == StartPixel(total, workers, id + 1)
    ensures id < workers ==> end <= Covered(total, workers)
  {
    StartPixel(total, workers, id) + PixelsPerWorker(total, workers)
  }

  /** The tasks the static strategy covers, [0, Covered): all whole chunks. At most
    * workers - 1 tasks at the end are left over, and none exactly when the total is a
    * multiple of the worker count. */
  function Covered(total: nat, workers: nat): (c: nat)
    requires workers >= 1
    ensures c <= total && total - c < workers
    ensures c == total <==> total % workers == 0
  {
    workers * PixelsPerWorker(total, workers)
  }

  /** Whether task p lies in the range of worker id. */
  predicate InWorker(total: nat, workers: nat, id: nat, p: int)
    requires workers >= 1
  {
    StartPixel(total, workers, id) <= p < EndPixel(total, workers, id)
  }

  /** Ranges of distinct workers do not overlap: a worker with a smaller ordinal ends
    * no later than one with a larger ordinal begins. */
  lemma WorkerRangesDisjoint(total: nat, workers: nat, i: nat, j: nat, p: int)
    requires workers >= 1 && i != j
    ensures !(InWorker(total, workers, i, p) && InWorker(total, workers, j, p))
  {
    if i < j {
      MulLeft(i + 1, j, PixelsPerWorker(total, workers));
    } else {
      MulLeft(j + 1, i, PixelsPerWorker(total, workers));
    }
  }

  /** The worker responsible for a covered task. */
  function Owner(total: nat, workers: nat, p: nat): (id: nat)
    requires workers >= 1 && p < Covered(total, workers)
    ensures id < workers && InWorker(total, workers, id, p)
  {
    var chunk := PixelsPerWorker(total, workers);
    var id := p / chunk;
    assert id * chunk <= p < id * chunk + chunk;
    assert id < workers by {
      if id >= workers {
        MulLeft(workers, id, chunk);
      }
    }
    id
  }

  /** The worker ranges together are exactly the covered prefix, and each covered task
    * belongs to exactly one worker. */
  lemma WorkerRangesCover(total: nat, workers: nat, p: int)
    requires workers >= 1
    ensures 0 <= p < Covered(total, workers) <==>
            exists id :: 0 <= id < workers && InWorker(total, workers, id, p)
    ensures forall i, j :: (0 <= i < workers && 0 <= j < workers &&
              InWorker(total, workers, i, p) && InWorker(total, workers, j, p)) ==> i == j
  {
    if 0 <= p < Covered(total, workers) {
      var id := Owner(total, workers, p);
      assert InWorker(total, workers, id, p);
    }
    forall id | 0 <= id < workers && InWorker(total, workers, id, p)
      ensures 0 <= p < Covered(total, workers)
    {
      assert EndPixel(total, workers, id) <= Covered(total, workers);
    }
    forall i, j | 0 <= i < workers && 0 <= j < workers &&
        InWorker(total, workers, i, p) && InWorker(total, workers, j, p)
      ensures i == j
    {
      if i != j {
        WorkerRangesDisjoint(total, workers, i, j, p);
      }
    }
  }

  /** The tasks worker id processes, in the order it processes them. */
  function WorkerSchedule(total: nat, workers: nat, id: nat): seq<int>
    requires workers >= 1
  {
    Ascending(StartPixel(total, workers, id), EndPixel(total, workers, id))
  }

  /** The schedules of workers 0 .. k - 1, one after the other. */
  function StaticSchedule(total: nat, workers: nat, k: nat): seq<int>
    requires workers >= 1
  {
    if k == 0 then [] else StaticSchedule(total, workers, k - 1) + WorkerSchedule(total, workers, k - 1)
  }

  /** Because the ranges are contiguous, the first k workers' schedules together are
    * the ascending run [0, k * chunk). */
  lemma {:induction false} StaticScheduleAscending(total: nat, workers: nat, k: nat)
    requires workers >= 1
    ensures StaticSchedule(total, workers, k) == Ascending(0, k * PixelsPerWorker(total, workers))
  {
    var chunk := PixelsPerWorker(total, workers);
    if k > 0 {
      StaticScheduleAscending(total, workers, k - 1);
      assert (k - 1) * chunk + chunk == k * chunk;
      MulLeft(0, k - 1, chunk);
      AscendingConcat(0, (k - 1) * chunk, k * chunk);
    }
  }

  /** All workers together dispatch every covered task exactly once. */
  lemma StaticScheduleExactlyOnce(total: nat, workers: nat)
    requires workers >= 1
    ensures Distinct(StaticSchedule(total, workers, workers))
    ensures Elements(StaticSchedule(total, workers, workers)) == Span(0, Covered(total, workers))
    ensures AllBelow(StaticSchedule(total, workers, workers), total)
  {
    StaticScheduleAscending(total, workers, workers);
    AscendingExactlyOnce(0, Covered(total, workers));
  }
}
