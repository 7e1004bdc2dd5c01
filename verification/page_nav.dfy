/**
 * The page stepping shared by the client components (home.ts, discover.ts, lists.ts):
 * "next" moves only while below the last page, "previous" only while above the first.
 */
module PageNav {
  /** `if (page < total) page++`. */
  function Next(page: int, total: int): (p: int)
    ensures page < total ==> p == page + 1
    ensures page >= total ==> p == page
  {
    if page < total then page + 1 else page
  }

  /** `if (page > 1) page--`. */
  function Previous(page: int): (p: int)
    ensures page > 1 ==> p == page - 1
    ensures page <= 1 ==> p == page
  {
    if page > 1 then page - 1 else page
  }

  /** Stepping never leaves the range 1..total once inside it. */
  lemma StepsStayInRange(page: int, total: int)
    requires 1 <= page <= total
    ensures 1 <= Next(page, total) <= total
    ensures 1 <= Previous(page) <= total
  {
  }

  /** A step forward that moved is undone by a step back, and conversely. */
  lemma NextThenPrevious(page: int, total: int)
    requires 1 <= page < total
    ensures Previous(Next(page, total)) == page
    ensures Next(Previous(page + 1), total) == page + 1
  {
  }

  /** The page after pressing "next" `steps` times. */
  function NextTimes(page: int, total: int, steps: nat): int
    decreases steps
  {
    if steps == 0 then page else NextTimes(Next(page, total), total, steps - 1)
  }

  /** Pressing "next" repeatedly climbs one page at a time and stops at the last page. */
  lemma {:induction false} NextTimesReaches(page: int, total: int, steps: nat)
    requires 1 <= page <= total
    ensures NextTimes(page, total, steps) == if page + steps <= total then page + steps else total
    decreases steps
  {
    if steps > 0 {
      NextTimesReaches(Next(page, total), total, steps - 1);
    }
  }
}
