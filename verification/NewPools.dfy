/** Runs of pool calls from a new file. */
module NewPools {
  import opened Bytes
  import opened Options
  import opened SlottedPage
  import opened Disks
  import opened PoolSpec
  import opened PoolProofs
  import opened Allocation
  import opened PoolRuns
  import opened HeapOpening
  import opened EmptyHeaps

  /** A pool of `n` frames on a new file, before any call. */
  ghost function NewTrace(n: nat): (t: Trace)
    requires n > 0
    ensures Good(t) && |t.pool.frames| == n
  {
    NewTraceGood(n);
    FreshUntouched(n);
    Trace(OpenPool(n, []), {}, 1, seq(n, _ => 0))
  }

  lemma NewTraceGood(n: nat)
    requires n > 0
    ensures WholePages(Disk([], 1)) && HeaderFits(PageOnDisk(Disk([], 1), 0))
    ensures Good(Trace(OpenPool(n, []), {}, 1, seq(n, _ => 0))) && |OpenPool(n, []).frames| == n
  {
    hide OpenPool, Coherent, HeaderPage, LoadHeader, HeaderFits, Logical, Live, Counted;
    FreshUntouched(n);
    UntouchedParts(n, OpenPool(n, []));
    FreshHeaderCounted();
  }

  lemma FreshHeaderCounted()
    ensures Counted(FRESH_HEADER, 1) && Live(FRESH_HEADER, 0)
  {
    FreshCounted();
  }

  /** From a new file, for every pool size and any run of a well-behaved client's calls, every page id
      denotes what the stores put there, or zeros. */
  lemma NewRunIsTransparent(n: nat, ops: seq<Op>, p: nat)
    requires n > 0 && p > 0 && AllowedRun(NewTrace(n), ops)
    ensures Logical(RunPool(NewTrace(n), ops).pool, p) == StoredAfter(NewTrace(n), ops, p, Zeros(PAGE_SIZE))
  {
    hide Good, Logical, StoredAfter, RunPool, AllowedRun, OpenPool;
    FreshUntouched(n);
    UntouchedParts(n, OpenPool(n, []));
    RunIsTransparent(NewTrace(n), ops, p);
  }
}
