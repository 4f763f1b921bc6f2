/** The batch driver: `process_csv_file` folds the per-domain results of one
    attempt, and `run_process` repeats whole attempts and adds them up.
    Reading the CSV and running the event loop are left out; the results of
    each attempt's domains arrive in task order, which is row order. */
module Batch {
  import opened Support
  import opened Crawl

  /** The dictionary both functions return. */
  datatype BatchResult = BatchResult(totalScraped: nat, totalAdded: nat, sample: seq<string>)

  /** The sum of the scraped counts. */
  function SumScraped(results: seq<DomainResult>): nat
  {
    if |results| == 0 then 0
    else SumScraped(results[..|results| - 1]) + results[|results| - 1].scraped
  }

  /** The sum of the added counts. */
  function SumAdded(results: seq<DomainResult>): nat
  {
    if |results| == 0 then 0
    else SumAdded(results[..|results| - 1]) + results[|results| - 1].added
  }

  /** Every sampled address of every domain. */
  function UnionSamples(results: seq<DomainResult>): (all: set<string>)
    ensures forall e :: e in all <==> exists i :: 0 <= i < |results| && e in results[i].sample
  {
    if |results| == 0 then {}
    else
      var init := results[..|results| - 1];
      assert forall i :: 0 <= i < |init| ==> init[i] == results[i];
      UnionSamples(init) + results[|results| - 1].sample
  }

  /** The totals of a list of domains split in two are the sums of the totals
      of the two parts, so the totals do not depend on how rows are grouped. */
  lemma {:induction false} SumsAppend(front: seq<DomainResult>, back: seq<DomainResult>)
    ensures SumScraped(front + back) == SumScraped(front) + SumScraped(back)
    ensures SumAdded(front + back) == SumAdded(front) + SumAdded(back)
    decreases |back|
  {
    if |back| == 0 {
      assert front + back == front;
    } else {
      var all := front + back;
      assert all[..|all| - 1] == front + back[..|back| - 1];
      assert all[|all| - 1] == back[|back| - 1];
      SumsAppend(front, back[..|back| - 1]);
    }
  }

  /** Each domain contributes its full counts: no total is below any single
      domain's count. */
  lemma {:induction false} SumsBoundEach(results: seq<DomainResult>, i: int)
    requires 0 <= i < |results|
    ensures results[i].scraped <= SumScraped(results)
    ensures results[i].added <= SumAdded(results)
  {
    if i < |results| - 1 {
      var init := results[..|results| - 1];
      assert init[i] == results[i];
      SumsBoundEach(init, i);
    }
  }

  /** `process_csv_file` once `gather` has returned: counts summed, samples
      merged, and `list(sample_emails)[:10]` kept. */
  function ProcessCsvFile(results: seq<DomainResult>, rt: Runtime): (r: BatchResult)
    ensures r.totalScraped == SumScraped(results)
    ensures r.totalAdded == SumAdded(results)
    ensures Distinct(r.sample)
    ensures Elems(r.sample) <= UnionSamples(results)
    ensures |r.sample| <= 10
  {
    BatchResult(SumScraped(results), SumAdded(results), FirstOf(rt.order, UnionSamples(results), 10))
  }

  /** The sample is cut at ten addresses, and a batch with at most ten
      sampled addresses reports all of them. */
  lemma ProcessCsvFileSample(results: seq<DomainResult>, rt: Runtime)
    ensures |ProcessCsvFile(results, rt).sample| == Min(10, |UnionSamples(results)|)
    ensures |UnionSamples(results)| <= 10 ==> Elems(ProcessCsvFile(results, rt).sample) == UnionSamples(results)
  {
    FirstOfSize(rt.order, UnionSamples(results), 10);
  }

  /** What `run_process` has accumulated after some attempts: summed counts
      and the set of every attempt's sample. */
  datatype Combined = Combined(totalScraped: nat, totalAdded: nat, samples: set<string>)

  /** The result of attempt `k`; `attempts(k)` is what its domains returned. */
  function Attempt(attempts: nat -> seq<DomainResult>, k: nat, rt: Runtime): BatchResult
  {
    ProcessCsvFile(attempts(k), rt)
  }

  /** The combined results after the first `n` attempts (none when `n <= 0`). */
  function Accumulate(attempts: nat -> seq<DomainResult>, n: int, rt: Runtime): Combined
    decreases n
  {
    if n <= 0 then Combined(0, 0, {})
    else
      var c := Accumulate(attempts, n - 1, rt);
      var a := Attempt(attempts, n - 1, rt);
      Combined(c.totalScraped + a.totalScraped, c.totalAdded + a.totalAdded, c.samples + Elems(a.sample))
  }

  /** One more attempt adds its counts and its sample. */
  lemma AccumulateStep(attempts: nat -> seq<DomainResult>, n: nat, rt: Runtime)
    ensures var c := Accumulate(attempts, n, rt);
            var a := Attempt(attempts, n, rt);
            Accumulate(attempts, n + 1, rt) ==
              Combined(c.totalScraped + a.totalScraped, c.totalAdded + a.totalAdded, c.samples + Elems(a.sample))
  {
  }

  /** Another attempt never lowers a total and never loses a sampled address. */
  lemma {:induction false} AccumulateMonotone(attempts: nat -> seq<DomainResult>, n: int, m: int, rt: Runtime)
    requires n <= m
    ensures Accumulate(attempts, n, rt).totalScraped <= Accumulate(attempts, m, rt).totalScraped
    ensures Accumulate(attempts, n, rt).totalAdded <= Accumulate(attempts, m, rt).totalAdded
    ensures Accumulate(attempts, n, rt).samples <= Accumulate(attempts, m, rt).samples
    decreases m - n
  {
    if n < m && m > 0 {
      AccumulateMonotone(attempts, n, m - 1, rt);
      AccumulateStep(attempts, m - 1, rt);
    }
  }

  /** Attempts that all see the same domain results count everything again
      each time: the totals are the single-attempt totals times `n`. */
  lemma {:induction false} RepeatedAttemptsMultiply(attempts: nat -> seq<DomainResult>, results: seq<DomainResult>, n: nat, rt: Runtime)
    requires forall k: nat :: attempts(k) == results
    ensures Accumulate(attempts, n, rt).totalScraped == n * SumScraped(results)
    ensures Accumulate(attempts, n, rt).totalAdded == n * SumAdded(results)
  {
    if n > 0 {
      var last: nat := n - 1;
      RepeatedAttemptsMultiply(attempts, results, last, rt);
      AccumulateStep(attempts, last, rt);
      assert attempts(last) == results;
      MultiplyStep(last, SumScraped(results));
      MultiplyStep(last, SumAdded(results));
    }
  }

  /** One more copy of `x`. */
  lemma MultiplyStep(k: nat, x: nat)
    ensures (k + 1) * x == k * x + x
  {
  }

  /** An address is among the merged samples exactly when some attempt so
      far sampled it. */
  lemma {:induction false} AccumulatedSample(attempts: nat -> seq<DomainResult>, n: int, rt: Runtime, e: string)
    ensures e in Accumulate(attempts, n, rt).samples <==> exists k: nat :: k < n && e in Attempt(attempts, k, rt).sample
    decreases n
  {
    if n > 0 {
      var last: nat := n - 1;
      AccumulatedSample(attempts, last, rt, e);
      AccumulateStep(attempts, last, rt);
      if e in Attempt(attempts, last, rt).sample {
        assert last < n;
      } else if e in Accumulate(attempts, last, rt).samples {
        var k: nat :| k < last && e in Attempt(attempts, k, rt).sample;
        assert k < n;
      } else {
        forall k: nat | k < n
          ensures e !in Attempt(attempts, k, rt).sample
        {
          if k == last {
          }
        }
      }
    }
  }

  /** The merged samples are the union of the attempts' sample lists. */
  lemma AccumulatedSamples(attempts: nat -> seq<DomainResult>, n: int, rt: Runtime)
    ensures forall e :: e in Accumulate(attempts, n, rt).samples <==>
      exists k: nat :: k < n && e in Attempt(attempts, k, rt).sample
  {
    forall e
      ensures e in Accumulate(attempts, n, rt).samples <==>
        exists k: nat :: k < n && e in Attempt(attempts, k, rt).sample
    {
      AccumulatedSample(attempts, n, rt, e);
    }
  }

  /** Every address the batch samples was sampled by some domain in some
      attempt. */
  lemma AccumulatedSamplesFromDomains(attempts: nat -> seq<DomainResult>, n: int, rt: Runtime)
    ensures forall e :: e in Accumulate(attempts, n, rt).samples ==>
      exists k: nat, i :: k < n && 0 <= i < |attempts(k)| && e in attempts(k)[i].sample
  {
    AccumulatedSamples(attempts, n, rt);
    forall e | e in Accumulate(attempts, n, rt).samples
      ensures exists k: nat, i :: k < n && 0 <= i < |attempts(k)| && e in attempts(k)[i].sample
    {
      var k: nat :| k < n && e in Attempt(attempts, k, rt).sample;
      assert e in UnionSamples(attempts(k));
    }
  }

  /** The retry loop of `run_process`: `maxAttempts` attempts, one after
      another, their counts added and their samples merged. */
  method RunAttempts(attempts: nat -> seq<DomainResult>, maxAttempts: int, rt: Runtime) returns (c: Combined)
    ensures c == Accumulate(attempts, maxAttempts, rt)
  {
    var rounds: nat := if maxAttempts < 0 then 0 else maxAttempts;
    var attempt: nat := 0;
    var scraped: nat := 0;
    var added: nat := 0;
    var samples: set<string> := {};
    while attempt < rounds
      invariant attempt <= rounds
      invariant Accumulate(attempts, attempt, rt) == Combined(scraped, added, samples)
    {
      var results := Attempt(attempts, attempt, rt);
      scraped := scraped + results.totalScraped;
      added := added + results.totalAdded;
      samples := samples + Elems(results.sample);
      attempt := attempt + 1;
    }
    assert Accumulate(attempts, maxAttempts, rt) == Accumulate(attempts, attempt, rt);
    c := Combined(scraped, added, samples);
  }

  /** `run_process`: the attempts' totals, and the first ten addresses of
      their merged samples. */
  method RunProcess(attempts: nat -> seq<DomainResult>, maxAttempts: int, rt: Runtime) returns (r: BatchResult)
    ensures r.totalScraped == Accumulate(attempts, maxAttempts, rt).totalScraped
    ensures r.totalAdded == Accumulate(attempts, maxAttempts, rt).totalAdded
    ensures Distinct(r.sample)
    ensures Elems(r.sample) <= Accumulate(attempts, maxAttempts, rt).samples
    ensures |r.sample| == Min(10, |Accumulate(attempts, maxAttempts, rt).samples|)
    ensures maxAttempts <= 0 ==> r == BatchResult(0, 0, [])
  {
    var c := RunAttempts(attempts, maxAttempts, rt);
    FirstOfSize(rt.order, c.samples, 10);
    r := BatchResult(c.totalScraped, c.totalAdded, FirstOf(rt.order, c.samples, 10));
  }
}
