/** Results of tests, how the last part of `run_test` decides on one, and the summary over them. */
module Results {
  import opened PhpStrings
  import opened Junit

  datatype Outcome = PASSED | WARNED | SKIPPED | FAILED | BORKED | LEAKED | XFAILED | REDIR

  function OutcomeOf(k: Kind): Outcome {
    match k
    case PASS => PASSED
    case XFAIL => XFAILED
    case FAIL => FAILED
    case WARN => WARNED
    case LEAK => LEAKED
    case SKIP => SKIPPED
    case BORK => BORKED
  }

  /** What was seen of a test that ran. */
  datatype Evidence = Evidence(matched: bool, leaked: bool, failedHeaders: bool, warned: bool, xfail: bool)

  /** Reported as passed, without further ado. */
  predicate CleanPass(e: Evidence) { e.matched && !e.leaked && !e.failedHeaders && !e.xfail }

  /** The kinds a test that did not pass cleanly collects. */
  function Kinds(e: Evidence): seq<Kind> {
    var failed := if e.matched && !e.failedHeaders then [] else [if e.xfail then XFAIL else FAIL];
    var warned := e.warned || (e.matched && !e.leaked && !e.failedHeaders && e.xfail);
    var listed := if warned then [WARN] + failed else failed;
    if e.leaked then [LEAK] + listed else listed
  }

  function Restype(e: Evidence): seq<Kind> { if CleanPass(e) then [] else Kinds(e) }

  /** The end of `run_test`: an empty list stands for the early return with PASSED. */
  method Judge(e: Evidence) returns (restype: seq<Kind>)
    ensures restype == Restype(e)
  {
    restype := [];
    var passed, warn := false, e.warned;
    if e.matched {
      passed := true;
      if !e.leaked && !e.failedHeaders {
        if e.xfail {
          warn := true;
        } else {
          return [];
        }
      }
    }
    if e.failedHeaders {
      passed := false;
    }
    if e.leaked {
      restype := restype + [LEAK];
    }
    if warn {
      restype := restype + [WARN];
    }
    if !passed {
      restype := restype + [if e.xfail then XFAIL else FAIL];
    }
  }

  /** At the fall-through there is always a first kind, and it is one that is listed as a failure. */
  lemma KindsNotEmpty(e: Evidence)
    requires !CleanPass(e)
    ensures Kinds(e) != [] && forall k :: k in Kinds(e) ==> k in {LEAK, WARN, XFAIL, FAIL}
  {
  }

  /** When a test that ran ends up with which result. */
  lemma OutcomeIff(e: Evidence)
    requires !CleanPass(e)
    ensures Kinds(e) != []
    ensures var o := OutcomeOf(Kinds(e)[0]);
            && (o == LEAKED <==> e.leaked)
            && (o == WARNED <==> !e.leaked && (e.warned || (e.matched && !e.failedHeaders)))
            && (o == XFAILED <==> !e.leaked && !e.warned && !(e.matched && !e.failedHeaders) && e.xfail)
            && (o == FAILED <==> !e.leaked && !e.warned && !(e.matched && !e.failedHeaders) && !e.xfail)
  {
    KindsNotEmpty(e);
  }

  // ---------------------------------------------------------------- the summary

  function Having(results: map<string, Outcome>, o: Outcome): set<string> { set k | k in results && results[k] == o }

  function NumberOf(results: map<string, Outcome>, o: Outcome): nat { |Having(results, o)| }

  ghost predicate Storable(results: map<string, Outcome>) { forall k :: k in results ==> results[k] != REDIR }

  lemma SubsetSize<T>(s: set<T>, t: set<T>)
    requires s <= t
    ensures |s| <= |t|
  {
    assert t == s + (t - s);
  }

  /** Storing a result adds at most one to its own count and nothing to any other. */
  lemma StoreCounts(results: map<string, Outcome>, index: string, r: Outcome, o: Outcome)
    ensures NumberOf(results[index := r], o) <= NumberOf(results, o) + if r == o then 1 else 0
  {
    if r == o {
      SubsetSize(Having(results[index := r], o), Having(results, o) + {index});
    } else {
      SubsetSize(Having(results[index := r], o), Having(results, o));
    }
  }

  lemma NumberAfterRemoval(results: map<string, Outcome>, k: string, o: Outcome)
    requires k in results
    ensures NumberOf(results, o) == NumberOf(results - {k}, o) + if results[k] == o then 1 else 0
  {
    if results[k] == o {
      assert Having(results, o) == Having(results - {k}, o) + {k};
    } else {
      assert Having(results, o) == Having(results - {k}, o);
    }
  }

  function SevenCounts(results: map<string, Outcome>): nat {
    NumberOf(results, PASSED) + NumberOf(results, WARNED) + NumberOf(results, SKIPPED) + NumberOf(results, FAILED)
    + NumberOf(results, BORKED) + NumberOf(results, LEAKED) + NumberOf(results, XFAILED)
  }

  /** The seven counts add up to the number of results. */
  lemma {:induction false} CountsAddUp(results: map<string, Outcome>)
    requires Storable(results)
    ensures SevenCounts(results) == |results|
    decreases |results|
  {
    if results == map[] {
      assert forall o :: Having(results, o) == {};
    } else {
      var k :| k in results;
      assert (results - {k}).Keys == results.Keys - {k};
      CountsAddUp(results - {k});
      NumberAfterRemoval(results, k, PASSED);
      NumberAfterRemoval(results, k, WARNED);
      NumberAfterRemoval(results, k, SKIPPED);
      NumberAfterRemoval(results, k, FAILED);
      NumberAfterRemoval(results, k, BORKED);
      NumberAfterRemoval(results, k, LEAKED);
      NumberAfterRemoval(results, k, XFAILED);
    }
  }

  /** The keys of the summary. */
  predicate SummaryKeys(sums: map<Outcome, nat>) { forall o :: o in sums <==> o != REDIR }

  /** The counting loop of `compute_summary`. */
  method CountResults(results: map<string, Outcome>) returns (sums: map<Outcome, nat>)
    requires Storable(results)
    ensures SummaryKeys(sums) && forall o :: o in sums ==> sums[o] == NumberOf(results, o)
  {
    sums := map[PASSED := 0, WARNED := 0, SKIPPED := 0, FAILED := 0, BORKED := 0, LEAKED := 0, XFAILED := 0];
    var rest := results;
    while rest != map[]
      invariant Storable(rest) && SummaryKeys(sums)
      invariant forall o :: o in sums ==> sums[o] + NumberOf(rest, o) == NumberOf(results, o)
      decreases |rest|
    {
      var k :| k in rest;
      var v := rest[k];
      forall o
        ensures NumberOf(rest, o) == NumberOf(rest - {k}, o) + if v == o then 1 else 0
      {
        NumberAfterRemoval(rest, k, o);
      }
      assert (rest - {k}).Keys == rest.Keys - {k};
      sums := sums[v := sums[v] + 1];
      rest := rest - {k};
    }
    assert forall o :: Having(rest, o) == {};
  }

  function SumOf(sums: map<Outcome, nat>): nat
    requires SummaryKeys(sums)
  {
    sums[PASSED] + sums[WARNED] + sums[SKIPPED] + sums[FAILED] + sums[BORKED] + sums[LEAKED] + sums[XFAILED]
  }

  /** The share of `x` in `n`, in percent. */
  function Share(x: nat, n: nat): real
    requires n > 0
  {
    100.0 * x as real / n as real
  }

  lemma ShareAdds(x: nat, y: nat, n: nat)
    requires n > 0
    ensures Share(x, n) + Share(y, n) == Share(x + y, n)
  {
  }

  lemma ShareOfAll(n: nat)
    requires n > 0
    ensures Share(n, n) == 100.0
  {
  }

  /** What the division gives; without any test it fails and gives false, for which None stands. */
  function Percentage(x: nat, n: nat): Option<real> { if n == 0 then None else Some(Share(x, n)) }

  /** The percentages of a summary: of each result its share. */
  ghost predicate ArePercentages(percent: map<Outcome, Option<real>>, sums: map<Outcome, nat>, total: nat)
    requires SummaryKeys(sums)
  {
    (forall o :: o in percent <==> o != REDIR) && forall o :: o in percent ==> percent[o] == Percentage(sums[o], total)
  }

  /** Together they are a hundred. */
  lemma PercentagesAddUp(percent: map<Outcome, Option<real>>, sums: map<Outcome, nat>, total: nat)
    requires SummaryKeys(sums) && total == SumOf(sums) > 0 && ArePercentages(percent, sums, total)
    ensures forall o :: o in percent ==> percent[o].Some?
    ensures percent[PASSED].value + percent[WARNED].value + percent[SKIPPED].value + percent[FAILED].value
            + percent[BORKED].value + percent[LEAKED].value + percent[XFAILED].value == 100.0
  {
    var n := sums[PASSED];
    ShareAdds(n, sums[WARNED], total);
    n := n + sums[WARNED];
    ShareAdds(n, sums[SKIPPED], total);
    n := n + sums[SKIPPED];
    ShareAdds(n, sums[FAILED], total);
    n := n + sums[FAILED];
    ShareAdds(n, sums[BORKED], total);
    n := n + sums[BORKED];
    ShareAdds(n, sums[LEAKED], total);
    ShareAdds(n + sums[LEAKED], sums[XFAILED], total);
    ShareOfAll(total);
  }

  /** The loop over the sums. */
  method ComputePercentages(sums: map<Outcome, nat>, total: nat) returns (percent: map<Outcome, Option<real>>)
    requires SummaryKeys(sums)
    ensures ArePercentages(percent, sums, total)
  {
    percent := map[];
    var keys := [PASSED, WARNED, SKIPPED, FAILED, BORKED, LEAKED, XFAILED];
    AllSeven(keys);
    var i := 0;
    while i < |keys|
      invariant i <= |keys| && forall o :: o in percent <==> o in keys[..i]
      invariant forall o :: o in percent ==> o in sums && percent[o] == Percentage(sums[o], total)
    {
      percent := percent[keys[i] := Percentage(sums[keys[i]], total)];
      i := i + 1;
    }
    assert keys[..i] == keys;
  }

  lemma AllSeven(all: seq<Outcome>)
    requires all == [PASSED, WARNED, SKIPPED, FAILED, BORKED, LEAKED, XFAILED]
    ensures forall o :: o in all <==> o != REDIR
  {
    assert all[0] == PASSED && all[1] == WARNED && all[2] == SKIPPED && all[3] == FAILED && all[4] == BORKED
        && all[5] == LEAKED && all[6] == XFAILED;
  }

  /** `compute_summary`: `ignored` tests, left out with their extension, count as skipped. */
  method ComputeSummary(results: map<string, Outcome>, ignored: nat)
    returns (total: nat, sums: map<Outcome, nat>, percent: map<Outcome, Option<real>>)
    requires Storable(results)
    ensures SummaryKeys(sums)
    ensures forall o :: o in sums ==> sums[o] == NumberOf(results, o) + if o == SKIPPED then ignored else 0
    ensures total == SumOf(sums)
    ensures ArePercentages(percent, sums, total)
  {
    total := |results| + ignored;
    sums := CountResults(results);
    CountsAddUp(results);
    sums := sums[SKIPPED := sums[SKIPPED] + ignored];
    percent := ComputePercentages(sums, total);
  }
}
