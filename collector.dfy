/** The result collector at the end of `main`
    (tools/offline-processor/src/main.rs:143-149): it drains `num_jobs` job
    results from the channel, formats each as `id,payment_id,timestamp\n` and
    appends the line to the success ledger when the job passed and to the
    failure ledger otherwise. The two `LineWriter` files are the two
    sequences of lines written so far. */
module Collector {
  import opened Verification

  /** Line 144: the correlation fields joined by commas, ending in a newline. */
  function LedgerLine(out: OutRecord): (line: string)
    ensures |line| == |out.id| + |out.paymentId| + |out.timestamp| + 3
    ensures line[|out.id|] == ',' && line[|out.id| + 1 + |out.paymentId|] == ',' && line[|line| - 1] == '\n'
  {
    out.id + "," + out.paymentId + "," + out.timestamp + "\n"
  }

  /** The lines of the ledger for `verified` results after the collector has
      seen `results`, in arrival order. */
  function Ledger(results: seq<JobResult>, verified: bool): (lines: seq<string>)
    ensures |lines| <= |results|
  {
    if results == [] then []
    else Ledger(results[..|results| - 1], verified) + Routed(results[|results| - 1], verified)
  }

  /** What one result adds to the ledger for `verified`: its line, or nothing. */
  function Routed(result: JobResult, verified: bool): (lines: seq<string>)
    ensures |lines| <= 1
  {
    if result.verdict.Verified? == verified then [LedgerLine(result.out)] else []
  }

  /** A result's line goes to one ledger and not to the other: the success
      ledger when it passed, the failure ledger otherwise. */
  lemma RoutedToOne(result: JobResult)
    ensures Routed(result, result.verdict.Verified?) == [LedgerLine(result.out)]
    ensures Routed(result, !result.verdict.Verified?) == []
    ensures |Routed(result, true)| + |Routed(result, false)| == 1
    ensures multiset(Routed(result, true)) + multiset(Routed(result, false)) == multiset{LedgerLine(result.out)}
  {
  }

  /** The line of every result, whichever ledger it goes to. */
  function AllLines(results: seq<JobResult>): (lines: seq<string>)
    ensures |lines| == |results|
  {
    if results == [] then []
    else AllLines(results[..|results| - 1]) + [LedgerLine(results[|results| - 1].out)]
  }

  /** Position `i` of `AllLines` is the line of the `i`-th result. */
  lemma {:induction false} AllLinesAt(results: seq<JobResult>, i: nat)
    requires i < |results|
    ensures AllLines(results)[i] == LedgerLine(results[i].out)
  {
    var last := |results| - 1;
    if i < last {
      AllLinesAt(results[..last], i);
      assert results[..last][i] == results[i];
    }
  }

  /** The collector loop: `rx.iter().take(num_jobs)` over the results in the
      order they arrive. It terminates only when at least `numJobs` results
      arrive, which is what the precondition says. */
  method Collect(received: seq<JobResult>, numJobs: nat) returns (success: seq<string>, failure: seq<string>)
    requires numJobs <= |received|
    ensures success == Ledger(received[..numJobs], true)
    ensures failure == Ledger(received[..numJobs], false)
  {
    success, failure := [], [];
    var i := 0;
    while i < numJobs
      invariant i <= numJobs
      invariant success == Ledger(received[..i], true)
      invariant failure == Ledger(received[..i], false)
    {
      var result := received[i];
      var line := LedgerLine(result.out);
      match result.verdict {
        case Verified => success := success + [line];
        case Rejected(_) => failure := failure + [line];
      }
      assert received[..i + 1][..i] == received[..i];
      i := i + 1;
    }
  }

  /** Appending results appends to each ledger. */
  lemma {:induction false} LedgerAppend(a: seq<JobResult>, b: seq<JobResult>, verified: bool)
    ensures Ledger(a + b, verified) == Ledger(a, verified) + Ledger(b, verified)
    decreases |b|
  {
    if b == [] {
      assert a + b == a;
    } else {
      var last := |b| - 1;
      assert (a + b)[..|a + b| - 1] == a + b[..last];
      LedgerAppend(a, b[..last], verified);
    }
  }

  /** Every result goes to exactly one ledger: together the two ledgers hold
      each result's line once, no line dropped and none duplicated. */
  lemma {:induction false} LedgersPartition(results: seq<JobResult>)
    ensures |Ledger(results, true)| + |Ledger(results, false)| == |results|
    ensures multiset(Ledger(results, true)) + multiset(Ledger(results, false)) == multiset(AllLines(results))
  {
    if results != [] {
      var last := |results| - 1;
      var prefix := results[..last];
      LedgersPartition(prefix);
      RoutedToOne(results[last]);
      SplitStep(Ledger(prefix, true), Ledger(prefix, false), AllLines(prefix),
                Routed(results[last], true), Routed(results[last], false), LedgerLine(results[last].out));
    }
  }

  /** Adding one element to one of two parts of a multiset partition. */
  lemma SplitStep<T>(left: seq<T>, right: seq<T>, all: seq<T>, extraLeft: seq<T>, extraRight: seq<T>, x: T)
    requires |left| + |right| == |all|
    requires multiset(left) + multiset(right) == multiset(all)
    requires |extraLeft| + |extraRight| == 1
    requires multiset(extraLeft) + multiset(extraRight) == multiset{x}
    ensures |left + extraLeft| + |right + extraRight| == |all + [x]|
    ensures multiset(left + extraLeft) + multiset(right + extraRight) == multiset(all + [x])
  {
  }

  /** A line is in the ledger for `verified` only if some result with that
      outcome carries it. */
  lemma {:induction false} LedgerLineOrigin(results: seq<JobResult>, verified: bool, line: string)
    requires line in Ledger(results, verified)
    ensures exists i :: 0 <= i < |results| && results[i].verdict.Verified? == verified && LedgerLine(results[i].out) == line
  {
    var last := |results| - 1;
    var r := results[last];
    if r.verdict.Verified? == verified && line == LedgerLine(r.out) {
    } else {
      LedgerLineOrigin(results[..last], verified, line);
      var i :| 0 <= i < last && results[..last][i].verdict.Verified? == verified && LedgerLine(results[..last][i].out) == line;
      assert results[i] == results[..last][i];
    }
  }

  /** Each result's line is in the ledger that matches its outcome. */
  lemma {:induction false} LedgerLineDestination(results: seq<JobResult>, i: nat)
    requires i < |results|
    ensures LedgerLine(results[i].out) in Ledger(results, results[i].verdict.Verified?)
  {
    var last := |results| - 1;
    if i < last {
      LedgerLineDestination(results[..last], i);
      assert results[..last][i] == results[i];
    }
  }

  /** The contents of each ledger, as a multiset of lines, are the same for
      every order in which the results can arrive. */
  lemma {:induction false} LedgerOrderIndependent(a: seq<JobResult>, b: seq<JobResult>, verified: bool)
    requires multiset(a) == multiset(b)
    ensures multiset(Ledger(a, verified)) == multiset(Ledger(b, verified))
    decreases |a|
  {
    if a != [] {
      var x := a[0];
      assert x in multiset(b);
      var j :| 0 <= j < |b| && b[j] == x;
      var rest := b[..j] + b[j + 1..];
      assert b == b[..j] + [x] + b[j + 1..];
      assert a == [x] + a[1..];
      assert multiset(b) == multiset(b[..j]) + multiset([x]) + multiset(b[j + 1..]);
      assert multiset(rest) == multiset(b[..j]) + multiset(b[j + 1..]);
      assert multiset(a) == multiset([x]) + multiset(a[1..]);
      assert multiset(a[1..]) == multiset(a) - multiset{x};
      assert multiset(rest) == multiset(b) - multiset{x};
      LedgerOrderIndependent(a[1..], rest, verified);
      LedgerAppend([x], a[1..], verified);
      LedgerAppend(b[..j] + [x], b[j + 1..], verified);
      LedgerAppend(b[..j], [x], verified);
      LedgerAppend(b[..j], b[j + 1..], verified);
    }
  }

  /** The correlation fields can be read back from a ledger line as long as the
      id and the payment id hold no comma: two records with such fields write
      the same line only when they are the same record. */
  lemma LedgerLineInjective(a: OutRecord, b: OutRecord)
    requires ',' !in a.id && ',' !in b.id && ',' !in a.paymentId && ',' !in b.paymentId
    requires LedgerLine(a) == LedgerLine(b)
    ensures a == b
  {
    var ta, tb := a.paymentId + "," + a.timestamp + "\n", b.paymentId + "," + b.timestamp + "\n";
    assert LedgerLine(a) == a.id + "," + ta;
    assert LedgerLine(b) == b.id + "," + tb;
    SplitAtFirstComma(a.id, ta, b.id, tb);
    assert ta == a.paymentId + "," + (a.timestamp + "\n");
    assert tb == b.paymentId + "," + (b.timestamp + "\n");
    SplitAtFirstComma(a.paymentId, a.timestamp + "\n", b.paymentId, b.timestamp + "\n");
    assert a.timestamp == (a.timestamp + "\n")[..|a.timestamp|];
    assert b.timestamp == (b.timestamp + "\n")[..|b.timestamp|];
  }

  /** A comma-free field followed by a comma can be split off unambiguously. */
  lemma SplitAtFirstComma(f: string, r: string, f': string, r': string)
    requires ',' !in f && ',' !in f'
    requires f + "," + r == f' + "," + r'
    ensures f == f' && r == r'
  {
    var s := f + "," + r;
    assert s[|f|] == ',' && s[|f'|] == ',';
    assert forall k :: 0 <= k < |f| ==> s[k] == f[k];
    assert forall k :: 0 <= k < |f'| ==> s[k] == f'[k];
    assert f == s[..|f|] == f';
    assert r == s[|f| + 1..] == r';
  }
}
