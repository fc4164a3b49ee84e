/** The batch run in `main` (tools/offline-processor/src/main.rs:75-154),
    sequentialised. The dispatch loop counts the input records and hands one
    job per record to the thread pool; each job sends one result on the
    channel; the collector drains `num_jobs` results.

    The thread pool and the channel are not modelled as threads: their only
    effect on the ledgers is the order in which results arrive. That order is
    a parameter, `schedule`: while results are in flight, `schedule[k]` picks
    which of the still-pending results arrives `k`-th. Every schedule that
    picks a pending result at each step is allowed, and every arrival order
    arises from one (`EveryOrderIsScheduled`). */
module Batch {
  import opened Wrappers
  import opened KeyTable
  import opened Verification
  import opened Collector

  /** The job result of every record, in submission order. */
  function Jobs<K>(keys: map<string, K>, verify: (K, TokenPreimage, string, VerificationSignature) -> bool,
                   records: seq<Record>): (jobs: seq<JobResult>)
    ensures |jobs| == |records|
    ensures forall i :: 0 <= i < |records| ==> jobs[i] == RunJob(keys, verify, records[i])
  {
    if records == [] then []
    else Jobs(keys, verify, records[..|records| - 1]) + [RunJob(keys, verify, records[|records| - 1])]
  }

  /** Lines 101-136: one job per input record, `num_jobs` counting them. */
  method Dispatch<K>(keys: map<string, K>, verify: (K, TokenPreimage, string, VerificationSignature) -> bool,
                     records: seq<Record>) returns (numJobs: nat, jobs: seq<JobResult>)
    ensures numJobs == |records|
    ensures jobs == Jobs(keys, verify, records)
  {
    numJobs, jobs := 0, [];
    while numJobs < |records|
      invariant numJobs <= |records|
      invariant jobs == Jobs(keys, verify, records[..numJobs])
    {
      var record := records[numJobs];
      jobs := jobs + [RunJob(keys, verify, record)];
      assert records[..numJobs + 1][..numJobs] == records[..numJobs];
      numJobs := numJobs + 1;
    }
    assert records[..numJobs] == records;
  }

  /** A schedule for `n` in-flight results: at step `k` it picks one of the
      `n - k` results not yet delivered. */
  ghost predicate IsSchedule(schedule: seq<nat>, n: nat) {
    |schedule| == n && forall k :: 0 <= k < n ==> schedule[k] < n - k
  }

  /** The order in which `rx.iter()` yields the pending results under
      `schedule`. Each result is delivered exactly once. */
  function Arrivals<T>(pending: seq<T>, schedule: seq<nat>): (arrived: seq<T>)
    requires IsSchedule(schedule, |pending|)
    ensures |arrived| == |pending|
    ensures multiset(arrived) == multiset(pending)
    decreases |pending|
  {
    if pending == [] then []
    else
      var j := schedule[0];
      var rest := pending[..j] + pending[j + 1..];
      assert pending == pending[..j] + [pending[j]] + pending[j + 1..];
      [pending[j]] + Arrivals(rest, schedule[1..])
  }

  /** Every arrival order comes from some schedule: any rearrangement of the
      pending results is what `Arrivals` delivers under the schedule returned. */
  lemma {:induction false} EveryOrderIsScheduled<T>(pending: seq<T>, arrived: seq<T>) returns (schedule: seq<nat>)
    requires multiset(arrived) == multiset(pending)
    ensures IsSchedule(schedule, |pending|) && Arrivals(pending, schedule) == arrived
    decreases |pending|
  {
    if pending == [] {
      assert |arrived| == |multiset(arrived)| == 0;
      schedule := [];
    } else {
      var j := RemoveFirstArrival(pending, arrived);
      var rest := pending[..j] + pending[j + 1..];
      var tail := EveryOrderIsScheduled(rest, arrived[1..]);
      ArrivalsFirstPick(pending, j, tail);
      assert arrived == [arrived[0]] + arrived[1..];
      schedule := [j] + tail;
    }
  }

  /** The result that arrives first is pending at some position `j`; the
      others arrive in an order of what stays pending once it is gone. */
  lemma RemoveFirstArrival<T>(pending: seq<T>, arrived: seq<T>) returns (j: nat)
    requires pending != [] && multiset(arrived) == multiset(pending)
    ensures j < |pending| && arrived != [] && pending[j] == arrived[0]
    ensures multiset(arrived[1..]) == multiset(pending[..j] + pending[j + 1..])
  {
    assert |arrived| == |multiset(arrived)| == |pending|;
    var x := arrived[0];
    assert x in multiset(pending);
    j :| 0 <= j < |pending| && pending[j] == x;
    assert pending == pending[..j] + [x] + pending[j + 1..];
    assert arrived == [x] + arrived[1..];
    assert multiset(pending) == multiset(pending[..j]) + multiset([x]) + multiset(pending[j + 1..]);
    assert multiset(arrived[1..]) == multiset(arrived) - multiset{x};
  }

  /** A schedule that picks position `j` first and then follows `tail`. */
  lemma ArrivalsFirstPick<T>(pending: seq<T>, j: nat, tail: seq<nat>)
    requires j < |pending|
    requires IsSchedule(tail, |pending| - 1)
    ensures IsSchedule([j] + tail, |pending|)
    ensures Arrivals(pending, [j] + tail) == [pending[j]] + Arrivals(pending[..j] + pending[j + 1..], tail)
  {
    assert ([j] + tail)[1..] == tail;
  }

  /** Lines 101-149 once the key table exists: dispatch every record, let the
      results arrive in the order `schedule` picks, and collect them. */
  method RunBatch<K>(keys: map<string, K>, verify: (K, TokenPreimage, string, VerificationSignature) -> bool,
                     records: seq<Record>, schedule: seq<nat>)
    returns (numJobs: nat, success: seq<string>, failure: seq<string>)
    requires IsSchedule(schedule, |records|)
    ensures numJobs == |records|
    ensures |success| + |failure| == numJobs
    ensures multiset(success) == multiset(Ledger(Jobs(keys, verify, records), true))
    ensures multiset(failure) == multiset(Ledger(Jobs(keys, verify, records), false))
    ensures multiset(success) + multiset(failure) == multiset(AllLines(Jobs(keys, verify, records)))
  {
    var jobs;
    numJobs, jobs := Dispatch(keys, verify, records);
    var received := Arrivals(jobs, schedule);
    success, failure := Collect(received, numJobs);
    assert received[..numJobs] == received;
    LedgersPartition(received);
    LedgerOrderIndependent(received, jobs, true);
    LedgerOrderIndependent(received, jobs, false);
    LedgersPartition(jobs);
  }

  /** The ledgers of one finished run. */
  datatype Ledgers = Ledgers(success: seq<string>, failure: seq<string>)

  /** All of `main` from the key table on: a key that does not decode aborts
      the run before any output file is created; otherwise every record is
      verified and routed to exactly one ledger. */
  method ProcessRedemptions<K>(rawKeys: seq<string>, decode: string -> Option<K>, publicKeyOf: K -> string,
                               verify: (K, TokenPreimage, string, VerificationSignature) -> bool,
                               records: seq<Record>, schedule: seq<nat>)
    returns (r: Result<Ledgers, KeyError>)
    requires IsSchedule(schedule, |records|)
    ensures r.Failure? <==> exists i :: 0 <= i < |rawKeys| && decode(rawKeys[i]).None?
    ensures r.Failure? ==> r.error == BuildKeyTable(rawKeys, decode, publicKeyOf).error
    ensures r.Success? ==>
      var keys := BuildKeyTable(rawKeys, decode, publicKeyOf).value;
      && |r.value.success| + |r.value.failure| == |records|
      && multiset(r.value.success) == multiset(Ledger(Jobs(keys, verify, records), true))
      && multiset(r.value.failure) == multiset(Ledger(Jobs(keys, verify, records), false))
      && multiset(r.value.success) + multiset(r.value.failure) == multiset(AllLines(Jobs(keys, verify, records)))
  {
    var table := BuildKeyTable(rawKeys, decode, publicKeyOf);
    if table.Failure? {
      return Failure(table.error);
    }
    var numJobs, success, failure := RunBatch(table.value, verify, records, schedule);
    return Success(Ledgers(success, failure));
  }

  /** Lines 83 and 116-118 together: a record names a known issuer exactly
      when its public key string equals the public key derived from one of
      the supplied keys, and it passes only if the signature verifies under
      the last supplied key with that derived id. */
  lemma IssuerByDerivedId<K>(rawKeys: seq<string>, decode: string -> Option<K>, publicKeyOf: K -> string,
                             verify: (K, TokenPreimage, string, VerificationSignature) -> bool,
                             signingKeys: seq<K>, column: CredentialColumn)
    requires DecodesTo(rawKeys, decode, signingKeys)
    ensures BuildKeyTable(rawKeys, decode, publicKeyOf).Success?
    ensures var v := Check(BuildKeyTable(rawKeys, decode, publicKeyOf).value, verify, column);
      && (v != Rejected(UnknownIssuer) <==> column.publicKey in DerivedIds(signingKeys, publicKeyOf))
      && forall i :: 0 <= i < |signingKeys| && publicKeyOf(signingKeys[i]) == column.publicKey
                     && LastWithItsId(signingKeys, publicKeyOf, i) ==>
           (v == Verified <==>
              verify(signingKeys[i], column.credential.t, column.credential.payload, column.credential.signature))
  {
    KeyTableContents(rawKeys, decode, publicKeyOf, signingKeys);
  }

  /** The lines of all jobs are the input records' `id,payment_id,timestamp`
      lines, one per record in submission order. */
  lemma JobLinesAreRecordLines<K>(keys: map<string, K>, verify: (K, TokenPreimage, string, VerificationSignature) -> bool,
                                  records: seq<Record>, i: nat)
    requires i < |records|
    ensures AllLines(Jobs(keys, verify, records))[i]
         == LedgerLine(OutRecord(records[i].id, records[i].paymentId, records[i].timestamp))
  {
    AllLinesAt(Jobs(keys, verify, records), i);
  }

  /** Every record's correlation line lands in the ledger its verdict selects. */
  lemma RecordRouted<K>(keys: map<string, K>, verify: (K, TokenPreimage, string, VerificationSignature) -> bool,
                        records: seq<Record>, i: nat)
    requires i < |records|
    ensures var verified := Check(keys, verify, records[i].credential).Verified?;
      LedgerLine(OutRecord(records[i].id, records[i].paymentId, records[i].timestamp))
        in Ledger(Jobs(keys, verify, records), verified)
  {
    LedgerLineDestination(Jobs(keys, verify, records), i);
  }

  /** One issuer key; three records: one signed validly under it, one whose
      payload was tampered with after signing, one naming an unknown issuer.
      The success ledger holds the first record's line only; the failure
      ledger holds the other two. */
  lemma ThreeRecordScenario<K>(rawKey: string, key: K, decode: string -> Option<K>, publicKeyOf: K -> string,
                               verify: (K, TokenPreimage, string, VerificationSignature) -> bool,
                               valid: Record, tampered: Record, unknown: Record)
    requires decode(rawKey) == Some(key)
    requires valid.credential.publicKey == publicKeyOf(key) && tampered.credential.publicKey == publicKeyOf(key)
    requires unknown.credential.publicKey != publicKeyOf(key)
    requires var c := valid.credential.credential; verify(key, c.t, c.payload, c.signature)
    requires var c := tampered.credential.credential; !verify(key, c.t, c.payload, c.signature)
    ensures BuildKeyTable([rawKey], decode, publicKeyOf).Success?
    ensures var jobs := Jobs(BuildKeyTable([rawKey], decode, publicKeyOf).value, verify, [valid, tampered, unknown]);
      && Ledger(jobs, true) == [LedgerLine(OutRecord(valid.id, valid.paymentId, valid.timestamp))]
      && Ledger(jobs, false) == [LedgerLine(OutRecord(tampered.id, tampered.paymentId, tampered.timestamp)),
                                 LedgerLine(OutRecord(unknown.id, unknown.paymentId, unknown.timestamp))]
  {
    var records := [valid, tampered, unknown];
    assert [rawKey][..0] == [];
    assert BuildKeyTable([rawKey][..0], decode, publicKeyOf) == Success(map[]);
    var keys := BuildKeyTable([rawKey], decode, publicKeyOf).value;
    assert keys == map[publicKeyOf(key) := key];
    var jobs := Jobs(keys, verify, records);
    var j0, j1, j2 := jobs[0], jobs[1], jobs[2];
    assert j0.verdict == Verified && j1.verdict.Rejected? && j2.verdict.Rejected?;
    assert jobs[..2][..1] == [j0] && jobs[..2] == [j0, j1] && jobs[..1][..0] == [];
    assert jobs[..|jobs| - 1] == [j0, j1];
    assert Ledger([j0], true) == [LedgerLine(j0.out)] && Ledger([j0], false) == [];
    assert Ledger([j0, j1], true) == [LedgerLine(j0.out)] && Ledger([j0, j1], false) == [LedgerLine(j1.out)];
  }
}
