/** The backup duration estimate (src/index.rs:446-480): the median length of the recent successful
    backups, leaving out implausible lengths. Times are in nanoseconds; a time whose stored text does
    not parse is `None`. */
module Estimate {
  import opened Selection
  import opened Ordering

  const WEEK_SECONDS: int := 7 * 24 * 60 * 60
  const U64_LIMIT: int := 0x1_0000_0000_0000_0000
  const NANOS_PER_SECOND: int := 1_000_000_000

  datatype Job = Job(kind: string, state: string, started: Option<int>, finishedText: Option<string>,
                     finished: Option<int>)

  datatype Estimation = Failed | Unknown | Seconds(value: int)

  const IntLe: (int, int) -> bool := (a: int, b: int) => a <= b

  // ---------------------------------------------------------------------------------------
  // The sample
  // ---------------------------------------------------------------------------------------

  predicate Succeeded(j: Job) {
    j.kind == "backup" && j.state == "succeeded" && j.finishedText.Some?
  }

  predicate FinishedNoLater(a: Job, b: Job) {
    a.finishedText.Some? && b.finishedText.Some? && StringLe(a.finishedText.value, b.finishedText.value)
  }

  /** What the query promises: the successes, latest finish text first, cut to the first `limit`.
      Rows with the same text come in any order. */
  ghost predicate NewestSuccesses(jobs: multiset<Job>, limit: nat, rows: seq<Job>) {
    && multiset(rows) <= jobs
    && |rows| <= limit
    && (forall j :: j in rows ==> Succeeded(j))
    && (forall i, k :: 0 <= i < k < |rows| ==> FinishedNoLater(rows[k], rows[i]))
    && (forall j :: multiset(rows)[j] < jobs[j] && Succeeded(j) ==>
          |rows| == limit && forall r :: r in rows ==> FinishedNoLater(j, r))
  }

  lemma RowsAreFinishedBackups(jobs: multiset<Job>, limit: nat, rows: seq<Job>, j: Job)
    requires NewestSuccesses(jobs, limit, rows) && j in rows
    ensures j.kind == "backup" && j.state == "succeeded" && j.finishedText.Some? && j in jobs
  {
    assert j in multiset(rows);
  }

  ghost predicate NoTies(jobs: multiset<Job>) {
    forall a, b :: a in jobs && b in jobs && Succeeded(a) && Succeeded(b) && a.finishedText == b.finishedText ==> a == b
  }

  predicate Parses(j: Job) {
    j.started.Some? && j.finished.Some?
  }

  /** Whole seconds from start to finish, truncated toward zero. */
  function Duration(j: Job): int
    requires Parses(j)
  {
    var nanos := j.finished.value - j.started.value;
    if nanos >= 0 then nanos / NANOS_PER_SECOND else -(-nanos / NANOS_PER_SECOND)
  }

  predicate Plausible(j: Job) {
    Parses(j) && 1 <= Duration(j) <= WEEK_SECONDS
  }

  /** A plausible length in nanoseconds: at least one second and less than a week and a second. Its whole
      seconds are those that fit into it. */
  lemma PlausibleMeans(j: Job)
    requires Parses(j)
    ensures var nanos := j.finished.value - j.started.value;
            && (Plausible(j) <==> 1_000_000_000 <= nanos < 604_801 * 1_000_000_000)
            && (Plausible(j) ==> Duration(j) * 1_000_000_000 <= nanos < (Duration(j) + 1) * 1_000_000_000)
  {
  }

  ghost function PlausibleLength(j: Job): (r: seq<int>)
    ensures forall d :: d in r ==> 1 <= d <= WEEK_SECONDS
  {
    if Plausible(j) then [Duration(j)] else []
  }

  /** The lengths of the plausible jobs. */
  ghost function Sample(rows: seq<Job>): (r: seq<int>)
    ensures forall d :: d in r ==> 1 <= d <= WEEK_SECONDS
  {
    if rows == [] then []
    else
      Sample(rows[..|rows| - 1]) + PlausibleLength(rows[|rows| - 1])
  }

  /** The sample has one length for each plausible row. */
  lemma {:induction false} SampleSize(rows: seq<Job>)
    ensures |Sample(rows)| == |set i | 0 <= i < |rows| && Plausible(rows[i])|
  {
    hide Plausible;
    if rows != [] {
      var n := |rows| - 1;
      SampleSize(rows[..n]);
      var before := set i | 0 <= i < n && Plausible(rows[..n][i]);
      var all := set i | 0 <= i < |rows| && Plausible(rows[i]);
      assert all == before + (if Plausible(rows[n]) then {n} else {});
    }
  }

  lemma SampleSnoc(rows: seq<Job>)
    requires rows != []
    ensures multiset(Sample(rows)) == multiset(Sample(rows[..|rows| - 1])) + multiset(PlausibleLength(rows[|rows| - 1]))
  {
  }

  lemma {:induction false} SampleWithout(rows: seq<Job>, k: nat)
    requires k < |rows|
    ensures multiset(Sample(rows)) == multiset(Sample(rows[..k] + rows[k + 1..])) + multiset(PlausibleLength(rows[k]))
  {
    hide PlausibleLength, Sample;
    var n := |rows| - 1;
    SampleSnoc(rows);
    if k == n {
      assert rows[..k] + rows[k + 1..] == rows[..n];
    } else {
      var init, rest := rows[..n], rows[..k] + rows[k + 1..];
      SampleWithout(init, k);
      SampleSnoc(rest);
      assert rest[..|rest| - 1] == init[..k] + init[k + 1..];
      assert rest[|rest| - 1] == rows[n] && init[k] == rows[k];
    }
  }

  lemma TakenOut<T>(s: seq<T>, k: nat)
    requires k < |s|
    ensures multiset(s) == multiset(s[..k] + s[k + 1..]) + multiset{s[k]}
  {
    assert s == s[..k] + [s[k]] + s[k + 1..];
  }

  lemma SameRest<T>(a: seq<T>, i: nat, b: seq<T>, k: nat)
    requires i < |a| && k < |b| && a[i] == b[k] && multiset(a) == multiset(b)
    ensures multiset(a[..i] + a[i + 1..]) == multiset(b[..k] + b[k + 1..])
  {
    TakenOut(a, i);
    TakenOut(b, k);
    Cancel(multiset(a[..i] + a[i + 1..]), multiset(b[..k] + b[k + 1..]), multiset{a[i]});
  }

  lemma Cancel<T>(a: multiset<T>, b: multiset<T>, c: multiset<T>)
    requires a + c == b + c
    ensures a == b
  {
    assert a == (a + c) - c && b == (b + c) - c;
  }

  lemma {:induction false} SampleIgnoresOrder(a: seq<Job>, b: seq<Job>)
    requires multiset(a) == multiset(b)
    ensures multiset(Sample(a)) == multiset(Sample(b))
  {
    hide PlausibleLength;
    assert |a| == |multiset(a)| == |multiset(b)| == |b|;
    if a != [] {
      var n := |a| - 1;
      assert a[n] in multiset(b);
      var k :| 0 <= k < |b| && b[k] == a[n];
      SameRest(a, n, b, k);
      assert a[..n] + a[n + 1..] == a[..n];
      SampleIgnoresOrder(a[..n], b[..k] + b[k + 1..]);
      SampleWithout(b, k);
      SampleWithout(a, n);
    }
  }

  /** Unless two successes finished at the same time, the query has one answer up to order. */
  lemma NewestSuccessesUnique(jobs: multiset<Job>, limit: nat, a: seq<Job>, b: seq<Job>)
    requires NewestSuccesses(jobs, limit, a) && NewestSuccesses(jobs, limit, b)
    requires NoTies(jobs)
    ensures multiset(a) == multiset(b)
  {
    AtLeastAsMany(jobs, limit, a, b);
    AtLeastAsMany(jobs, limit, b, a);
  }

  lemma AtLeastAsMany(jobs: multiset<Job>, limit: nat, a: seq<Job>, b: seq<Job>)
    requires NewestSuccesses(jobs, limit, a) && NewestSuccesses(jobs, limit, b)
    requires NoTies(jobs)
    ensures multiset(b) <= multiset(a)
  {
    var ma, mb := multiset(a), multiset(b);
    forall j ensures mb[j] <= ma[j] {
      if ma[j] < mb[j] {
        assert j in b && j in jobs;
        assert |a| == limit && |b| <= limit;
        var i := MoreElsewhere(ma, mb, j);
        assert i in a && i in jobs;
        StringOrder();
        assert false;
      }
    }
  }

  lemma MoreElsewhere<T(!new)>(a: multiset<T>, b: multiset<T>, j: T) returns (i: T)
    requires |b| <= |a| && a[j] < b[j]
    ensures b[i] < a[i]
  {
    assert a <= b ==> b == a + (b - a);
    assert (b - a)[j] > 0;
    i :| b[i] < a[i];
  }

  // ---------------------------------------------------------------------------------------
  // The median
  // ---------------------------------------------------------------------------------------

  function Sorted(sample: seq<int>): (r: seq<int>)
    ensures |r| == |sample|
    ensures multiset(r) == multiset(sample)
    ensures forall i, j :: 0 <= i <= j < |r| ==> r[i] <= r[j]
    ensures forall x :: x in r ==> x in sample
  {
    var r := Sort(sample, IntLe);
    assert |r| == |multiset(r)| == |multiset(sample)| == |sample|;
    assert forall x :: x in r ==> x in multiset(r);
    assert forall i, j :: 0 <= i < j < |r| ==> IntLe(r[i], r[j]);
    r
  }

  ghost function Median(sample: seq<int>): int
    requires sample != []
  {
    var d := Sorted(sample);
    var middle := |d| / 2;
    if |d| % 2 == 0 then (d[middle - 1] + d[middle]) / 2 else d[middle]
  }

  ghost function Count(s: seq<int>, p: int -> bool): nat {
    if s == [] then 0 else (if p(s[0]) then 1 else 0) + Count(s[1..], p)
  }

  lemma {:induction false} CountConcat(a: seq<int>, b: seq<int>, p: int -> bool)
    ensures Count(a + b, p) == Count(a, p) + Count(b, p)
  {
    if a == [] {
      assert a + b == b;
    } else {
      CountConcat(a[1..], b, p);
      assert (a + b)[1..] == a[1..] + b;
    }
  }

  lemma {:induction false} CountAll(s: seq<int>, p: int -> bool)
    requires forall i :: 0 <= i < |s| ==> p(s[i])
    ensures Count(s, p) == |s|
  {
    if s != [] { CountAll(s[1..], p); }
  }

  lemma {:induction false} CountIgnoresOrder(a: seq<int>, b: seq<int>, p: int -> bool)
    requires multiset(a) == multiset(b)
    ensures Count(a, p) == Count(b, p)
  {
    assert |a| == |multiset(a)| == |multiset(b)| == |b|;
    if a != [] {
      assert a[0] in multiset(b);
      var k :| 0 <= k < |b| && b[k] == a[0];
      SameRest(a, 0, b, k);
      assert a[..0] + a[1..] == a[1..];
      assert b == b[..k] + ([b[k]] + b[k + 1..]);
      CountIgnoresOrder(a[1..], b[..k] + b[k + 1..], p);
      CountConcat(b[..k], [b[k]] + b[k + 1..], p);
      CountConcat(b[..k], b[k + 1..], p);
    }
  }

  /** At least half of the sample is no larger than the median and at least half is no smaller. */
  lemma MedianSplitsTheSample(sample: seq<int>)
    requires sample != []
    ensures var m := Median(sample);
            && 2 * Count(sample, x => x <= m) >= |sample|
            && 2 * Count(sample, x => x >= m) >= |sample|
  {
    var d := Sorted(sample);
    var m := Median(sample);
    var noLarger, noSmaller := (x: int) => x <= m, (x: int) => x >= m;
    var middle := |d| / 2;
    var half := (|d| + 1) / 2;
    CountLowEnd(d, half, noLarger);
    CountHighEnd(d, middle, noSmaller);
    CountIgnoresOrder(d, sample, noLarger);
    CountIgnoresOrder(d, sample, noSmaller);
  }

  lemma CountLowEnd(s: seq<int>, k: nat, p: int -> bool)
    requires k <= |s| && forall i :: 0 <= i < k ==> p(s[i])
    ensures Count(s, p) >= k
  {
    assert s == s[..k] + s[k..];
    CountConcat(s[..k], s[k..], p);
    CountAll(s[..k], p);
  }

  lemma CountHighEnd(s: seq<int>, k: nat, p: int -> bool)
    requires k <= |s| && forall i :: k <= i < |s| ==> p(s[i])
    ensures Count(s, p) >= |s| - k
  {
    assert s == s[..k] + s[k..];
    CountConcat(s[..k], s[k..], p);
    CountAll(s[k..], p);
  }

  /** `x` stands at position `k` of the sample in order, counted from zero. */
  ghost predicate Ranks(sample: seq<int>, k: nat, x: int) {
    && x in sample
    && Count(sample, y => y < x) <= k < Count(sample, y => y <= x)
  }

  /** The median is the middle element in order, or the floored mean of the two middle ones. */
  lemma MedianIsTheMiddle(sample: seq<int>) returns (low: int, high: int)
    requires sample != []
    ensures Ranks(sample, (|sample| - 1) / 2, low) && Ranks(sample, |sample| / 2, high)
    ensures low <= Median(sample) <= high && Median(sample) == (low + high) / 2
  {
    var d := Sorted(sample);
    low, high := d[(|d| - 1) / 2], d[|d| / 2];
    RankInOrder(sample, (|d| - 1) / 2);
    RankInOrder(sample, |d| / 2);
  }

  lemma RankInOrder(sample: seq<int>, k: nat)
    requires k < |sample|
    ensures Ranks(sample, k, Sorted(sample)[k])
  {
    var d := Sorted(sample);
    var x := d[k];
    var less, noLarger, noSmaller := (y: int) => y < x, (y: int) => y <= x, (y: int) => y >= x;
    CountIgnoresOrder(d, sample, less);
    CountIgnoresOrder(d, sample, noLarger);
    CountIgnoresOrder(d, sample, noSmaller);
    CountLowEnd(d, k + 1, noLarger);
    CountHighEnd(d, k, noSmaller);
    CountSplits(d, x);
    assert x in d;
  }

  lemma {:induction false} CountSplits(s: seq<int>, x: int)
    ensures Count(s, y => y < x) + Count(s, y => y >= x) == |s|
  {
    if s != [] { CountSplits(s[1..], x); }
  }

  /** No two numbers stand at the same position, so this determines the median. */
  lemma RankIsUnique(sample: seq<int>, k: nat, x: int, z: int)
    requires Ranks(sample, k, x) && Ranks(sample, k, z)
    ensures x == z
  {
    if x < z { CountGrows(sample, y => y <= x, y => y < z); }
    if z < x { CountGrows(sample, y => y <= z, y => y < x); }
  }

  lemma {:induction false} CountGrows(s: seq<int>, p: int -> bool, q: int -> bool)
    requires forall y :: p(y) ==> q(y)
    ensures Count(s, p) <= Count(s, q)
  {
    if s != [] { CountGrows(s[1..], p, q); }
  }

  lemma MedianIgnoresOrder(a: seq<int>, b: seq<int>)
    requires a != [] && multiset(a) == multiset(b)
    ensures b != [] && Median(a) == Median(b)
  {
    assert a[0] in multiset(b);
    var x, y := Sorted(a), Sorted(b);
    assert SortedBy(x, IntLe) && SortedBy(y, IntLe);
    SortedUnique(x, y, IntLe);
  }

  // ---------------------------------------------------------------------------------------
  // The estimate
  // ---------------------------------------------------------------------------------------

  /** The estimate over rows that all parse. */
  ghost function EstimateOf(rows: seq<Job>): Estimation {
    var sample := Sample(rows);
    if |sample| < 3 then Unknown else Seconds(Median(sample))
  }

  method PlausibleLengths(rows: seq<Job>) returns (ok: bool, durations: seq<int>)
    ensures ok <==> forall j :: j in rows ==> Parses(j)
    ensures ok ==> durations == Sample(rows)
  {
    hide Duration;
    durations := [];
    for i := 0 to |rows|
      invariant forall j :: j in rows[..i] ==> Parses(j)
      invariant durations == Sample(rows[..i])
    {
      assert rows[..i + 1] == rows[..i] + [rows[i]] && rows[..i + 1][..i] == rows[..i];
      if !Parses(rows[i]) { return false, durations; }
      var seconds := Duration(rows[i]);
      if 1 <= seconds <= WEEK_SECONDS { durations := durations + [seconds]; }
    }
    assert rows[..|rows|] == rows;
    ok := true;
  }

  /** Fails only on rows that do not parse: the sum of two plausible lengths never overflows. */
  method EstimatedBackupSeconds(rows: seq<Job>) returns (r: Estimation)
    ensures r.Failed? <==> exists j :: j in rows && !Parses(j)
    ensures !r.Failed? ==> r == EstimateOf(rows)
  {
    hide Sample;
    var ok, durations := PlausibleLengths(rows);
    if !ok { return Failed; }
    if |durations| < 3 { return Unknown; }
    var sorted := Sorted(durations);
    var middle := |sorted| / 2;
    if |sorted| % 2 == 0 {
      assert sorted[middle - 1] in durations && sorted[middle] in durations;
      var sum := sorted[middle - 1] + sorted[middle];
      if sum >= U64_LIMIT { return Failed; }
      return Seconds(sum / 2);
    }
    return Seconds(sorted[middle]);
  }

  /** The estimate is unknown exactly when fewer than three rows are plausible. */
  lemma UnknownIff(rows: seq<Job>)
    ensures EstimateOf(rows) == Unknown <==> |set i | 0 <= i < |rows| && Plausible(rows[i])| <= 2
  {
    SampleSize(rows);
  }

  /** Unless two successes finished at the same time, the estimate is a function of the set of jobs. */
  lemma EstimateWellDefined(jobs: multiset<Job>, limit: nat, a: seq<Job>, b: seq<Job>)
    requires NewestSuccesses(jobs, limit, a) && NewestSuccesses(jobs, limit, b)
    requires NoTies(jobs)
    ensures EstimateOf(a) == EstimateOf(b)
  {
    NewestSuccessesUnique(jobs, limit, a, b);
    SampleIgnoresOrder(a, b);
    var x, y := Sample(a), Sample(b);
    assert |x| == |multiset(x)| == |multiset(y)| == |y|;
    if |x| >= 3 { MedianIgnoresOrder(x, y); }
  }
}
