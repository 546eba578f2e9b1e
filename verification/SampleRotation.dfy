/** The interleaved sampling loop of scripts/measure_dispatch_floor.py. */
module SampleRotation {
  import opened Division

  // ---------- one round's order ----------

  /** `order[shift:] + order[:shift]` with `shift = i % n`. */
  function Rotated(order: seq<string>, i: nat): (r: seq<string>)
    requires order != []
    ensures |r| == |order|
  {
    order[i % |order|..] + order[..i % |order|]
  }

  predicate Distinct(order: seq<string>) {
    forall j, k :: 0 <= j < k < |order| ==> order[j] != order[k]
  }

  lemma RoundIsPermutation(order: seq<string>, i: nat)
    requires order != []
    ensures multiset(Rotated(order, i)) == multiset(order)
  {
    assert order == order[..i % |order|] + order[i % |order|..];
  }

  lemma WrapAround(x: nat, n: nat)
    requires n > 0
    ensures (x < n ==> x % n == x) && (n <= x < 2 * n ==> x % n == x - n)
  {
  }

  lemma RotatedAt(order: seq<string>, i: nat, p: nat)
    requires p < |order|
    ensures Rotated(order, i)[p] == order[(i % |order| + p) % |order|]
  {
    WrapAround(i % |order| + p, |order|);
  }

  lemma RotatedMember(order: seq<string>, i: nat, p: nat)
    requires p < |order|
    ensures Rotated(order, i)[p] in order
  {
    RotatedAt(order, i, p);
  }

  /** The one round of the `n` rounds from `a` on that is congruent to `r`. */
  function RoundFor(a: nat, r: nat, n: nat): (i: nat)
    requires r < n
    ensures a <= i < a + n && i % n == r
  {
    var shift := if r >= a % n then r - a % n else r + n - a % n;
    Congruent(a, shift, n);
    WrapAround(a % n + shift, n);
    a + shift
  }

  lemma Congruent(a: nat, b: nat, n: nat)
    requires n > 0
    ensures (a + b) % n == (a % n + b) % n
  {
    var rest := a % n + b;
    Remainder(a + b, a / n + rest / n, rest % n, n);
  }

  lemma OneRoundPerResidue(a: nat, i: nat, j: nat, n: nat)
    requires n > 0 && a <= i < a + n && a <= j < a + n && i % n == j % n
    ensures i == j
  {
    var low, high := if i < j then i else j, if i < j then j else i;
    Congruent(low, high - low, n);
    WrapAround(low % n + (high - low), n);
  }

  /** Over any `n` consecutive rounds every surface takes every position in exactly one of them. */
  lemma EveryPositionOnce(order: seq<string>, a: nat, j: nat, p: nat)
    requires Distinct(order) && j < |order| && p < |order|
    ensures exists i :: && (a <= i < a + |order| && Rotated(order, i)[p] == order[j])
                        && forall k :: a <= k < a + |order| && Rotated(order, k)[p] == order[j] ==> k == i
  {
    var n := |order|;
    var r := if j >= p then j - p else j + n - p;
    var i := RoundFor(a, r, n);
    RotatedAt(order, i, p);
    WrapAround(r + p, n);
    forall k | a <= k < a + n && Rotated(order, k)[p] == order[j] ensures k == i {
      RotatedAt(order, k, p);
      WrapAround(k % n + p, n);
      OneRoundPerResidue(a, k, i, n);
    }
  }

  // ---------- the calls a whole collection makes ----------

  function Without(order: seq<string>, capped: string): (r: seq<string>) {
    if order == [] then []
    else (if order[0] == capped then [] else [order[0]]) + Without(order[1..], capped)
  }

  /** Round `i` leaves out the capped surface once it has its `fullRuns` samples. */
  function RoundCalls(order: seq<string>, capped: string, fullRuns: int, i: nat): seq<string>
    requires order != []
  {
    if i < fullRuns then Rotated(order, i) else Without(Rotated(order, i), capped)
  }

  function Concat(rounds: seq<seq<string>>): seq<string> {
    if rounds == [] then [] else Concat(rounds[..|rounds| - 1]) + rounds[|rounds| - 1]
  }

  function Rounds(order: seq<string>, capped: string, fullRuns: int, n: nat): seq<seq<string>>
    requires order != []
  {
    seq(n, i requires 0 <= i < n => RoundCalls(order, capped, fullRuns, i))
  }

  /** Every call of a collection of `rounds` rounds. */
  function Schedule(order: seq<string>, capped: string, fullRuns: int, rounds: nat): seq<string>
    requires order != []
  {
    Concat(Rounds(order, capped, fullRuns, rounds))
  }

  lemma ScheduleStep(order: seq<string>, capped: string, fullRuns: int, i: nat)
    requires order != []
    ensures Schedule(order, capped, fullRuns, i + 1)
         == Schedule(order, capped, fullRuns, i) + RoundCalls(order, capped, fullRuns, i)
  {
    var rounds := Rounds(order, capped, fullRuns, i + 1);
    assert rounds[..i] == Rounds(order, capped, fullRuns, i);
  }

  /** The readings of the calls made for `key`, in call order. */
  function SamplesOf(calls: seq<string>, key: string, read: nat -> real): (r: seq<real>) {
    if calls == [] then []
    else
      var before := SamplesOf(calls[..|calls| - 1], key, read);
      if calls[|calls| - 1] == key then before + [read(|calls| - 1)] else before
  }

  /** A surface's `m`th sample is the reading of its `m`th call. */
  lemma {:induction false} SampleIsReading(calls: seq<string>, key: string, read: nat -> real, t: nat)
    requires t < |calls| && calls[t] == key
    ensures |SamplesOf(calls[..t], key, read)| < |SamplesOf(calls, key, read)|
    ensures SamplesOf(calls, key, read)[|SamplesOf(calls[..t], key, read)|] == read(t)
    decreases |calls|
  {
    var n := |calls| - 1;
    if t < n {
      SampleIsReading(calls[..n], key, read, t);
      assert calls[..n][..t] == calls[..t];
    }
  }

  lemma {:induction false} SampleCount(calls: seq<string>, key: string, read: nat -> real)
    ensures |SamplesOf(calls, key, read)| == multiset(calls)[key]
  {
    if calls != [] {
      SampleCount(calls[..|calls| - 1], key, read);
      assert calls == calls[..|calls| - 1] + [calls[|calls| - 1]];
    }
  }

  lemma {:induction false} WithoutKeepsOthers(order: seq<string>, capped: string, key: string)
    ensures multiset(Without(order, capped))[key] == if key == capped then 0 else multiset(order)[key]
  {
    if order != [] {
      WithoutKeepsOthers(order[1..], capped, key);
      assert order == [order[0]] + order[1..];
      CountInConcat([order[0]], order[1..], key);
      CountInConcat(if order[0] == capped then [] else [order[0]], Without(order[1..], capped), key);
    }
  }

  lemma CountInConcat<T>(a: seq<T>, b: seq<T>, x: T)
    ensures multiset(a + b)[x] == multiset(a)[x] + multiset(b)[x]
  {
  }

  lemma {:induction false} OnceInDistinct(order: seq<string>, key: string)
    requires Distinct(order)
    ensures multiset(order)[key] == if key in order then 1 else 0
  {
    if order != [] {
      OnceInDistinct(order[1..], key);
      assert order == [order[0]] + order[1..];
    }
  }

  function Min(a: int, b: int): int {
    if a < b then a else b
  }

  /** How often a surface is sampled in `rounds` rounds. */
  function Quota(key: string, capped: string, fullRuns: int, rounds: nat): (r: nat) {
    if key != capped then rounds else if fullRuns < 0 then 0 else Min(rounds, fullRuns)
  }

  lemma RoundCount(order: seq<string>, capped: string, fullRuns: int, i: nat, key: string)
    requires Distinct(order) && key in order
    ensures multiset(RoundCalls(order, capped, fullRuns, i))[key] == if key == capped && i >= fullRuns then 0 else 1
  {
    OnceInDistinct(order, key);
    RoundIsPermutation(order, i);
    WithoutKeepsOthers(Rotated(order, i), capped, key);
  }

  lemma {:induction false} CountInRounds(rounds: seq<seq<string>>, key: string, capped: string, fullRuns: int)
    requires forall i :: 0 <= i < |rounds| ==> multiset(rounds[i])[key] == if key == capped && i >= fullRuns then 0 else 1
    ensures multiset(Concat(rounds))[key] == Quota(key, capped, fullRuns, |rounds|)
  {
    if rounds != [] {
      var m := |rounds| - 1;
      CountInRounds(rounds[..m], key, capped, fullRuns);
      CountInConcat(Concat(rounds[..m]), rounds[m], key);
    }
  }

  lemma ScheduleMeetsQuota(order: seq<string>, capped: string, fullRuns: int, rounds: nat, key: string)
    requires Distinct(order) && key in order
    ensures multiset(Schedule(order, capped, fullRuns, rounds))[key] == Quota(key, capped, fullRuns, rounds)
  {
    forall i: nat | i < rounds
      ensures multiset(Rounds(order, capped, fullRuns, rounds)[i])[key] == if key == capped && i >= fullRuns then 0 else 1
    {
      RoundCount(order, capped, fullRuns, i, key);
    }
    CountInRounds(Rounds(order, capped, fullRuns, rounds), key, capped, fullRuns);
  }

  // ---------- the collector ----------

  ghost predicate Recorded(results: map<string, seq<real>>, order: seq<string>, calls: seq<string>, read: nat -> real) {
    && results.Keys == (set k | k in order)
    && forall k :: k in results ==> results[k] == SamplesOf(calls, k, read)
  }

  lemma RecordedThrough(results: map<string, seq<real>>, order: seq<string>, calls: seq<string>, read: nat -> real, key: string)
    requires Recorded(results, order, calls, read) && key in order
    ensures Recorded(results[key := results[key] + [read(|calls|)]], order, calls + [key], read)
  {
    assert (calls + [key])[..|calls|] == calls;
  }

  lemma {:induction false} WithoutConcat(a: seq<string>, b: seq<string>, capped: string)
    ensures Without(a + b, capped) == Without(a, capped) + Without(b, capped)
  {
    if a == [] {
      assert a + b == b;
    } else {
      assert (a + b)[1..] == a[1..] + b;
      WithoutConcat(a[1..], b, capped);
    }
  }

  /** The calls of a round's first `m` surfaces. */
  function PartCalls(order: seq<string>, capped: string, fullRuns: int, i: nat, m: nat): seq<string>
    requires order != [] && m <= |order|
  {
    var part := Rotated(order, i)[..m];
    if i < fullRuns then part else Without(part, capped)
  }

  lemma PartStep(order: seq<string>, capped: string, fullRuns: int, i: nat, m: nat)
    requires m < |order|
    ensures var key := Rotated(order, i)[m];
            PartCalls(order, capped, fullRuns, i, m + 1)
            == PartCalls(order, capped, fullRuns, i, m) + (if key == capped && i >= fullRuns then [] else [key])
  {
    var all := Rotated(order, i);
    assert all[..m + 1] == all[..m] + [all[m]];
    WithoutConcat(all[..m], [all[m]], capped);
  }

  lemma {:induction false} NotBefore(all: seq<string>, m: nat)
    requires m < |all| && multiset(all)[all[m]] <= 1
    ensures multiset(all[..m])[all[m]] == 0
  {
    var rest := [all[m]] + all[m + 1..];
    assert all == all[..m] + rest;
    CountInConcat(all[..m], rest, all[m]);
    CountInConcat([all[m]], all[m + 1..], all[m]);
  }

  lemma CappedNotYet(order: seq<string>, capped: string, fullRuns: int, i: nat, m: nat)
    requires Distinct(order) && m < |order| && Rotated(order, i)[m] == capped
    ensures capped in order && multiset(PartCalls(order, capped, fullRuns, i, m))[capped] == 0
  {
    var all := Rotated(order, i);
    assert capped in order;
    OnceInDistinct(order, capped);
    RoundIsPermutation(order, i);
    NotBefore(all, m);
    WithoutKeepsOthers(all[..m], capped, capped);
  }

  lemma CappedSoFar(order: seq<string>, capped: string, fullRuns: int, i: nat, m: nat)
    requires Distinct(order) && m < |order| && Rotated(order, i)[m] == capped
    ensures multiset(Schedule(order, capped, fullRuns, i) + PartCalls(order, capped, fullRuns, i, m))[capped]
         == Quota(capped, capped, fullRuns, i)
  {
    CappedNotYet(order, capped, fullRuns, i, m);
    ScheduleMeetsQuota(order, capped, fullRuns, i, capped);
    CountInConcat(Schedule(order, capped, fullRuns, i), PartCalls(order, capped, fullRuns, i, m), capped);
  }

  /** The length test skips the capped surface exactly from round `fullRuns` on. */
  lemma SkipTest(results: map<string, seq<real>>, order: seq<string>, capped: string, fullRuns: int, i: nat, m: nat,
                 calls: seq<string>, read: nat -> real)
    requires Distinct(order) && m < |order| && Rotated(order, i)[m] == capped
    requires calls == Schedule(order, capped, fullRuns, i) + PartCalls(order, capped, fullRuns, i, m)
    requires Recorded(results, order, calls, read)
    ensures capped in results && (|results[capped]| >= fullRuns <==> i >= fullRuns)
  {
    CappedNotYet(order, capped, fullRuns, i, m);
    CappedSoFar(order, capped, fullRuns, i, m);
    SampleCount(calls, capped, read);
  }

  /** One round over the rotated surfaces; `read` gives the timing of each call made so far. */
  method SampleRound(order: seq<string>, capped: string, fullRuns: int, i: nat, read: nat -> real,
                     given: map<string, seq<real>>, made: seq<string>)
    returns (results: map<string, seq<real>>, calls: seq<string>)
    requires order != [] && Distinct(order)
    requires made == Schedule(order, capped, fullRuns, i) && Recorded(given, order, made, read)
    ensures calls == Schedule(order, capped, fullRuns, i + 1) && Recorded(results, order, calls, read)
  {
    results, calls := given, made;
    var rotated := Rotated(order, i);
    for m := 0 to |rotated|
      invariant calls == made + PartCalls(order, capped, fullRuns, i, m)
      invariant Recorded(results, order, calls, read)
    {
      RotatedMember(order, i, m);
      results, calls := SampleOne(order, capped, fullRuns, i, m, rotated[m], read, results, calls);
    }
    WholeRound(order, capped, fullRuns, i);
  }

  lemma WholeRound(order: seq<string>, capped: string, fullRuns: int, i: nat)
    requires order != []
    ensures Schedule(order, capped, fullRuns, i) + PartCalls(order, capped, fullRuns, i, |order|)
         == Schedule(order, capped, fullRuns, i + 1)
  {
    assert Rotated(order, i)[..|order|] == Rotated(order, i);
    ScheduleStep(order, capped, fullRuns, i);
  }

  /** One surface of a round: skipped, or run once. */
  method SampleOne(order: seq<string>, capped: string, fullRuns: int, ghost i: nat, ghost m: nat, key: string, read: nat -> real,
                   given: map<string, seq<real>>, made: seq<string>)
    returns (results: map<string, seq<real>>, calls: seq<string>)
    requires order != [] && Distinct(order) && m < |order| && key == Rotated(order, i)[m] && key in order
    requires made == Schedule(order, capped, fullRuns, i) + PartCalls(order, capped, fullRuns, i, m)
    requires Recorded(given, order, made, read)
    ensures calls == Schedule(order, capped, fullRuns, i) + PartCalls(order, capped, fullRuns, i, m + 1)
    ensures Recorded(results, order, calls, read)
  {
    PartStep(order, capped, fullRuns, i, m);
    if key == capped {
      SkipTest(given, order, capped, fullRuns, i, m, made, read);
    }
    if key == capped && |given[key]| >= fullRuns {
      return given, made;
    }
    RecordedThrough(given, order, made, read, key);
    return given[key := given[key] + [read(|made|)]], made + [key];
  }

  const WARM := "warm"

  /** `collect_samples`: every surface's samples are the readings of its own calls, in call order, and
      the calls are the rotated rounds with the capped surface left out once it has enough. */
  method CollectSamples(order: seq<string>, capped: string, runs: nat, fullRuns: int, read: nat -> real)
    returns (results: map<string, seq<real>>, calls: seq<string>)
    requires order != [] && Distinct(order) && WARM !in order
    ensures calls == Schedule(order, capped, fullRuns, runs)
    ensures results.Keys == (set k | k in order) + {WARM}
    ensures forall k :: k in order ==> results[k] == SamplesOf(calls, k, read)
    ensures forall k :: k in order && k != capped ==> |results[k]| == runs
    ensures capped in order ==> |results[capped]| == if runs <= fullRuns then runs else if fullRuns < 0 then 0 else fullRuns
    ensures results[WARM] == seq(runs, r requires 0 <= r => read(|calls| + 1 + r))
  {
    results := map k | k in order :: [];
    calls := [];
    for i := 0 to runs
      invariant calls == Schedule(order, capped, fullRuns, i)
      invariant Recorded(results, order, calls, read)
    {
      results, calls := SampleRound(order, capped, fullRuns, i, read, results, calls);
    }
    forall k | k in order ensures |results[k]| == Quota(k, capped, fullRuns, runs) {
      ScheduleMeetsQuota(order, capped, fullRuns, runs, k);
      SampleCount(calls, k, read);
    }
    var warm := seq(runs, r requires 0 <= r => read(|calls| + 1 + r));
    results := results[WARM := warm];
  }

  // ---------- what the cap does to the rotation ----------

  /** In the calls round `i` really makes, the `j`th surface comes at position `p`. */
  ghost predicate Takes(order: seq<string>, c: nat, fullRuns: int, i: nat, p: nat, j: nat)
    requires c < |order| && j < |order|
  {
    var calls := RoundCalls(order, order[c], fullRuns, i);
    p < |calls| && calls[p] == order[j]
  }

  /** In exactly one of the `n` rounds from `a` on the `j`th surface comes at position `p`. */
  ghost predicate TakesOnce(order: seq<string>, c: nat, fullRuns: int, a: nat, p: nat, j: nat)
    requires c < |order| && j < |order|
  {
    exists i :: && a <= i < a + |order| && Takes(order, c, fullRuns, i, p, j)
                && forall k :: a <= k < a + |order| && Takes(order, c, fullRuns, k, p, j) ==> k == i
  }

  lemma WithoutIsShorter(order: seq<string>, capped: string)
    ensures |Without(order, capped)| <= |order|
    ensures capped in order ==> |Without(order, capped)| < |order|
  {
    if order != [] && order[0] != capped {
      WithoutIsShorter(order[1..], capped);
    }
  }

  /** The surface a round runs first, if any. */
  lemma LeaderOfRound(order: seq<string>, c: nat, fullRuns: int, i: nat, j: nat)
    requires Distinct(order) && c < |order| && j < |order|
    ensures Takes(order, c, fullRuns, i, 0, j)
       <==> if i < fullRuns || i % |order| != c then i % |order| == j else j != c && j == (c + 1) % |order|
  {
    var all := Rotated(order, i);
    RotatedAt(order, i, 0);
    WrapAround(i % |order|, |order|);
    assert all == [all[0]] + all[1..];
    if i >= fullRuns && i % |order| == c {
      SecondLeads(order, c, i, j);
    }
  }

  lemma SecondLeads(order: seq<string>, c: nat, i: nat, j: nat)
    requires Distinct(order) && c < |order| && j < |order| && i % |order| == c
    ensures var rest := Without(Rotated(order, i), order[c]);
            (0 < |rest| && rest[0] == order[j]) <==> j != c && j == (c + 1) % |order|
  {
    var all := Rotated(order, i);
    RotatedAt(order, i, 0);
    WrapAround(c, |order|);
    if |order| > 1 {
      RotatedAt(order, i, 1);
      WrapAround(c + 1, |order|);
      assert all[1..][0] == all[1];
      assert Without(all, order[c]) == [] + Without(all[1..], order[c]);
    } else {
      assert all == [order[0]] && all[1..] == [];
    }
  }

  /** Every surface leads exactly once in the `n` rounds from `a` on, exactly when the round the capped one
      would lead comes before its cap. */
  lemma EvenLeadExactly(order: seq<string>, c: nat, fullRuns: int, a: nat)
    requires Distinct(order) && c < |order|
    ensures (forall j :: 0 <= j < |order| ==> TakesOnce(order, c, fullRuns, a, 0, j))
       <==> RoundFor(a, c, |order|) < fullRuns
  {
    var n, turn := |order|, RoundFor(a, c, |order|);
    if turn < fullRuns {
      forall j | 0 <= j < n ensures TakesOnce(order, c, fullRuns, a, 0, j) {
        LeadsInOwnRound(order, c, fullRuns, a, j);
      }
    }
    if forall j :: 0 <= j < n ==> TakesOnce(order, c, fullRuns, a, 0, j) {
      assert TakesOnce(order, c, fullRuns, a, 0, c);
      var i :| a <= i < a + n && Takes(order, c, fullRuns, i, 0, c);
      LeaderOfRound(order, c, fullRuns, i, c);
      OneRoundPerResidue(a, i, turn, n);
    }
  }

  lemma LeadsInOwnRound(order: seq<string>, c: nat, fullRuns: int, a: nat, j: nat)
    requires Distinct(order) && c < |order| && j < |order| && RoundFor(a, c, |order|) < fullRuns
    ensures TakesOnce(order, c, fullRuns, a, 0, j)
  {
    var n, own := |order|, RoundFor(a, j, |order|);
    forall k | a <= k < a + n ensures Takes(order, c, fullRuns, k, 0, j) <==> k == own {
      LeaderOfRound(order, c, fullRuns, k, j);
      if k % n == j { OneRoundPerResidue(a, k, own, n); }
      if k % n == c { OneRoundPerResidue(a, k, RoundFor(a, c, n), n); }
    }
    assert Takes(order, c, fullRuns, own, 0, j);
  }

  /** On the calls really made every surface takes every position exactly once in the `n` rounds from `a` on,
      exactly when none of them is capped. */
  lemma EvenPositionsExactly(order: seq<string>, c: nat, fullRuns: int, a: nat)
    requires Distinct(order) && c < |order|
    ensures (forall j, p :: 0 <= j < |order| && 0 <= p < |order| ==> TakesOnce(order, c, fullRuns, a, p, j))
       <==> a + |order| <= fullRuns
  {
    var n := |order|;
    if a + n <= fullRuns {
      forall j, p | 0 <= j < n && 0 <= p < n ensures TakesOnce(order, c, fullRuns, a, p, j) {
        UncappedTakesOnce(order, c, fullRuns, a, p, j);
      }
    } else {
      var j := LastIsNotTaken(order, c, fullRuns, a);
    }
  }

  lemma UncappedTakesOnce(order: seq<string>, c: nat, fullRuns: int, a: nat, p: nat, j: nat)
    requires Distinct(order) && c < |order| && j < |order| && p < |order| && a + |order| <= fullRuns
    ensures TakesOnce(order, c, fullRuns, a, p, j)
  {
    EveryPositionOnce(order, a, j, p);
    forall k | a <= k < a + |order|
      ensures Takes(order, c, fullRuns, k, p, j) <==> Rotated(order, k)[p] == order[j] {}
    var i :| a <= i < a + |order| && Rotated(order, i)[p] == order[j];
    assert Takes(order, c, fullRuns, i, p, j);
  }

  /** The surface that would come last in the window's last round comes last in none, if that round is capped. */
  lemma LastIsNotTaken(order: seq<string>, c: nat, fullRuns: int, a: nat) returns (j: nat)
    requires Distinct(order) && c < |order| && a + |order| > fullRuns
    ensures j < |order| && !TakesOnce(order, c, fullRuns, a, |order| - 1, j)
  {
    var n, last := |order|, a + |order| - 1;
    var p := n - 1;
    j := SurfaceAt(order, last, p);
    forall k | a <= k < a + n ensures !Takes(order, c, fullRuns, k, p, j) {
      NotTakenIn(order, c, fullRuns, a, k, last, p, j);
    }
  }

  lemma SurfaceAt(order: seq<string>, i: nat, p: nat) returns (j: nat)
    requires p < |order|
    ensures j < |order| && Rotated(order, i)[p] == order[j]
  {
    RotatedAt(order, i, p);
    j := (i % |order| + p) % |order|;
  }

  lemma NotTakenIn(order: seq<string>, c: nat, fullRuns: int, a: nat, k: nat, last: nat, p: nat, j: nat)
    requires Distinct(order) && c < |order| && j < |order| && p + 1 == |order|
    requires a <= k <= last < a + |order| && last >= fullRuns && Rotated(order, last)[p] == order[j]
    ensures !Takes(order, c, fullRuns, k, p, j)
  {
    CallsOfRound(order, c, fullRuns, k);
    if k < fullRuns { RoundsDiffer(order, a, k, last, p); }
  }

  lemma CallsOfRound(order: seq<string>, c: nat, fullRuns: int, i: nat)
    requires c < |order|
    ensures i < fullRuns ==> RoundCalls(order, order[c], fullRuns, i) == Rotated(order, i)
    ensures i >= fullRuns ==> |RoundCalls(order, order[c], fullRuns, i)| < |order|
  {
    if i >= fullRuns { CappedRoundIsShort(order, c, i); }
  }

  lemma RoundsDiffer(order: seq<string>, a: nat, i: nat, k: nat, p: nat)
    requires Distinct(order) && p < |order| && a <= i < k < a + |order|
    ensures Rotated(order, i)[p] != Rotated(order, k)[p]
  {
    var n := |order|;
    RotatedAt(order, i, p);
    RotatedAt(order, k, p);
    WrapAround(i % n + p, n);
    WrapAround(k % n + p, n);
    if i % n == k % n { OneRoundPerResidue(a, i, k, n); }
  }

  lemma CappedRoundIsShort(order: seq<string>, c: nat, i: nat)
    requires c < |order|
    ensures |Without(Rotated(order, i), order[c])| < |order|
  {
    RoundIsPermutation(order, i);
    assert order[c] in multiset(order);
    assert order[c] in Rotated(order, i);
    WithoutIsShorter(Rotated(order, i), order[c]);
  }

  /** When the capped surface's turn to lead comes after its cap, the surface behind it runs first in two of
      the `n` rounds, it in none, every other one in one. */
  lemma BehindTheCappedLeadsTwice(order: seq<string>, c: nat, fullRuns: int, a: nat, j: nat)
    requires Distinct(order) && c < |order| && j < |order| && fullRuns <= RoundFor(a, c, |order|)
    ensures var leading := set i | a <= i < a + |order| && Takes(order, c, fullRuns, i, 0, j);
            |leading| == if j == c then 0 else if j == (c + 1) % |order| then 2 else 1
  {
    var n := |order|;
    var leading := set i | a <= i < a + n && Takes(order, c, fullRuns, i, 0, j);
    var own, extra := RoundFor(a, j, n), RoundFor(a, c, n);
    forall i | a <= i < a + n
      ensures Takes(order, c, fullRuns, i, 0, j) <==> j != c && (i == own || (i == extra && j == (c + 1) % n))
    {
      LeadsIn(order, c, fullRuns, a, i, j);
    }
    TwoOrOne(leading, own, extra, j != c, j == (c + 1) % n);
  }

  lemma TwoOrOne(leading: set<nat>, own: nat, extra: nat, some: bool, both: bool)
    requires some ==> own != extra
    requires forall i :: i in leading <==> some && (i == own || (i == extra && both))
    ensures |leading| == if !some then 0 else if both then 2 else 1
  {
    assert leading == if !some then {} else if both then {own, extra} else {own};
  }

  lemma LeadsIn(order: seq<string>, c: nat, fullRuns: int, a: nat, i: nat, j: nat)
    requires Distinct(order) && c < |order| && j < |order| && fullRuns <= RoundFor(a, c, |order|) && a <= i < a + |order|
    ensures Takes(order, c, fullRuns, i, 0, j)
       <==> j != c && (i == RoundFor(a, j, |order|) || (i == RoundFor(a, c, |order|) && j == (c + 1) % |order|))
  {
    var n := |order|;
    LeaderOfRound(order, c, fullRuns, i, j);
    if i % n == j { OneRoundPerResidue(a, i, RoundFor(a, j, n), n); }
    if i % n == c { OneRoundPerResidue(a, i, RoundFor(a, c, n), n); }
  }
}
