/** auditlog/compact.go: which versions of a history are thinned out. */
module Compaction {
  import opened Common

  datatype Options = Options(factor: int, keepRecent: int, maxVersions: int, minVersions: int)

  // ----- even picks: j*span/budget for j below budget -----

  function Pick(span: int, budget: int, j: int): int
    requires budget > 0
  {
    j * span / budget
  }

  lemma DivBounds(a: int, b: int)
    requires b > 0
    ensures b * (a / b) <= a < b * (a / b) + b
  {
  }

  lemma MulMono(b: int, x: int, y: int)
    requires b > 0 && x <= y
    ensures b * x <= b * y
  {
    assert b * (y - x) >= 0;
  }

  lemma QuotientUnique(a: int, b: int, d: int, q: int)
    requires b > 0 && b * d <= a < b * d + b && b * q <= a < b * q + b
    ensures d == q
  {
    if d < q {
      MulMono(b, d + 1, q);
    } else if d > q {
      MulMono(b, q + 1, d);
    }
  }

  lemma DivUnique(a: int, b: int, q: int)
    requires b > 0 && b * q <= a < b * q + b
    ensures a / b == q
  {
    DivBounds(a, b);
    QuotientUnique(a, b, a / b, q);
  }

  /** Consecutive picks are span/budget apart or one more: the gaps differ by at
      most one, and with more span than budget no two picks meet. */
  lemma EvenGaps(span: int, budget: int, j: int)
    requires budget > 0
    ensures Pick(span, budget, j + 1) - Pick(span, budget, j) == span / budget
         || Pick(span, budget, j + 1) - Pick(span, budget, j) == span / budget + 1
  {
    var a, b := j * span, span;
    assert (j + 1) * span == a + b;
    DivBounds(a, budget);
    DivBounds(b, budget);
    DivBounds(a + b, budget);
    var qa, qb := a / budget, b / budget;
    var r := (a - budget * qa) + (b - budget * qb);
    assert 0 <= r < 2 * budget;
    if r < budget {
      assert budget * (qa + qb) == budget * qa + budget * qb;
      DivUnique(a + b, budget, qa + qb);
    } else {
      assert budget * (qa + qb + 1) == budget * qa + budget * qb + budget;
      DivUnique(a + b, budget, qa + qb + 1);
    }
  }

  lemma PickBounds(span: int, budget: int, j: int)
    requires 0 < budget && 0 <= j < budget && 0 < span
    ensures 0 <= Pick(span, budget, j) < span
  {
    var a := j * span;
    MulMono(span, 0, j);
    MulMono(span, j, budget - 1);
    DivBounds(a, budget);
    QuotientInRange(a, budget, a / budget, span);
  }

  lemma QuotientInRange(a: int, b: int, q: int, span: int)
    requires b > 0 && b * q <= a < b * q + b && 0 <= a <= span * (b - 1) && span > 0
    ensures 0 <= q < span
  {
    if q >= span {
      MulMono(b, span, q);
    } else if q < 0 {
      MulMono(b, q + 1, 0);
    }
  }

  lemma SpanOverBudget(span: int, budget: int)
    requires 0 < budget <= span
    ensures span / budget >= 1
  {
    DivBounds(span, budget);
  }

  lemma {:induction false} PicksGrow(span: int, budget: int, i: int, j: int)
    requires 0 < budget <= span && i < j
    ensures Pick(span, budget, i) < Pick(span, budget, j)
    decreases j - i
  {
    EvenGaps(span, budget, j - 1);
    SpanOverBudget(span, budget);
    if i < j - 1 {
      PicksGrow(span, budget, i, j - 1);
    }
  }

  // ----- the rule -----

  function MinVersions(o: Options): int {
    Max(o.minVersions, 2)
  }

  /** The first of the most recent versions that are always kept. */
  function RecentStart(n: int, o: Options): int {
    if o.keepRecent > 0 && n - o.keepRecent < n - 1 then n - o.keepRecent else n - 1
  }

  predicate Protected(n: int, o: Options, i: int) {
    i == 0 || i >= RecentStart(n, o)
  }

  /** How many versions are always kept of n. */
  function ProtectedCount(n: int, o: Options): int {
    Min(n, Max(o.keepRecent, 1) + 1)
  }

  /** Whether x is one of the first m picks. */
  ghost predicate PickedBy(span: int, budget: int, m: int, x: int)
    requires budget > 0
  {
    exists j :: 0 <= j < m && x == Pick(span, budget, j)
  }

  /** Whether the x-th index of a window of `span` is picked by `budget` even
      picks. */
  ghost predicate Picked(span: int, budget: int, x: int)
    requires budget > 0
  {
    budget >= span || PickedBy(span, budget, budget, x)
  }

  lemma PickedNext(span: int, budget: int, m: int, x: int)
    requires 0 < budget <= span && 0 <= m
    ensures PickedBy(span, budget, m + 1, x) <==> PickedBy(span, budget, m, x) || x == Pick(span, budget, m)
    ensures !PickedBy(span, budget, m, Pick(span, budget, m))
  {
    if PickedBy(span, budget, m, Pick(span, budget, m)) {
      var j :| 0 <= j < m && Pick(span, budget, m) == Pick(span, budget, j);
      PicksGrow(span, budget, j, m);
      assert false;
    }
  }

  ghost predicate Keeps(n: int, o: Options, i: int) {
    || n <= MinVersions(o)
    || Protected(n, o, i)
    || (if o.maxVersions > 0 then
          var budget := o.maxVersions - ProtectedCount(n, o);
          budget > 0 && Picked(RecentStart(n, o) - 1, budget, i - 1)
        else if o.factor >= 2 then i % o.factor == 0
        else true)
  }

  /** The versions a run deletes, in order. */
  ghost function Deleted(vers: seq<int>, o: Options, upTo: nat): seq<int>
    requires upTo <= |vers|
  {
    if upTo == 0 then [] else
      Deleted(vers, o, upTo - 1) + if Keeps(|vers|, o, upTo - 1) then [] else [vers[upTo - 1]]
  }

  function Count(keep: seq<bool>): nat {
    if keep == [] then 0 else Count(keep[..|keep| - 1]) + if keep[|keep| - 1] then 1 else 0
  }

  lemma {:induction false} CountRange(keep: seq<bool>, lo: int, hi: int)
    requires 0 <= lo <= hi <= |keep| && forall i | 0 <= i < |keep| :: keep[i] <==> !(lo <= i < hi)
    ensures Count(keep) == |keep| - (hi - lo)
  {
    if keep != [] {
      var n := |keep| - 1;
      if hi <= n {
        CountRange(keep[..n], lo, hi);
      } else {
        CountRange(keep[..n], Min(lo, n), n);
      }
    }
  }

  method CountKept(keep: array<bool>) returns (n: nat)
    ensures n == Count(keep[..])
  {
    n := 0;
    for i := 0 to keep.Length
      invariant n == Count(keep[..i])
    {
      assert keep[..i + 1][..i] == keep[..i];
      if keep[i] {
        n := n + 1;
      }
    }
    assert keep[..keep.Length] == keep[..];
  }

  /** Marks the whole window [lo, hi). */
  method KeepAll(keep: array<bool>, lo: int, hi: int)
    requires 0 <= lo <= hi <= keep.Length
    modifies keep
    ensures forall i | 0 <= i < keep.Length :: keep[i] <==> old(keep[i]) || lo <= i < hi
  {
    for i := lo to hi
      invariant forall k | 0 <= k < keep.Length :: keep[k] <==> old(keep[k]) || lo <= k < i
    {
      keep[i] := true;
    }
  }

  /** Marks `budget` points spread across [lo, hi). */
  method KeepPicks(keep: array<bool>, lo: int, hi: int, budget: int)
    requires 0 <= lo && hi <= keep.Length
    requires 0 < budget < hi - lo
    modifies keep
    ensures forall i | 0 <= i < keep.Length ::
              keep[i] <==> old(keep[i]) || (lo <= i < hi && PickedBy(hi - lo, budget, budget, i - lo))
  {
    var span := hi - lo;
    for j := 0 to budget
      invariant forall k | 0 <= k < keep.Length ::
                  keep[k] <==> old(keep[k]) || (lo <= k < hi && PickedBy(span, budget, j, k - lo))
    {
      var idx := lo + (j * span) / budget;
      assert idx - lo == Pick(span, budget, j);
      PickBounds(span, budget, j);
      keep[idx] := true;
      forall k | 0 <= k < keep.Length
        ensures keep[k] <==> old(keep[k]) || (lo <= k < hi && PickedBy(span, budget, j + 1, k - lo)) {
        PickedNext(span, budget, j, k - lo);
      }
    }
  }

  /** Marks min(budget, hi - lo) of the window [lo, hi), spread evenly. */
  method KeepEvenly(keep: array<bool>, lo: int, hi: int, budget: int)
    requires 0 <= lo && hi <= keep.Length
    modifies keep
    ensures forall i | 0 <= i < keep.Length ::
              keep[i] <==> old(keep[i]) || (lo <= i < hi && budget > 0 && Picked(hi - lo, budget, i - lo))
  {
    var span := hi - lo;
    if span <= 0 || budget <= 0 {
      return;
    }
    if budget >= span {
      KeepAll(keep, lo, hi);
      return;
    }
    KeepPicks(keep, lo, hi, budget);
  }

  /** The first half of versionsToDelete: the versions always kept. */
  method MarkProtected(n: nat, o: Options) returns (keep: array<bool>, recentStart: int)
    requires n > 2
    ensures fresh(keep) && keep.Length == n && recentStart == RecentStart(n, o)
    ensures forall k | 0 <= k < n :: keep[k] <==> Protected(n, o, k)
    ensures Count(keep[..]) == ProtectedCount(n, o)
  {
    keep := new bool[n](_ => false);
    keep[0] := true;
    keep[n - 1] := true;
    if o.keepRecent > 0 {
      var start := Max(n - o.keepRecent, 0);
      for i := start to n
        invariant forall k | 0 <= k < n :: keep[k] <==> k == 0 || k == n - 1 || start <= k < i
      {
        keep[i] := true;
      }
    }
    recentStart := n - 1;
    if o.keepRecent > 0 && n - o.keepRecent < recentStart {
      recentStart := n - o.keepRecent;
    }
    assert forall k | 0 <= k < n :: keep[k] <==> Protected(n, o, k);
    CountRange(keep[..], 1, Max(recentStart, 1));
  }

  /** The second half: the middle window, thinned by the mode of the options. */
  method MarkMiddle(keep: array<bool>, n: nat, recentStart: int, o: Options)
    requires n > MinVersions(o) && keep.Length == n && recentStart == RecentStart(n, o)
    requires forall k | 0 <= k < n :: keep[k] <==> Protected(n, o, k)
    requires Count(keep[..]) == ProtectedCount(n, o)
    modifies keep
    ensures forall k | 0 <= k < n :: keep[k] <==> Keeps(n, o, k)
  {
    if o.maxVersions > 0 {
      var protected := CountKept(keep);
      KeepEvenly(keep, 1, recentStart, o.maxVersions - protected);
    } else if o.factor >= 2 {
      for i := 1 to Max(recentStart, 1)
        invariant forall k | 0 <= k < n :: keep[k] <==> Protected(n, o, k) || (1 <= k < i && k % o.factor == 0)
      {
        if i % o.factor == 0 {
          keep[i] := true;
        }
      }
    } else {
      for i := 1 to Max(recentStart, 1)
        invariant forall k | 0 <= k < n :: keep[k] <==> Protected(n, o, k) || 1 <= k < i
      {
        keep[i] := true;
      }
    }
  }

  /** versionsToDelete. */
  method VersionsToDelete(vers: seq<int>, o: Options) returns (del: seq<int>)
    ensures del == Deleted(vers, o, |vers|)
  {
    var n := |vers|;
    if n <= MinVersions(o) {
      NothingDeleted(vers, o, n);
      return [];
    }
    var keep, recentStart := MarkProtected(n, o);
    MarkMiddle(keep, n, recentStart, o);
    del := [];
    for i := 0 to n
      invariant del == Deleted(vers, o, i)
    {
      if !keep[i] {
        del := del + [vers[i]];
      }
    }
  }

  lemma {:induction false} NothingDeleted(vers: seq<int>, o: Options, k: nat)
    requires k <= |vers| && forall i | 0 <= i < k :: Keeps(|vers|, o, i)
    ensures Deleted(vers, o, k) == []
  {
    if k > 0 {
      NothingDeleted(vers, o, k - 1);
    }
  }

  // ----- what survives -----

  /** The versions a run keeps, in order. */
  ghost function Survivors(vers: seq<int>, o: Options, upTo: nat): seq<int>
    requires upTo <= |vers|
  {
    if upTo == 0 then [] else
      Survivors(vers, o, upTo - 1) + if Keeps(|vers|, o, upTo - 1) then [vers[upTo - 1]] else []
  }

  lemma {:induction false} SurvivorsAndDeleted(vers: seq<int>, o: Options, k: nat)
    requires k <= |vers|
    ensures |Survivors(vers, o, k)| + |Deleted(vers, o, k)| == k
    ensures forall v <- vers[..k] :: v in Survivors(vers, o, k) || v in Deleted(vers, o, k)
    ensures forall v <- Deleted(vers, o, k) :: exists i :: 0 < i < |vers| - 1 && vers[i] == v && !Keeps(|vers|, o, i)
    ensures forall v <- Survivors(vers, o, k) :: v in vers
  {
    if k > 0 {
      SurvivorsAndDeleted(vers, o, k - 1);
      assert vers[..k] == vers[..k - 1] + [vers[k - 1]];
      assert !Keeps(|vers|, o, k - 1) ==> 0 < k - 1 < |vers| - 1;
    }
  }

  /** The first and the last version of a history are never deleted. */
  lemma FirstAndLastSurvive(vers: seq<int>, o: Options)
    requires vers != [] && forall i, j | 0 <= i < j < |vers| :: vers[i] < vers[j]
    ensures forall v <- Deleted(vers, o, |vers|) :: v in vers && vers[0] < v < vers[|vers| - 1]
  {
    SurvivorsAndDeleted(vers, o, |vers|);
  }

  ghost function PickedBelow(span: int, budget: int, x: nat): nat
    requires budget > 0
  {
    if x == 0 then 0 else PickedBelow(span, budget, x - 1) + if PickedBy(span, budget, budget, x - 1) then 1 else 0
  }

  /** The picks below x are the first j, so the window holds each pick once. */
  lemma {:induction false} CountPicks(span: int, budget: int, x: nat) returns (j: nat)
    requires 0 < budget <= span && x <= span
    ensures j <= budget && PickedBelow(span, budget, x) == j
    ensures j > 0 ==> Pick(span, budget, j - 1) < x
    ensures j < budget ==> Pick(span, budget, j) >= x
    ensures x == span ==> j == budget
  {
    if x == 0 {
      j := 0;
      PickBounds(span, budget, 0);
    } else {
      var m := CountPicks(span, budget, x - 1);
      PickAt(span, budget, x - 1, m);
      j := if m < budget && Pick(span, budget, m) == x - 1 then m + 1 else m;
      if m < budget {
        PicksGrow(span, budget, m, m + 1);
      }
    }
    if j < budget {
      PickBounds(span, budget, j);
    }
  }

  lemma PickAt(span: int, budget: int, x: int, m: nat)
    requires 0 < budget <= span && m <= budget
    requires m > 0 ==> Pick(span, budget, m - 1) < x
    requires m < budget ==> Pick(span, budget, m) >= x
    ensures PickedBy(span, budget, budget, x) <==> m < budget && Pick(span, budget, m) == x
  {
    if PickedBy(span, budget, budget, x) {
      var j :| 0 <= j < budget && x == Pick(span, budget, j);
      if j < m { PickBelow(span, budget, j, m - 1); }
      if m < j { PickBelow(span, budget, m, j); }
    }
  }

  lemma PickBelow(span: int, budget: int, i: nat, j: nat)
    requires 0 < budget <= span && i <= j < budget
    ensures if i == j then Pick(span, budget, i) == Pick(span, budget, j)
            else Pick(span, budget, i) < Pick(span, budget, j)
  {
    if i < j { PicksGrow(span, budget, i, j); }
  }

  /** How many of the first x versions of the middle window survive a cap. */
  ghost function MiddleKept(n: int, o: Options, x: nat): nat {
    var span, budget := RecentStart(n, o) - 1, o.maxVersions - ProtectedCount(n, o);
    if budget <= 0 then 0 else if budget >= span then x else PickedBelow(span, budget, x)
  }

  lemma {:induction false} SurvivorCount(vers: seq<int>, o: Options, k: nat)
    requires |vers| > MinVersions(o) && o.maxVersions > 0 && 0 < k <= |vers|
    ensures
      var n, start := |vers|, Max(RecentStart(|vers|, o), 1);
      |Survivors(vers, o, k)| == 1 + MiddleKept(n, o, Min(k, start) - 1) + Max(0, k - start)
  {
    if k > 1 {
      SurvivorCount(vers, o, k - 1);
    }
  }

  /** In cap mode exactly min(n, max(MaxVersions, protected)) of n versions
      survive. */
  lemma CapModeSurvivors(vers: seq<int>, o: Options)
    requires |vers| > MinVersions(o) && o.maxVersions > 0
    ensures |Survivors(vers, o, |vers|)| == Min(|vers|, Max(o.maxVersions, ProtectedCount(|vers|, o)))
  {
    var n := |vers|;
    SurvivorCount(vers, o, n);
    var span, budget := RecentStart(n, o) - 1, o.maxVersions - ProtectedCount(n, o);
    if 0 < budget < span {
      var _ := CountPicks(span, budget, span);
    }
  }

  // ----- which versions survive -----

  ghost predicate Ascend(vers: seq<int>) {
    forall i, j | 0 <= i < j < |vers| :: vers[i] < vers[j]
  }

  /** The version at i is not deleted by a run. */
  ghost predicate Survives(vers: seq<int>, o: Options, i: nat)
    requires i < |vers|
  {
    vers[i] !in Deleted(vers, o, |vers|)
  }

  /** The first version and the KeepRecent last, or one, survive whatever else the
      options say. */
  lemma ProtectedSurvive(vers: seq<int>, o: Options, i: nat)
    requires Ascend(vers) && i < |vers| && (i == 0 || i >= |vers| - Max(o.keepRecent, 1))
    ensures Survives(vers, o, i)
  {
    DeletedIff(vers, o, i);
  }

  /** In factor mode a version of the middle survives exactly at a multiple of the
      factor, counted from the first. */
  lemma FactorModeKeeps(vers: seq<int>, o: Options, i: nat)
    requires Ascend(vers) && |vers| > Max(o.minVersions, 2) && o.maxVersions <= 0 && o.factor >= 2
    requires 0 < i < |vers| - Max(o.keepRecent, 1)
    ensures Survives(vers, o, i) <==> i % o.factor == 0
  {
    DeletedIff(vers, o, i);
  }

  /** The multiples of f among 1..x. */
  function Multiples(f: int, x: nat): nat
    requires f >= 2
  {
    if x == 0 then 0 else Multiples(f, x - 1) + if x % f == 0 then 1 else 0
  }

  lemma MultiplesStep(f: int, x: nat)
    requires f >= 2 && x > 0
    ensures x / f == (x - 1) / f + if x % f == 0 then 1 else 0
  {
    DivBounds(x, f);
    DivBounds(x - 1, f);
    var q, p, r := x / f, (x - 1) / f, x - f * (x / f);
    assert x % f == r;
    if r == 0 {
      assert f * (q - 1) == f * q - f;
      QuotientUnique(x - 1, f, p, q - 1);
    } else {
      QuotientUnique(x - 1, f, p, q);
    }
  }

  lemma {:induction false} MultiplesCount(f: int, x: nat)
    requires f >= 2
    ensures Multiples(f, x) == x / f
  {
    if x > 0 {
      MultiplesCount(f, x - 1);
      MultiplesStep(f, x);
    }
  }

  lemma {:induction false} FactorCount(vers: seq<int>, o: Options, k: nat)
    requires |vers| > MinVersions(o) && o.maxVersions <= 0 && o.factor >= 2 && 0 < k <= |vers|
    ensures
      var start := Max(RecentStart(|vers|, o), 1);
      |Survivors(vers, o, k)| == 1 + Multiples(o.factor, Min(k, start) - 1) + Max(0, k - start)
  {
    if k > 1 {
      FactorCount(vers, o, k - 1);
    }
  }

  /** In factor mode the first version survives, the recent ones do, and one in
      `factor` of the middle. */
  lemma FactorModeSurvivors(vers: seq<int>, o: Options)
    requires |vers| > Max(o.minVersions, 2) && o.maxVersions <= 0 && o.factor >= 2
    ensures
      var recent := Min(Max(o.keepRecent, 1), |vers| - 1);
      |Survivors(vers, o, |vers|)| == 1 + (|vers| - recent - 1) / o.factor + recent
  {
    FactorCount(vers, o, |vers|);
    MultiplesCount(o.factor, Max(RecentStart(|vers|, o), 1) - 1);
  }

  lemma MultipleIn(a: int, f: int) returns (m: int)
    requires f >= 2
    ensures a <= m < a + f && m % f == 0
    ensures forall i | a <= i < a + f && i % f == 0 :: i == m
  {
    var q := (a + f - 1) / f;
    DivBounds(a + f - 1, f);
    m := f * q;
    assert m % f == 0 by { DivUnique(m, f, q); }
    forall i | a <= i < a + f && i % f == 0 ensures i == m {
      DivBounds(i, f);
      var p := i / f;
      if p < q { MulMono(f, p + 1, q); }
      if p > q { MulMono(f, q + 1, p); }
    }
  }

  /** Of any `factor` versions in a row that lie in the middle exactly one
      survives. */
  lemma OneInFactor(vers: seq<int>, o: Options, a: nat) returns (m: nat)
    requires Ascend(vers) && |vers| > Max(o.minVersions, 2) && o.maxVersions <= 0 && o.factor >= 2
    requires 0 < a && a + o.factor <= |vers| - Max(o.keepRecent, 1)
    ensures a <= m < a + o.factor && Survives(vers, o, m)
    ensures forall i | a <= i < a + o.factor && Survives(vers, o, i) :: i == m
  {
    m := MultipleIn(a, o.factor);
    forall i | a <= i < a + o.factor ensures Survives(vers, o, i) <==> i % o.factor == 0 {
      FactorModeKeeps(vers, o, i);
    }
  }

  /** And of any `factor` versions in a row, wherever they lie, one survives: two
      neighbours among the survivors are at most `factor` apart. */
  lemma FactorModeGaps(vers: seq<int>, o: Options, a: nat) returns (m: nat)
    requires Ascend(vers) && |vers| > Max(o.minVersions, 2) && o.maxVersions <= 0 && o.factor >= 2
    requires a + o.factor <= |vers|
    ensures a <= m < a + o.factor && Survives(vers, o, m)
  {
    m := MultipleIn(a, o.factor);
    if m == 0 || m >= |vers| - Max(o.keepRecent, 1) {
      ProtectedSurvive(vers, o, m);
    } else {
      FactorModeKeeps(vers, o, m);
    }
  }

  /** In cap mode the versions of the middle that survive are the even picks that
      the cap leaves room for: none, all of them, or the one at 1 + j*span/budget
      for each j below the budget. */
  lemma CapModeKeeps(vers: seq<int>, o: Options, i: nat)
    requires Ascend(vers) && |vers| > Max(o.minVersions, 2) && o.maxVersions > 0
    requires 0 < i < |vers| - Max(o.keepRecent, 1)
    ensures
      var span := |vers| - Max(o.keepRecent, 1) - 1;
      var budget := o.maxVersions - Max(o.keepRecent, 1) - 1;
      Survives(vers, o, i) <==>
      budget > 0 && (budget >= span || exists j :: 0 <= j < budget && i == 1 + Pick(span, budget, j))
  {
    DeletedIff(vers, o, i);
    var span, budget := RecentStart(|vers|, o) - 1, o.maxVersions - ProtectedCount(|vers|, o);
    if budget > 0 {
      forall j | 0 <= j < budget ensures i - 1 == Pick(span, budget, j) <==> i == 1 + Pick(span, budget, j) { }
    }
  }

  // ----- when there is nothing left to delete -----

  /** A history of n versions the options leave alone. */
  predicate IsCompact(n: int, o: Options) {
    || n <= MinVersions(o)
    || n <= Max(o.keepRecent, 1) + 1
    || (if o.maxVersions > 0 then n <= o.maxVersions else o.factor < 2)
  }

  /** A run deletes nothing exactly of a compact history, and compact is only a
      matter of the length. */
  lemma DeletesNothingIff(vers: seq<int>, o: Options)
    ensures Deleted(vers, o, |vers|) == [] <==> IsCompact(|vers|, o)
  {
    var n := |vers|;
    SurvivorsAndDeleted(vers, o, n);
    if n <= MinVersions(o) {
      NothingDeleted(vers, o, n);
    } else if o.maxVersions > 0 {
      CapModeSurvivors(vers, o);
    } else if IsCompact(n, o) {
      NothingDeleted(vers, o, n);
    } else {
      assert !Keeps(n, o, 1);
      ThinnedOut(vers, o, 1, n);
    }
  }

  lemma {:induction false} ThinnedOut(vers: seq<int>, o: Options, i: nat, k: nat)
    requires i < k <= |vers| && !Keeps(|vers|, o, i)
    ensures vers[i] in Deleted(vers, o, k)
  {
    if i < k - 1 {
      ThinnedOut(vers, o, i, k - 1);
    }
  }

  /** Of ascending versions exactly those not kept are deleted. */
  lemma DeletedIff(vers: seq<int>, o: Options, i: nat)
    requires i < |vers| && forall a, b | 0 <= a < b < |vers| :: vers[a] < vers[b]
    ensures vers[i] in Deleted(vers, o, |vers|) <==> !Keeps(|vers|, o, i)
  {
    SurvivorsAndDeleted(vers, o, |vers|);
    if !Keeps(|vers|, o, i) {
      ThinnedOut(vers, o, i, |vers|);
    }
  }

  /** The first k versions without those of del. */
  function Remaining(vers: seq<int>, del: seq<int>, k: nat): seq<int>
    requires k <= |vers|
  {
    if k == 0 then [] else
      Remaining(vers, del, k - 1) + if vers[k - 1] in del then [] else [vers[k - 1]]
  }

  lemma {:induction false} SurvivorsRemain(vers: seq<int>, o: Options, k: nat)
    requires k <= |vers| && forall a, b | 0 <= a < b < |vers| :: vers[a] < vers[b]
    ensures Remaining(vers, Deleted(vers, o, |vers|), k) == Survivors(vers, o, k)
  {
    if k > 0 {
      SurvivorsRemain(vers, o, k - 1);
      DeletedIff(vers, o, k - 1);
    }
  }

  /** A shorter history is compact when a longer one is. */
  lemma CompactIsMonotone(m: int, n: int, o: Options)
    requires m <= n && IsCompact(n, o)
    ensures IsCompact(m, o)
  {
  }

  /** In cap mode a second run deletes nothing. */
  lemma SecondRunDeletesNothing(vers: seq<int>, o: Options)
    requires o.maxVersions > 0
    ensures
      var rest := Survivors(vers, o, |vers|);
      Deleted(rest, o, |rest|) == []
  {
    var rest := Survivors(vers, o, |vers|);
    if |vers| > MinVersions(o) {
      CapModeSurvivors(vers, o);
    } else {
      SurvivorsAndDeleted(vers, o, |vers|);
    }
    DeletesNothingIff(rest, o);
  }
}
