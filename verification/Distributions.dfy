/** Discrete delay distributions, kept as a first minute and cumulative probabilities. */
module Distributions {
  import opened Sums

  const THRESHOLD_SMALL_VALUES := 0.00001

  /** The value of a `probability_distribution`: all its queries are expressions over these two fields. */
  datatype Distribution = Distribution(firstMinute: int, cumulative: seq<real>) {

    function LastMinute(): int {
      firstMinute + |cumulative| - 1
    }

    /** The total probability, `sum()` in the program. */
    function Mass(): real {
      if cumulative == [] then 0.0 else cumulative[|cumulative| - 1]
    }

    function SmallerEqual(minute: int): real {
      if minute < firstMinute then 0.0
      else if minute > LastMinute() then Mass()
      else cumulative[minute - firstMinute]
    }

    function Smaller(minute: int): real {
      SmallerEqual(minute - 1)
    }

    function Equal(minute: int): real {
      if minute < firstMinute || minute > LastMinute() then 0.0
      else if minute == firstMinute then cumulative[0]
      else cumulative[minute - firstMinute] - cumulative[minute - 1 - firstMinute]
    }

    function GreaterEqual(minute: int): real {
      if minute < firstMinute then Mass()
      else if minute > LastMinute() then 0.0
      else Mass() - Smaller(minute)
    }

    function Greater(minute: int): real {
      GreaterEqual(minute + 1)
    }

    /** The per-minute values, `get_probabilities` in the program. */
    function Probabilities(): seq<real> {
      seq(|cumulative|, k => Equal(firstMinute + k))
    }

    /** What every distribution built by `init` from non-negative values satisfies. The last conjunct
        records the left trim: a distribution of more than one minute starts with a value above the threshold. */
    ghost predicate Valid() {
      && (cumulative != [] ==> cumulative[0] >= 0.0)
      && (forall i, j :: 0 <= i <= j < |cumulative| ==> cumulative[i] <= cumulative[j])
      && (|cumulative| > 1 ==> cumulative[0] >= THRESHOLD_SMALL_VALUES)
    }
  }

  /** A default-constructed distribution. */
  const EMPTY := Distribution(0, [])

  function OnePoint(minute: int, probability: real): Distribution {
    Distribution(minute, [probability])
  }

  // ----- Initialization with trimming

  /** The first index whose value is not small, or the last index. */
  function FirstKept(p: seq<real>, i: nat): (lo: nat)
    requires i < |p|
    ensures i <= lo < |p|
    ensures forall k :: i <= k < lo ==> p[k] < THRESHOLD_SMALL_VALUES
    ensures lo + 1 < |p| ==> p[lo] >= THRESHOLD_SMALL_VALUES
    decreases |p| - i
  {
    if i + 1 < |p| && p[i] < THRESHOLD_SMALL_VALUES then FirstKept(p, i + 1) else i
  }

  /** The last index, not before lo, whose value is not small, or lo. */
  function LastKept(p: seq<real>, lo: nat, i: nat): (hi: nat)
    requires lo <= i < |p|
    ensures lo <= hi <= i
    ensures forall k :: hi < k <= i ==> p[k] < THRESHOLD_SMALL_VALUES
    ensures hi > lo ==> p[hi] >= THRESHOLD_SMALL_VALUES
  {
    if i > lo && p[i] < THRESHOLD_SMALL_VALUES then LastKept(p, lo, i - 1) else i
  }

  function Lo(p: seq<real>): nat
    requires p != []
  {
    FirstKept(p, 0)
  }

  function Hi(p: seq<real>): nat
    requires p != []
  {
    LastKept(p, Lo(p), |p| - 1)
  }

  function DroppedLeft(p: seq<real>): real
    requires p != []
  {
    Prefix(p, Lo(p))
  }

  function DroppedRight(p: seq<real>): real
    requires p != []
  {
    Total(p) - Prefix(p, Hi(p) + 1)
  }

  /** The cumulative value at the k-th kept minute. */
  function Kept(p: seq<real>, k: nat): real
    requires p != [] && Lo(p) + k < |p|
  {
    Prefix(p, Lo(p) + k + 1) + DroppedRight(p)
  }

  /** The distribution `init` builds: small values at both ends are dropped and their mass is
      added to the first minute that is kept. */
  function Trimmed(p: seq<real>, firstMinute: int): Distribution
    requires p != []
  {
    Distribution(firstMinute + Lo(p), seq(Hi(p) - Lo(p) + 1, k requires 0 <= k <= Hi(p) - Lo(p) => Kept(p, k)))
  }

  /** `init` on a fresh object: no values leave it empty. */
  function Init(p: seq<real>, firstMinute: int): Distribution {
    if p == [] then EMPTY else Trimmed(p, firstMinute)
  }

  /** The object the program initializes in place. */
  class ProbabilityDistribution {
    var firstMinute: int
    var probabilities: seq<real>

    function Value(): Distribution
      reads this
    {
      Distribution(firstMinute, probabilities)
    }

    constructor ()
      ensures Value() == EMPTY
    {
      firstMinute, probabilities := 0, [];
    }

    method Init(p: seq<real>, first: int)
      modifies this
      ensures Value() == if p == [] then old(Value()) else Trimmed(p, first)
    {
      if p == [] {
        return;
      }
      var lo, left := LeftBound(p);
      var hi, right := RightBound(p, lo);
      firstMinute := first + lo;
      probabilities := [p[lo] + (left + right)];
      var i := lo + 1;
      while i <= hi
        invariant lo + 1 <= i <= hi + 1
        invariant |probabilities| == i - lo
        invariant forall k :: 0 <= k < i - lo ==> probabilities[k] == Kept(p, k)
        modifies `probabilities
      {
        probabilities := probabilities + [probabilities[i - lo - 1] + p[i]];
        i := i + 1;
      }
    }

    /** The left bound, ignoring small values, and their sum. */
    static method LeftBound(p: seq<real>) returns (lo: nat, error: real)
      requires p != []
      ensures lo == Lo(p) && error == DroppedLeft(p)
    {
      lo, error := 0, 0.0;
      while lo + 1 < |p| && p[lo] < THRESHOLD_SMALL_VALUES
        invariant 0 <= lo < |p| && FirstKept(p, 0) == FirstKept(p, lo)
        invariant error == Prefix(p, lo)
      {
        error := error + p[lo];
        lo := lo + 1;
      }
    }

    /** The right bound, ignoring small values, and their sum. */
    static method RightBound(p: seq<real>, lo: nat) returns (hi: nat, error: real)
      requires p != [] && lo == Lo(p)
      ensures hi == Hi(p) && error == DroppedRight(p)
    {
      hi, error := |p| - 1, 0.0;
      while hi > lo && p[hi] < THRESHOLD_SMALL_VALUES
        invariant lo <= hi < |p| && LastKept(p, lo, |p| - 1) == LastKept(p, lo, hi)
        invariant error == Total(p) - Prefix(p, hi + 1)
      {
        error := error + p[hi];
        hi := hi - 1;
      }
    }

    method InitCopy(other: Distribution)
      modifies this
      ensures Value() == other
    {
      firstMinute, probabilities := other.firstMinute, other.cumulative;
    }

    method InitOnePoint(minute: int, probability: real)
      modifies this
      ensures Value() == OnePoint(minute, probability)
    {
      firstMinute, probabilities := minute, [probability];
    }
  }

  // ----- What the queries mean

  /** The point query is the increment of the cumulative one, at every minute. */
  lemma EqualIsIncrement(d: Distribution, minute: int)
    ensures d.Equal(minute) == d.SmallerEqual(minute) - d.SmallerEqual(minute - 1)
  {
  }

  /** At every minute the lower and the upper query split the mass. */
  lemma QueriesSplitMass(d: Distribution, minute: int)
    ensures d.SmallerEqual(minute) + d.Greater(minute) == d.Mass()
    ensures d.Smaller(minute) + d.GreaterEqual(minute) == d.Mass()
  {
  }

  /** The first k per-minute values sum to the cumulative query at the k-th minute. */
  lemma {:induction false} ProbabilitiesPrefix(d: Distribution, k: nat)
    requires k <= |d.cumulative|
    ensures Prefix(d.Probabilities(), k) == d.SmallerEqual(d.firstMinute + k - 1)
  {
    if k > 0 {
      ProbabilitiesPrefix(d, k - 1);
      EqualIsIncrement(d, d.firstMinute + k - 1);
    }
  }

  /** The point queries sum to the mass. */
  lemma ProbabilitiesTotal(d: Distribution)
    ensures Total(d.Probabilities()) == d.Mass()
  {
    ProbabilitiesPrefix(d, |d.cumulative|);
  }

  /** Queries of a valid distribution are monotone and bounded by the mass. */
  lemma ValidQueries(d: Distribution, a: int, b: int)
    requires d.Valid() && a <= b
    ensures 0.0 <= d.SmallerEqual(a) <= d.SmallerEqual(b) <= d.Mass()
    ensures 0.0 <= d.Equal(a) && 0.0 <= d.Greater(b) <= d.Greater(a) <= d.Mass()
  {
    var last := |d.cumulative| - 1;
    if d.cumulative != [] {
      assert d.cumulative[0] <= d.cumulative[last];
    }
    forall m | m == a || m == b || m == a - 1
      ensures 0.0 <= d.SmallerEqual(m) <= d.Mass()
    {
      if d.firstMinute <= m <= d.LastMinute() {
        assert d.cumulative[0] <= d.cumulative[m - d.firstMinute] <= d.cumulative[last];
      }
    }
    assert d.SmallerEqual(a - 1) <= d.SmallerEqual(a) <= d.SmallerEqual(b);
    EqualIsIncrement(d, a);
    QueriesSplitMass(d, a);
    QueriesSplitMass(d, b);
  }

  lemma ValidProbabilities(d: Distribution)
    requires d.Valid()
    ensures NonNegative(d.Probabilities())
  {
    forall k | 0 <= k < |d.cumulative|
      ensures d.Probabilities()[k] >= 0.0
    {
      ValidQueries(d, d.firstMinute + k, d.firstMinute + k);
    }
  }

  // ----- What trimming does

  /** The cumulative query on the values as given, before any trimming. */
  function RawSmallerEqual(p: seq<real>, firstMinute: int, minute: int): real {
    if minute < firstMinute then 0.0
    else if minute >= firstMinute + |p| then Total(p)
    else Prefix(p, minute - firstMinute + 1)
  }

  /** Whatever is trimmed, the mass is exactly the sum of the input. */
  lemma TrimKeepsMass(p: seq<real>, firstMinute: int)
    ensures Init(p, firstMinute).Mass() == Total(p)
  {
  }

  /** The trimmed query: shifted up by the right-dropped mass inside the kept range. */
  lemma TrimmedSmallerEqual(p: seq<real>, firstMinute: int, minute: int)
    requires p != []
    ensures Trimmed(p, firstMinute).SmallerEqual(minute) ==
            if minute < firstMinute + Lo(p) then 0.0
            else if minute > firstMinute + Hi(p) then Total(p)
            else RawSmallerEqual(p, firstMinute, minute) + DroppedRight(p)
  {
  }

  lemma DroppedNonNegative(p: seq<real>)
    requires p != [] && NonNegative(p)
    ensures 0.0 <= DroppedLeft(p) && 0.0 <= DroppedRight(p)
  {
    PrefixMonotone(p, 0, Lo(p));
    PrefixMonotone(p, Hi(p) + 1, |p|);
  }

  /** The mass of a run of small values is below the threshold times its length. */
  lemma {:induction false} SmallRun(p: seq<real>, i: nat, j: nat)
    requires i <= j <= |p|
    requires forall k :: i <= k < j ==> p[k] < THRESHOLD_SMALL_VALUES
    ensures Prefix(p, j) - Prefix(p, i) <= (j - i) as real * THRESHOLD_SMALL_VALUES
  {
    if i < j {
      SmallRun(p, i, j - 1);
      assert (j - i) as real == (j - 1 - i) as real + 1.0;
    }
  }

  /** Init on non-negative values: a valid distribution whose cumulative queries differ from the
      untrimmed ones by at most the dropped mass, which is below the threshold per dropped value. */
  lemma TrimError(p: seq<real>, firstMinute: int, minute: int)
    requires p != [] && NonNegative(p)
    ensures Trimmed(p, firstMinute).Valid()
    ensures -DroppedLeft(p) <= Trimmed(p, firstMinute).SmallerEqual(minute) - RawSmallerEqual(p, firstMinute, minute)
                            <= DroppedRight(p)
    ensures 0.0 <= DroppedLeft(p) + DroppedRight(p) <= (|p| - 1 - (Hi(p) - Lo(p))) as real * THRESHOLD_SMALL_VALUES
  {
    var d := Trimmed(p, firstMinute);
    var lo, hi := Lo(p), Hi(p);
    DroppedNonNegative(p);
    SmallRun(p, 0, lo);
    SmallRun(p, hi + 1, |p|);
    assert (|p| - 1 - (hi - lo)) as real == lo as real + (|p| - (hi + 1)) as real;
    TrimmedSmallerEqual(p, firstMinute, minute);
    forall i, j | 0 <= i <= j < |d.cumulative|
      ensures 0.0 <= d.cumulative[i] <= d.cumulative[j]
    {
      PrefixMonotone(p, lo + i + 1, lo + j + 1);
    }
    PrefixMonotone(p, 0, lo);
    if firstMinute <= minute < firstMinute + |p| {
      var k := minute - firstMinute + 1;
      if k <= lo {
        PrefixMonotone(p, k, lo);
      } else if k > hi {
        PrefixMonotone(p, hi + 1, k);
        PrefixMonotone(p, k, |p|);
      }
    }
  }

  lemma InitValid(p: seq<real>, firstMinute: int)
    requires NonNegative(p)
    ensures Init(p, firstMinute).Valid()
  {
    if p != [] {
      TrimError(p, firstMinute, 0);
    }
  }

  /** Trimming is invisible to every query exactly when it drops only zeros. */
  lemma TrimExactIff(p: seq<real>, firstMinute: int)
    requires p != [] && NonNegative(p)
    ensures (forall minute :: Trimmed(p, firstMinute).SmallerEqual(minute) == RawSmallerEqual(p, firstMinute, minute))
       <==> (forall k :: 0 <= k < Lo(p) || Hi(p) < k < |p| ==> p[k] == 0.0)
  {
    var lo, hi := Lo(p), Hi(p);
    if forall k :: 0 <= k < lo || hi < k < |p| ==> p[k] == 0.0 {
      PrefixZeros(p, 0, lo);
      PrefixZeros(p, hi + 1, |p|);
      forall minute {
        TrimError(p, firstMinute, minute);
      }
    } else {
      var k :| (0 <= k < lo || hi < k < |p|) && p[k] != 0.0;
      if k < lo {
        PrefixMonotone(p, 0, k);
        TrimmedSmallerEqual(p, firstMinute, firstMinute + k);
        assert Trimmed(p, firstMinute).SmallerEqual(firstMinute + k) != RawSmallerEqual(p, firstMinute, firstMinute + k);
      } else {
        PrefixMonotone(p, hi + 1, k);
        PrefixMonotone(p, k + 1, |p|);
        assert DroppedRight(p) > 0.0;
        TrimmedSmallerEqual(p, firstMinute, firstMinute + hi);
        assert Trimmed(p, firstMinute).SmallerEqual(firstMinute + hi) != RawSmallerEqual(p, firstMinute, firstMinute + hi);
      }
    }
  }

  // ----- What a distribution initialized at minute zero answers

  /** Trimming drops nothing but zeros. */
  ghost predicate DropsOnlyZeros(p: seq<real>) {
    p != [] ==> forall k :: 0 <= k < Lo(p) || Hi(p) < k < |p| ==> p[k] == 0.0
  }

  /** The query at a minute is the sum of the values up to it, up to what trimming drops on either side. */
  lemma InitQueries(p: seq<real>, firstMinute: int, k: nat)
    requires NonNegative(p) && k < |p|
    ensures -DroppedLeft(p) <= Init(p, firstMinute).SmallerEqual(firstMinute + k) - Prefix(p, k + 1) <= DroppedRight(p)
    ensures DropsOnlyZeros(p) ==> Init(p, firstMinute).SmallerEqual(firstMinute + k) == Prefix(p, k + 1)
  {
    TrimError(p, firstMinute, firstMinute + k);
    if DropsOnlyZeros(p) {
      NothingDropped(p);
    }
  }

  lemma NothingDropped(p: seq<real>)
    requires p != [] && DropsOnlyZeros(p)
    ensures DroppedLeft(p) == DroppedRight(p) == 0.0
  {
    PrefixZeros(p, 0, Lo(p));
    PrefixZeros(p, Hi(p) + 1, |p|);
  }

  /** Before the first value nothing, after the last one everything. */
  lemma InitOutside(p: seq<real>, firstMinute: int, minute: int)
    requires p != []
    ensures minute < firstMinute ==> Init(p, firstMinute).SmallerEqual(minute) == 0.0
    ensures minute >= firstMinute + |p| - 1 ==> Init(p, firstMinute).SmallerEqual(minute) == Total(p)
  {
    TrimmedSmallerEqual(p, firstMinute, minute);
  }

  /** The point query of such a distribution. */
  lemma InitEqual(p: seq<real>, firstMinute: int, k: nat)
    requires NonNegative(p) && k < |p| && DropsOnlyZeros(p)
    ensures Init(p, firstMinute).Equal(firstMinute + k) == p[k]
  {
    EqualIsIncrement(Init(p, firstMinute), firstMinute + k);
    InitQueries(p, firstMinute, k);
    if k > 0 {
      InitQueries(p, firstMinute, k - 1);
    } else {
      InitOutside(p, firstMinute, firstMinute - 1);
    }
  }

  /** All mass at one value: trimming leaves that minute only. */
  lemma OneValue(p: seq<real>, firstMinute: int, k: nat)
    requires k < |p| && p[k] == 1.0 && forall i :: 0 <= i < |p| && i != k ==> p[i] == 0.0
    ensures Init(p, firstMinute) == OnePoint(firstMinute + k, 1.0)
  {
    assert Lo(p) == k && Hi(p) == k;
    TrimKeepsMass(p, firstMinute);
    PrefixZeros(p, 0, k);
    PrefixZeros(p, k + 1, |p|);
    assert Prefix(p, k + 1) == Prefix(p, k) + p[k];
    assert Init(p, firstMinute).cumulative == [1.0];
  }
}
