/** The arithmetic behind departure distributions, on plain sequences indexed by the departure delay.
    F[k] is the probability that the train is ready with delay at most k, N[k] that no feeder is waited for at
    delay k, M[k] the counterpart of N[k] computed from the cut feeder distributions, and G[k] the
    probability that the passenger of an interchange has arrived. */
module WaitingAlgebra {
  import opened Sums

  /** Cumulative: starts non-negative and never decreases. */
  ghost predicate Cumulative(F: seq<real>) {
    && (F != [] ==> F[0] >= 0.0)
    && forall k {:trigger F[k]} :: 1 <= k < |F| ==> F[k - 1] <= F[k]
  }

  ghost predicate Bounding(N: seq<real>, M: seq<real>) {
    && |N| == |M|
    && (forall k :: 0 <= k < |N| ==> 0.0 <= N[k] <= M[k])
    && (forall k {:trigger M[k]} :: 1 <= k < |M| ==> M[k - 1] <= M[k])
  }

  function Increment(F: seq<real>, k: nat): real
    requires k < |F|
  {
    if k == 0 then F[0] else F[k] - F[k - 1]
  }

  lemma CumulativeNonNegative(F: seq<real>, k: nat)
    requires Cumulative(F) && k < |F|
    ensures F[k] >= 0.0 && Increment(F, k) >= 0.0
  {
    if k > 0 {
      CumulativeNonNegative(F, k - 1);
    }
  }

  // ----- Departures without an interchange

  /** The program's entries, as products. */
  ghost predicate PlainEntries(entries: seq<real>, F: seq<real>, N: seq<real>, M: seq<real>) {
    && |entries| == |F| == |N| == |M|
    && (entries != [] ==> entries[0] == Times(F[0], N[0]))
    && forall k {:trigger entries[k]} :: 1 <= k < |entries| ==>
         entries[k] == PlainEntry(F[k - 1], F[k], N[k], M[k - 1], M[k])
  }

  function PlainEntry(F0: real, F: real, n: real, m0: real, m: real): real {
    (F - F0) * n + F0 * (m - m0)
  }

  /** The mass lost at each delay because trimming changed a cut distribution. */
  function Defects(F: seq<real>, N: seq<real>, M: seq<real>): seq<real>
    requires |F| == |N| == |M|
  {
    seq(|F|, k requires 0 <= k < |F| => Times(Increment(F, k), M[k] - N[k]))
  }

  lemma PlainEntriesNonNegative(entries: seq<real>, F: seq<real>, N: seq<real>, M: seq<real>)
    requires PlainEntries(entries, F, N, M) && Cumulative(F) && Bounding(N, M)
    ensures NonNegative(entries)
  {
    hide PlainEntry;
    forall k | 0 <= k < |entries|
      ensures entries[k] >= 0.0
    {
      if k == 0 {
        ProductNonNegative(F[0], N[0]);
      } else {
        CumulativeNonNegative(F, k - 1);
        PlainEntryNonNegative(entries[k], F[k - 1], F[k], N[k], M[k - 1], M[k]);
      }
    }
  }

  lemma PlainEntryNonNegative(e: real, F0: real, F: real, n: real, m0: real, m: real)
    requires e == PlainEntry(F0, F, n, m0, m) && 0.0 <= F0 <= F && 0.0 <= n && m0 <= m
    ensures e >= 0.0
  {
    ProductNonNegative(F - F0, n);
    ProductNonNegative(F0, m - m0);
  }

  /** Partial sums telescope to F times M, less the accumulated defect. */
  lemma {:induction false} PlainPartialSums(entries: seq<real>, F: seq<real>, N: seq<real>, M: seq<real>, k: nat)
    requires PlainEntries(entries, F, N, M) && k < |F|
    ensures Prefix(entries, k + 1) == Times(F[k], M[k]) - Prefix(Defects(F, N, M), k + 1)
  {
    hide Times, PlainEntry;
    var defects := Defects(F, N, M);
    assert Prefix(entries, k + 1) == Prefix(entries, k) + entries[k];
    assert Prefix(defects, k + 1) == Prefix(defects, k) + defects[k];
    if k == 0 {
      TimesMinus(F[0], M[0], N[0]);
    } else {
      PlainPartialSums(entries, F, N, M, k - 1);
      PlainStep(F[k - 1], F[k], N[k], M[k - 1], M[k]);
    }
  }

  lemma PlainStep(F0: real, F: real, n: real, m0: real, m: real)
    ensures PlainEntry(F0, F, n, m0, m) == Times(F, m) - Times(F0, m0) - Times(F - F0, m - n)
  {
  }

  lemma TimesMinus(a: real, b: real, c: real)
    ensures Times(a, b - c) == Times(a, b) - Times(a, c)
  {
  }

  lemma DefectsNonNegative(F: seq<real>, N: seq<real>, M: seq<real>)
    requires |F| == |N| && Cumulative(F) && Bounding(N, M)
    ensures NonNegative(Defects(F, N, M))
  {
    forall k | 0 <= k < |F|
      ensures Defects(F, N, M)[k] >= 0.0
    {
      CumulativeNonNegative(F, k);
      ProductNonNegative(Increment(F, k), M[k] - N[k]);
    }
  }

  lemma {:induction false} DefectsBounded(F: seq<real>, N: seq<real>, M: seq<real>, E: real, k: nat)
    requires |F| == |N| && Cumulative(F) && Bounding(N, M) && k < |F|
    requires forall j :: 0 <= j < |F| ==> M[j] - N[j] <= E
    ensures Prefix(Defects(F, N, M), k + 1) <= Times(F[k], E)
  {
    hide Times;
    var defects := Defects(F, N, M);
    assert Prefix(defects, k + 1) == Prefix(defects, k) + defects[k];
    CumulativeNonNegative(F, k);
    if k == 0 {
      BoundedStep(0.0, F[k], M[k] - N[k], E);
      TimesZero(E);
    } else {
      DefectsBounded(F, N, M, E, k - 1);
      BoundedStep(F[k - 1], F[k], M[k] - N[k], E);
    }
  }

  lemma TimesZero(b: real)
    ensures Times(0.0, b) == 0.0
  {
  }

  lemma BoundedStep(F0: real, F: real, gap: real, E: real)
    requires F0 <= F && gap <= E
    ensures Times(F0, E) + Times(F - F0, gap) <= Times(F, E)
  {
    ProductMonotone(gap, E, F - F0);
    assert E * (F - F0) == F * E - F0 * E;
  }

  // ----- Departures after an interchange

  /** The program's entries: up to delay w the train also waits for the passenger's own arrival. */
  ghost predicate InterchangeEntries(entries: seq<real>, F: seq<real>, N: seq<real>, M: seq<real>, G: seq<real>, w: nat) {
    && |entries| == |F| == |N| == |M| == |G|
    && (entries != [] ==> entries[0] == FirstEntry(F[0], G[0], N[0]))
    && forall k {:trigger entries[k]} :: 1 <= k < |entries| ==>
         entries[k] == if k <= w then WithinEntry(F[k - 1], F[k], G[k - 1], G[k], N[k], M[k - 1], M[k])
                       else LateEntry(F[k - 1], F[k], G[k], N[k], M[k - 1], M[k])
  }

  function FirstEntry(F: real, G: real, n: real): real {
    G * F * n
  }

  function WithinEntry(F0: real, F: real, G0: real, G: real, n: real, m0: real, m: real): real {
    (F - F0) * n * G + F0 * ((m - m0) * G + (G - G0) * (n - (m - m0)))
  }

  function LateEntry(F0: real, F: real, G: real, n: real, m0: real, m: real): real {
    (F - F0) * n * G + F0 * ((m - m0) * G)
  }

  /** What is new in F * G counts once, and what waiting releases was ready on both sides. */
  lemma WithinEntrySplit(F0: real, F: real, G0: real, G: real, n: real, m0: real, m: real)
    ensures WithinEntry(F0, F, G0, G, n, m0, m) == (F * G - F0 * G0) * n + F0 * G0 * (m - m0)
  {
    var h := m - m0;
    assert (F - F0) * n * G + F0 * (h * G + (G - G0) * (n - h)) == ((F - F0) * G + F0 * (G - G0)) * n + F0 * G0 * h;
  }

  lemma LateEntrySplit(F0: real, F: real, G: real, n: real, m0: real, m: real, increment: real)
    requires increment == (F - F0) * n + F0 * (m - m0)
    ensures LateEntry(F0, F, G, n, m0, m) == increment * G
  {
  }

  lemma WithinBounds(A0: real, A: real, n: real, m0: real, m: real, E: real, P: real)
    requires 0.0 <= A0 <= A && 0.0 <= n <= m <= n + E && m0 <= m
    requires A0 * (m0 - E) <= P <= A0 * m0
    ensures (A - A0) * n + A0 * (m - m0) >= 0.0
    ensures A * (m - E) <= P + (A - A0) * n + A0 * (m - m0) <= A * m
  {
    ProductNonNegative(A - A0, n);
    ProductNonNegative(A0, m - m0);
    ProductNonNegative(A - A0, m - n);
    ProductNonNegative(A - A0, n + E - m);
  }

  lemma LateIncrement(F0: real, F: real, n: real, m0: real, m: real, E: real)
    requires 0.0 <= F0 <= F && 0.0 <= n <= m <= n + E && m0 <= m
    ensures F * (m - E) - F0 * (m0 - E) <= (F - F0) * n + F0 * (m - m0) <= F * m - F0 * m0
    ensures (F - F0) * n + F0 * (m - m0) >= 0.0
  {
    ProductNonNegative(F - F0, n);
    ProductNonNegative(F0, m - m0);
    ProductNonNegative(F - F0, m - n);
    ProductNonNegative(F - F0, n + E - m);
  }

  lemma LateBounds(low0: real, low: real, B: real, up0: real, up: real, Gw: real, G: real, Gt: real, P: real)
    requires 0.0 <= Gw <= G <= Gt && low - low0 <= B <= up - up0 && B >= 0.0
    requires Gw * low0 <= P <= Gt * up0
    ensures B * G >= 0.0
    ensures Gw * low <= P + B * G <= Gt * up
  {
    ProductNonNegative(B, G);
    GrowthAtLeast(low0, low, B, Gw, G);
    GrowthAtMost(up0, up, B, G, Gt);
  }

  lemma GrowthAtLeast(low0: real, low: real, B: real, Gw: real, G: real)
    requires 0.0 <= Gw <= G && low - low0 <= B && B >= 0.0
    ensures Gw * low - Gw * low0 <= B * G
  {
    ProductMonotone(low - low0, B, Gw);
    ProductMonotone(Gw, G, B);
    assert Gw * low - Gw * low0 == (low - low0) * Gw;
  }

  lemma GrowthAtMost(up0: real, up: real, B: real, G: real, Gt: real)
    requires 0.0 <= G <= Gt && B <= up - up0 && B >= 0.0
    ensures B * G <= Gt * up - Gt * up0
  {
    ProductMonotone(B, up - up0, Gt);
    ProductMonotone(G, Gt, B);
    assert Gt * up - Gt * up0 == (up - up0) * Gt;
  }

  /** What the interchange theorems assume of the sequences. */
  ghost predicate Interchanging(F: seq<real>, N: seq<real>, M: seq<real>, G: seq<real>, E: real) {
    && |F| == |N| == |G| && Cumulative(F) && Cumulative(G) && Bounding(N, M)
    && forall k :: 0 <= k < |F| ==> M[k] - N[k] <= E
  }

  /** What one delay contributes. */
  lemma EntryFacts(entries: seq<real>, F: seq<real>, N: seq<real>, M: seq<real>, G: seq<real>, w: nat, E: real, k: nat)
    requires InterchangeEntries(entries, F, N, M, G, w) && Interchanging(F, N, M, G, E) && k < |F|
    ensures |entries| == |F| == |N| == |M| == |G|
    ensures F[k] >= 0.0 && G[k] >= 0.0 && 0.0 <= N[k] <= M[k] <= N[k] + E
    ensures Prefix(entries, k + 1) == Prefix(entries, k) + entries[k]
    ensures k == 0 ==> Prefix(entries, 0) == 0.0 && entries[0] == FirstEntry(F[0], G[0], N[0])
    ensures k > 0 ==> 0.0 <= F[k - 1] <= F[k] && 0.0 <= G[k - 1] <= G[k] && M[k - 1] <= M[k]
    ensures k > 0 ==> entries[k] == if k <= w then WithinEntry(F[k - 1], F[k], G[k - 1], G[k], N[k], M[k - 1], M[k])
                                    else LateEntry(F[k - 1], F[k], G[k], N[k], M[k - 1], M[k])
  {
    hide FirstEntry, WithinEntry, LateEntry;
    CumulativeNonNegative(F, k);
    CumulativeNonNegative(G, k);
    if k > 0 {
      CumulativeNonNegative(F, k - 1);
      CumulativeNonNegative(G, k - 1);
    }
  }

  /** Up to delay w, partial sums lie between F * G * (M - E) and F * G * M. */
  lemma {:induction false} WithinPartialSums(entries: seq<real>, F: seq<real>, N: seq<real>, M: seq<real>, G: seq<real>, w: nat, E: real, k: nat)
    requires InterchangeEntries(entries, F, N, M, G, w) && Interchanging(F, N, M, G, E)
    requires k < |F| && k <= w
    ensures entries[k] >= 0.0
    ensures Level(F[k], G[k], M[k], E) <= Prefix(entries, k + 1) <= Level(F[k], G[k], M[k], 0.0)
  {
    hide *;
    EntryFacts(entries, F, N, M, G, w, E, k);
    if k == 0 {
      FirstBounds(F[0], G[0], N[0], M[0], E);
    } else {
      WithinPartialSums(entries, F, N, M, G, w, E, k - 1);
      WithinStep(Prefix(entries, k), entries[k], F[k - 1], F[k], G[k - 1], G[k], N[k], M[k - 1], M[k], E);
    }
  }

  lemma WithinStep(P: real, e: real, F0: real, F: real, G0: real, G: real, n: real, m0: real, m: real, E: real)
    requires e == WithinEntry(F0, F, G0, G, n, m0, m)
    requires 0.0 <= F0 <= F && 0.0 <= G0 <= G && 0.0 <= n <= m <= n + E && m0 <= m
    requires Level(F0, G0, m0, E) <= P <= Level(F0, G0, m0, 0.0)
    ensures e >= 0.0
    ensures Level(F, G, m, E) <= P + e <= Level(F, G, m, 0.0)
  {
    WithinEntrySplit(F0, F, G0, G, n, m0, m);
    ProductOrder(F0, F, G0, G);
    WithinBounds(F0 * G0, F * G, n, m0, m, E, P);
  }

  lemma FirstBounds(F: real, G: real, n: real, m: real, E: real)
    requires F >= 0.0 && G >= 0.0 && 0.0 <= n <= m <= n + E
    ensures 0.0 <= FirstEntry(F, G, n)
    ensures Level(F, G, m, E) <= FirstEntry(F, G, n) <= Level(F, G, m, 0.0)
  {
    ProductNonNegative(F, G);
    var A := F * G;
    assert G * F * n == A * n;
    ProductMonotone(0.0, n, A);
    ProductMonotone(n, m, A);
    ProductMonotone(m - E, n, A);
  }

  /** After delay w, partial sums lie between G[w] * F * (M - E) and the final G times F * M. */
  lemma {:induction false} LatePartialSums(entries: seq<real>, F: seq<real>, N: seq<real>, M: seq<real>, G: seq<real>, w: nat, E: real, Gt: real, k: nat)
    requires InterchangeEntries(entries, F, N, M, G, w) && Interchanging(F, N, M, G, E)
    requires w <= k < |F| && forall j :: 0 <= j < |G| ==> G[j] <= Gt
    ensures entries[k] >= 0.0
    ensures Level(F[k], G[w], M[k], E) <= Prefix(entries, k + 1) <= Level(F[k], Gt, M[k], 0.0)
    ensures G[w] <= G[k]
  {
    hide *;
    EntryFacts(entries, F, N, M, G, w, E, w);
    EntryFacts(entries, F, N, M, G, w, E, k);
    if k == w {
      WithinPartialSums(entries, F, N, M, G, w, E, k);
      LateStart(F[k], G[k], Gt, M[k]);
    } else {
      LatePartialSums(entries, F, N, M, G, w, E, Gt, k - 1);
      LateStep(Prefix(entries, k), entries[k], F[k - 1], F[k], G[w], G[k], Gt, N[k], M[k - 1], M[k], E);
    }
  }

  lemma LateStep(P: real, e: real, F0: real, F: real, Gw: real, G: real, Gt: real, n: real, m0: real, m: real, E: real)
    requires e == LateEntry(F0, F, G, n, m0, m)
    requires 0.0 <= F0 <= F && 0.0 <= Gw <= G <= Gt && 0.0 <= n <= m <= n + E && m0 <= m
    requires Level(F0, Gw, m0, E) <= P <= Level(F0, Gt, m0, 0.0)
    ensures e >= 0.0
    ensures Level(F, Gw, m, E) <= P + e <= Level(F, Gt, m, 0.0)
  {
    hide Level, LateEntry;
    var B := (F - F0) * n + F0 * (m - m0);
    LateEntrySplit(F0, F, G, n, m0, m, B);
    LateIncrement(F0, F, n, m0, m, E);
    var low0, low, up0, up := F0 * (m0 - E), F * (m - E), F0 * m0, F * m;
    LevelIsProduct(F0, Gw, m0, E, low0);
    LevelIsProduct(F, Gw, m, E, low);
    LevelIsProduct(F0, Gt, m0, 0.0, up0);
    LevelIsProduct(F, Gt, m, 0.0, up);
    LateBounds(low0, low, B, up0, up, Gw, G, Gt, P);
  }

  lemma LevelIsProduct(F: real, G: real, m: real, E: real, level: real)
    requires level == F * (m - E)
    ensures Level(F, G, m, E) == G * level
  {
  }

  lemma LateStart(F: real, G: real, Gt: real, m: real)
    requires F >= 0.0 && 0.0 <= G <= Gt && m >= 0.0
    ensures Level(F, G, m, 0.0) <= Level(F, Gt, m, 0.0)
  {
    ProductNonNegative(F, m);
    ProductMonotone(G, Gt, F * m);
  }

  /** A level: the product of what is ready, minus a margin of E on m. */
  function Level(F: real, G: real, m: real, E: real): real {
    F * G * (m - E)
  }
}
