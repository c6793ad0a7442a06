/**
 * The per-result counters `[0]*len(DLResult)` of `download_links`, `process_page`
 * and `main`, indexed by `DLResult.value`.
 */
module Counters {
  import opened Sync

  /** One counter per DLResult value. */
  type Counts = c: seq<nat> | |c| == 4 witness [0, 0, 0, 0]

  const Zero: Counts := [0, 0, 0, 0]

  /** How many of `rs` are `r`. */
  function Count(rs: seq<DLResult>, r: DLResult): (n: nat)
    ensures n <= |rs|
  {
    if rs == [] then 0
    else Count(rs[..|rs| - 1], r) + (if rs[|rs| - 1] == r then 1 else 0)
  }

  /** The counters of a sequence of results: counter `v` counts the results whose value is `v`. */
  function Tally(rs: seq<DLResult>): (c: Counts)
    ensures forall r: DLResult :: c[r.Value()] == Count(rs, r)
  {
    [Count(rs, Collision), Count(rs, Downloaded), Count(rs, Duplicate), Count(rs, Updated)]
  }

  /** Element-wise sum, as in `counters[i] += s_ctr`. */
  function Add(a: Counts, b: Counts): (c: Counts)
    ensures forall i :: 0 <= i < 4 ==> c[i] == a[i] + b[i]
  {
    [a[0] + b[0], a[1] + b[1], a[2] + b[2], a[3] + b[3]]
  }

  /** `counters[i] += s_ctr` for each index of `sub`: `c` becomes the elementwise sum. */
  method AddInto(c: Counts, sub: Counts) returns (r: Counts)
    ensures r == Add(c, sub)
  {
    r := c;
    for k := 0 to 4
      invariant |r| == 4
      invariant forall m :: 0 <= m < k ==> r[m] == c[m] + sub[m]
      invariant forall m :: k <= m < 4 ==> r[m] == c[m]
    {
      r := r[k := r[k] + sub[k]];
    }
  }

  function Sum(c: Counts): nat
  {
    c[0] + c[1] + c[2] + c[3]
  }

  /** One more result bumps exactly its own counter by one. */
  lemma TallyPush(rs: seq<DLResult>, r: DLResult)
    ensures Tally(rs + [r]) == Tally(rs)[r.Value() := Tally(rs)[r.Value()] + 1]
  {
    assert (rs + [r])[..|rs|] == rs;
  }

  /** Every result is counted exactly once: the counters add up to the number of results. */
  lemma {:induction false} TallySum(rs: seq<DLResult>)
    ensures Sum(Tally(rs)) == |rs|
  {
    if rs != [] {
      TallySum(rs[..|rs| - 1]);
    }
  }

  lemma {:induction false} CountAppend(a: seq<DLResult>, b: seq<DLResult>, r: DLResult)
    ensures Count(a + b, r) == Count(a, r) + Count(b, r)
  {
    if b == [] {
      assert a + b == a;
    } else {
      CountAppend(a, b[..|b| - 1], r);
      assert (a + b)[..|a + b| - 1] == a + b[..|b| - 1];
    }
  }

  /**
   * Counting a concatenation is summing the counts of its parts, so counters
   * added up per folder equal the counters of all results in one sequence.
   */
  lemma TallyAppend(a: seq<DLResult>, b: seq<DLResult>)
    ensures Tally(a + b) == Add(Tally(a), Tally(b))
  {
    CountAppend(a, b, Collision);
    CountAppend(a, b, Downloaded);
    CountAppend(a, b, Duplicate);
    CountAppend(a, b, Updated);
  }

  /** Aggregation does not depend on how the results are grouped or ordered. */
  lemma AddAssociativeCommutative(a: Counts, b: Counts, c: Counts)
    ensures Add(a, b) == Add(b, a)
    ensures Add(Add(a, b), c) == Add(a, Add(b, c))
    ensures Add(Zero, a) == a
  {
  }

  /**
   * The collided list: the elements of `xs` whose result is COLLISION, in
   * order (the results may stop short of `xs` when a download raised).
   */
  function Collided<T>(xs: seq<T>, rs: seq<DLResult>): (c: seq<T>)
    requires |rs| <= |xs|
    ensures |c| == Count(rs, Collision)
  {
    if rs == [] then []
    else Collided(xs, rs[..|rs| - 1]) + (if rs[|rs| - 1] == Collision then [xs[|rs| - 1]] else [])
  }

  lemma CollidedPush<T>(xs: seq<T>, rs: seq<DLResult>, r: DLResult)
    requires |rs| < |xs|
    ensures Collided(xs, rs + [r]) == Collided(xs, rs) + (if r == Collision then [xs[|rs|]] else [])
  {
    assert (rs + [r])[..|rs|] == rs;
  }

  /** The collided list holds exactly the elements whose download collided. */
  lemma {:induction false} CollidedExactly<T>(xs: seq<T>, rs: seq<DLResult>)
    requires |rs| <= |xs|
    ensures forall j :: 0 <= j < |rs| && rs[j] == Collision ==> xs[j] in Collided(xs, rs)
    ensures forall c :: c in Collided(xs, rs) ==> exists j :: 0 <= j < |rs| && rs[j] == Collision && xs[j] == c
  {
    if rs != [] {
      CollidedExactly(xs, rs[..|rs| - 1]);
    }
  }
}
