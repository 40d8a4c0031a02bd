/** The clock: second chance, swept in a circle. */
module ClockSweep {

  /** The page `k` places round the circle from `first`, among `n`. */
  function At(first: nat, k: nat, n: nat): (i: nat)
    requires first < n && k < n
    ensures i < n
  {
    if first + k < n then first + k else first + k - n
  }

  /** Where in the circle page `i` comes. */
  function Turn(first: nat, i: nat, n: nat): (k: nat)
    requires first < n && i < n
    ensures k < n && At(first, k, n) == i
  {
    if first <= i then i - first else i + n - first
  }

  lemma Multiple(n: nat, d: nat)
    requires d >= 1
    ensures n * d >= n
  {
    assert n * d == n * (d - 1) + n;
    assert n * (d - 1) >= 0;
  }

  lemma Distribute(n: nat, a: nat, b: nat)
    requires a <= b
    ensures n * (b - a) == n * b - n * a
  {
  }

  lemma RemainderUnique(n: nat, q: nat, x: nat, p: nat, r: nat)
    requires x < n && r < n && n * q + x == n * p + r
    ensures x == r
  {
    if p < q {
      Multiple(n, q - p);
      Distribute(n, p, q);
    } else if q < p {
      Multiple(n, p - q);
      Distribute(n, q, p);
    }
  }

  function Mod(m: nat, n: nat): (r: nat)
    requires n > 0
    ensures r < n && m == n * (m / n) + r
  {
    m % n
  }

  /** The position the code computes, for either lap. */
  lemma Position(start: nat, step: nat, n: nat)
    requires n > 0 && step < 2 * n
    ensures Mod(start + step, n) == At(Mod(start, n), if step < n then step else step - n, n)
  {
    Reached(start, step, n, start / n, Mod(start, n), (start + step) / n, Mod(start + step, n));
  }

  /** The same, with the quotients and remainders given. */
  lemma Reached(start: nat, step: nat, n: nat, q: nat, first: nat, p: nat, r: nat)
    requires first < n && r < n && step < 2 * n && start == n * q + first && start + step == n * p + r
    ensures r == At(first, if step < n then step else step - n, n)
  {
    var i := At(first, if step < n then step else step - n, n);
    var extra := if first + step < n then 0 else if first + step < 2 * n then 1 else 2;
    Laps(n, q, extra);
    RemainderUnique(n, q + extra, i, p, r);
  }

  lemma Laps(n: nat, q: nat, extra: nat)
    requires extra <= 2
    ensures n * (q + extra) == n * q + if extra == 0 then 0 else if extra == 1 then n else 2 * n
  {
    assert n * (q + extra) == n * q + n * extra;
  }

  /** The accessed bits of the eligible pages among the first `k` have been cleared, and no others. */
  ghost predicate Cleared(eligible: seq<bool>, before: seq<bool>, after: seq<bool>, first: nat, k: nat)
    requires |eligible| == |before| == |after| && first < |before| && k <= |before|
  {
    forall j | 0 <= j < |before| ::
      var i := At(first, j, |before|); after[i] == if j < k && eligible[i] then false else before[i]
  }

  /** What a sweep starting at `first` takes. */
  ghost predicate Takes(eligible: seq<bool>, before: seq<bool>, after: seq<bool>, first: nat, i: nat)
    requires |eligible| == |before| == |after| && first < |before| && i < |before|
  {
    var n := |before|;
    var k := Turn(first, i, n);
    && eligible[i]
    && (|| (&& !before[i] && Cleared(eligible, before, after, first, k)
            && forall j | 0 <= j < k && eligible[At(first, j, n)] :: before[At(first, j, n)])
        || (&& (forall j | 0 <= j < n && eligible[j] :: before[j]) && Cleared(eligible, before, after, first, n)
            && forall j | 0 <= j < k :: !eligible[At(first, j, n)]))
  }

  /** The victim is determined: the first eligible page not accessed, or the first eligible one if all were. */
  lemma OneVictim(eligible: seq<bool>, before: seq<bool>, a1: seq<bool>, a2: seq<bool>, first: nat, i: nat, j: nat)
    requires |eligible| == |before| == |a1| == |a2| && first < |before| && i < |before| && j < |before|
    requires Takes(eligible, before, a1, first, i) && Takes(eligible, before, a2, first, j)
    ensures i == j
  {
    var n := |before|;
    var p, q := Turn(first, i, n), Turn(first, j, n);
    assert At(first, p, n) == i && At(first, q, n) == j;
  }
}
