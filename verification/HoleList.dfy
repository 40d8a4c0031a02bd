/** The kernel heap's free list as a value: what a hole list means, which lists are allowed,
    and why there is only one allowed list for any set of free bytes. */
module HoleList {
  import opened Basics

  const HOLE_SIZE: nat := 16
  const HOLE_ALIGN: nat := 8
  const HEAP_START: nat := 0x4444_4444_0000
  const HEAP_SIZE: nat := 2 * 1024 * 1024

  datatype Hole = Hole(start: nat, size: nat) {
    function End(): nat { start + size }

    /** Starts on a header boundary and can hold its own header. */
    predicate Proper() {
      start > 0 && start % HOLE_ALIGN == 0 && size >= HOLE_SIZE && size % HOLE_ALIGN == 0
    }

    predicate Has(b: int) { start <= b < start + size }
  }

  /** Sorted by address, disjoint, and never adjacent. */
  ghost predicate Canonical(hs: seq<Hole>) {
    && (forall i | 0 <= i < |hs| :: hs[i].Proper())
    && (forall i, j | 0 <= i < j < |hs| :: hs[i].End() < hs[j].start)
  }

  ghost predicate Covers(hs: seq<Hole>, b: int) {
    exists i :: 0 <= i < |hs| && hs[i].Has(b)
  }

  /** Total size of the first `n` holes. */
  function BytesUpTo(hs: seq<Hole>, n: nat): nat
    requires n <= |hs|
  {
    if n == 0 then 0 else BytesUpTo(hs, n - 1) + hs[n - 1].size
  }

  function FreeBytes(hs: seq<Hole>): nat { BytesUpTo(hs, |hs|) }

  lemma {:induction false} SamePrefix(a: seq<Hole>, b: seq<Hole>, n: nat)
    requires n <= |a| && n <= |b| && forall i | 0 <= i < n :: a[i] == b[i]
    ensures BytesUpTo(a, n) == BytesUpTo(b, n)
  {
    if n > 0 { SamePrefix(a, b, n - 1); }
  }

  lemma CoversHole(hs: seq<Hole>, i: nat, b: int)
    requires i < |hs| && hs[i].Has(b)
    ensures Covers(hs, b)
  {
  }

  /** The canonical list of a set of free bytes is unique. */
  lemma {:induction false} CanonicalIsUnique(a: seq<Hole>, b: seq<Hole>)
    requires Canonical(a) && Canonical(b)
    requires forall x: int :: Covers(a, x) <==> Covers(b, x)
    ensures a == b
    decreases |a|
  {
    if |a| == 0 {
      if |b| > 0 { CoversHole(b, 0, b[0].start); }
    } else {
      CoversHole(a, 0, a[0].start);
      assert |b| > 0;
      CoversHole(b, 0, b[0].start);
      assert a[0].start == b[0].start;
      SameEnd(a, b);
      SameEnd(b, a);
      forall x: int
        ensures Covers(a[1..], x) <==> Covers(b[1..], x)
      {
        CoversTail(a, x);
        CoversTail(b, x);
      }
      CanonicalIsUnique(a[1..], b[1..]);
      assert a == [a[0]] + a[1..] && b == [b[0]] + b[1..];
    }
  }

  lemma SameEnd(a: seq<Hole>, b: seq<Hole>)
    requires Canonical(a) && Canonical(b) && |a| > 0 && |b| > 0 && a[0].start == b[0].start
    requires forall x: int :: Covers(a, x) <==> Covers(b, x)
    ensures a[0].End() <= b[0].End()
  {
    if b[0].End() < a[0].End() {
      CoversHole(a, 0, b[0].End());
    }
  }

  lemma CoversTail(a: seq<Hole>, x: int)
    requires Canonical(a) && |a| > 0
    ensures Covers(a[1..], x) <==> Covers(a, x) && !a[0].Has(x)
  {
    if Covers(a[1..], x) {
      var i :| 0 <= i < |a[1..]| && a[1..][i].Has(x);
      assert a[i + 1].Has(x);
    }
    if Covers(a, x) && !a[0].Has(x) {
      var i :| 0 <= i < |a| && a[i].Has(x);
      assert a[1..][i - 1].Has(x);
    }
  }

  // --- returning a region --------------------------------------------------

  /** The list position of a region: every hole before it starts lower, every other hole higher. */
  ghost predicate Splits(hs: seq<Hole>, k: nat, r: Hole) {
    && k <= |hs|
    && (forall i | 0 <= i < k :: hs[i].start < r.start)
    && (forall i | k <= i < |hs| :: hs[i].start > r.start)
  }

  ghost predicate Unused(hs: seq<Hole>, r: Hole) {
    forall b: int | r.Has(b) :: !Covers(hs, b)
  }

  predicate JoinsLeft(hs: seq<Hole>, k: nat, r: Hole) {
    0 < k <= |hs| && hs[k - 1].End() == r.start
  }

  predicate JoinsRight(hs: seq<Hole>, k: nat, r: Hole) {
    k < |hs| && r.End() == hs[k].start
  }

  /** `hs` with the holes from `lo` up to `hi` replaced by one. */
  function Spliced(hs: seq<Hole>, lo: nat, hi: nat, h: Hole): (r: seq<Hole>)
    requires lo <= hi <= |hs|
    ensures |r| == lo + 1 + |hs| - hi
    ensures forall i | 0 <= i < lo :: r[i] == hs[i]
    ensures r[lo] == h
    ensures forall i | hi <= i < |hs| :: r[i + lo + 1 - hi] == hs[i]
  {
    hs[..lo] + [h] + hs[hi..]
  }

  function Low(hs: seq<Hole>, k: nat, r: Hole): nat { if JoinsLeft(hs, k, r) then k - 1 else k }

  function High(hs: seq<Hole>, k: nat, r: Hole): nat { if JoinsRight(hs, k, r) then k + 1 else k }

  /** `r` joined with whichever neighbours it touches. */
  function Joined(hs: seq<Hole>, k: nat, r: Hole): Hole {
    var start := if JoinsLeft(hs, k, r) then hs[k - 1].start else r.start;
    var left := if JoinsLeft(hs, k, r) then hs[k - 1].size else 0;
    var right := if JoinsRight(hs, k, r) then hs[k].size else 0;
    Hole(start, left + r.size + right)
  }

  function Merged(hs: seq<Hole>, k: nat, r: Hole): seq<Hole>
    requires k <= |hs|
  {
    Spliced(hs, Low(hs, k, r), High(hs, k, r), Joined(hs, k, r))
  }

  /** Disjointness in terms of neighbours. */
  lemma Apart(hs: seq<Hole>, k: nat, r: Hole)
    requires Canonical(hs) && r.Proper() && Unused(hs, r) && Splits(hs, k, r)
    ensures forall i | 0 <= i < k :: hs[i].End() <= r.start
    ensures forall i | k <= i < |hs| :: r.End() <= hs[i].start
  {
    forall i | 0 <= i < k
      ensures hs[i].End() <= r.start
    {
      if hs[i].End() > r.start { CoversHole(hs, i, r.start); }
    }
    forall i | k <= i < |hs|
      ensures r.End() <= hs[i].start
    {
      if r.End() > hs[i].start { CoversHole(hs, i, hs[i].start); }
    }
  }

  lemma MergedIsCanonical(hs: seq<Hole>, k: nat, r: Hole)
    requires Canonical(hs) && r.Proper() && Unused(hs, r) && Splits(hs, k, r)
    ensures Canonical(Merged(hs, k, r))
  {
    Apart(hs, k, r);
    var lo, hi, h := Low(hs, k, r), High(hs, k, r), Joined(hs, k, r);
    assert h.Proper();
    assert forall i | 0 <= i < lo :: hs[i].End() < h.start;
    assert forall i | hi <= i < |hs| :: h.End() < hs[i].start;
    SplicedIsCanonical(hs, lo, hi, h);
  }

  lemma SplicedIsCanonical(hs: seq<Hole>, lo: nat, hi: nat, h: Hole)
    requires Canonical(hs) && lo <= hi <= |hs| && h.Proper()
    requires forall i | 0 <= i < lo :: hs[i].End() < h.start
    requires forall i | hi <= i < |hs| :: h.End() < hs[i].start
    ensures Canonical(Spliced(hs, lo, hi, h))
  {
    var m := Spliced(hs, lo, hi, h);
    forall i | 0 <= i < |m|
      ensures m[i] == if i < lo then hs[i] else if i == lo then h else hs[i - lo - 1 + hi]
    {
      if i > lo { assert m[(i - lo - 1 + hi) + lo + 1 - hi] == hs[i - lo - 1 + hi]; }
    }
  }

  lemma MergedCovers(hs: seq<Hole>, k: nat, r: Hole, b: int)
    requires Canonical(hs) && r.Proper() && Unused(hs, r) && Splits(hs, k, r)
    ensures Covers(Merged(hs, k, r), b) <==> Covers(hs, b) || r.Has(b)
  {
    Apart(hs, k, r);
    var lo, hi, h := Low(hs, k, r), High(hs, k, r), Joined(hs, k, r);
    SplicedCovers(hs, lo, hi, h, b);
    if h.Has(b) && !r.Has(b) { CoversHole(hs, if b < r.start then k - 1 else k, b); }
  }

  lemma SplicedCovers(hs: seq<Hole>, lo: nat, hi: nat, h: Hole, b: int)
    requires lo <= hi <= |hs|
    requires forall i | lo <= i < hi :: h.start <= hs[i].start && hs[i].End() <= h.End()
    ensures Covers(hs, b) ==> Covers(Spliced(hs, lo, hi, h), b)
    ensures h.Has(b) ==> Covers(Spliced(hs, lo, hi, h), b)
    ensures Covers(Spliced(hs, lo, hi, h), b) ==> Covers(hs, b) || h.Has(b)
  {
    var m := Spliced(hs, lo, hi, h);
    if h.Has(b) { CoversHole(m, lo, b); }
    if i :| 0 <= i < |hs| && hs[i].Has(b) {
      if i < lo { CoversHole(m, i, b); }
      else if i >= hi { CoversHole(m, i + lo + 1 - hi, b); }
    }
    if j :| 0 <= j < |m| && m[j].Has(b) {
      if j < lo { CoversHole(hs, j, b); }
      else if j > lo {
        assert m[(j - lo - 1 + hi) + lo + 1 - hi] == hs[j - lo - 1 + hi];
        CoversHole(hs, j - lo - 1 + hi, b);
      }
    }
  }

  lemma {:induction false} SplicedBytes(hs: seq<Hole>, lo: nat, hi: nat, h: Hole, n: nat)
    requires lo <= hi <= n <= |hs|
    ensures BytesUpTo(Spliced(hs, lo, hi, h), n + lo + 1 - hi) + BytesUpTo(hs, hi)
         == BytesUpTo(hs, n) + BytesUpTo(hs, lo) + h.size
  {
    if n == hi {
      SamePrefix(Spliced(hs, lo, hi, h), hs, lo);
    } else {
      SplicedBytes(hs, lo, hi, h, n - 1);
    }
  }

  lemma MergedBytes(hs: seq<Hole>, k: nat, r: Hole)
    requires k <= |hs|
    ensures FreeBytes(Merged(hs, k, r)) == FreeBytes(hs) + r.size
  {
    SplicedBytes(hs, Low(hs, k, r), High(hs, k, r), Joined(hs, k, r), |hs|);
    assert k > 0 ==> BytesUpTo(hs, k) == BytesUpTo(hs, k - 1) + hs[k - 1].size;
    assert k < |hs| ==> BytesUpTo(hs, k + 1) == BytesUpTo(hs, k) + hs[k].size;
    hide Spliced, BytesUpTo;
  }

  // --- taking a region ------------------------------------------------------

  function AlignUp(address: nat, align: nat): (r: nat)
    requires align > 0
    ensures address <= r < address + align && r % align == 0
  {
    if address % align == 0 then address
    else
      NextMultiple(address, align);
      address - address % align + align
  }

  lemma NextMultiple(address: nat, align: nat)
    requires align > 0
    ensures (address - address % align + align) % align == 0
  {
    var q := address / align;
    assert address - address % align + align == (q + 1) * align;
    MultipleMod(q + 1, align);
  }

  lemma MultipleMod(q: nat, align: nat)
    requires align > 0
    ensures (q * align) % align == 0
  {
    var x := q * align;
    var d := x / align;
    assert (q - d) * align == x % align;
    Grows(q - d, align);
  }

  lemma Grows(n: int, align: nat)
    ensures n >= 1 ==> n * align >= align
    ensures n <= -1 ==> n * align <= -(align as int)
  {
  }

  /** Where an allocation would sit in this hole, if the remainders on both sides can hold a header. */
  function Fits(h: Hole, size: nat, align: nat): Option<nat>
    requires align > 0
  {
    var start := AlignUp(h.start, align);
    var end := start + size;
    if end > h.End() then None
    else if 0 < start - h.start < HOLE_SIZE then None
    else if 0 < h.End() - end < HOLE_SIZE then None
    else Some(start)
  }

  lemma MultipleOfEight(x: nat, align: nat)
    requires align > 0 && align % HOLE_ALIGN == 0 && x % align == 0
    ensures x % HOLE_ALIGN == 0
  {
    var a, q := align / HOLE_ALIGN, x / align;
    assert x == q * align == q * (HOLE_ALIGN * a) == (q * a) * HOLE_ALIGN;
    MultipleMod(q * a, HOLE_ALIGN);
  }

  /** Unlinking a hole removes exactly its bytes. */
  lemma WithoutHole(hs: seq<Hole>, k: nat)
    requires Canonical(hs) && k < |hs|
    ensures Canonical(hs[..k] + hs[k + 1..])
    ensures forall b: int :: Covers(hs[..k] + hs[k + 1..], b) <==> Covers(hs, b) && !hs[k].Has(b)
    ensures FreeBytes(hs[..k] + hs[k + 1..]) + hs[k].size == FreeBytes(hs)
  {
    var rest := hs[..k] + hs[k + 1..];
    forall b: int
      ensures Covers(rest, b) <==> Covers(hs, b) && !hs[k].Has(b)
    {
      WithoutHoleCovers(hs, k, b);
    }
    WithoutHoleBytes(hs, k, |hs|);
  }

  lemma {:induction false} WithoutHoleBytes(hs: seq<Hole>, k: nat, n: nat)
    requires k < n <= |hs|
    ensures BytesUpTo(hs[..k] + hs[k + 1..], n - 1) + hs[k].size == BytesUpTo(hs, n)
  {
    var rest := hs[..k] + hs[k + 1..];
    if n == k + 1 {
      SamePrefix(rest, hs, k);
    } else {
      WithoutHoleBytes(hs, k, n - 1);
      assert rest[n - 2] == hs[n - 1];
    }
  }

  lemma WithoutHoleCovers(hs: seq<Hole>, k: nat, b: int)
    requires Canonical(hs) && k < |hs|
    ensures Covers(hs[..k] + hs[k + 1..], b) <==> Covers(hs, b) && !hs[k].Has(b)
  {
    var rest := hs[..k] + hs[k + 1..];
    if i :| 0 <= i < |rest| && rest[i].Has(b) {
      CoversHole(hs, if i < k then i else i + 1, b);
    }
    if i :| 0 <= i < |hs| && hs[i].Has(b) && !hs[k].Has(b) {
      CoversHole(rest, if i < k then i else i - 1, b);
    }
  }
}
