/** The states a disk goes through, one per sector written, and what they have in common. */
module FatTrails {
  import opened Basics
  import opened FatNames
  import opened FatVolume
  import opened FatChains

  ghost predicate Extends(t: seq<Disk>, t': seq<Disk>) { |t| <= |t'| && t'[..|t|] == t }

  ghost predicate Sized(v: Geometry, t: seq<Disk>, n: nat) {
    forall i | n <= i < |t| :: Sound(v, |t[i]|)
  }

  /** From step `n` on, only clusters free in `a` have changed. */
  ghost predicate Unseen(v: Geometry, t: seq<Disk>, n: nat, a: Image) {
    Sized(v, t, n) && forall i | n <= i < |t| :: OnlyFree(a, ImageOf(v, t[i]))
  }

  /** From step `n` on, the volume is `a`. */
  ghost predicate Settled(v: Geometry, t: seq<Disk>, n: nat, a: Image) {
    Sized(v, t, n) && forall i | n <= i < |t| :: ImageOf(v, t[i]) == a
  }

  /** Nothing has changed but table entries of `chain`. */
  ghost predicate Freeing(a: Image, a': Image, chain: seq<nat>) {
    && a'.dir == a.dir && a'.data == a.data && |a'.fat| == |a.fat|
    && forall c | 0 <= c < |a.fat| && c !in chain :: a'.fat[c] == a.fat[c]
  }

  ghost predicate AllFreeing(v: Geometry, t: seq<Disk>, n: nat, a: Image, chain: seq<nat>) {
    Sized(v, t, n) && forall i | n <= i < |t| :: Freeing(a, ImageOf(v, t[i]), chain)
  }

  lemma UnseenGrows(v: Geometry, t: seq<Disk>, t': seq<Disk>, n: nat, a: Image, a': Image)
    requires Unseen(v, t, n, a) && Extends(t, t') && n <= |t| && Settled(v, t', |t|, a') && OnlyFree(a, a')
    ensures Unseen(v, t', n, a)
  {
    forall i | n <= i < |t'|
      ensures Sound(v, |t'[i]|) && OnlyFree(a, ImageOf(v, t'[i]))
    {
      if i < |t| { assert t'[i] == t'[..|t|][i]; }
    }
  }

  lemma UnseenMore(v: Geometry, t: seq<Disk>, t': seq<Disk>, n: nat, a: Image)
    requires Unseen(v, t, n, a) && Extends(t, t') && n <= |t| && Unseen(v, t', |t|, a)
    ensures Unseen(v, t', n, a)
  {
    forall i | n <= i < |t'|
      ensures Sound(v, |t'[i]|) && OnlyFree(a, ImageOf(v, t'[i]))
    {
      if i < |t| { assert t'[i] == t'[..|t|][i]; }
    }
  }

  lemma FreeingGrows(v: Geometry, t: seq<Disk>, t': seq<Disk>, n: nat, a: Image, a': Image, chain: seq<nat>)
    requires AllFreeing(v, t, n, a, chain) && Extends(t, t') && n <= |t| && Settled(v, t', |t|, a')
             && Freeing(a, a', chain)
    ensures AllFreeing(v, t', n, a, chain)
  {
    forall i | n <= i < |t'|
      ensures Sound(v, |t'[i]|) && Freeing(a, ImageOf(v, t'[i]), chain)
    {
      if i < |t| { assert t'[i] == t'[..|t|][i]; }
    }
  }

  lemma ExtendsTwice(t: seq<Disk>, t': seq<Disk>, t'': seq<Disk>)
    requires Extends(t, t') && Extends(t', t'')
    ensures Extends(t, t'')
  {
    assert t''[..|t|] == t''[..|t'|][..|t|];
  }

  lemma OnlyFreeData(a: Image, a': Image, c: nat, content: seq<Byte>)
    requires OnlyFree(a, a') && 2 <= c < |a.fat| == |a.data| + 2 && a.fat[c] == 0
    ensures OnlyFree(a, a'.(data := a'.data[c - 2 := content]))
  {
  }

  // --- reserving, filling and linking a chain ---------------------------------------------

  /** The part of `data` that goes into cluster `i` of its chain, padded with zeros. */
  function Piece(data: seq<Byte>, i: nat, bytes: nat): (r: seq<Byte>)
    requires i * bytes <= |data|
    ensures |r| == bytes
  {
    PieceFrom(data, i * bytes, bytes)
  }

  function PieceFrom(data: seq<Byte>, start: nat, bytes: nat): (r: seq<Byte>)
    requires start <= |data|
    ensures |r| == bytes
  {
    var rest := data[start..];
    if |rest| >= bytes then rest[..bytes] else rest + seq(bytes - |rest|, _ => 0)
  }

  function Needed(size: nat, bytes: nat): (r: nat)
    requires bytes > 0
    ensures r >= 1 && (r - 1) * bytes <= size <= r * bytes
  {
    var n := (size + bytes - 1) / bytes;
    DivUp(size, bytes);
    if n == 0 then 1 else n
  }

  lemma DivUp(size: nat, bytes: nat)
    requires bytes > 0
    ensures var n := (size + bytes - 1) / bytes; size <= n * bytes < size + bytes
  {
    var m := size + bytes - 1;
    assert m == (m / bytes) * bytes + m % bytes;
  }

  ghost predicate Holds(a: Image, chain: seq<nat>, data: seq<Byte>, bytes: nat, n: nat)
    requires bytes > 0 && n <= |chain|
  {
    forall i {:trigger HoldsPiece(a, chain[i], data, bytes, i)} | 0 <= i < n :: HoldsPiece(a, chain[i], data, bytes, i)
  }

  ghost predicate HoldsPiece(a: Image, c: nat, data: seq<Byte>, bytes: nat, i: nat) {
    2 <= c < |a.data| + 2 && i * bytes <= |data| && a.data[c - 2] == Piece(data, i, bytes)
  }

  ghost predicate StartsWith(g: seq<Byte>, data: seq<Byte>) {
    forall i | 0 <= i < |g| && i < |data| :: g[i] == data[i]
  }

  lemma PieceFollows(g: seq<Byte>, data: seq<Byte>, i: nat, bytes: nat)
    requires |g| == i * bytes <= |data| && StartsWith(g, data)
    ensures StartsWith(g + Piece(data, i, bytes), data)
  {
    var at := i * bytes;
    assert forall j | 0 <= j < bytes && at + j < |data| :: PieceFrom(data, at, bytes)[j] == data[at + j];
  }

  /** Pieces in chain order spell the data. */
  lemma {:induction false} PiecesJoin(a: Image, chain: seq<nat>, data: seq<Byte>, bytes: nat, n: nat)
    requires bytes > 0 && n <= |chain| && Holds(a, chain, data, bytes, n)
    requires forall i | 0 <= i < |chain| :: 2 <= chain[i] < |a.data| + 2
    ensures |Gathered(a.data, chain[..n])| == n * bytes && StartsWith(Gathered(a.data, chain[..n]), data)
  {
    if n > 0 {
      PiecesJoin(a, chain, data, bytes, n - 1);
      assert chain[..n][..n - 1] == chain[..n - 1];
      assert HoldsPiece(a, chain[n - 1], data, bytes, n - 1);
      assert n * bytes == (n - 1) * bytes + bytes;
      hide Piece, StartsWith;
      PieceFollows(Gathered(a.data, chain[..n - 1]), data, n - 1, bytes);
    }
  }
}
