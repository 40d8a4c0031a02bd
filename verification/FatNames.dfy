/** File names in a FAT directory: eight bytes, three more, upper case, padded with spaces.

    A name is the bytes of a UTF-8 string, as the kernel gets it. */
module FatNames {
  import opened Basics

  const SPACE: Byte := 0x20
  const DOT: Byte := 0x2E

  function Upper(b: Byte): Byte { if 0x61 <= b <= 0x7A then b - 0x20 else b }

  function UpperAll(s: seq<Byte>): (r: seq<Byte>)
    ensures |r| == |s| && forall i | 0 <= i < |s| :: r[i] == Upper(s[i])
  {
    seq(|s|, i requires 0 <= i < |s| => Upper(s[i]))
  }

  /** Equality of names, the case of ASCII letters aside. */
  predicate SameName(a: seq<Byte>, b: seq<Byte>) { UpperAll(a) == UpperAll(b) }

  function LastDot(name: seq<Byte>): (r: int)
    ensures -1 <= r < |name|
    ensures r >= 0 ==> name[r] == DOT && forall i | r < i < |name| :: name[i] != DOT
    ensures r < 0 ==> forall i | 0 <= i < |name| :: name[i] != DOT
  {
    if name == [] then -1
    else if name[|name| - 1] == DOT then |name| - 1
    else LastDot(name[..|name| - 1])
  }

  /** What comes before the last dot, and after it. */
  function Stem(name: seq<Byte>): seq<Byte> { if LastDot(name) < 0 then name else name[..LastDot(name)] }

  function Extension(name: seq<Byte>): seq<Byte> { if LastDot(name) < 0 then [] else name[LastDot(name) + 1..] }

  /** Neither part is too long. */
  predicate Short(name: seq<Byte>) { |Stem(name)| <= 8 && |Extension(name)| <= 3 }

  predicate Fits83(name: seq<Byte>) { |Stem(name)| > 0 && Short(name) }

  lemma FitsIsShort(name: seq<Byte>)
    requires Fits83(name)
    ensures Short(name)
  {
  }

  function Padded(s: seq<Byte>, n: nat): (r: seq<Byte>)
    requires |s| <= n
    ensures |r| == n
  {
    UpperAll(s) + seq(n - |s|, _ => SPACE)
  }

  /** The eleven bytes a name is stored as. */
  function Encoded(name: seq<Byte>): (r: seq<Byte>)
    requires Short(name)
    ensures |r| == 11
  {
    Padded(Stem(name), 8) + Padded(Extension(name), 3)
  }

  /** A byte taken for a character and written out in UTF-8. */
  function Utf8(b: Byte): seq<Byte> { if b < 0x80 then [b] else [0xC0 + b / 64, 0x80 + b % 64] }

  /** Bytes other than spaces, each as a character. */
  function Spelled(s: seq<Byte>): seq<Byte> {
    if s == [] then []
    else Spelled(s[..|s| - 1]) + (if s[|s| - 1] == SPACE then [] else Utf8(s[|s| - 1]))
  }

  /** The name the eleven bytes stand for. */
  function Decoded(stored: seq<Byte>): seq<Byte>
    requires |stored| == 11
  {
    var stem, extension := Spelled(stored[..8]), Spelled(stored[8..]);
    if extension == [] then stem else stem + [DOT] + extension
  }

  /** Names that survive: plain ASCII without spaces, not ending in a dot. */
  predicate Plain(name: seq<Byte>) {
    && Fits83(name)
    && (forall i | 0 <= i < |name| :: name[i] < 0x80 && name[i] != SPACE)
    && name[|name| - 1] != DOT
  }

  // --- spelling ------------------------------------------------------------------

  function Wide(s: seq<Byte>): nat {
    if s == [] then 0 else Wide(s[..|s| - 1]) + if s[|s| - 1] < 0x80 then 0 else 1
  }

  lemma {:induction false} WideAppend(a: seq<Byte>, b: seq<Byte>)
    ensures Wide(a + b) == Wide(a) + Wide(b)
  {
    if b == [] {
      assert a + b == a;
    } else {
      assert (a + b)[..|a + b| - 1] == a + b[..|b| - 1];
      WideAppend(a, b[..|b| - 1]);
    }
  }

  lemma {:induction false} WideNone(s: seq<Byte>)
    ensures Wide(s) == 0 <==> forall i | 0 <= i < |s| :: s[i] < 0x80
  {
    if s != [] { WideNone(s[..|s| - 1]); }
  }

  lemma {:induction false} WideUpper(s: seq<Byte>)
    ensures Wide(UpperAll(s)) == Wide(s)
  {
    if s != [] {
      assert UpperAll(s)[..|s| - 1] == UpperAll(s[..|s| - 1]);
      WideUpper(s[..|s| - 1]);
    }
  }

  lemma WideUtf8(b: Byte)
    ensures Wide(Utf8(b)) == if b < 0x80 then 0 else 2
  {
    var s := Utf8(b);
    assert |s| == 2 ==> s[..1] == [s[0]];
    assert [s[0]][..0] == [];
    assert Wide([s[0]]) == if s[0] < 0x80 then 0 else 1;
  }

  /** Spelling bytes out doubles those outside ASCII. */
  lemma {:induction false} WideSpelled(s: seq<Byte>)
    ensures Wide(Spelled(s)) == 2 * Wide(s)
  {
    if s != [] {
      var n := |s| - 1;
      WideSpelled(s[..n]);
      var last := if s[n] == SPACE then [] else Utf8(s[n]);
      WideAppend(Spelled(s[..n]), last);
      WideUtf8(s[n]);
    }
  }

  lemma {:induction false} SpelledNoSpace(s: seq<Byte>)
    ensures forall i | 0 <= i < |Spelled(s)| :: Spelled(s)[i] != SPACE
  {
    if s != [] { SpelledNoSpace(s[..|s| - 1]); }
  }

  /** Plain text is spelled as it is. */
  lemma {:induction false} SpelledPlain(s: seq<Byte>)
    requires forall i | 0 <= i < |s| :: s[i] < 0x80 && s[i] != SPACE
    ensures Spelled(s) == s
  {
    if s != [] { SpelledPlain(s[..|s| - 1]); }
  }

  lemma {:induction false} SpelledPadding(s: seq<Byte>, n: nat)
    ensures Spelled(s + seq(n, _ => SPACE)) == Spelled(s)
  {
    var padded := s + seq(n, _ => SPACE);
    if n > 0 {
      assert padded[..|padded| - 1] == s + seq(n - 1, _ => SPACE);
      SpelledPadding(s, n - 1);
    } else {
      assert padded == s;
    }
  }

  lemma DecodedEncoded(name: seq<Byte>)
    requires Fits83(name)
    ensures var stem, extension := Spelled(UpperAll(Stem(name))), Spelled(UpperAll(Extension(name)));
            Decoded(Encoded(name)) == if extension == [] then stem else stem + [DOT] + extension
  {
    SpelledPadding(UpperAll(Stem(name)), 8 - |Stem(name)|);
    SpelledPadding(UpperAll(Extension(name)), 3 - |Extension(name)|);
    assert Encoded(name)[..8] == Padded(Stem(name), 8) && Encoded(name)[8..] == Padded(Extension(name), 3);
  }

  lemma SplitName(name: seq<Byte>)
    ensures name == Stem(name) + (if LastDot(name) < 0 then [] else [DOT] + Extension(name))
  {
  }

  lemma PlainComesBack(name: seq<Byte>)
    requires Plain(name)
    ensures Decoded(Encoded(name)) == UpperAll(name)
  {
    DecodedEncoded(name);
    SplitName(name);
    PlainParts(name);
    var stem, extension := Stem(name), Extension(name);
    hide Decoded, Encoded, Spelled, Stem, Extension, LastDot, UpperAll;
    if LastDot(name) >= 0 {
      UpperJoined(stem, extension);
    }
  }

  lemma PlainParts(name: seq<Byte>)
    requires Plain(name)
    ensures Spelled(UpperAll(Stem(name))) == UpperAll(Stem(name))
    ensures Spelled(UpperAll(Extension(name))) == UpperAll(Extension(name))
    ensures LastDot(name) >= 0 <==> UpperAll(Extension(name)) != []
  {
    hide Spelled;
    SpelledPlain(UpperAll(Stem(name)));
    SpelledPlain(UpperAll(Extension(name)));
  }

  lemma UpperJoined(a: seq<Byte>, b: seq<Byte>)
    ensures UpperAll(a) + [DOT] + UpperAll(b) == UpperAll(a + ([DOT] + b))
  {
  }

  lemma WideJoined(a: seq<Byte>, b: seq<Byte>)
    ensures Wide(a + [DOT] + b) == Wide(a) + Wide(b)
  {
    assert Wide([DOT]) == 0 by { assert [DOT][..0] == []; }
    WideAppend(a + [DOT], b);
    WideAppend(a, [DOT]);
    hide Wide;
  }

  lemma WideParts(name: seq<Byte>)
    ensures Wide(name) == Wide(Stem(name)) + Wide(Extension(name))
  {
    SplitName(name);
    WideJoined(Stem(name), Extension(name));
    assert Stem(name) + ([DOT] + Extension(name)) == Stem(name) + [DOT] + Extension(name);
    assert LastDot(name) < 0 ==> Extension(name) == [];
    hide LastDot;
  }

  lemma WideDecoded(name: seq<Byte>)
    requires Fits83(name)
    ensures Wide(Decoded(Encoded(name))) == 2 * Wide(name)
  {
    assert Wide([]) == 0;
    hide Decoded, Encoded, Spelled, Wide, Stem, Extension, UpperAll;
    DecodedEncoded(name);
    WideParts(name);
    WideUpper(Stem(name));
    WideUpper(Extension(name));
    WideSpelled(UpperAll(Stem(name)));
    WideSpelled(UpperAll(Extension(name)));
    WideJoined(Spelled(UpperAll(Stem(name))), Spelled(UpperAll(Extension(name))));
  }

  lemma DecodedNoSpace(name: seq<Byte>)
    requires Fits83(name)
    ensures forall i | 0 <= i < |Decoded(Encoded(name))| :: Decoded(Encoded(name))[i] != SPACE
  {
    SpelledNoSpace(Encoded(name)[..8]);
    SpelledNoSpace(Encoded(name)[8..]);
  }

  /** A name is found again under the name it was stored as exactly when it is plain. */
  lemma NameRoundTrip(name: seq<Byte>)
    requires Fits83(name)
    ensures SameName(Decoded(Encoded(name)), name) <==> Plain(name)
  {
    assert name != [];
    hide Decoded, Encoded, Wide, Stem, Extension;
    var back := Decoded(Encoded(name));
    if Plain(name) {
      PlainComesBack(name);
      assert UpperAll(UpperAll(name)) == UpperAll(name);
    } else if SameName(back, name) {
      WideUpper(back);
      WideUpper(name);
      WideDecoded(name);
      WideNone(name);
      DecodedNoSpace(name);
      assert |back| == |name| by { assert |UpperAll(back)| == |UpperAll(name)|; }
      forall i | 0 <= i < |name|
        ensures name[i] != SPACE
      {
        assert UpperAll(back)[i] == UpperAll(name)[i];
      }
      assert name[|name| - 1] == DOT;
      EndsInDot(name);
    }
  }

  lemma EndsInDot(name: seq<Byte>)
    requires Fits83(name) && name[|name| - 1] == DOT
    requires forall i | 0 <= i < |name| :: name[i] < 0x80 && name[i] != SPACE
    ensures |Decoded(Encoded(name))| == |name| - 1
  {
    DecodedEncoded(name);
    SplitName(name);
    SpelledPlain(UpperAll(Stem(name)));
    assert Extension(name) == [];
  }
}
