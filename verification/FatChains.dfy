/** Directory entries, cluster chains, and what it takes for a volume to be in order. */
module FatChains {
  import opened Basics
  import opened FatNames
  import opened FatVolume

  const END_OF_CHAIN: nat := 0xFFF8

  // --- directory slots ----------------------------------------------------------------

  predicate Never(s: Slot) { s[0] == 0x00 }

  predicate Deleted(s: Slot) { s[0] == 0xE5 }

  /** Neither a volume label (or part of a long name) nor a directory. */
  predicate Ordinary(s: Slot) { (s[11] / 8) % 2 == 0 && (s[11] / 16) % 2 == 0 }

  predicate IsFile(s: Slot) { !Never(s) && !Deleted(s) && Ordinary(s) }

  datatype Entry = Entry(name: seq<Byte>, first: nat, size: nat)

  function EntryOf(s: Slot): Entry { Entry(Decoded(s[..11]), U16(s, 26), U32(s, 28)) }

  predicate Matches(s: Slot, name: seq<Byte>) { IsFile(s) && SameName(EntryOf(s).name, name) }

  /** The first slot of that name, at or after `k`; the scan stops at a slot that was never used. */
  function Position(dir: seq<Slot>, name: seq<Byte>, k: nat): (r: nat)
    requires k <= |dir|
    ensures k <= r <= |dir|
    ensures r < |dir| ==> Matches(dir[r], name)
    ensures r < |dir| ==> forall j | k <= j < r :: !Matches(dir[j], name) && !Never(dir[j])
    decreases |dir| - k
  {
    if k == |dir| || Never(dir[k]) then |dir|
    else if Matches(dir[k], name) then k
    else Position(dir, name, k + 1)
  }

  /** The first slot free for use, at or after `k`. */
  function FirstEmpty(dir: seq<Slot>, k: nat): (r: nat)
    requires k <= |dir|
    ensures k <= r <= |dir|
    ensures r < |dir| ==> Never(dir[r]) || Deleted(dir[r])
    ensures forall j | k <= j < r :: !Never(dir[j]) && !Deleted(dir[j])
    decreases |dir| - k
  {
    if k == |dir| || Never(dir[k]) || Deleted(dir[k]) then k else FirstEmpty(dir, k + 1)
  }

  // --- chains ----------------------------------------------------------------------------

  ghost predicate Linked(fat: seq<nat>, chain: seq<nat>, i: nat)
    requires i < |chain| && chain[i] < |fat|
  {
    if i + 1 < |chain| then fat[chain[i]] == chain[i + 1] else fat[chain[i]] >= END_OF_CHAIN
  }

  ghost predicate InTable(fat: seq<nat>, chain: seq<nat>) {
    forall i | 0 <= i < |chain| :: 2 <= chain[i] < |fat|
  }

  ghost predicate NoRepeats(chain: seq<nat>) {
    forall i, j | 0 <= i < j < |chain| :: chain[i] != chain[j]
  }

  /** A walk through the table that ends properly and never comes back. */
  ghost predicate IsChain(fat: seq<nat>, chain: seq<nat>) {
    && chain != [] && InTable(fat, chain) && NoRepeats(chain)
    && forall i {:trigger Linked(fat, chain, i)} | 0 <= i < |chain| :: Linked(fat, chain, i)
  }

  ghost predicate FileOk(a: Image, s: Slot, chain: seq<nat>, bytes: nat) { EntryOk(a, EntryOf(s), chain, bytes) }

  /** The entry and its chain fit each other: nothing at all, or enough clusters for the size. */
  ghost predicate EntryOk(a: Image, e: Entry, chain: seq<nat>, bytes: nat) {
    if e.first < 2 then chain == [] && e.size == 0
    else IsChain(a.fat, chain) && chain[0] == e.first && e.size <= |chain| * bytes
  }

  ghost predicate Shaped(a: Image, bytes: nat) {
    && bytes > 0 && |a.fat| == |a.data| + 2 <= 65526
    && forall i | 0 <= i < |a.data| :: |a.data[i]| == bytes
  }

  ghost predicate Apart(x: seq<nat>, y: seq<nat>) { forall c | c in x :: c !in y }

  ghost function Files(dir: seq<Slot>): set<nat> { set k: nat | k < |dir| && IsFile(dir[k]) }

  ghost predicate FilesOk(a: Image, chains: map<nat, seq<nat>>, bytes: nat) {
    && chains.Keys == Files(a.dir)
    && (forall k | k in chains :: FileOk(a, a.dir[k], chains[k], bytes))
    && (forall j, k | j in chains && k in chains && j != k :: Apart(chains[j], chains[k]))
  }

  /** Unused slots come last, and no two files have the same name. */
  ghost predicate DirOk(dir: seq<Slot>) {
    && (forall j, k | 0 <= j < k < |dir| && Never(dir[j]) :: Never(dir[k]))
    && (forall j, k | 0 <= j < k < |dir| && IsFile(dir[j]) && IsFile(dir[k]) ::
      !SameName(EntryOf(dir[j]).name, EntryOf(dir[k]).name))
  }

  /** A volume in order: `chains` gives the clusters of the file in each slot, no cluster belongs to
      two of them, and none of them is free. */
  ghost predicate WellFormed(a: Image, chains: map<nat, seq<nat>>, bytes: nat) {
    Shaped(a, bytes) && FilesOk(a, chains, bytes) && DirOk(a.dir)
  }

  ghost predicate Consistent(a: Image, bytes: nat) { exists chains :: WellFormed(a, chains, bytes) }

  // --- contents ------------------------------------------------------------------------------

  ghost function Gathered(data: seq<seq<Byte>>, chain: seq<nat>): seq<Byte>
    requires forall i | 0 <= i < |chain| :: 2 <= chain[i] < |data| + 2
  {
    if chain == [] then [] else Gathered(data, chain[..|chain| - 1]) + data[chain[|chain| - 1] - 2]
  }

  lemma {:induction false} GatheredLength(data: seq<seq<Byte>>, chain: seq<nat>, bytes: nat)
    requires forall i | 0 <= i < |chain| :: 2 <= chain[i] < |data| + 2
    requires forall i | 0 <= i < |data| :: |data[i]| == bytes
    ensures |Gathered(data, chain)| == |chain| * bytes
  {
    if chain != [] {
      GatheredLength(data, chain[..|chain| - 1], bytes);
      assert |chain| * bytes == (|chain| - 1) * bytes + bytes;
    }
  }

  lemma {:induction false} GatheredSame(data: seq<seq<Byte>>, data': seq<seq<Byte>>, chain: seq<nat>)
    requires |data| == |data'| && forall i | 0 <= i < |chain| :: 2 <= chain[i] < |data| + 2
                                                                 && data[chain[i] - 2] == data'[chain[i] - 2]
    ensures Gathered(data, chain) == Gathered(data', chain)
  {
    if chain != [] { GatheredSame(data, data', chain[..|chain| - 1]); }
  }

  ghost function Content(a: Image, s: Slot, chain: seq<nat>, bytes: nat): seq<Byte>
    requires Shaped(a, bytes) && FileOk(a, s, chain, bytes)
  {
    GatheredLength(a.data, chain, bytes);
    Gathered(a.data, chain)[..EntryOf(s).size]
  }

  /** What a name stands for: a file's bytes, or nothing. */
  ghost function Lookup(a: Image, chains: map<nat, seq<nat>>, bytes: nat, name: seq<Byte>): Option<seq<Byte>>
    requires WellFormed(a, chains, bytes)
  {
    var k := Position(a.dir, name, 0);
    if k == |a.dir| then None else Some(Content(a, a.dir[k], chains[k], bytes))
  }

  // --- finding names ------------------------------------------------------------------------------

  /** In an orderly directory a name is found exactly where it is. */
  lemma PositionIs(dir: seq<Slot>, name: seq<Byte>, k: nat)
    requires DirOk(dir) && k < |dir| && Matches(dir[k], name)
    ensures Position(dir, name, 0) == k
  {
    var r := Position(dir, name, 0);
    if r == |dir| {
      PositionNone(dir, name, 0, k);
    } else if r < k {
      SameNames(EntryOf(dir[r]).name, EntryOf(dir[k]).name, name);
    }
  }

  lemma SameNames(a: seq<Byte>, b: seq<Byte>, name: seq<Byte>)
    requires SameName(a, name) && SameName(b, name)
    ensures SameName(a, b)
  {
  }

  lemma {:induction false} PositionNone(dir: seq<Slot>, name: seq<Byte>, k: nat, j: nat)
    requires DirOk(dir) && k <= j < |dir| && Position(dir, name, k) == |dir|
    ensures !Matches(dir[j], name)
    decreases j - k
  {
    if Never(dir[k]) {
      assert Never(dir[j]);
    } else if k < j {
      PositionNone(dir, name, k + 1, j);
    }
  }

  /** Names other than the one in slot `k`, before or after, are found where they were. */
  lemma PositionElsewhere(dir: seq<Slot>, dir': seq<Slot>, name: seq<Byte>, k: nat)
    requires DirOk(dir) && DirOk(dir') && k < |dir| == |dir'|
             && (forall j | 0 <= j < |dir| && j != k :: dir'[j] == dir[j])
    requires !Matches(dir[k], name) && !Matches(dir'[k], name)
    ensures Position(dir', name, 0) == Position(dir, name, 0)
  {
    var r, r' := Position(dir, name, 0), Position(dir', name, 0);
    if r < |dir| { PositionIs(dir', name, r); }
    else if r' < |dir| { PositionIs(dir, name, r'); }
  }

  // --- changes nobody sees ------------------------------------------------------------------------

  /** The clusters of every file in `chains` are as they were. */
  ghost predicate Agrees(a: Image, a': Image, chains: map<nat, seq<nat>>) {
    && a'.dir == a.dir && |a'.fat| == |a.fat| && |a'.data| == |a.data|
    && (forall k | k in chains :: Keeps(a, a', chains[k]))
  }

  ghost predicate Keeps(a: Image, a': Image, chain: seq<nat>)
    requires |a'.fat| == |a.fat| && |a'.data| == |a.data|
  {
    forall c | c in chain && 2 <= c < |a.fat| && c < |a.data| + 2 ::
      a'.fat[c] == a.fat[c] && a'.data[c - 2] == a.data[c - 2]
  }

  lemma ChainKept(fat: seq<nat>, fat': seq<nat>, chain: seq<nat>)
    requires IsChain(fat, chain) && |fat'| == |fat| && forall c | c in chain && c < |fat| :: fat'[c] == fat[c]
    ensures IsChain(fat', chain)
  {
    forall i | 0 <= i < |chain|
      ensures Linked(fat', chain, i)
    {
      assert Linked(fat, chain, i) && chain[i] in chain;
    }
  }

  lemma FileKept(a: Image, a': Image, s: Slot, chain: seq<nat>, bytes: nat)
    requires Shaped(a, bytes) && Shaped(a', bytes) && FileOk(a, s, chain, bytes) && |a.fat| == |a'.fat|
    requires Keeps(a, a', chain)
    ensures FileOk(a', s, chain, bytes) && Content(a', s, chain, bytes) == Content(a, s, chain, bytes)
  {
    if EntryOf(s).first >= 2 { ChainKept(a.fat, a'.fat, chain); }
    forall i | 0 <= i < |chain|
      ensures 2 <= chain[i] < |a.data| + 2 && a.data[chain[i] - 2] == a'.data[chain[i] - 2]
    {
      assert chain[i] in chain;
    }
    hide IsChain;
    GatheredSame(a.data, a'.data, chain);
  }

  /** Changes outside all chains leave the volume in order and every file as it was. */
  lemma AgreesKeeps(a: Image, a': Image, chains: map<nat, seq<nat>>, bytes: nat)
    requires WellFormed(a, chains, bytes) && Agrees(a, a', chains) && Shaped(a', bytes)
    ensures WellFormed(a', chains, bytes)
    ensures forall name :: Lookup(a', chains, bytes, name) == Lookup(a, chains, bytes, name)
  {
    forall k | k in chains
      ensures FileOk(a', a'.dir[k], chains[k], bytes)
      ensures Content(a', a'.dir[k], chains[k], bytes) == Content(a, a.dir[k], chains[k], bytes)
    {
      FileKept(a, a', a.dir[k], chains[k], bytes);
    }
    hide FileOk, Content, DirOk, Position, Matches;
  }

  /** Only clusters that were free have changed. */
  ghost predicate OnlyFree(a: Image, a': Image) {
    && a'.dir == a.dir && |a'.fat| == |a.fat| && |a'.data| == |a.data|
    && (forall c | 0 <= c < |a.fat| && a.fat[c] != 0 :: a'.fat[c] == a.fat[c])
    && (forall c | 2 <= c < |a.fat| && c < |a.data| + 2 && a.fat[c] != 0 :: a'.data[c - 2] == a.data[c - 2])
  }

  /** No file owns a free cluster. */
  lemma ChainsNotFree(a: Image, s: Slot, chain: seq<nat>, bytes: nat, c: nat)
    requires FileOk(a, s, chain, bytes) && c in chain
    ensures 2 <= c < |a.fat| && a.fat[c] != 0
  {
    var i :| 0 <= i < |chain| && chain[i] == c;
    assert Linked(a.fat, chain, i);
  }

  lemma FreeChangesUnseen(a: Image, a': Image, chains: map<nat, seq<nat>>, bytes: nat)
    requires WellFormed(a, chains, bytes) && OnlyFree(a, a') && Shaped(a', bytes)
    ensures Agrees(a, a', chains) && WellFormed(a', chains, bytes)
    ensures forall name :: Lookup(a', chains, bytes, name) == Lookup(a, chains, bytes, name)
  {
    forall k | k in chains
      ensures Keeps(a, a', chains[k])
    {
      forall c | c in chains[k] && 2 <= c < |a.fat| && c < |a.data| + 2
        ensures a'.fat[c] == a.fat[c] && a'.data[c - 2] == a.data[c - 2]
      {
        ChainsNotFree(a, a.dir[k], chains[k], bytes, c);
      }
    }
    hide WellFormed, Lookup, Keeps;
    AgreesKeeps(a, a', chains, bytes);
  }

  // --- one directory entry changes -------------------------------------------------------------------

  /** The volume with one directory slot rewritten. */
  ghost function WithSlot(a: Image, k: nat, s: Slot): Image
    requires k < |a.dir|
  {
    a.(dir := a.dir[k := s])
  }

  /** The slot a name gets: its own, or else the first one free for use. */
  function ChosenSlot(dir: seq<Slot>, name: seq<Byte>): (k: nat)
    ensures k <= |dir|
  {
    if Position(dir, name, 0) < |dir| then Position(dir, name, 0) else FirstEmpty(dir, 0)
  }

  ghost predicate SlotFor(dir: seq<Slot>, name: seq<Byte>, k: nat) { k < |dir| && k == ChosenSlot(dir, name) }

  lemma OthersDiffer(dir: seq<Slot>, name: seq<Byte>, k: nat, j: nat)
    requires DirOk(dir) && SlotFor(dir, name, k) && j < |dir| && j != k
    ensures !Matches(dir[j], name)
  {
    if Position(dir, name, 0) < |dir| {
      if Matches(dir[j], name) { PositionIs(dir, name, j); }
    } else {
      PositionNone(dir, name, 0, j);
    }
  }

  lemma NoNeverBefore(dir: seq<Slot>, name: seq<Byte>, k: nat)
    requires DirOk(dir) && SlotFor(dir, name, k)
    ensures forall j | 0 <= j < k :: !Never(dir[j])
  {
  }

  lemma DirGains(dir: seq<Slot>, name: seq<Byte>, k: nat, s: Slot)
    requires DirOk(dir) && SlotFor(dir, name, k) && Matches(s, name)
    ensures DirOk(dir[k := s])
  {
    var dir' := dir[k := s];
    NoNeverBefore(dir, name, k);
    forall i, j | 0 <= i < j < |dir'| && IsFile(dir'[i]) && IsFile(dir'[j])
      ensures !SameName(EntryOf(dir'[i]).name, EntryOf(dir'[j]).name)
    {
      if i == k { OthersDiffer(dir, name, k, j); }
      if j == k { OthersDiffer(dir, name, k, i); }
    }
  }

  lemma DirLoses(dir: seq<Slot>, k: nat, s: Slot)
    requires DirOk(dir) && k < |dir| && IsFile(dir[k]) && Deleted(s)
    ensures DirOk(dir[k := s])
  {
  }

  /** Rewriting one slot, its new chain apart from the other files', leaves the volume in order, gives
      the name its new contents and keeps every other name's. */
  lemma SlotRewritten(a: Image, chains: map<nat, seq<nat>>, bytes: nat, a': Image, name: seq<Byte>, k: nat, s: Slot,
                      chain: seq<nat>)
    requires WellFormed(a, chains, bytes) && SlotFor(a.dir, name, k) && Matches(s, name)
    requires Agrees(a, a', chains - {k}) && Shaped(a', bytes) && FileOk(a', s, chain, bytes)
    requires forall j | j in chains && j != k :: Apart(chains[j], chain) && Apart(chain, chains[j])
    ensures var b := WithSlot(a', k, s);
            && WellFormed(b, chains[k := chain], bytes)
            && Lookup(b, chains[k := chain], bytes, name) == Some(Content(a', s, chain, bytes))
            && forall other | !SameName(other, name) ::
                 Lookup(b, chains[k := chain], bytes, other) == Lookup(a, chains, bytes, other)
  {
    var b, chains' := WithSlot(a', k, s), chains[k := chain];
    DirGains(a.dir, name, k, s);
    AgreesOthers(a, chains, bytes, k, b);
    FilesGain(a.dir, k, s);
    FileKept(a', b, s, chain, bytes);
    hide OthersKept, FileOk, Content, DirOk, Files, Shaped, Lookup;
    RewrittenFiles(a, chains, bytes, k, chain, b);
    RewrittenName(b, chains', bytes, name, k);
    forall other | !SameName(other, name)
      ensures Lookup(b, chains', bytes, other) == Lookup(a, chains, bytes, other)
    {
      RewrittenOther(a, chains, bytes, b, name, k, chain, other);
    }
  }

  lemma RewrittenName(b: Image, chains: map<nat, seq<nat>>, bytes: nat, name: seq<Byte>, k: nat)
    requires WellFormed(b, chains, bytes) && k < |b.dir| && Matches(b.dir[k], name)
    ensures k in chains && Lookup(b, chains, bytes, name) == Some(Content(b, b.dir[k], chains[k], bytes))
  {
    PositionIs(b.dir, name, k);
    assert k in Files(b.dir);
  }

  /** The files of `chains` other than slot `k`'s are in order, and as they were. */
  ghost predicate OthersKept(a: Image, chains: map<nat, seq<nat>>, bytes: nat, k: nat, b: Image)
    requires WellFormed(a, chains, bytes)
  {
    Shaped(b, bytes) &&
    forall j | j in chains && j != k ::
      FileOk(b, a.dir[j], chains[j], bytes)
        && Content(b, a.dir[j], chains[j], bytes) == Content(a, a.dir[j], chains[j], bytes)
  }

  lemma AgreesOthers(a: Image, chains: map<nat, seq<nat>>, bytes: nat, k: nat, b: Image)
    requires WellFormed(a, chains, bytes) && Shaped(b, bytes) && Agrees(a, b.(dir := a.dir), chains - {k})
    ensures OthersKept(a, chains, bytes, k, b)
  {
    forall j | j in chains && j != k
      ensures FileOk(b, a.dir[j], chains[j], bytes)
      ensures Content(b, a.dir[j], chains[j], bytes) == Content(a, a.dir[j], chains[j], bytes)
    {
      assert j in chains - {k};
      AgreesOne(a, chains, bytes, k, b, j);
    }
    hide FileOk, Content, DirOk, Apart, IsFile, Shaped;
  }

  lemma AgreesOne(a: Image, chains: map<nat, seq<nat>>, bytes: nat, k: nat, b: Image, j: nat)
    requires WellFormed(a, chains, bytes) && Shaped(b, bytes) && Agrees(a, b.(dir := a.dir), chains - {k})
             && j in chains - {k}
    ensures FileOk(b, a.dir[j], chains[j], bytes)
    ensures Content(b, a.dir[j], chains[j], bytes) == Content(a, a.dir[j], chains[j], bytes)
  {
    hide FileOk, Content, DirOk, Apart, IsFile;
    var rest := chains - {k};
    assert j in rest && rest[j] == chains[j];
    assert Keeps(a, b.(dir := a.dir), rest[j]);
    assert Keeps(a, b, chains[j]);
    hide Keeps;
    FileKept(a, b, a.dir[j], chains[j], bytes);
  }

  lemma FilesGain(dir: seq<Slot>, k: nat, s: Slot)
    requires k < |dir|
    ensures Files(dir[k := s]) == if IsFile(s) then Files(dir) + {k} else Files(dir) - {k}
  {
  }

  lemma RewrittenFiles(a: Image, chains: map<nat, seq<nat>>, bytes: nat, k: nat, chain: seq<nat>, b: Image)
    requires WellFormed(a, chains, bytes) && OthersKept(a, chains, bytes, k, b)
    requires k < |a.dir| == |b.dir| && b.dir == a.dir[k := b.dir[k]] && Files(b.dir) == Files(a.dir) + {k}
    requires FileOk(b, b.dir[k], chain, bytes)
    requires forall j | j in chains && j != k :: Apart(chains[j], chain) && Apart(chain, chains[j])
    ensures FilesOk(b, chains[k := chain], bytes)
  {
    hide FileOk, Content, DirOk, Apart, IsFile, Shaped;
    assert chains[k := chain].Keys == Files(b.dir);
  }

  lemma OtherElsewhere(dir: seq<Slot>, dir': seq<Slot>, name: seq<Byte>, k: nat, other: seq<Byte>)
    requires DirOk(dir) && DirOk(dir') && SlotFor(dir, name, k) && !SameName(other, name) && |dir'| == |dir|
    requires dir' == dir[k := dir'[k]] && Matches(dir'[k], name)
    ensures Position(dir', other, 0) == Position(dir, other, 0) != k
  {
    assert IsFile(dir[k]) ==> Matches(dir[k], name);
    PositionElsewhere(dir, dir', other, k);
  }

  lemma RewrittenOther(a: Image, chains: map<nat, seq<nat>>, bytes: nat, b: Image, name: seq<Byte>, k: nat,
                       chain: seq<nat>, other: seq<Byte>)
    requires WellFormed(a, chains, bytes) && SlotFor(a.dir, name, k) && !SameName(other, name)
    requires |b.dir| == |a.dir| && b.dir == a.dir[k := b.dir[k]] && Matches(b.dir[k], name)
    requires WellFormed(b, chains[k := chain], bytes) && OthersKept(a, chains, bytes, k, b)
    ensures Lookup(b, chains[k := chain], bytes, other) == Lookup(a, chains, bytes, other)
  {
    hide Content, FileOk, DirOk, Shaped, Position, FirstEmpty, SameName, SlotFor;
    OtherElsewhere(a.dir, b.dir, name, k, other);
    var r := Position(a.dir, other, 0);
    assert r < |a.dir| ==> r in Files(a.dir);
    hide IsFile, Matches;
  }

  /** Marking a slot deleted takes the name away and nothing else. */
  lemma SlotDeleted(a: Image, chains: map<nat, seq<nat>>, bytes: nat, name: seq<Byte>, k: nat, s: Slot)
    requires WellFormed(a, chains, bytes) && k == Position(a.dir, name, 0) < |a.dir| && Deleted(s)
    ensures var b := WithSlot(a, k, s);
            && WellFormed(b, chains - {k}, bytes)
            && Lookup(b, chains - {k}, bytes, name) == None
            && forall other | !SameName(other, name) ::
                 Lookup(b, chains - {k}, bytes, other) == Lookup(a, chains, bytes, other)
  {
    var b, chains' := WithSlot(a, k, s), chains - {k};
    DirLoses(a.dir, k, s);
    AgreesOthers(a, chains, bytes, k, b);
    FilesGain(a.dir, k, s);
    DeletedFiles(a, chains, bytes, k, b);
    var r := Position(b.dir, name, 0);
    assert r < |b.dir| ==> r == k by {
      if r < |b.dir| { PositionIs(a.dir, name, r); }
    }
    forall other | !SameName(other, name)
      ensures Lookup(b, chains', bytes, other) == Lookup(a, chains, bytes, other)
    {
      DeletedOther(a, chains, bytes, b, name, k, other);
    }
  }

  lemma DeletedFiles(a: Image, chains: map<nat, seq<nat>>, bytes: nat, k: nat, b: Image)
    requires WellFormed(a, chains, bytes) && OthersKept(a, chains, bytes, k, b)
    requires k < |a.dir| == |b.dir| && b.dir == a.dir[k := b.dir[k]] && Files(b.dir) == Files(a.dir) - {k}
    ensures FilesOk(b, chains - {k}, bytes)
  {
    hide FileOk, Content, DirOk, Apart, IsFile, Shaped;
    assert (chains - {k}).Keys == Files(b.dir);
  }

  lemma DeletedOther(a: Image, chains: map<nat, seq<nat>>, bytes: nat, b: Image, name: seq<Byte>, k: nat,
                     other: seq<Byte>)
    requires WellFormed(a, chains, bytes) && k == Position(a.dir, name, 0) < |a.dir| && !SameName(other, name)
    requires |b.dir| == |a.dir| && b.dir == a.dir[k := b.dir[k]] && Deleted(b.dir[k])
    requires WellFormed(b, chains - {k}, bytes) && OthersKept(a, chains, bytes, k, b)
    ensures Lookup(b, chains - {k}, bytes, other) == Lookup(a, chains, bytes, other)
  {
    PositionElsewhere(a.dir, b.dir, other, k);
    var r := Position(a.dir, other, 0);
    assert r < |a.dir| ==> r in Files(a.dir);
    hide Content, FileOk, DirOk, Shaped, Position, SameName;
  }

  /** An entry that names a free cluster is never part of a volume in order. */
  lemma DanglingEntry(a: Image, k: nat, bytes: nat)
    requires k < |a.dir| && IsFile(a.dir[k]) && 2 <= EntryOf(a.dir[k]).first < |a.fat|
             && a.fat[EntryOf(a.dir[k]).first] == 0
    ensures !Consistent(a, bytes)
  {
    if Consistent(a, bytes) {
      var chains :| WellFormed(a, chains, bytes);
      ChainsNotFree(a, a.dir[k], chains[k], bytes, chains[k][0]);
    }
  }

  // --- counting free clusters ------------------------------------------------------------------------

  /** How many of the clusters below `n` are free. */
  function FreeBelow(fat: seq<nat>, n: nat): (r: nat)
    requires n <= |fat|
    ensures r <= n
  {
    if n <= 2 then 0 else FreeBelow(fat, n - 1) + if fat[n - 1] == 0 then 1 else 0
  }

  function CountFree(fat: seq<nat>): nat { FreeBelow(fat, |fat|) }

  lemma {:induction false} FreeBelowSet(fat: seq<nat>, n: nat, c: nat, value: nat)
    requires n <= |fat| && 2 <= c < |fat|
    ensures FreeBelow(fat[c := value], n) + (if c < n && fat[c] == 0 then 1 else 0)
            == FreeBelow(fat, n) + (if c < n && value == 0 then 1 else 0)
  {
    if n > 2 { FreeBelowSet(fat, n - 1, c, value); }
  }

  /** No free cluster from `n` on. */
  lemma {:induction false} NoneFreeAbove(fat: seq<nat>, n: nat, m: nat)
    requires 2 <= n <= m <= |fat| && forall c | n <= c < m :: fat[c] != 0
    ensures FreeBelow(fat, m) == FreeBelow(fat, n)
  {
    if n < m { NoneFreeAbove(fat, n, m - 1); }
  }

  /** A chain is no longer than the volume has clusters. */
  lemma {:induction false} ChainFits(chain: seq<nat>, clusters: set<nat>)
    requires NoRepeats(chain) && forall i | 0 <= i < |chain| :: chain[i] in clusters
    ensures |chain| <= |clusters|
  {
    if chain != [] {
      var n := |chain| - 1;
      ChainFits(chain[..n], clusters - {chain[n]});
    }
  }

  ghost function Clusters(n: nat): (r: set<nat>)
    ensures |r| == n && forall c: nat :: c in r <==> 2 <= c < n + 2
  {
    if n == 0 then {} else Clusters(n - 1) + {n + 1}
  }

  lemma ChainLength(fat: seq<nat>, chain: seq<nat>)
    requires InTable(fat, chain) && NoRepeats(chain) && |fat| >= 2
    ensures |chain| <= |fat| - 2
  {
    ChainFits(chain, Clusters(|fat| - 2));
  }
}
