/** Linked lists threaded through memory: what it takes to insert into one and to merge two
    neighbours of one. */
module HoleLinks {
  import opened HoleList

  /** A hole's header, written into the hole's own first bytes.  Address 0 ends the list. */
  datatype Header = Header(size: nat, next: nat)

  type Memory = map<nat, Header>

  function Inserted<T>(s: seq<T>, at: nat, x: T): (r: seq<T>)
    requires at <= |s|
    ensures |r| == |s| + 1
    ensures forall i | 0 <= i < at :: r[i] == s[i]
    ensures r[at] == x
    ensures forall i | at < i < |r| :: r[i] == s[i - 1]
  {
    s[..at] + [x] + s[at..]
  }

  function Removed<T>(s: seq<T>, at: nat): (r: seq<T>)
    requires at < |s|
    ensures |r| == |s| - 1
    ensures forall i | 0 <= i < at :: r[i] == s[i]
    ensures forall i | at <= i < |r| :: r[i] == s[i + 1]
  {
    s[..at] + s[at + 1..]
  }

  function At(chain: seq<nat>, i: nat): nat { if i < |chain| then chain[i] else 0 }

  ghost predicate Ascending(chain: seq<nat>) {
    forall i, j | 0 <= i < j < |chain| :: chain[i] < chain[j]
  }

  ghost predicate Listed(memory: Memory, chain: seq<nat>) {
    forall i | 0 <= i < |chain| :: chain[i] > 0 && chain[i] in memory
  }

  /** The header at position `i` points at the next one. */
  ghost predicate Link(memory: Memory, chain: seq<nat>, i: nat)
    requires i < |chain| && chain[i] in memory
  {
    memory[chain[i]].next == At(chain, i + 1)
  }

  /** Following `next` from `head` visits exactly the addresses of `chain`. */
  ghost predicate IsList(memory: Memory, head: nat, chain: seq<nat>) {
    && head == At(chain, 0)
    && Ascending(chain)
    && Listed(memory, chain)
    && forall i | 0 <= i < |chain| :: Link(memory, chain, i)
  }

  ghost function HolesOf(memory: Memory, chain: seq<nat>): (hs: seq<Hole>)
    requires Listed(memory, chain)
    ensures |hs| == |chain|
    ensures forall i | 0 <= i < |chain| :: hs[i] == Hole(chain[i], memory[chain[i]].size)
  {
    seq(|chain|, i requires 0 <= i < |chain| => Hole(chain[i], memory[chain[i]].size))
  }

  ghost predicate Between(chain: seq<nat>, at: nat, address: nat) {
    && address > 0 && at <= |chain|
    && (forall i | 0 <= i < at :: chain[i] < address)
    && (forall i | at <= i < |chain| :: address < chain[i])
  }

  lemma PlaceIsBetween(chain: seq<nat>, at: nat, address: nat)
    requires Ascending(chain) && at <= |chain| && address > 0 && address !in chain
    requires at > 0 ==> chain[at - 1] < address
    requires at < |chain| ==> chain[at] >= address
    ensures Between(chain, at, address)
  {
  }

  /** Memory after linking a new header in behind position `at`. */
  function Linked(memory: Memory, chain: seq<nat>, at: nat, address: nat, size: nat): Memory
    requires at <= |chain| && (at > 0 ==> chain[at - 1] in memory)
  {
    var behind := if at == 0 then memory else memory[chain[at - 1] := Header(memory[chain[at - 1]].size, address)];
    behind[address := Header(size, At(chain, at))]
  }

  lemma InsertedIsAscending(chain: seq<nat>, at: nat, address: nat)
    requires Ascending(chain) && Between(chain, at, address)
    ensures Ascending(Inserted(chain, at, address))
  {
  }

  lemma LinkedIsList(memory: Memory, head: nat, chain: seq<nat>, at: nat, address: nat, size: nat)
    requires IsList(memory, head, chain) && Between(chain, at, address)
    ensures IsList(Linked(memory, chain, at, address, size), if at == 0 then address else head,
                   Inserted(chain, at, address))
  {
    InsertedIsAscending(chain, at, address);
    var m', c' := Linked(memory, chain, at, address, size), Inserted(chain, at, address);
    forall i | 0 <= i < |c'|
      ensures Link(m', c', i)
    {
      if i < at {
        assert Link(memory, chain, i) && c'[i] == chain[i] < address;
        if i < at - 1 { assert chain[i] < chain[at - 1]; }
      } else if i > at {
        assert Link(memory, chain, i - 1) && c'[i] == chain[i - 1] > address;
      }
    }
  }

  lemma LinkedHoles(memory: Memory, chain: seq<nat>, at: nat, address: nat, size: nat)
    requires Listed(memory, chain) && Ascending(chain) && Between(chain, at, address)
    ensures var m', c' := Linked(memory, chain, at, address, size), Inserted(chain, at, address);
            Listed(m', c') && HolesOf(m', c') == Inserted(HolesOf(memory, chain), at, Hole(address, size))
  {
    var m', c' := Linked(memory, chain, at, address, size), Inserted(chain, at, address);
    forall i | 0 <= i < |c'|
      ensures c'[i] in m'
      ensures Hole(c'[i], m'[c'[i]].size) == Inserted(HolesOf(memory, chain), at, Hole(address, size))[i]
    {
      if i < at { assert c'[i] == chain[i] < address; }
      else if i > at { assert c'[i] == chain[i - 1] > address; }
    }
  }

  lemma RemovedAt(chain: seq<nat>, k: nat, i: nat)
    requires k < |chain|
    ensures At(Removed(chain, k), i) == At(chain, if i < k then i else i + 1)
  {
  }

  lemma Distinct(chain: seq<nat>, i: nat, j: nat)
    requires Ascending(chain) && i < |chain| && j < |chain| && i != j
    ensures chain[i] != chain[j]
  {
  }

  lemma RemovedIsAscending(chain: seq<nat>, k: nat)
    requires Ascending(chain) && k < |chain|
    ensures Ascending(Removed(chain, k))
  {
  }

  /** Memory after hole `i` has swallowed the one behind it. */
  function Absorbed(memory: Memory, chain: seq<nat>, i: nat): Memory
    requires i + 1 < |chain| && chain[i] in memory && chain[i + 1] in memory
  {
    memory[chain[i] := Header(memory[chain[i]].size + memory[chain[i + 1]].size, memory[chain[i + 1]].next)]
  }

  function Swallow(hs: seq<Hole>, i: nat): seq<Hole>
    requires i + 1 < |hs|
  {
    Removed(hs, i + 1)[i := Hole(hs[i].start, hs[i].size + hs[i + 1].size)]
  }

  lemma AbsorbedLink(memory: Memory, chain: seq<nat>, i: nat, j: nat)
    requires Listed(memory, chain) && i + 1 < |chain| && j < |chain| - 1
    requires Link(memory, chain, i + 1) && Link(memory, chain, if j <= i then j else j + 1)
    requires chain[if j <= i then j else j + 1] != chain[i] || j == i
    ensures Listed(Absorbed(memory, chain, i), Removed(chain, i + 1))
    ensures Link(Absorbed(memory, chain, i), Removed(chain, i + 1), j)
  {
    RemovedAt(chain, i + 1, j);
    RemovedAt(chain, i + 1, j + 1);
  }

  lemma AbsorbedIsList(memory: Memory, head: nat, chain: seq<nat>, i: nat)
    requires IsList(memory, head, chain) && i + 1 < |chain|
    ensures IsList(Absorbed(memory, chain, i), head, Removed(chain, i + 1))
  {
    RemovedIsAscending(chain, i + 1);
    RemovedAt(chain, i + 1, 0);
    AbsorbedLink(memory, chain, i, i);
    hide Ascending, Link, Listed, Absorbed, Removed;
    var m', c' := Absorbed(memory, chain, i), Removed(chain, i + 1);
    forall j | 0 <= j < |c'|
      ensures Link(m', c', j)
    {
      if j != i { Distinct(chain, i, if j <= i then j else j + 1); }
      AbsorbedLink(memory, chain, i, j);
    }
  }

  lemma AbsorbedHoles(memory: Memory, chain: seq<nat>, i: nat)
    requires Listed(memory, chain) && Ascending(chain) && i + 1 < |chain|
    ensures Listed(Absorbed(memory, chain, i), Removed(chain, i + 1))
    ensures HolesOf(Absorbed(memory, chain, i), Removed(chain, i + 1)) == Swallow(HolesOf(memory, chain), i)
  {
  }

  /** Memory after hole `k` has been unlinked. */
  function Unlinked(memory: Memory, chain: seq<nat>, k: nat): Memory
    requires k < |chain| && chain[k] in memory && (k > 0 ==> chain[k - 1] in memory)
  {
    if k == 0 then memory
    else memory[chain[k - 1] := Header(memory[chain[k - 1]].size, memory[chain[k]].next)]
  }

  lemma UnlinkedLink(memory: Memory, chain: seq<nat>, k: nat, i: nat)
    requires Listed(memory, chain) && k < |chain| && i < |chain| - 1
    requires Link(memory, chain, k) && Link(memory, chain, if i < k then i else i + 1)
    requires k == 0 || i == k - 1 || chain[if i < k then i else i + 1] != chain[k - 1]
    ensures Listed(Unlinked(memory, chain, k), Removed(chain, k))
    ensures Link(Unlinked(memory, chain, k), Removed(chain, k), i)
  {
    RemovedAt(chain, k, i);
    RemovedAt(chain, k, i + 1);
  }

  lemma UnlinkedIsList(memory: Memory, head: nat, chain: seq<nat>, k: nat)
    requires IsList(memory, head, chain) && k < |chain|
    ensures IsList(Unlinked(memory, chain, k), if k == 0 then memory[chain[0]].next else head, Removed(chain, k))
  {
    RemovedIsAscending(chain, k);
    RemovedAt(chain, k, 0);
    assert Listed(Unlinked(memory, chain, k), Removed(chain, k));
    assert Link(memory, chain, 0);
    hide Ascending, Link, Listed, Unlinked, Removed;
    forall i | 0 <= i < |chain| - 1
      ensures Link(Unlinked(memory, chain, k), Removed(chain, k), i)
    {
      if k > 0 && i != k - 1 { Distinct(chain, k - 1, if i < k then i else i + 1); }
      UnlinkedLink(memory, chain, k, i);
    }
  }

  lemma UnlinkedHoles(memory: Memory, chain: seq<nat>, k: nat)
    requires Listed(memory, chain) && Ascending(chain) && k < |chain|
    ensures Listed(Unlinked(memory, chain, k), Removed(chain, k))
    ensures HolesOf(Unlinked(memory, chain, k), Removed(chain, k)) == Removed(HolesOf(memory, chain), k)
  {
  }

  /** Inserting and then merging forward and backward is inserting joined. */
  lemma MergesCompose(hs: seq<Hole>, k: nat, r: Hole)
    requires k <= |hs|
    ensures var inserted := Inserted(hs, k, r);
            var forward := if JoinsRight(hs, k, r) then Swallow(inserted, k) else inserted;
            Merged(hs, k, r) == if JoinsLeft(hs, k, r) then Swallow(forward, k - 1) else forward
  {
    hide Spliced, Swallow, Inserted;
    var right := if JoinsRight(hs, k, r) then Hole(r.start, r.size + hs[k].size) else r;
    MergesForward(hs, k, r);
    if JoinsLeft(hs, k, r) {
      MergesBackward(hs, k, High(hs, k, r), right);
    }
  }

  lemma ForwardKeepsLeft(hs: seq<Hole>, k: nat, r: Hole)
    requires 0 < k <= |hs|
    ensures var inserted := Inserted(hs, k, r);
            inserted[k - 1] == hs[k - 1] && (k < |hs| ==> Swallow(inserted, k)[k - 1] == hs[k - 1])
  {
  }

  lemma MergesForward(hs: seq<Hole>, k: nat, r: Hole)
    requires k <= |hs|
    ensures JoinsRight(hs, k, r) ==>
              Swallow(Inserted(hs, k, r), k) == Spliced(hs, k, k + 1, Hole(r.start, r.size + hs[k].size))
    ensures Inserted(hs, k, r) == Spliced(hs, k, k, r)
  {
  }

  lemma MergesBackward(hs: seq<Hole>, k: nat, hi: nat, right: Hole)
    requires 0 < k <= hi <= |hs|
    ensures Swallow(Spliced(hs, k, hi, right), k - 1)
         == Spliced(hs, k - 1, hi, Hole(hs[k - 1].start, hs[k - 1].size + right.size))
  {
  }
}
