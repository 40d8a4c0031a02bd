/** Who owns a frame, and the side table of frames with more than one owner. */
module Sharing {
  import opened Frames

  ghost function Owners(leaves: map<Leaf, Word>, f: nat): set<Leaf> {
    set l | l in leaves && leaves[l].frame == f
  }

  /** The side table counts exactly the frames with two owners or more. */
  ghost predicate Counted(table: map<nat, nat>, leaves: map<Leaf, Word>) {
    && (forall f | f in table :: table[f] >= 2 && |Owners(leaves, f)| == table[f])
    && (forall f {:trigger Owners(leaves, f)} :: |Owners(leaves, f)| >= 2 ==> f in table)
  }

  /** What the kernel answers when asked how many owners a frame has. */
  function CountOf(table: map<nat, nat>, f: nat): nat { if f in table then table[f] else 1 }

  lemma CountIsOwners(table: map<nat, nat>, leaves: map<Leaf, Word>, l: Leaf)
    requires Counted(table, leaves) && l in leaves
    ensures CountOf(table, leaves[l].frame) == |Owners(leaves, leaves[l].frame)|
  {
    var f := leaves[l].frame;
    assert l in Owners(leaves, f);
    if |Owners(leaves, f)| < 2 {
      assert f !in table;
    }
  }

  function OneMore(table: map<nat, nat>, f: nat): map<nat, nat> {
    if f in table then table[f := table[f] + 1] else table[f := 2]
  }

  function OneFewer(table: map<nat, nat>, f: nat): map<nat, nat> {
    if f !in table then table
    else if table[f] <= 2 then table - {f}
    else table[f := table[f] - 1]
  }

  /** No writable page is reachable from anywhere else, and copy-on-write pages are not writable. */
  ghost predicate Private(leaves: map<Leaf, Word>) {
    forall l | l in leaves ::
      && (leaves[l].writable ==> Owners(leaves, leaves[l].frame) == {l})
      && !(leaves[l].writable && leaves[l].cow)
  }

  // --- how owners change ---------------------------------------------------

  lemma OwnersAfterAdd(leaves: map<Leaf, Word>, l: Leaf, w: Word, f: nat)
    requires l !in leaves
    ensures Owners(leaves[l := w], f) == Owners(leaves, f) + (if f == w.frame then {l} else {})
    ensures |Owners(leaves[l := w], f)| == |Owners(leaves, f)| + (if f == w.frame then 1 else 0)
  {
    assert l !in Owners(leaves, f);
  }

  lemma OwnersAfterDrop(leaves: map<Leaf, Word>, l: Leaf, f: nat)
    requires l in leaves
    ensures Owners(leaves - {l}, f) == Owners(leaves, f) - {l}
    ensures |Owners(leaves - {l}, f)| == |Owners(leaves, f)| - (if f == leaves[l].frame then 1 else 0)
  {
    if f == leaves[l].frame { assert l in Owners(leaves, f); }
    else { assert Owners(leaves, f) - {l} == Owners(leaves, f); }
  }

  lemma OwnersAfterSet(leaves: map<Leaf, Word>, l: Leaf, w: Word, f: nat)
    requires l in leaves && leaves[l].frame == w.frame
    ensures Owners(leaves[l := w], f) == Owners(leaves, f)
  {
  }

  /** A leaf naming a frame nobody had yet. */
  lemma AddFresh(table: map<nat, nat>, leaves: map<Leaf, Word>, l: Leaf, w: Word)
    requires Counted(table, leaves) && Private(leaves) && l !in leaves && Owners(leaves, w.frame) == {}
    requires !(w.writable && w.cow)
    ensures Counted(table, leaves[l := w]) && Private(leaves[l := w])
  {
    var leaves' := leaves[l := w];
    OwnersAfterAdd(leaves, l, w, w.frame);
    forall f | f != w.frame
      ensures Owners(leaves', f) == Owners(leaves, f)
    {
      OwnersAfterAdd(leaves, l, w, f);
    }
    forall m | m in leaves
      ensures leaves[m].frame != w.frame
    {
      assert m !in Owners(leaves, w.frame);
    }
    var alone := Owners(leaves', w.frame);
    assert alone == {l};
    hide Owners;
    PrivateAfterAdd(leaves, l, w);
  }

  lemma PrivateAfterAdd(leaves: map<Leaf, Word>, l: Leaf, w: Word)
    requires Private(leaves) && !(w.writable && w.cow)
    requires forall m | m in leaves && leaves[m].writable ::
               Owners(leaves[l := w], leaves[m].frame) == Owners(leaves, leaves[m].frame)
    requires w.writable ==> Owners(leaves[l := w], w.frame) == {l}
    ensures Private(leaves[l := w])
  {
    hide Owners;
  }

  /** A second leaf naming a frame, read-only in both. */
  lemma AddShared(table: map<nat, nat>, leaves: map<Leaf, Word>, l: Leaf, w: Word, m: Leaf)
    requires Counted(table, leaves) && Private(leaves) && l !in leaves && !w.writable
    requires m in leaves && leaves[m].frame == w.frame && !leaves[m].writable
    ensures Counted(OneMore(table, w.frame), leaves[l := w]) && Private(leaves[l := w])
  {
    var leaves' := leaves[l := w];
    CountIsOwners(table, leaves, m);
    OwnersAfterAdd(leaves, l, w, w.frame);
    forall f | f != w.frame
      ensures Owners(leaves', f) == Owners(leaves, f)
    {
      OwnersAfterAdd(leaves, l, w, f);
    }
    assert m in Owners(leaves, w.frame);
    forall x | x in leaves && leaves[x].writable
      ensures leaves[x].frame != w.frame
    {
      assert m !in Owners(leaves, leaves[x].frame);
    }
    assert |Owners(leaves', w.frame)| >= 2;
    hide Owners;
    PrivateAfterAdd(leaves, l, w);
    assert Counted(OneMore(table, w.frame), leaves');
  }

  /** Changing the flags of a leaf. */
  lemma SetFlags(table: map<nat, nat>, leaves: map<Leaf, Word>, l: Leaf, w: Word)
    requires Counted(table, leaves) && Private(leaves) && l in leaves && leaves[l].frame == w.frame
    requires w.writable ==> Owners(leaves, w.frame) == {l}
    requires !(w.writable && w.cow)
    ensures Counted(table, leaves[l := w]) && Private(leaves[l := w])
  {
    var leaves' := leaves[l := w];
    forall f
      ensures Owners(leaves', f) == Owners(leaves, f)
    {
      OwnersAfterSet(leaves, l, w, f);
    }
    hide Owners;
    assert Counted(table, leaves');
    forall m | m in leaves'
      ensures leaves'[m].writable ==> Owners(leaves', leaves'[m].frame) == {m}
      ensures !(leaves'[m].writable && leaves'[m].cow)
    {
      assert m in leaves;
    }
  }

  /** One owner of a shared frame lets go of it. */
  lemma DropShared(table: map<nat, nat>, leaves: map<Leaf, Word>, l: Leaf)
    requires Counted(table, leaves) && Private(leaves) && l in leaves && CountOf(table, leaves[l].frame) > 1
    ensures Counted(OneFewer(table, leaves[l].frame), leaves - {l}) && Private(leaves - {l})
    ensures |Owners(leaves - {l}, leaves[l].frame)| >= 1
  {
    DropAny(leaves, l);
    CountIsOwners(table, leaves, l);
    forall f
      ensures |Owners(leaves - {l}, f)| == |Owners(leaves, f)| - (if f == leaves[l].frame then 1 else 0)
    {
      OwnersAfterDrop(leaves, l, f);
    }
  }

  /** The only owner of a frame lets go of it. */
  lemma DropSole(table: map<nat, nat>, leaves: map<Leaf, Word>, l: Leaf)
    requires Counted(table, leaves) && Private(leaves) && l in leaves && CountOf(table, leaves[l].frame) <= 1
    ensures Counted(table, leaves - {l}) && Private(leaves - {l})
    ensures Owners(leaves, leaves[l].frame) == {l}
    ensures Owners(leaves - {l}, leaves[l].frame) == {}
  {
    DropAny(leaves, l);
    CountIsOwners(table, leaves, l);
    SoleOwner(leaves, l);
    forall f
      ensures |Owners(leaves - {l}, f)| == |Owners(leaves, f)| - (if f == leaves[l].frame then 1 else 0)
    {
      OwnersAfterDrop(leaves, l, f);
    }
    OwnersAfterDrop(leaves, l, leaves[l].frame);
  }

  lemma SoleOwner(leaves: map<Leaf, Word>, l: Leaf)
    requires l in leaves && |Owners(leaves, leaves[l].frame)| <= 1
    ensures Owners(leaves, leaves[l].frame) == {l}
  {
    var o := Owners(leaves, leaves[l].frame);
    assert l in o;
    assert |o - {l}| == 0;
  }

  lemma DropAny(leaves: map<Leaf, Word>, l: Leaf)
    requires Private(leaves) && l in leaves
    ensures Private(leaves - {l})
  {
    forall m | m in leaves - {l}
      ensures (leaves - {l})[m].writable ==> Owners(leaves - {l}, (leaves - {l})[m].frame) == {m}
    {
      OwnersAfterDrop(leaves, l, leaves[m].frame);
      if leaves[m].writable { assert l !in Owners(leaves, leaves[m].frame); }
    }
  }

  lemma AnotherOwner(leaves: map<Leaf, Word>, l: Leaf) returns (m: Leaf)
    requires l in leaves && |Owners(leaves, leaves[l].frame)| > 1
    ensures m in leaves && m != l && leaves[m].frame == leaves[l].frame
  {
    var o := Owners(leaves, leaves[l].frame);
    assert l in o;
    assert |o - {l}| > 0;
    m :| m in o - {l};
  }
}
