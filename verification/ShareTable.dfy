/** The kernel's list of shared frames and how many address spaces own each. */
module ShareTable {
  import opened Sharing
  import Frames

  /** Entries `(frame, count)`; a frame appears at most once. */
  ghost predicate Distinct(s: seq<(nat, nat)>) {
    forall i, j | 0 <= i < j < |s| :: s[i].0 != s[j].0
  }

  ghost function AsMap(s: seq<(nat, nat)>): (m: map<nat, nat>)
    requires Distinct(s)
    ensures forall i | 0 <= i < |s| :: s[i].0 in m && m[s[i].0] == s[i].1
    ensures forall f | f in m :: exists i :: 0 <= i < |s| && s[i].0 == f
  {
    var keys := set i | 0 <= i < |s| :: s[i].0;
    map f | f in keys :: (var i :| 0 <= i < |s| && s[i].0 == f; s[i].1)
  }

  lemma SameMap(s: seq<(nat, nat)>, m: map<nat, nat>)
    requires Distinct(s)
    requires forall i | 0 <= i < |s| :: s[i].0 in m && m[s[i].0] == s[i].1
    requires forall f | f in m :: exists i :: 0 <= i < |s| && s[i].0 == f
    ensures AsMap(s) == m
  {
  }

  /** Where a frame is listed, if anywhere. */
  method Position(s: seq<(nat, nat)>, frame: nat) returns (at: nat)
    requires Distinct(s)
    ensures at <= |s|
    ensures at < |s| <==> frame in AsMap(s)
    ensures at < |s| ==> s[at].0 == frame && s[at].1 == AsMap(s)[frame]
  {
    at := 0;
    while at < |s|
      invariant at <= |s| && forall i | 0 <= i < at :: s[i].0 != frame
    {
      if s[at].0 == frame {
        return;
      }
      at := at + 1;
    }
  }

  method ShareCount(s: seq<(nat, nat)>, frame: nat) returns (n: nat)
    requires Distinct(s)
    ensures n == CountOf(AsMap(s), frame)
  {
    var at := Position(s, frame);
    n := if at < |s| then s[at].1 else 1;
  }

  /** Record one more owner: the first share makes two. */
  method Share(s: seq<(nat, nat)>, frame: nat) returns (r: seq<(nat, nat)>)
    requires Distinct(s)
    ensures Distinct(r) && AsMap(r) == OneMore(AsMap(s), frame)
  {
    hide AsMap;
    var at := Position(s, frame);
    if at < |s| {
      r := s[at := (frame, s[at].1 + 1)];
      Replaced(s, at, s[at].1 + 1);
    } else {
      r := s + [(frame, 2)];
      Appended(s, frame);
    }
  }

  lemma Appended(s: seq<(nat, nat)>, frame: nat)
    requires Distinct(s) && frame !in AsMap(s)
    ensures Distinct(s + [(frame, 2)]) && AsMap(s + [(frame, 2)]) == AsMap(s)[frame := 2]
  {
    hide AsMap;
    var r, m := s + [(frame, 2)], AsMap(s)[frame := 2];
    forall f | f in m
      ensures exists i :: 0 <= i < |r| && r[i].0 == f
    {
      if f == frame { assert r[|s|].0 == f; }
      else { var i :| 0 <= i < |s| && s[i].0 == f; assert r[i].0 == f; }
    }
    SameMap(r, m);
  }

  lemma Replaced(s: seq<(nat, nat)>, at: nat, n: nat)
    requires Distinct(s) && at < |s|
    ensures Distinct(s[at := (s[at].0, n)]) && AsMap(s[at := (s[at].0, n)]) == AsMap(s)[s[at].0 := n]
  {
    hide AsMap;
    var r := s[at := (s[at].0, n)];
    var m := AsMap(s)[s[at].0 := n];
    assert forall i | 0 <= i < |s| :: r[i].0 == s[i].0;
    forall f | f in m
      ensures exists i :: 0 <= i < |r| && r[i].0 == f
    {
      if f == s[at].0 { assert r[at].0 == f; }
      else { var i :| 0 <= i < |s| && s[i].0 == f; assert r[i].0 == f; }
    }
    SameMap(r, m);
  }

  /** Move the last entry into the hole, as `swap_remove` does. */
  function SwapRemove(s: seq<(nat, nat)>, at: nat): seq<(nat, nat)>
    requires at < |s|
  {
    if at == |s| - 1 then s[..at] else s[at := s[|s| - 1]][..|s| - 1]
  }

  lemma Removed(s: seq<(nat, nat)>, at: nat)
    requires Distinct(s) && at < |s|
    ensures Distinct(SwapRemove(s, at)) && AsMap(SwapRemove(s, at)) == AsMap(s) - {s[at].0}
  {
    hide AsMap;
    var r := SwapRemove(s, at);
    forall i | 0 <= i < |r|
      ensures r[i] == if i == at then s[|s| - 1] else s[i]
    {
    }
    forall f | f in AsMap(s) - {s[at].0}
      ensures exists i :: 0 <= i < |r| && r[i].0 == f
    {
      var i :| 0 <= i < |s| && s[i].0 == f;
      assert i != at;
      assert r[if i == |s| - 1 then at else i].0 == f;
    }
    SameMap(r, AsMap(s) - {s[at].0});
  }

  /** Drop one owner; a frame with one left is no longer listed. */
  method Unshare(s: seq<(nat, nat)>, frame: nat) returns (r: seq<(nat, nat)>, left: nat)
    requires Distinct(s) && forall i | 0 <= i < |s| :: s[i].1 >= 2
    ensures Distinct(r) && AsMap(r) == OneFewer(AsMap(s), frame)
    ensures left == if frame in AsMap(s) then AsMap(s)[frame] - 1 else 1
  {
    hide AsMap;
    var at := Position(s, frame);
    if at < |s| {
      left := s[at].1 - 1;
      r := s[at := (frame, left)];
      Replaced(s, at, left);
      if left <= 1 {
        Removed(r, at);
        r := SwapRemove(r, at);
        assert AsMap(s)[frame := left] - {frame} == AsMap(s) - {frame};
      }
    } else {
      r, left := s, 1;
    }
  }

  lemma CountsAreTwo(s: seq<(nat, nat)>, leaves: map<Frames.Leaf, Frames.Word>)
    requires Distinct(s) && Counted(AsMap(s), leaves)
    ensures forall i | 0 <= i < |s| :: s[i].1 >= 2
  {
    hide AsMap;
  }
}
