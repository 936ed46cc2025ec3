/** Filtering a list: what is kept is every kept position, once and in order. */
module Filtering {
  function Kept<T(!new)>(keep: T -> bool, s: seq<T>): (r: seq<T>)
    ensures forall x :: x in r <==> x in s && keep(x)
  {
    if s == [] then [] else (if keep(s[0]) then [s[0]] else []) + Kept(keep, s[1..])
  }

  /** `r` holds the entries of `s` at the positions `at`: exactly those that `keep` accepts, in order. */
  ghost predicate Positions<T>(keep: T -> bool, s: seq<T>, r: seq<T>, at: seq<nat>) {
    EntriesAt(keep, s, r, at) && Increasing(at) && forall k: nat :: k < |s| && keep(s[k]) ==> k in at
  }

  ghost predicate EntriesAt<T>(keep: T -> bool, s: seq<T>, r: seq<T>, at: seq<nat>) {
    |at| == |r| && forall i :: 0 <= i < |at| ==> at[i] < |s| && keep(s[at[i]]) && r[i] == s[at[i]]
  }

  ghost predicate Increasing(at: seq<nat>) { forall i, j :: 0 <= i < j < |at| ==> at[i] < at[j] }

  ghost predicate IsKept<T>(keep: T -> bool, s: seq<T>, r: seq<T>) { exists at :: Positions(keep, s, r, at) }

  lemma LastEntry<T>(keep: T -> bool, s: seq<T>, x: T, r: seq<T>, at: seq<nat>)
    requires EntriesAt(keep, s, r, at)
    ensures EntriesAt(keep, s + [x], r, at) && (keep(x) ==> EntriesAt(keep, s + [x], r + [x], at + [|s|]))
  {
  }

  lemma LastPlaced<T>(keep: T -> bool, s: seq<T>, x: T, r: seq<T>, at: seq<nat>) returns (all: seq<nat>)
    requires Positions(keep, s, r, at)
    ensures Positions(keep, s + [x], if keep(x) then r + [x] else r, all)
  {
    all := if keep(x) then at + [|s|] else at;
    LastEntry(keep, s, x, r, at);
    var more := s + [x];
    forall k: nat | k < |more| && keep(more[k]) ensures k in all {
      if k < |s| { assert keep(s[k]) && k in at; }
    }
  }

  lemma {:induction false} KeptPositions<T(!new)>(keep: T -> bool, s: seq<T>) returns (at: seq<nat>)
    ensures Positions(keep, s, Kept(keep, s), at)
  {
    at := [];
    if s != [] {
      var front, x := s[..|s| - 1], s[|s| - 1];
      assert front + [x] == s;
      at := KeptPositions(keep, front);
      KeptAppend(keep, front, x);
      at := LastPlaced(keep, front, x, Kept(keep, front), at);
    }
  }

  lemma KeptIs<T(!new)>(keep: T -> bool, s: seq<T>)
    ensures IsKept(keep, s, Kept(keep, s))
  {
    var at := KeptPositions(keep, s);
  }

  lemma {:induction false} KeptAppend<T(!new)>(keep: T -> bool, s: seq<T>, x: T)
    ensures Kept(keep, s + [x]) == if keep(x) then Kept(keep, s) + [x] else Kept(keep, s)
  {
    if s == [] {
      assert s + [x] == [x];
    } else {
      assert (s + [x])[1..] == s[1..] + [x];
      KeptAppend(keep, s[1..], x);
    }
  }

  /** There is only one such list. */
  lemma KeptUnique<T(!new)>(keep: T -> bool, s: seq<T>, r: seq<T>)
    requires IsKept(keep, s, r)
    ensures r == Kept(keep, s)
  {
    var at: seq<nat> :| Positions(keep, s, r, at);
    var to := KeptPositions(keep, s);
    SameTail(at, to);
  }

  lemma {:induction false} SameTail(at: seq<nat>, to: seq<nat>)
    requires Increasing(at) && Increasing(to) && forall k: nat :: k in at <==> k in to
    ensures at == to
  {
    assert to != [] ==> to[0] in at;
    if at != [] {
      assert at[0] in to;
      forall k: nat ensures k in at[1..] <==> k in to[1..] {
        assert k in at[1..] <==> k in at && k != at[0];
        assert k in to[1..] <==> k in to && k != to[0];
      }
      SameTail(at[1..], to[1..]);
      assert at == [at[0]] + at[1..] && to == [to[0]] + to[1..];
    }
  }
}
