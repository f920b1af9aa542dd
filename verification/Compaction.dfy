/**
 Several loops of the system range over a slice while deleting the current element from the same
 backing array.  The range keeps its old header and reads elements live, so every deletion slides
 the following element under an index that has already been passed.  This module is the theory of
 what such a loop leaves behind; the modules that import it prove that the loops over real arrays
 compute exactly this.
 */
module Compaction {

  lemma DropDrop<T>(s: seq<T>, i: nat, j: nat)
    requires i + j <= |s|
    ensures s[i..][j..] == s[i + j..]
  {
  }

  lemma Assoc<T>(a: seq<T>, b: seq<T>, c: seq<T>)
    ensures a + b + c == a + (b + c)
  {
  }

  lemma TakeOneMore<T>(s: seq<T>, i: nat)
    requires i < |s|
    ensures s[..i + 1] == s[..i] + [s[i]]
  {
  }

  /** The elements but the one at position i. */
  function Without<T>(s: seq<T>, i: nat): seq<T>
    requires i < |s|
  {
    s[..i] + s[i + 1..]
  }

  /** What a range-and-delete loop leaves of `s`: each deletion shields the element after it. */
  function Survivors<T(!new)>(drop: T -> bool, s: seq<T>): (r: seq<T>)
    ensures |r| <= |s|
    ensures |s| <= 2 * |r| + 1
  {
    if s == [] then []
    else if !drop(s[0]) then [s[0]] + Survivors(drop, s[1..])
    else if |s| == 1 then []
    else [s[1]] + Survivors(drop, s[2..])
  }

  /** What such a loop is meant to leave: the elements that are not dropped, in order. */
  function Kept<T(!new)>(drop: T -> bool, s: seq<T>): (r: seq<T>)
    ensures |r| <= |s|
  {
    if s == [] then []
    else if drop(s[0]) then Kept(drop, s[1..])
    else [s[0]] + Kept(drop, s[1..])
  }

  lemma {:induction false} KeptMember<T(!new)>(drop: T -> bool, s: seq<T>, x: T)
    ensures x in Kept(drop, s) <==> x in s && !drop(x)
  {
    if s != [] {
      KeptMember(drop, s[1..], x);
    }
  }

  lemma {:induction false} SurvivorMember<T(!new)>(drop: T -> bool, s: seq<T>, x: T)
    ensures x in Survivors(drop, s) ==> x in s
    ensures x in s && x !in Survivors(drop, s) ==> drop(x)
  {
    if s != [] {
      if !drop(s[0]) {
        SurvivorMember(drop, s[1..], x);
      } else if |s| > 1 {
        assert s == [s[0], s[1]] + s[2..];
        SurvivorMember(drop, s[2..], x);
      }
    }
  }

  ghost predicate NoneDropped<T>(drop: T -> bool, s: seq<T>) {
    forall i :: 0 <= i < |s| ==> !drop(s[i])
  }

  ghost predicate NoAdjacentDrops<T>(drop: T -> bool, s: seq<T>) {
    forall i, j :: 0 <= i && j == i + 1 && j < |s| ==> !(drop(s[i]) && drop(s[j]))
  }

  ghost predicate Distinct<T(!new)>(s: seq<T>) {
    forall i, j :: 0 <= i < j < |s| ==> s[i] != s[j]
  }

  /** The loop does what was meant exactly when no two neighbours are both to be dropped. */
  lemma {:induction false} SurvivorsAreKeptIff<T(!new)>(drop: T -> bool, s: seq<T>)
    ensures Survivors(drop, s) == Kept(drop, s) <==> NoAdjacentDrops(drop, s)
  {
    if s != [] {
      if !drop(s[0]) {
        SurvivorsAreKeptIff(drop, s[1..]);
        assert Survivors(drop, s)[1..] == Survivors(drop, s[1..]);
        NoAdjacentTail(drop, s);
      } else if |s| > 1 {
        assert s[1..][0] == s[1] && s[1..][1..] == s[2..];
        if drop(s[1]) {
          assert s[1] in Survivors(drop, s);
          KeptMember(drop, s, s[1]);
        } else {
          SurvivorsAreKeptIff(drop, s[2..]);
          assert Survivors(drop, s)[1..] == Survivors(drop, s[2..]);
          NoAdjacentTail(drop, s);
          NoAdjacentTail(drop, s[1..]);
        }
      }
    }
  }

  lemma NoAdjacentTail<T(!new)>(drop: T -> bool, s: seq<T>)
    requires s != []
    ensures NoAdjacentDrops(drop, s) <==>
              NoAdjacentDrops(drop, s[1..]) && (|s| > 1 ==> !(drop(s[0]) && drop(s[1])))
  {
    if NoAdjacentDrops(drop, s[1..]) && (|s| > 1 ==> !(drop(s[0]) && drop(s[1]))) {
      forall i, j | 0 <= i && j == i + 1 && j < |s| ensures !(drop(s[i]) && drop(s[j])) {
        if i > 0 {
          assert s[i] == s[1..][i - 1] && s[j] == s[1..][j - 1];
        }
      }
    }
    if NoAdjacentDrops(drop, s) {
      forall i, j | 0 <= i && j == i + 1 && j < |s[1..]|
        ensures !(drop(s[1..][i]) && drop(s[1..][j]))
      {
        assert s[1..][i] == s[i + 1] && s[1..][j] == s[j + 1];
      }
    }
  }

  lemma {:induction false} NoneDroppedKept<T(!new)>(drop: T -> bool, s: seq<T>)
    requires NoneDropped(drop, s)
    ensures Kept(drop, s) == s && Survivors(drop, s) == s
  {
    if s != [] {
      NoneDroppedKept(drop, s[1..]);
    }
  }

  lemma {:induction false} KeptConcat<T(!new)>(drop: T -> bool, s: seq<T>, t: seq<T>)
    ensures Kept(drop, s + t) == Kept(drop, s) + Kept(drop, t)
  {
    if s == [] {
      assert s + t == t;
    } else {
      assert (s + t)[1..] == s[1..] + t;
      KeptConcat(drop, s[1..], t);
    }
  }

  lemma {:induction false} SurvivorsDistinct<T(!new)>(drop: T -> bool, s: seq<T>)
    requires Distinct(s)
    ensures Distinct(Survivors(drop, s))
  {
    if s != [] {
      if !drop(s[0]) {
        SurvivorsDistinct(drop, s[1..]);
        SurvivorsWithin(drop, s[1..]);
        DistinctCons(s[0], Survivors(drop, s[1..]), s[1..]);
      } else if |s| > 1 {
        SurvivorsDistinct(drop, s[2..]);
        SurvivorsWithin(drop, s[2..]);
        DistinctCons(s[1], Survivors(drop, s[2..]), s[2..]);
      }
    }
  }

  lemma SurvivorsWithin<T(!new)>(drop: T -> bool, s: seq<T>)
    ensures forall x :: x in Survivors(drop, s) ==> x in s
  {
    forall x | x in Survivors(drop, s) ensures x in s {
      SurvivorMember(drop, s, x);
    }
  }

  lemma DistinctCons<T(!new)>(x: T, r: seq<T>, from: seq<T>)
    requires Distinct(r) && x !in from
    requires forall y :: y in r ==> y in from
    ensures Distinct([x] + r)
  {
    forall i, j | 0 <= i < j < |[x] + r| ensures ([x] + r)[i] != ([x] + r)[j] {
      assert ([x] + r)[j] == r[j - 1] && r[j - 1] in from;
    }
  }

  /** Dropping everything leaves exactly the elements at odd positions. */
  function OddPositions<T>(s: seq<T>): (r: seq<T>)
    ensures |r| == |s| / 2
    ensures forall j :: 0 <= j < |r| ==> r[j] == s[2 * j + 1]
  {
    seq(|s| / 2, j requires 0 <= j < |s| / 2 => s[2 * j + 1])
  }

  lemma {:induction false} AllDropped<T(!new)>(drop: T -> bool, s: seq<T>)
    requires forall x :: x in s ==> drop(x)
    ensures Survivors(drop, s) == OddPositions(s)
  {
    if |s| > 1 {
      AllDropped(drop, s[2..]);
      assert OddPositions(s) == [s[1]] + OddPositions(s[2..]) by {
        forall j | 0 <= j < |s| / 2
          ensures OddPositions(s)[j] == ([s[1]] + OddPositions(s[2..]))[j]
        {
          if j > 0 {
            assert s[2..][2 * (j - 1) + 1] == s[2 * j + 1];
          }
        }
      }
    }
  }

  /** Nothing that should have gone survives, exactly when no two neighbours are both to be dropped. */
  lemma {:induction false} SurvivorsCleanIff<T(!new)>(drop: T -> bool, s: seq<T>)
    ensures NoneDropped(drop, Survivors(drop, s)) <==> NoAdjacentDrops(drop, s)
  {
    SurvivorsAreKeptIff(drop, s);
    if NoneDropped(drop, Survivors(drop, s)) {
      CleanSurvivorsAreKept(drop, s);
    }
    KeptHasNoDrops(drop, s);
  }

  lemma KeptHasNoDrops<T(!new)>(drop: T -> bool, s: seq<T>)
    ensures NoneDropped(drop, Kept(drop, s))
  {
    forall i | 0 <= i < |Kept(drop, s)| ensures !drop(Kept(drop, s)[i]) {
      KeptMember(drop, s, Kept(drop, s)[i]);
    }
  }

  lemma {:induction false} CleanSurvivorsAreKept<T(!new)>(drop: T -> bool, s: seq<T>)
    requires NoneDropped(drop, Survivors(drop, s))
    ensures Survivors(drop, s) == Kept(drop, s)
  {
    if s != [] {
      var r := Survivors(drop, s);
      if !drop(s[0]) {
        assert r[1..] == Survivors(drop, s[1..]);
        CleanSurvivorsAreKept(drop, s[1..]);
      } else if |s| > 1 {
        assert s[1..][0] == s[1] && s[1..][1..] == s[2..];
        assert r[0] == s[1] && r[1..] == Survivors(drop, s[2..]);
        CleanSurvivorsAreKept(drop, s[2..]);
      }
    }
  }

  /** Only the final element may be dropped alone; it may not be dropped after another one was. */
  ghost predicate LastDroppedAlone<T(!new)>(drop: T -> bool, s: seq<T>) {
    s != [] && drop(s[|s| - 1]) ==> NoneDropped(drop, s[..|s| - 1])
  }

  /** One more element at the end either survives behind the others or does not. */
  lemma {:induction false} SurvivorsAppend<T(!new)>(drop: T -> bool, s: seq<T>, x: T)
    ensures Survivors(drop, s + [x]) == Survivors(drop, s) + [x] || Survivors(drop, s + [x]) == Survivors(drop, s)
  {
    if s != [] {
      if !drop(s[0]) {
        assert (s + [x])[1..] == s[1..] + [x];
        SurvivorsAppend(drop, s[1..], x);
      } else if |s| > 1 {
        assert (s + [x])[1] == s[1] && (s + [x])[2..] == s[2..] + [x];
        SurvivorsAppend(drop, s[2..], x);
      } else {
        assert (s + [x])[1] == x && (s + [x])[2..] == [];
      }
    }
  }

  /** Whatever is dropped, something is gone. */
  lemma {:induction false} SurvivorsShorter<T(!new)>(drop: T -> bool, s: seq<T>)
    requires !NoneDropped(drop, s)
    ensures |Survivors(drop, s)| < |s|
  {
    if !drop(s[0]) {
      assert forall i :: 0 < i < |s| ==> s[i] == s[1..][i - 1];
      SurvivorsShorter(drop, s[1..]);
    }
  }

  /** The cells after shifting position i out of the first len of them: the cell at len - 1 is left stale. */
  function ShiftedOut<T>(s: seq<T>, len: nat, i: nat): (r: seq<T>)
    requires i < len <= |s|
    ensures |r| == |s|
  {
    s[..i] + s[i + 1..len] + s[len - 1..]
  }

  /** append(a[:i], a[i+1:]...) on a slice of length len: shifts in place. */
  method ShiftOut<T>(a: array<T>, len: nat, i: nat)
    requires i < len <= a.Length
    modifies a
    ensures a[..] == ShiftedOut(old(a[..]), len, i)
  {
    for j := i to len - 1
      invariant forall q :: 0 <= q < i || j <= q < a.Length ==> a[q] == old(a[q])
      invariant forall q :: i <= q < j ==> a[q] == old(a[q + 1])
    {
      a[j] := a[j + 1];
    }
  }
}
