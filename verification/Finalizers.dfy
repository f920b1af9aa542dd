/**
 Removal of the controller's finalizer from a node.  The loop keeps its full-length header while it
 shifts the backing array, so one pass over a list with several occurrences goes wrong; the lemmas
 say exactly how and when.
 */
module Finalizers {
  import opened Compaction

  function IsKey(key: string): string -> bool {
    f => f == key
  }

  /** The array after shifting out position k: the last cell is left stale. */
  function Shifted(s: seq<string>, k: nat): (r: seq<string>)
    requires k < |s|
    ensures |r| == |s|
  {
    ShiftedOut(s, |s|, k)
  }

  /** The backing array when the range loop, at index k, has run to its end. */
  function Loop(key: string, s: seq<string>, k: nat): (r: seq<string>)
    requires k <= |s|
    ensures |r| == |s|
    decreases |s| - k
  {
    if k == |s| then s
    else Loop(key, if s[k] == key then Shifted(s, k) else s, k + 1)
  }

  /** The value sent in the patch: a view of the array one shorter, or nothing if the key never showed up. */
  function Patched(key: string, s: seq<string>): (r: seq<string>)
    ensures |r| == if key in s then |s| - 1 else 0
  {
    if key in s then Loop(key, s, 0)[..|s| - 1] else []
  }

  method RemoveFinalizer(key: string, finalizers: array<string>) returns (patch: seq<string>)
    modifies finalizers
    ensures patch == Patched(key, old(finalizers[..]))
  {
    var n, newLen := finalizers.Length, 0;
    ghost var was := finalizers[..];
    ghost var hit := false;
    for k := 0 to n
      invariant Loop(key, finalizers[..], k) == Loop(key, was, 0)
      invariant newLen == if hit then n - 1 else 0
      invariant if hit then key in was else finalizers[..] == was && key !in was[..k]
    {
      ghost var cells := finalizers[..];
      if finalizers[k] == key {
        assert cells[k] == key && (!hit ==> was[k] == key);
        ShiftOut(finalizers, n, k);
        newLen, hit := n - 1, true;
      }
    }
    assert was[..n] == was;
    patch := finalizers[..newLen];
  }

  function Count(key: string, s: seq<string>): nat {
    if s == [] then 0 else (if s[0] == key then 1 else 0) + Count(key, s[1..])
  }

  lemma {:induction false} KeptLength(key: string, s: seq<string>)
    ensures |Kept(IsKey(key), s)| == |s| - Count(key, s)
    ensures Count(key, s) > 0 <==> key in s
  {
    if s != [] {
      KeptLength(key, s[1..]);
    }
  }

  // ---------------------------------------------------------------------------------------------
  // The patch, exactly.

  function Pad(s: seq<string>, x: string, n: nat): (r: seq<string>)
    requires |s| <= n
    ensures |r| == n
  {
    s + seq(n - |s|, _ => x)
  }

  lemma PadMore(s: seq<string>, x: string, n: nat)
    requires |s| < n
    ensures Pad(s + [x], x, n) == Pad(s, x, n)
  {
  }

  lemma PadTake(s: seq<string>, x: string, n: nat)
    requires |s| <= n
    ensures ([] + Pad(s, x, n + 1))[..n] == Pad(s, x, n)
  {
  }

  /** From index k on, the array ends up with what survives, padded with the last finalizer. */
  lemma {:induction false} LoopExactly(key: string, s: seq<string>, k: nat)
    requires k <= |s| && s != []
    ensures Loop(key, s, k) == s[..k] + Pad(Survivors(IsKey(key), s[k..]), s[|s| - 1], |s| - k)
    decreases |s| - k
  {
    var x := s[|s| - 1];
    if k < |s| {
      if s[k] != key {
        LoopExactly(key, s, k + 1);
        KeepFirst(key, s, k);
      } else if k < |s| - 1 {
        LoopExactly(key, Shifted(s, k), k + 1);
        ShiftFirst(key, s, k);
      } else {
        assert s[k..] == [x] && Shifted(s, k) == s;
        assert Pad([], x, 1) == [x];
      }
    }
  }

  lemma KeepFirst(key: string, s: seq<string>, k: nat)
    requires k < |s| && s[k] != key
    ensures s[..k + 1] + Pad(Survivors(IsKey(key), s[k + 1..]), s[|s| - 1], |s| - k - 1)
         == s[..k] + Pad(Survivors(IsKey(key), s[k..]), s[|s| - 1], |s| - k)
  {
    DropDrop(s, k, 1);
    TakeOneMore(s, k);
    PadCons(s[..k], s[k], Survivors(IsKey(key), s[k + 1..]), s[|s| - 1], |s| - k - 1);
  }

  lemma PadCons(a: seq<string>, y: string, s: seq<string>, x: string, n: nat)
    requires |s| <= n
    ensures a + [y] + Pad(s, x, n) == a + Pad([y] + s, x, n + 1)
  {
  }

  lemma ShiftFirst(key: string, s: seq<string>, k: nat)
    requires k < |s| - 1 && s[k] == key
    ensures var r := Shifted(s, k);
            r[..k + 1] + Pad(Survivors(IsKey(key), r[k + 1..]), r[|r| - 1], |r| - k - 1)
            == s[..k] + Pad(Survivors(IsKey(key), s[k..]), s[|s| - 1], |s| - k)
  {
    var r, x, w := Shifted(s, k), s[|s| - 1], s[k + 2..];
    DropDrop(s, k, 2);
    assert r[..k + 1] == s[..k] + [s[k + 1]];
    assert r[k + 1..] == w + [x] && r[|r| - 1] == x;
    SurvivorsAppend(IsKey(key), w, x);
    PadMore(Survivors(IsKey(key), w), x, |s| - k - 1);
    PadCons(s[..k], s[k + 1], Survivors(IsKey(key), w), x, |s| - k - 1);
  }

  /**
   The patch for a node that carries the key: every met key is dropped and the finalizer after it
   shielded, and what is then missing at the end is filled up with copies of the last finalizer.
   */
  lemma PatchExactly(key: string, s: seq<string>)
    requires key in s
    ensures |Survivors(IsKey(key), s)| < |s|
    ensures Patched(key, s) == Pad(Survivors(IsKey(key), s), s[|s| - 1], |s| - 1)
  {
    MembersAreDrops(key, s);
    SurvivorsShorter(IsKey(key), s);
    LoopExactly(key, s, 0);
    assert s[0..] == s && s[..0] == [];
    PadTake(Survivors(IsKey(key), s), s[|s| - 1], |s| - 1);
  }

  // ---------------------------------------------------------------------------------------------
  // What that means for the other finalizers.

  lemma {:induction false} CountConcat(f: string, s: seq<string>, t: seq<string>)
    ensures Count(f, s + t) == Count(f, s) + Count(f, t)
  {
    if s == [] {
      assert s + t == t;
    } else {
      assert (s + t)[1..] == s[1..] + t;
      CountConcat(f, s[1..], t);
    }
  }

  lemma {:induction false} CountRepeated(f: string, x: string, n: nat)
    ensures Count(f, seq(n, _ => x)) == if f == x then n else 0
  {
    if n > 0 {
      CountRepeated(f, x, n - 1);
      assert seq(n, _ => x)[1..] == seq(n - 1, _ => x);
    }
  }

  lemma {:induction false} SurvivorsCount(key: string, s: seq<string>, f: string)
    requires f != key
    ensures Count(f, Survivors(IsKey(key), s)) == Count(f, s)
  {
    if s != [] {
      var r := Survivors(IsKey(key), s);
      if s[0] != key {
        SurvivorsCount(key, s[1..], f);
        assert r[1..] == Survivors(IsKey(key), s[1..]);
      } else if |s| > 1 {
        SurvivorsCount(key, s[2..], f);
        assert r[1..] == Survivors(IsKey(key), s[2..]);
        assert s[1..][0] == s[1] && s[1..][1..] == s[2..];
      }
    }
  }

  /** Every other finalizer is there as often as before, but for the copies that fill up the end. */
  lemma OtherFinalizersCount(key: string, s: seq<string>, f: string)
    requires key in s && f != key
    ensures Count(f, Patched(key, s))
         == Count(f, s) + if f == s[|s| - 1] then |s| - 1 - |Survivors(IsKey(key), s)| else 0
  {
    PatchExactly(key, s);
    var left, n := Survivors(IsKey(key), s), |s| - 1;
    CountConcat(f, left, seq(n - |left|, _ => s[n]));
    CountRepeated(f, s[n], n - |left|);
    SurvivorsCount(key, s, f);
  }

  /** The patch holds the same other finalizers as the node. */
  lemma OtherFinalizersUntouched(key: string, s: seq<string>, f: string)
    requires key in s && f != key
    ensures f in Patched(key, s) <==> f in s
  {
    PatchExactly(key, s);
    KeyInPad(Survivors(IsKey(key), s), s[|s| - 1], |s| - 1, f);
    SurvivorMember(IsKey(key), s, f);
  }

  // ---------------------------------------------------------------------------------------------
  // When the patch is right.

  lemma MembersAreDrops(key: string, s: seq<string>)
    ensures key !in s <==> NoneDropped(IsKey(key), s)
  {
    if key in s {
      var i :| 0 <= i < |s| && s[i] == key;
      assert IsKey(key)(s[i]);
    }
  }

  /** For a node that carries the key the patch is one shorter, and right exactly when the key occurs once. */
  lemma PatchIsRemovalIff(key: string, s: seq<string>)
    ensures key in s ==> |Patched(key, s)| == |s| - 1
    ensures Patched(key, s) == Kept(IsKey(key), s) <==> Count(key, s) == 1 || s == []
  {
    KeptLength(key, s);
    if Count(key, s) == 1 {
      OnceIsSeparate(key, s);
      SurvivorsAreKeptIff(IsKey(key), s);
      PatchExactly(key, s);
    }
  }

  lemma {:induction false} OnceIsSeparate(key: string, s: seq<string>)
    requires Count(key, s) <= 1
    ensures NoAdjacentDrops(IsKey(key), s)
  {
    if s != [] {
      OnceIsSeparate(key, s[1..]);
      NoAdjacentTail(IsKey(key), s);
      KeptLength(key, s[1..]);
    }
  }

  /**
   The key is gone from the patch exactly when no two occurrences are neighbours and the last
   finalizer is not a further occurrence.
   */
  lemma KeyClearedIff(key: string, s: seq<string>)
    requires key in s
    ensures key !in Patched(key, s) <==> NoAdjacentDrops(IsKey(key), s) && LastDroppedAlone(IsKey(key), s)
  {
    var left, n := Survivors(IsKey(key), s), |s| - 1;
    PatchExactly(key, s);
    SurvivorsCleanIff(IsKey(key), s);
    MembersAreDrops(key, left);
    assert key in Patched(key, s) <==> key in left || (|left| < n && s[n] == key) by {
      KeyInPad(left, s[n], n, key);
    }
    if NoAdjacentDrops(IsKey(key), s) {
      SurvivorsAreKeptIff(IsKey(key), s);
      if s[n] == key {
        LastOnce(key, s);
      }
    }
  }

  lemma KeyInPad(s: seq<string>, x: string, n: nat, f: string)
    requires |s| <= n
    ensures f in Pad(s, x, n) <==> f in s || (|s| < n && x == f)
  {
    if |s| < n {
      assert Pad(s, x, n)[|s|] == x;
    }
  }

  lemma LastOnce(key: string, s: seq<string>)
    requires s != [] && s[|s| - 1] == key
    ensures |Kept(IsKey(key), s)| == |s| - 1 <==> LastDroppedAlone(IsKey(key), s)
  {
    var front := s[..|s| - 1];
    assert s == front + [key];
    CountConcat(key, front, [key]);
    assert Count(key, [key]) == 1;
    KeptLength(key, s);
    KeptLength(key, front);
    MembersAreDrops(key, front);
  }
}
