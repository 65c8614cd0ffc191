/**
 * What `filter_map` computes, stated without computing it: the output holds
 * the images of exactly the kept input positions, each once, in input order.
 */
module Sequences {
  import opened Wrappers

  /**
   * `f` lists, strictly increasing, exactly the positions of `s` that `g`
   * keeps, and `r[k]` is the image of position `f[k]`.
   */
  ghost predicate SelectsVia<S, T>(r: seq<T>, s: seq<S>, g: S -> Option<T>, f: seq<nat>) {
    && |f| == |r|
    && Images(r, s, g, f)
    && Increasing(f)
    && Covers(s, g, f)
  }

  ghost predicate Images<S, T>(r: seq<T>, s: seq<S>, g: S -> Option<T>, f: seq<nat>)
    requires |f| == |r|
  {
    forall k :: 0 <= k < |f| ==> f[k] < |s| && g(s[f[k]]) == Some(r[k])
  }

  ghost predicate Increasing(f: seq<nat>) {
    forall k, l :: 0 <= k < l < |f| ==> f[k] < f[l]
  }

  ghost predicate Covers<S, T>(s: seq<S>, g: S -> Option<T>, f: seq<nat>) {
    forall i :: 0 <= i < |s| && g(s[i]).Some? ==> i in f
  }

  /** `r` is `s.filter_map(g)`. */
  ghost predicate IsFilterMap<S, T>(r: seq<T>, s: seq<S>, g: S -> Option<T>) {
    exists f :: SelectsVia(r, s, g, f)
  }

  /** Helper: associativity of `+`, stated separately to keep callers within the resource limit. */
  lemma ConcatAssociative<T>(a: seq<T>, b: seq<T>, c: seq<T>)
    ensures a + (b + c) == (a + b) + c
  {
  }

  function Shift(f: seq<nat>): (f': seq<nat>)
    ensures |f'| == |f| && forall k :: 0 <= k < |f| ==> f'[k] == f[k] + 1
  {
    seq(|f|, k requires 0 <= k < |f| => f[k] + 1)
  }

  lemma FilterMapEmpty<S, T>(s: seq<S>, g: S -> Option<T>)
    requires |s| == 0
    ensures IsFilterMap([], s, g)
  {
    assert SelectsVia([], s, g, []);
  }

  /** Extending the input by one element in front extends the output by its image, if any. */
  lemma FilterMapCons<S, T>(x: S, t: seq<S>, r: seq<T>, g: S -> Option<T>)
    requires IsFilterMap(r, t, g)
    ensures g(x).None? ==> IsFilterMap(r, [x] + t, g)
    ensures g(x).Some? ==> IsFilterMap([g(x).value] + r, [x] + t, g)
  {
    var f :| SelectsVia(r, t, g, f);
    if g(x).None? {
      ConsSkip(x, t, r, g, f);
    } else {
      ConsKeep(x, t, r, g, f);
    }
  }

  /** One step of a recursive `filter_map`: the head's image, if any, before the tail's outputs. */
  lemma FilterMapStep<S, T>(s: seq<S>, rest: seq<T>, r: seq<T>, g: S -> Option<T>)
    requires |s| > 0 && IsFilterMap(rest, s[1..], g)
    requires r == if g(s[0]).Some? then [g(s[0]).value] + rest else rest
    ensures IsFilterMap(r, s, g)
  {
    assert s == [s[0]] + s[1..];
    FilterMapCons(s[0], s[1..], rest, g);
  }

  lemma ConsSkip<S, T>(x: S, t: seq<S>, r: seq<T>, g: S -> Option<T>, f: seq<nat>)
    requires SelectsVia(r, t, g, f) && g(x).None?
    ensures SelectsVia(r, [x] + t, g, Shift(f))
  {
    var s := [x] + t;
    var f1 := Shift(f);
    ShiftedImages(x, t, r, g, f);
    ShiftedCovers(x, t, g, f);
    assert Covers(s, g, f1) by {
      forall i | 0 <= i < |s| && g(s[i]).Some?
        ensures i in f1
      {
        assert i != 0;
      }
    }
  }

  lemma ConsKeep<S, T>(x: S, t: seq<S>, r: seq<T>, g: S -> Option<T>, f: seq<nat>)
    requires SelectsVia(r, t, g, f) && g(x).Some?
    ensures SelectsVia([g(x).value] + r, [x] + t, g, [0] + Shift(f))
  {
    ShiftedImages(x, t, r, g, f);
    ShiftedCovers(x, t, g, f);
    KeepImages(x, t, r, g, Shift(f));
    KeepCovers(x, t, g, Shift(f));
  }

  lemma KeepImages<S, T>(x: S, t: seq<S>, r: seq<T>, g: S -> Option<T>, f1: seq<nat>)
    requires |f1| == |r| && g(x).Some?
    requires Images(r, [x] + t, g, f1) && Increasing(f1)
    requires forall k :: 0 <= k < |f1| ==> f1[k] > 0
    ensures Images([g(x).value] + r, [x] + t, g, [0] + f1) && Increasing([0] + f1)
  {
    var s, r', f' := [x] + t, [g(x).value] + r, [0] + f1;
    forall k | 0 <= k < |f'|
      ensures f'[k] < |s| && g(s[f'[k]]) == Some(r'[k])
    {
      if k > 0 {
        assert f'[k] == f1[k - 1] && r'[k] == r[k - 1];
      }
    }
    forall k, l | 0 <= k < l < |f'|
      ensures f'[k] < f'[l]
    {
      assert f'[l] == f1[l - 1];
      if k > 0 {
        assert f'[k] == f1[k - 1];
      }
    }
  }

  lemma KeepCovers<S, T>(x: S, t: seq<S>, g: S -> Option<T>, f1: seq<nat>)
    requires forall i :: 1 <= i < |t| + 1 && g(([x] + t)[i]).Some? ==> i in f1
    ensures Covers([x] + t, g, [0] + f1)
  {
    var s, f' := [x] + t, [0] + f1;
    forall i | 0 <= i < |s| && g(s[i]).Some?
      ensures i in f'
    {
      if i > 0 {
        assert i in f1;
      }
    }
  }

  lemma ShiftedImages<S, T>(x: S, t: seq<S>, r: seq<T>, g: S -> Option<T>, f: seq<nat>)
    requires SelectsVia(r, t, g, f)
    ensures Images(r, [x] + t, g, Shift(f)) && Increasing(Shift(f))
    ensures forall k :: 0 <= k < |f| ==> Shift(f)[k] > 0
  {
    var s := [x] + t;
    var f1 := Shift(f);
    forall k | 0 <= k < |f1|
      ensures f1[k] < |s| && g(s[f1[k]]) == Some(r[k])
    {
      assert s[f1[k]] == t[f[k]];
    }
  }

  lemma ShiftedCovers<S, T>(x: S, t: seq<S>, g: S -> Option<T>, f: seq<nat>)
    requires Covers(t, g, f)
    ensures forall i :: 1 <= i < |t| + 1 && g(([x] + t)[i]).Some? ==> i in Shift(f)
  {
    var s := [x] + t;
    var f1 := Shift(f);
    forall i | 1 <= i < |s| && g(s[i]).Some?
      ensures i in f1
    {
      assert s[i] == t[i - 1];
      assert i - 1 in f;
      var k :| 0 <= k < |f| && f[k] == i - 1;
      assert f1[k] == i;
    }
  }

  lemma {:induction false} IncreasingSameElements(f1: seq<nat>, f2: seq<nat>)
    requires Increasing(f1) && Increasing(f2)
    requires forall i :: i in f1 <==> i in f2
    ensures f1 == f2
    decreases |f1|
  {
    assert |f1| > 0 ==> f1[0] in f2;
    assert |f2| > 0 ==> f2[0] in f1;
    if |f1| > 0 && |f2| > 0 {
      assert f1[0] == f2[0] by {
        assert f1[0] in f2 && f2[0] in f1;
        var a :| 0 <= a < |f2| && f2[a] == f1[0];
        var b :| 0 <= b < |f1| && f1[b] == f2[0];
        assert f2[0] <= f2[a] && f1[0] <= f1[b];
      }
      forall i
        ensures i in f1[1..] <==> i in f2[1..]
      {
        if i in f1[1..] {
          var a :| 1 <= a < |f1| && f1[a] == i;
          assert i in f2;
          var c :| 0 <= c < |f2| && f2[c] == i;
          assert c != 0;
        }
        if i in f2[1..] {
          var a :| 1 <= a < |f2| && f2[a] == i;
          assert i in f1;
          var c :| 0 <= c < |f1| && f1[c] == i;
          assert c != 0;
        }
      }
      IncreasingSameElements(f1[1..], f2[1..]);
      assert f1 == [f1[0]] + f1[1..] && f2 == [f2[0]] + f2[1..];
    }
  }

  /** The specification pins the output down: at most one sequence meets it. */
  lemma FilterMapUnique<S, T>(r1: seq<T>, r2: seq<T>, s: seq<S>, g: S -> Option<T>)
    requires IsFilterMap(r1, s, g) && IsFilterMap(r2, s, g)
    ensures r1 == r2
  {
    var f1 :| SelectsVia(r1, s, g, f1);
    var f2 :| SelectsVia(r2, s, g, f2);
    forall i
      ensures i in f1 <==> i in f2
    {
      if i in f1 {
        var k :| 0 <= k < |f1| && f1[k] == i;
      }
      if i in f2 {
        var k :| 0 <= k < |f2| && f2[k] == i;
      }
    }
    IncreasingSameElements(f1, f2);
    forall k | 0 <= k < |r1|
      ensures r1[k] == r2[k]
    {
      assert g(s[f1[k]]) == Some(r1[k]) && g(s[f2[k]]) == Some(r2[k]);
    }
  }
}
