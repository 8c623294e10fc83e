/**
 * Level generation (connecting-wires/app.js, `initGame`): how many wires a
 * level has, and which wire types the two columns show.
 *
 * The two `Math.random` comparator sorts are not modelled as algorithms: each
 * sort is represented by the permutation of positions it produced, an input
 * constrained only to be a permutation (`IsPermutation`).
 */
module Levels {
  import opened Catalog

  function Min(a: int, b: int): int { if a < b then a else b }

  /** `Math.min(wireTypes.length, 3 + Math.floor(level / 2))`. For a positive
    * divisor Dafny's `/` is floor division, as `Math.floor(level / 2)` is. */
  function WireCount(level: int): (n: int)
    ensures n <= |WireTypes|
    ensures level >= 1 ==> 3 <= n
    ensures n == |WireTypes| <==> level >= 10
  {
    Min(|WireTypes|, 3 + level / 2)
  }

  /** More levels never mean fewer wires. */
  lemma WireCountMonotone(a: int, b: int)
    requires a <= b
    ensures WireCount(a) <= WireCount(b)
  {
  }

  /** The first levels: 3 wires on level 1, 4 on level 2, 5 on level 4, 8 from level 10 on. */
  lemma WireCountExamples()
    ensures WireCount(1) == 3 && WireCount(2) == 4 && WireCount(3) == 4
    ensures WireCount(4) == 5 && WireCount(9) == 7 && WireCount(10) == 8 && WireCount(20) == 8
  {
  }

  predicate Distinct<T(==)>(s: seq<T>) {
    forall i, j :: 0 <= i < j < |s| ==> s[i] != s[j]
  }

  /** `p` lists each of the positions `0 .. n-1` once: the outcome of a sort of `n` items. */
  predicate IsPermutation(p: seq<int>, n: int) {
    |p| == n && (forall i :: 0 <= i < |p| ==> 0 <= p[i] < n) && Distinct(p)
  }

  /** The items of `s` in the order `p` gives. */
  function Permute<T>(s: seq<T>, p: seq<int>): (r: seq<T>)
    requires IsPermutation(p, |s|)
    ensures |r| == |s| && forall i :: 0 <= i < |r| ==> r[i] == s[p[i]]
  {
    seq(|p|, i requires 0 <= i < |p| => s[p[i]])
  }

  /** A repetition-free sequence of `|p|` values has a set of `|p|` values. */
  lemma {:induction false} DistinctSetSize(p: seq<int>)
    requires Distinct(p)
    ensures |set x | x in p| == |p|
  {
    if p != [] {
      var rest := p[1..];
      assert Distinct(rest) by {
        forall i, j | 0 <= i < j < |rest| ensures rest[i] != rest[j] {
          assert rest[i] == p[i + 1] && rest[j] == p[j + 1];
        }
      }
      DistinctSetSize(rest);
      assert p[0] !in rest by {
        forall k | 0 <= k < |rest| ensures rest[k] != p[0] {
          assert rest[k] == p[k + 1];
        }
      }
      assert (set x | x in p) == (set x | x in rest) + {p[0]};
    }
  }

  /** The positions below `n`. */
  function Below(n: nat): (r: set<int>)
    ensures forall j :: j in r <==> 0 <= j < n
  {
    if n == 0 then {} else Below(n - 1) + {n - 1}
  }

  /** There are `n` positions below `n`. */
  lemma {:induction false} RangeSize(n: nat)
    ensures |Below(n)| == n
  {
    if n > 0 {
      RangeSize(n - 1);
    }
  }

  /** A subset is no larger than its superset. */
  lemma SubsetSize<T>(a: set<T>, b: set<T>)
    requires a <= b
    ensures |a| <= |b|
  {
    assert b == a + (b - a);
  }

  /** Pigeonhole: a permutation of `0 .. n-1` reaches every position. */
  lemma PermutationOnto(p: seq<int>, n: nat)
    requires IsPermutation(p, n)
    ensures forall j :: 0 <= j < n ==> j in p
  {
    var used := set x | x in p;
    var range := Below(n);
    DistinctSetSize(p);
    RangeSize(n);
    forall j | 0 <= j < n ensures j in p {
      if j !in p {
        assert used <= range - {j};
        SubsetSize(used, range - {j});
        assert false;
      }
    }
  }

  /** A repetition-free sequence holds each value at most once. */
  lemma {:induction false} DistinctAtMostOnce<T>(t: seq<T>, x: T)
    requires Distinct(t)
    ensures multiset(t)[x] <= 1
  {
    if t != [] {
      var rest := t[1..];
      assert t == [t[0]] + rest;
      assert Distinct(rest) by {
        forall i, j | 0 <= i < j < |rest| ensures rest[i] != rest[j] {
          assert rest[i] == t[i + 1] && rest[j] == t[j + 1];
        }
      }
      DistinctAtMostOnce(rest, x);
      if t[0] == x {
        assert x !in rest by {
          forall k | 0 <= k < |rest| ensures rest[k] != x {
            assert rest[k] == t[k + 1];
          }
        }
      }
    }
  }

  /** Reordering a repetition-free sequence keeps it repetition-free, keeps
    * its values, and so keeps its multiset. */
  lemma PermuteKeepsItems<T>(s: seq<T>, p: seq<int>)
    requires IsPermutation(p, |s|) && Distinct(s)
    ensures Distinct(Permute(s, p))
    ensures forall x :: x in Permute(s, p) <==> x in s
    ensures multiset(Permute(s, p)) == multiset(s)
  {
    var r := Permute(s, p);
    forall i, j | 0 <= i < j < |r| ensures r[i] != r[j] {
      assert p[i] != p[j];
      if p[i] < p[j] {
        assert s[p[i]] != s[p[j]];
      } else {
        assert s[p[j]] != s[p[i]];
      }
    }
    PermutationOnto(p, |s|);
    forall x ensures x in r <==> x in s {
      if x in s {
        var j :| 0 <= j < |s| && s[j] == x;
        assert j in p;
        var i :| 0 <= i < |p| && p[i] == j;
        assert r[i] == x;
      }
    }
    forall x ensures multiset(r)[x] == multiset(s)[x] {
      DistinctAtMostOnce(r, x);
      DistinctAtMostOnce(s, x);
      assert x in r <==> x in multiset(r);
      assert x in s <==> x in multiset(s);
    }
  }

  /**
   * The randomness `initGame` consumes on `level`: `order` is the order the
   * sort of line 52 put the catalog in, `rightOrder` the order the sort of
   * line 57 put the level's wires in.
   */
  predicate IsDeal(level: int, order: seq<int>, rightOrder: seq<int>) {
    level >= 1 && IsPermutation(order, |WireTypes|) && IsPermutation(rightOrder, WireCount(level))
  }

  /** Lines 51-53: the left column's wire types, a prefix of the shuffled catalog. */
  function LevelWires(level: int, order: seq<int>): seq<WireType>
    requires level >= 1 && IsPermutation(order, |WireTypes|)
  {
    Permute(WireTypes, order)[..WireCount(level)]
  }

  /** Line 57: the right column's wire types, the left column's reshuffled. */
  function RightWires(level: int, order: seq<int>, rightOrder: seq<int>): seq<WireType>
    requires IsDeal(level, order, rightOrder)
  {
    Permute(LevelWires(level, order), rightOrder)
  }

  /** Reordering keeps colours pairwise distinct. */
  lemma PermuteKeepsColorsDistinct(s: seq<WireType>, p: seq<int>)
    requires IsPermutation(p, |s|) && ColorsDistinct(s)
    ensures ColorsDistinct(Permute(s, p))
  {
    var r := Permute(s, p);
    forall i, j | 0 <= i < j < |r| ensures r[i].color != r[j].color {
      assert p[i] != p[j];
      if p[i] < p[j] {
        assert s[p[i]].color != s[p[j]].color;
      } else {
        assert s[p[j]].color != s[p[i]].color;
      }
    }
  }

  /** A prefix of a reordering of a palette with distinct colours: distinct
    * entries of the palette, with distinct colours. */
  lemma ShuffledPrefix(palette: seq<WireType>, order: seq<int>, n: nat)
    requires IsPermutation(order, |palette|) && ColorsDistinct(palette) && n <= |palette|
    ensures var ws := Permute(palette, order)[..n];
      |ws| == n && (forall w :: w in ws ==> w in palette) && Distinct(ws) && ColorsDistinct(ws)
  {
    var shuffled := Permute(palette, order);
    assert Distinct(palette) by {
      forall i, j | 0 <= i < j < |palette| ensures palette[i] != palette[j] {
        assert palette[i].color != palette[j].color;
      }
    }
    PermuteKeepsItems(palette, order);
    PermuteKeepsColorsDistinct(palette, order);
    var ws := shuffled[..n];
    assert forall w :: w in ws ==> w in shuffled;
  }

  /** The left column of a deal: `WireCount(level)` distinct catalog entries
    * with pairwise distinct colours. */
  lemma LevelWiresLayout(level: int, order: seq<int>)
    requires level >= 1 && IsPermutation(order, |WireTypes|)
    ensures var ws := LevelWires(level, order);
      3 <= |ws| == WireCount(level) <= 8 &&
      (forall w :: w in ws ==> w in WireTypes) &&
      Distinct(ws) && ColorsDistinct(ws)
  {
    CatalogColorsDistinct();
    ShuffledPrefix(WireTypes, order, WireCount(level));
  }

  /** Every pair of columns a deal can produce: each side holds `WireCount(level)`
    * catalog entries with pairwise distinct colours, and the right side holds
    * exactly the entries of the left side. */
  lemma DealLayout(level: int, order: seq<int>, rightOrder: seq<int>)
    requires IsDeal(level, order, rightOrder)
    ensures var ws, rs := LevelWires(level, order), RightWires(level, order, rightOrder);
      3 <= |ws| == |rs| == WireCount(level) <= 8 &&
      (forall w :: w in ws ==> w in WireTypes) &&
      (forall w :: w in rs <==> w in ws) &&
      multiset(rs) == multiset(ws) &&
      ColorsDistinct(ws) && ColorsDistinct(rs)
  {
    var ws := LevelWires(level, order);
    LevelWiresLayout(level, order);
    PermuteKeepsItems(ws, rightOrder);
    ColorsDistinctSubset(RightWires(level, order, rightOrder), ws);
  }

  /** Distinct entries drawn from a sequence with distinct colours have distinct colours. */
  lemma ColorsDistinctSubset(rs: seq<WireType>, ws: seq<WireType>)
    requires Distinct(rs) && ColorsDistinct(ws) && forall w :: w in rs ==> w in ws
    ensures ColorsDistinct(rs)
  {
    forall i, j | 0 <= i < j < |rs| ensures rs[i].color != rs[j].color {
      assert rs[i] in ws && rs[j] in ws;
      var a :| 0 <= a < |ws| && ws[a] == rs[i];
      var b :| 0 <= b < |ws| && ws[b] == rs[j];
      assert a != b;
      if a < b {
        assert ws[a].color != ws[b].color;
      } else {
        assert ws[b].color != ws[a].color;
      }
    }
  }
}
