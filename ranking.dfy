/**
 * Stable descending order by a numeric key, as produced by JavaScript's
 * `Array.prototype.sort` with the comparator `(a, b) => key(b) - key(a)`
 * (stable since ES2019) and used for the server's "newest first" listings.
 * Ranking works on positions: `Rank(keys)` lists the indices of `keys`
 * from the highest key to the lowest, equal keys in their original order.
 */
module Ranking {

  /** Index `i` comes before index `j`: a higher key, or an equal key and an earlier position. */
  predicate Before(keys: seq<real>, i: nat, j: nat)
    requires i < |keys| && j < |keys|
  {
    keys[i] > keys[j] || (keys[i] == keys[j] && i < j)
  }

  /** Every entry of `s` is an index of `keys`. */
  predicate InRange(keys: seq<real>, s: seq<nat>)
  {
    forall k :: 0 <= k < |s| ==> s[k] < |keys|
  }

  /** `s` lists indices of `keys` in strictly increasing `Before` order (so without repeats). */
  predicate Ranked(keys: seq<real>, s: seq<nat>)
  {
    InRange(keys, s) && forall a, b :: 0 <= a < b < |s| ==> Before(keys, s[a], s[b])
  }

  /** No entry of `s` repeats. */
  predicate Distinct(s: seq<nat>)
  {
    forall a, b :: 0 <= a < b < |s| ==> s[a] != s[b]
  }

  /** The indices `0 .. n-1` in order. */
  function Indices(n: nat): (r: seq<nat>)
    ensures |r| == n
    ensures forall i :: 0 <= i < n ==> r[i] == i
  {
    if n == 0 then [] else Indices(n - 1) + [n - 1]
  }

  /** Inserts index `x` into a list at the place `Before` gives it. */
  function Insert(keys: seq<real>, x: nat, s: seq<nat>): seq<nat>
    requires x < |keys| && InRange(keys, s)
    decreases |s|
  {
    if s == [] || Before(keys, x, s[0]) then [x] + s
    else [s[0]] + Insert(keys, x, s[1..])
  }

  /** Insertion adds exactly `x`. */
  lemma {:induction false} InsertCount(keys: seq<real>, x: nat, s: seq<nat>)
    requires x < |keys| && InRange(keys, s)
    ensures multiset(Insert(keys, x, s)) == multiset(s) + multiset{x}
    decreases |s|
  {
    if s != [] && !Before(keys, x, s[0]) {
      InsertCount(keys, x, s[1..]);
      assert s == [s[0]] + s[1..];
    }
  }

  /** Every entry of an insertion is `x` or an entry of the original list. */
  lemma {:induction false} InsertMembers(keys: seq<real>, x: nat, s: seq<nat>, y: nat)
    requires x < |keys| && InRange(keys, s)
    requires y in Insert(keys, x, s)
    ensures y == x || y in s
    decreases |s|
  {
    if s != [] && !Before(keys, x, s[0]) && y != s[0] {
      InsertMembers(keys, x, s[1..], y);
    }
  }

  /** The head of a ranked list comes before every later entry. */
  lemma HeadBeatsRest(keys: seq<real>, s: seq<nat>, y: nat)
    requires Ranked(keys, s) && |s| > 0 && y in s[1..]
    ensures s[0] < |keys| && y < |keys| && Before(keys, s[0], y)
  {
    var m :| 0 <= m < |s[1..]| && s[1..][m] == y;
    assert s[m + 1] == y;
  }

  /** An index that comes before every entry of a ranked list can be put in front of it. */
  lemma PrependRanked(keys: seq<real>, h: nat, t: seq<nat>)
    requires h < |keys| && Ranked(keys, t)
    requires forall k :: 0 <= k < |t| ==> Before(keys, h, t[k])
    ensures Ranked(keys, [h] + t)
  {
    var r := [h] + t;
    forall k | 0 <= k < |r| ensures r[k] < |keys| {
      if k > 0 { assert r[k] == t[k - 1]; }
    }
    forall a, b | 0 <= a < b < |r| ensures Before(keys, r[a], r[b]) {
      assert r[b] == t[b - 1];
      if a > 0 { assert r[a] == t[a - 1]; }
    }
  }

  /** Inserting a new index into a ranked list keeps it ranked. */
  lemma {:induction false} InsertRanked(keys: seq<real>, x: nat, s: seq<nat>)
    requires x < |keys| && Ranked(keys, s) && x !in s
    ensures Ranked(keys, Insert(keys, x, s))
    decreases |s|
  {
    if s == [] || Before(keys, x, s[0]) {
      if s != [] {
        forall k | 0 <= k < |s| ensures Before(keys, x, s[k]) {
          if k > 0 { HeadBeatsRest(keys, s, s[k]); }
        }
      }
      PrependRanked(keys, x, s);
    } else {
      var t := Insert(keys, x, s[1..]);
      assert Ranked(keys, s[1..]) by {
        forall a, b | 0 <= a < b < |s[1..]| ensures Before(keys, s[1..][a], s[1..][b]) {
          assert s[1..][a] == s[a + 1] && s[1..][b] == s[b + 1];
        }
      }
      InsertRanked(keys, x, s[1..]);
      forall k | 0 <= k < |t| ensures Before(keys, s[0], t[k]) {
        InsertMembers(keys, x, s[1..], t[k]);
        if t[k] != x { HeadBeatsRest(keys, s, t[k]); }
      }
      PrependRanked(keys, s[0], t);
    }
  }

  /** Insertion sort of distinct indices into `Before` order. */
  function Sort(keys: seq<real>, s: seq<nat>): (r: seq<nat>)
    requires InRange(keys, s) && Distinct(s)
    ensures multiset(r) == multiset(s)
    ensures Ranked(keys, r)
    decreases |s|
  {
    if s == [] then []
    else
      var t := Sort(keys, s[1..]);
      assert s[0] !in s[1..];
      assert s[0] !in multiset(t);
      assert s == [s[0]] + s[1..];
      InsertCount(keys, s[0], t);
      InsertRanked(keys, s[0], t);
      Insert(keys, s[0], t)
  }

  /** Every index of `keys`, from the highest key to the lowest; ties keep their order. */
  function Rank(keys: seq<real>): (r: seq<nat>)
    ensures |r| == |keys|
    ensures Ranked(keys, r)
    ensures forall i :: 0 <= i < |keys| ==> i in r
  {
    var ix := Indices(|keys|);
    var r := Sort(keys, ix);
    assert forall i :: 0 <= i < |keys| ==> i in r by {
      forall i | 0 <= i < |keys| ensures i in r {
        assert ix[i] == i;
        assert i in multiset(ix);
        assert i in multiset(r);
      }
    }
    assert |r| == |multiset(r)| == |multiset(ix)| == |ix|;
    r
  }

  /** The first `k` indices of the ranking: the `k` highest keys, ties by position. */
  function Top(keys: seq<real>, k: nat): (r: seq<nat>)
    ensures |r| == if |keys| <= k then |keys| else k
    ensures Ranked(keys, r)
  {
    var full := Rank(keys);
    if |full| <= k then full else full[..k]
  }

  /** Whatever `Top` keeps beats whatever it leaves out: its key is at least as high,
      and on a tie it stood earlier. */
  lemma TopBeatsRest(keys: seq<real>, k: nat, i: nat, j: nat)
    requires i in Top(keys, k)
    requires j < |keys| && j !in Top(keys, k)
    ensures i < |keys| && Before(keys, i, j)
    ensures keys[i] >= keys[j]
  {
    var full := Rank(keys);
    var top := Top(keys, k);
    assert j in full;
    var q :| 0 <= q < |full| && full[q] == j;
    var p :| 0 <= p < |top| && top[p] == i;
    assert full[p] == i;
  }
}
