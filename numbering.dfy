/** Value allocation and ordering of the auto-number labels, stated over the
    list of their values in list order. */
module Numbering {

  /** The order the manager keeps: every value smaller than the next one,
      hence no value twice. */
  predicate StrictlyAscending(vs: seq<int>)
  {
    forall i, j :: 0 <= i < j < |vs| ==> vs[i] < vs[j]
  }

  /** The value that belongs in the first hole at or after position i: the
      hole is the least k >= i with vs[k] > k + 1 and its value is k + 1;
      -1 when there is none. */
  function HoleFrom(vs: seq<int>, i: nat): (h: int)
    requires i <= |vs|
    ensures h == -1 ==> forall k :: i <= k < |vs| ==> vs[k] <= k + 1
    ensures h != -1 ==> i < h <= |vs| && vs[h - 1] > h
    ensures h != -1 ==> forall k :: i <= k < h - 1 ==> vs[k] <= k + 1
    decreases |vs| - i
  {
    if i == |vs| then -1
    else if vs[i] > i + 1 then i + 1
    else HoleFrom(vs, i + 1)
  }

  /** The value missing at the leftmost position whose value exceeds its
      position plus one, or -1 when every position holds at most that. */
  function FirstHole(vs: seq<int>): (h: int)
    ensures h == -1 <==> forall k :: 0 <= k < |vs| ==> vs[k] <= k + 1
    ensures h != -1 ==> 1 <= h <= |vs| && vs[h - 1] > h
    ensures h != -1 ==> forall k :: 0 <= k < h - 1 ==> vs[k] <= k + 1
  {
    HoleFrom(vs, 0)
  }

  /** The value given to a new label: 1 on an empty list, else the first
      hole, else one more than the last value. */
  function NextValue(vs: seq<int>): (v: int)
    ensures vs == [] ==> v == 1
    ensures vs != [] ==> 1 <= v <= |vs| || v == vs[|vs| - 1] + 1
  {
    if vs == [] then 1
    else
      var h := FirstHole(vs);
      if h >= 0 then h else vs[|vs| - 1] + 1
  }

  /** The three allocation cases: 1 on an empty list; k + 1 for the first
      position k whose value exceeds k + 1; else the last value plus one. */
  lemma NextValueCases(vs: seq<int>)
    ensures vs == [] ==> NextValue(vs) == 1
    ensures forall k :: 0 <= k < |vs| && vs[k] > k + 1 && (forall j :: 0 <= j < k ==> vs[j] <= j + 1) ==> NextValue(vs) == k + 1
    ensures vs != [] && (forall k :: 0 <= k < |vs| ==> vs[k] <= k + 1) ==> NextValue(vs) == vs[|vs| - 1] + 1
  {
    var h := FirstHole(vs);
    forall k | 0 <= k < |vs| && vs[k] > k + 1 && (forall j :: 0 <= j < k ==> vs[j] <= j + 1)
      ensures NextValue(vs) == k + 1
    {
      assert h != -1;
      assert h - 1 >= k;
      assert h - 1 <= k;
    }
  }

  /** Where a value is inserted: before the first value strictly greater
      than it, or at the end. */
  function InsertionPoint(vs: seq<int>, v: int): (p: nat)
    ensures p <= |vs|
    ensures forall j :: 0 <= j < p ==> vs[j] <= v
    ensures p < |vs| ==> vs[p] > v
  {
    if vs == [] || vs[0] > v then 0 else 1 + InsertionPoint(vs[1..], v)
  }

  /** Index of the first non-negative hit result, or -1 when all miss. */
  function FirstHit(rs: seq<int>): (k: int)
    ensures -1 <= k < |rs|
    ensures k == -1 <==> forall j :: 0 <= j < |rs| ==> rs[j] < 0
    ensures k >= 0 ==> rs[k] >= 0 && forall j :: 0 <= j < k ==> rs[j] < 0
  {
    if rs == [] then -1
    else if rs[0] >= 0 then 0
    else
      var k := FirstHit(rs[1..]);
      if k == -1 then -1 else k + 1
  }

  /** Index of the first occurrence of x, or -1 when x does not occur. */
  function IndexOf<T(==)>(s: seq<T>, x: T): (i: int)
    ensures -1 <= i < |s|
    ensures i == -1 <==> x !in s
    ensures i >= 0 ==> s[i] == x && x !in s[..i]
  {
    if s == [] then -1
    else if s[0] == x then 0
    else
      var i := IndexOf(s[1..], x);
      if i == -1 then -1 else i + 1
  }

  /** The list without the first occurrence of x; unchanged when x does not
      occur. */
  function RemoveFirst<T(==)>(s: seq<T>, x: T): (r: seq<T>)
    ensures x !in s ==> r == s
    ensures x in s ==> |r| == |s| - 1
  {
    if s == [] then []
    else if s[0] == x then s[1..]
    else
      assert x in s ==> x in s[1..];
      [s[0]] + RemoveFirst(s[1..], x)
  }

  /** Removal takes exactly one copy of x out of the multiset of elements,
      and nothing else. */
  lemma {:induction false} RemoveFirstMultiset<T>(s: seq<T>, x: T)
    ensures multiset(RemoveFirst(s, x)) == multiset(s) - multiset{x}
  {
    if s != [] {
      assert s == [s[0]] + s[1..];
      if s[0] != x {
        RemoveFirstMultiset(s[1..], x);
      }
    }
  }

  /** Removing the first occurrence cuts the list at the index of x. */
  lemma {:induction false} RemoveFirstAtIndex<T>(s: seq<T>, x: T)
    requires x in s
    ensures RemoveFirst(s, x) == s[..IndexOf(s, x)] + s[IndexOf(s, x) + 1..]
  {
    if s[0] != x {
      var t := s[1..];
      assert x in t by {
        assert s == [s[0]] + t;
      }
      RemoveFirstAtIndex(t, x);
      var i := IndexOf(t, x);
      assert IndexOf(s, x) == i + 1;
      calc {
        RemoveFirst(s, x);
        [s[0]] + RemoveFirst(t, x);
        [s[0]] + (t[..i] + t[i + 1..]);
        ([s[0]] + t[..i]) + t[i + 1..];
        { assert [s[0]] + t[..i] == s[..i + 1]; assert t[i + 1..] == s[i + 2..]; }
        s[..i + 1] + s[i + 2..];
      }
    }
  }

  /** In a strictly ascending list the allocated value is not already used. */
  lemma NextValueFresh(vs: seq<int>)
    requires StrictlyAscending(vs)
    ensures NextValue(vs) !in vs
  {
    if vs != [] {
      var h := FirstHole(vs);
      var v := if h >= 0 then h else vs[|vs| - 1] + 1;
      assert v == NextValue(vs);
      forall j | 0 <= j < |vs|
        ensures vs[j] != v
      {
        if h >= 0 {
          if j > h - 1 {
            assert vs[h - 1] < vs[j];
          }
        } else if j < |vs| - 1 {
          assert vs[j] < vs[|vs| - 1];
        }
      }
    }
  }

  /** A strictly ascending list of positive values has at least k + 1 at
      position k. */
  lemma {:induction false} AscendingFloor(vs: seq<int>, k: nat)
    requires StrictlyAscending(vs)
    requires forall j :: 0 <= j < |vs| ==> vs[j] >= 1
    requires k < |vs|
    ensures vs[k] >= k + 1
  {
    if k > 0 {
      AscendingFloor(vs, k - 1);
      assert vs[k - 1] < vs[k];
    }
  }

  /** For positive values in strictly ascending order, the allocated value is
      the least positive integer not in the list: every value below it is
      taken. This is the gap-reusing numbering the allocation aims at. */
  lemma NextValueLeastMissing(vs: seq<int>)
    requires StrictlyAscending(vs)
    requires forall j :: 0 <= j < |vs| ==> vs[j] >= 1
    ensures NextValue(vs) >= 1 && NextValue(vs) !in vs
    ensures forall m :: 1 <= m < NextValue(vs) ==> m in vs
  {
    NextValueFresh(vs);
    if vs != [] {
      var h := FirstHole(vs);
      var v := if h >= 0 then h else vs[|vs| - 1] + 1;
      assert v == NextValue(vs);
      if h < 0 {
        AscendingFloor(vs, |vs| - 1);
        assert vs[|vs| - 1] <= |vs|;
      }
      // Below the allocated value every position k holds exactly k + 1.
      forall m | 1 <= m < v
        ensures m in vs
      {
        assert m - 1 < |vs|;
        assert vs[m - 1] <= m;
        AscendingFloor(vs, m - 1);
        assert vs[m - 1] == m;
      }
    }
  }

  /** Inserting an absent value at its insertion point keeps the list
      strictly ascending. */
  lemma InsertKeepsAscending(vs: seq<int>, v: int)
    requires StrictlyAscending(vs)
    requires v !in vs
    ensures StrictlyAscending(vs[..InsertionPoint(vs, v)] + [v] + vs[InsertionPoint(vs, v)..])
  {
    var p := InsertionPoint(vs, v);
    var r := vs[..p] + [v] + vs[p..];
    assert |r| == |vs| + 1;
    forall i, j | 0 <= i < j < |r|
      ensures r[i] < r[j]
    {
      InsertedAt(vs, p, v, i);
      InsertedAt(vs, p, v, j);
      if i < p {
        assert vs[i] <= v && vs[i] != v;
        if j > p {
          assert v < vs[p] <= vs[j - 1];
        }
      } else if i == p {
        assert v < vs[p] <= vs[j - 1];
      }
    }
  }

  /** The element at position k of a list with v inserted at position p. */
  lemma InsertedAt(vs: seq<int>, p: nat, v: int, k: nat)
    requires p <= |vs| && k <= |vs|
    ensures (vs[..p] + [v] + vs[p..])[k] == if k < p then vs[k] else if k == p then v else vs[k - 1]
  {
  }

  /** Removing any one value keeps the list strictly ascending. */
  lemma RemoveKeepsAscending(vs: seq<int>, i: nat)
    requires StrictlyAscending(vs)
    requires i < |vs|
    ensures StrictlyAscending(vs[..i] + vs[i + 1..])
  {
    var r := vs[..i] + vs[i + 1..];
    assert forall k :: 0 <= k < |r| ==> r[k] == if k < i then vs[k] else vs[k + 1];
  }

  /** Appending a value above the last one keeps the list strictly ascending. */
  lemma AppendKeepsAscending(vs: seq<int>, v: int)
    requires StrictlyAscending(vs)
    requires vs == [] || vs[|vs| - 1] < v
    ensures StrictlyAscending(vs + [v])
  {
    var r := vs + [v];
    forall i, j | 0 <= i < j < |r|
      ensures r[i] < r[j]
    {
      if j == |vs| && i < |vs| - 1 {
        assert vs[i] < vs[|vs| - 1];
      }
    }
  }

  /** In a strictly ascending list the first hit is the hit with the lowest
      value: overlapping labels resolve to the smaller number. */
  lemma FirstHitIsLowest(vs: seq<int>, rs: seq<int>)
    requires StrictlyAscending(vs)
    requires |rs| == |vs|
    requires FirstHit(rs) >= 0
    ensures forall j :: 0 <= j < |rs| && rs[j] >= 0 ==> vs[FirstHit(rs)] <= vs[j]
  {
    var k := FirstHit(rs);
    forall j | 0 <= j < |rs| && rs[j] >= 0
      ensures vs[k] <= vs[j]
    {
      assert k <= j;
    }
  }

  /** Allocation relies on the order: after a redo appends 2 behind 3, the
      next allocation hands out 2 a second time. */
  lemma UnsortedListReusesValue()
    ensures NextValue([1, 3, 2]) == 2 && 2 in [1, 3, 2]
  {
    assert FirstHole([1, 3, 2]) == 2;
  }

  /** Three typical allocations: 1 on an empty list, the hole in {1, 2, 4},
      the successor of {1, 2, 3}. */
  lemma NextValueExamples()
    ensures NextValue([]) == 1
    ensures NextValue([1, 2, 4]) == 3
    ensures NextValue([1, 2, 3]) == 4
  {
    assert FirstHole([1, 2, 4]) == 3;
    assert FirstHole([1, 2, 3]) == -1;
  }
}
