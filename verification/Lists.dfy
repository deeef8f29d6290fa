/** Ordered tables seen as sequences: first match, removal of the first match, projection onto the
    entries that satisfy a predicate, and the subsequence order. */
module Lists {

  /** Position of the first entry satisfying p, or |s| when there is none. */
  function FirstIndex<E>(s: seq<E>, p: E -> bool): (i: nat)
    ensures i <= |s|
    ensures i < |s| ==> p(s[i])
    ensures forall k :: 0 <= k < i ==> !p(s[k])
  {
    if s == [] || p(s[0]) then 0 else 1 + FirstIndex(s[1..], p)
  }

  function RemoveFirst<E>(s: seq<E>, p: E -> bool): (r: seq<E>)
    ensures |r| <= |s|
  {
    if s == [] then []
    else if p(s[0]) then s[1..]
    else [s[0]] + RemoveFirst(s[1..], p)
  }

  function Filter<E>(s: seq<E>, p: E -> bool): (r: seq<E>)
    ensures |r| <= |s|
  {
    if s == [] then []
    else if p(s[0]) then [s[0]] + Filter(s[1..], p)
    else Filter(s[1..], p)
  }

  /** All but the oldest entry; the empty queue stays empty. */
  function Tail<E>(s: seq<E>): seq<E> {
    if s == [] then [] else s[1..]
  }

  /** a can be obtained from b by deleting entries, keeping the order of the rest. */
  predicate Subsequence<E(==)>(a: seq<E>, b: seq<E>) {
    if a == [] then true
    else if b == [] then false
    else if a[0] == b[0] then Subsequence(a[1..], b[1..])
    else Subsequence(a, b[1..])
  }

  lemma FirstIndexUnique<E>(s: seq<E>, p: E -> bool, i: nat)
    requires i <= |s|
    requires i < |s| ==> p(s[i])
    requires forall k :: 0 <= k < i ==> !p(s[k])
    ensures FirstIndex(s, p) == i
  {
    var j := FirstIndex(s, p);
    assert j < |s| ==> p(s[j]);
  }

  /** s without position i. */
  function WithoutIndex<E>(s: seq<E>, i: nat): (r: seq<E>)
    requires i < |s|
    ensures |r| == |s| - 1
    ensures forall k :: 0 <= k < |r| ==> r[k] == s[if k < i then k else k + 1]
  {
    s[..i] + s[i + 1..]
  }

  lemma WithoutIndexCons<E>(x: E, s: seq<E>, i: nat)
    requires i < |s|
    ensures WithoutIndex([x] + s, i + 1) == [x] + WithoutIndex(s, i)
  {
  }

  lemma RemoveFirstCons<E>(x: E, s: seq<E>, p: E -> bool)
    ensures RemoveFirst([x] + s, p) == if p(x) then s else [x] + RemoveFirst(s, p)
    ensures FirstIndex([x] + s, p) == if p(x) then 0 else 1 + FirstIndex(s, p)
  {
    assert ([x] + s)[1..] == s;
  }

  /** Removal of the first match, in terms of its position. */
  lemma {:induction false} RemoveFirstAt<E>(s: seq<E>, p: E -> bool)
    ensures var i := FirstIndex(s, p);
            RemoveFirst(s, p) == if i < |s| then WithoutIndex(s, i) else s
  {
    if s != [] {
      var x, t := s[0], s[1..];
      assert s == [x] + t;
      RemoveFirstCons(x, t, p);
      if !p(x) {
        RemoveFirstAt(t, p);
        var j := FirstIndex(t, p);
        if j < |t| {
          WithoutIndexCons(x, t, j);
        }
      }
    }
  }

  /** What is removed is the oldest entry of its own projection. */
  lemma {:induction false} FilterRemoved<E>(s: seq<E>, p: E -> bool)
    ensures Filter(RemoveFirst(s, p), p) == Tail(Filter(s, p))
    ensures var i := FirstIndex(s, p);
            i < |s| <==> Filter(s, p) != []
    ensures var i := FirstIndex(s, p);
            i < |s| ==> Filter(s, p)[0] == s[i]
  {
    if s != [] && !p(s[0]) {
      FilterRemoved(s[1..], p);
      assert RemoveFirst(s, p)[1..] == RemoveFirst(s[1..], p);
    }
  }

  /** Other projections do not see the removal. */
  lemma {:induction false} FilterKept<E>(s: seq<E>, p: E -> bool, q: E -> bool)
    requires forall k :: 0 <= k < |s| ==> !(p(s[k]) && q(s[k]))
    ensures Filter(RemoveFirst(s, p), q) == Filter(s, q)
  {
    if s != [] && !p(s[0]) {
      forall k | 0 <= k < |s[1..]| ensures !(p(s[1..][k]) && q(s[1..][k])) {
        assert s[1..][k] == s[k + 1];
      }
      FilterKept(s[1..], p, q);
      assert RemoveFirst(s, p)[1..] == RemoveFirst(s[1..], p);
    }
  }

  lemma {:induction false} FilterAppend<E>(s: seq<E>, t: seq<E>, p: E -> bool)
    ensures Filter(s + t, p) == Filter(s, p) + Filter(t, p)
  {
    if s == [] {
      assert s + t == t;
    } else {
      assert (s + t)[1..] == s[1..] + t;
      FilterAppend(s[1..], t, p);
    }
  }

  lemma FilterAppendOne<E>(s: seq<E>, x: E, p: E -> bool)
    ensures Filter(s + [x], p) == if p(x) then Filter(s, p) + [x] else Filter(s, p)
  {
    FilterAppend(s, [x], p);
  }

  lemma {:induction false} FilterEmpty<E>(s: seq<E>, p: E -> bool)
    ensures Filter(s, p) == [] <==> forall k :: 0 <= k < |s| ==> !p(s[k])
  {
    if s != [] {
      FilterEmpty(s[1..], p);
      assert forall k :: 0 <= k < |s[1..]| ==> s[1..][k] == s[k + 1];
      assert Filter(s, p) == [] ==> forall k :: 1 <= k < |s| ==> s[k] == s[1..][k - 1];
    }
  }

  lemma {:induction false} FilterMembers<E>(s: seq<E>, p: E -> bool)
    ensures forall x :: x in Filter(s, p) <==> x in s && p(x)
  {
    if s != [] {
      FilterMembers(s[1..], p);
      assert s == [s[0]] + s[1..];
    }
  }

  /** A removal deletes at most one entry of any projection and keeps the order of the rest. */
  lemma {:induction false} FilterSubsequence<E>(s: seq<E>, p: E -> bool, q: E -> bool)
    ensures Subsequence(Filter(RemoveFirst(s, p), q), Filter(s, q))
  {
    if s == [] {
    } else if p(s[0]) {
      SubsequenceRefl(Filter(s[1..], q));
      if q(s[0]) {
        SubsequenceWeaken(Filter(s[1..], q), Filter(s[1..], q), s[0]);
      }
    } else {
      FilterSubsequence(s[1..], p, q);
      assert RemoveFirst(s, p)[1..] == RemoveFirst(s[1..], p);
    }
  }

  /** Which projections a removal shortens, and by which entry. */
  lemma {:induction false} FilterLoses<E>(s: seq<E>, p: E -> bool, q: E -> bool)
    ensures var i := FirstIndex(s, p);
            if i < |s| && q(s[i])
            then && |Filter(s, q)| == |Filter(RemoveFirst(s, p), q)| + 1
                 && multiset(Filter(s, q)) == multiset(Filter(RemoveFirst(s, p), q)) + multiset{s[i]}
            else Filter(s, q) == Filter(RemoveFirst(s, p), q)
  {
    if s == [] {
    } else if p(s[0]) {
    } else {
      FilterLoses(s[1..], p, q);
      assert RemoveFirst(s, p)[1..] == RemoveFirst(s[1..], p);
      assert FirstIndex(s, p) == 1 + FirstIndex(s[1..], p);
    }
  }

  lemma {:induction false} RemoveFirstAppendAbsent<E>(s: seq<E>, x: E, p: E -> bool)
    ensures RemoveFirst(s + [x], p) ==
            if Filter(s, p) != [] then RemoveFirst(s, p) + [x] else if p(x) then s else s + [x]
  {
    if s != [] {
      assert (s + [x])[1..] == s[1..] + [x];
      if !p(s[0]) {
        RemoveFirstAppendAbsent(s[1..], x, p);
        assert [s[0]] + s[1..] == s;
      }
    }
  }

  lemma {:induction false} RemovalsCommute<E>(s: seq<E>, p: E -> bool, q: E -> bool)
    requires forall k :: 0 <= k < |s| ==> !(p(s[k]) && q(s[k]))
    ensures RemoveFirst(RemoveFirst(s, p), q) == RemoveFirst(RemoveFirst(s, q), p)
  {
    if s != [] && !p(s[0]) && !q(s[0]) {
      forall k | 0 <= k < |s[1..]| ensures !(p(s[1..][k]) && q(s[1..][k])) {
        assert s[1..][k] == s[k + 1];
      }
      RemovalsCommute(s[1..], p, q);
      assert RemoveFirst(s, p)[1..] == RemoveFirst(s[1..], p);
      assert RemoveFirst(s, q)[1..] == RemoveFirst(s[1..], q);
    } else if s != [] && p(s[0]) {
      assert RemoveFirst(s, q) == [s[0]] + RemoveFirst(s[1..], q);
    } else if s != [] {
      assert RemoveFirst(s, p) == [s[0]] + RemoveFirst(s[1..], p);
    }
  }

  /** Two predicates that agree on the entries remove the same entry. */
  lemma {:induction false} RemoveFirstSame<E>(s: seq<E>, p: E -> bool, q: E -> bool)
    requires forall k :: 0 <= k < |s| ==> (p(s[k]) <==> q(s[k]))
    ensures RemoveFirst(s, p) == RemoveFirst(s, q)
    ensures FirstIndex(s, p) == FirstIndex(s, q)
  {
    if s != [] {
      forall k | 0 <= k < |s[1..]| ensures p(s[1..][k]) <==> q(s[1..][k]) {
        assert s[1..][k] == s[k + 1];
      }
      RemoveFirstSame(s[1..], p, q);
    }
  }

  lemma {:induction false} SubsequenceRefl<E>(a: seq<E>)
    ensures Subsequence(a, a)
  {
    if a != [] {
      SubsequenceRefl(a[1..]);
    }
  }

  lemma {:induction false} SubsequenceTail<E>(a: seq<E>, b: seq<E>)
    requires a != [] && Subsequence(a, b)
    ensures Subsequence(a[1..], b)
    decreases |b|, 0
  {
    if a[0] == b[0] {
      SubsequenceWeaken(a[1..], b[1..], b[0]);
      assert [b[0]] + b[1..] == b;
    } else {
      SubsequenceTail(a, b[1..]);
      SubsequenceWeaken(a[1..], b[1..], b[0]);
      assert [b[0]] + b[1..] == b;
    }
  }

  lemma {:induction false} SubsequenceWeaken<E>(a: seq<E>, b: seq<E>, x: E)
    requires Subsequence(a, b)
    ensures Subsequence(a, [x] + b)
    decreases |b|, 1
  {
    assert ([x] + b)[1..] == b;
    if a != [] && a[0] == x {
      SubsequenceTail(a, b);
    }
  }

  lemma {:induction false} SubsequenceTrans<E>(a: seq<E>, b: seq<E>, c: seq<E>)
    requires Subsequence(a, b) && Subsequence(b, c)
    ensures Subsequence(a, c)
    decreases |c|
  {
    if a != [] {
      assert b != [];
      if b[0] != c[0] {
        SubsequenceTrans(a, b, c[1..]);
        SubsequenceWeaken(a, c[1..], c[0]);
        assert [c[0]] + c[1..] == c;
      } else if a[0] == b[0] {
        SubsequenceTrans(a[1..], b[1..], c[1..]);
      } else {
        SubsequenceTrans(a, b[1..], c[1..]);
      }
    }
  }

  lemma {:induction false} SubsequenceAppend<E>(a: seq<E>, b: seq<E>, t: seq<E>)
    requires Subsequence(a, b)
    ensures Subsequence(a + t, b + t)
    decreases |b|
  {
    if b == [] {
      SubsequenceRefl(t);
      assert a + t == t && b + t == t;
    } else {
      assert (b + t)[1..] == b[1..] + t;
      if a != [] && a[0] == b[0] {
        assert (a + t)[1..] == a[1..] + t;
        SubsequenceAppend(a[1..], b[1..], t);
      } else {
        SubsequenceAppend(a, b[1..], t);
        SubsequenceWeaken(a + t, b[1..] + t, b[0]);
        assert [b[0]] + (b[1..] + t) == b + t;
      }
    }
  }

  lemma {:induction false} SubsequencePrepend<E>(t: seq<E>, a: seq<E>, b: seq<E>)
    requires Subsequence(a, b)
    ensures Subsequence(t + a, t + b)
  {
    if t == [] {
      assert t + a == a && t + b == b;
    } else {
      SubsequencePrepend(t[1..], a, b);
      assert (t + a)[1..] == t[1..] + a && (t + b)[1..] == t[1..] + b;
    }
  }

  lemma {:induction false} SubsequenceLength<E>(a: seq<E>, b: seq<E>)
    requires Subsequence(a, b)
    ensures |a| <= |b|
    ensures |a| == |b| ==> a == b
  {
    if a != [] {
      if a[0] == b[0] {
        SubsequenceLength(a[1..], b[1..]);
        assert a == [a[0]] + a[1..] && b == [b[0]] + b[1..];
      } else {
        SubsequenceLength(a, b[1..]);
      }
    }
  }

  /** Moving position i to the end with a new value changes nothing only when all entries from i on
      already have that value. */
  lemma ShiftAppendFixed<E>(s: seq<E>, i: nat, e: E)
    requires i < |s|
    ensures WithoutIndex(s, i) + [e] == s <==> forall k :: i <= k < |s| ==> s[k] == e
  {
    var r := WithoutIndex(s, i) + [e];
    if r == s {
      var k := |s| - 1;
      while k > i
        invariant i <= k < |s|
        invariant forall j :: k <= j < |s| ==> s[j] == e
      {
        assert r[k - 1] == s[k];
        k := k - 1;
      }
    }
  }

  lemma Regroup<E>(a: seq<E>, b: seq<E>, c: seq<E>, d: seq<E>, e: seq<E>)
    requires b + c == d + e
    ensures (a + b) + c == (a + d) + e
  {
    assert (a + b) + c == a + (b + c);
    assert (a + d) + e == a + (d + e);
  }
}
