/** Ascending sets of object ids (the code's java.util.TreeSet<Integer>),
    modelled as strictly increasing sequences. */
module OrderedSets {

  predicate Sorted(s: seq<int>) {
    forall i, j :: 0 <= i < j < |s| ==> s[i] < s[j]
  }

  function Elems(s: seq<int>): set<int> {
    set x | x in s
  }

  /** TreeSet.add: the sequence stays strictly increasing and gains exactly x. */
  function Insert(s: seq<int>, x: int): (r: seq<int>)
    requires Sorted(s)
    ensures Sorted(r)
    ensures Elems(r) == Elems(s) + {x}
    ensures |r| == if x in s then |s| else |s| + 1
  {
    InsertSorted(s, x);
    InsertElems(s, x);
    InsertSize(s, x);
    Place(s, x)
  }

  /** x placed before the first element not below it, unless already there. */
  function Place(s: seq<int>, x: int): seq<int>
    decreases |s|
  {
    if s == [] then [x]
    else if x < s[0] then [x] + s
    else if x == s[0] then s
    else [s[0]] + Place(s[1..], x)
  }

  lemma {:induction false} InsertElems(s: seq<int>, x: int)
    ensures Elems(Place(s, x)) == Elems(s) + {x}
    decreases |s|
  {
    if s != [] {
      assert s == [s[0]] + s[1..];
      ConsElems(s[0], s[1..]);
      if x < s[0] {
        ConsElems(x, s);
      } else if x > s[0] {
        InsertElems(s[1..], x);
        ConsElems(s[0], Place(s[1..], x));
      }
    }
  }

  lemma {:induction false} InsertSorted(s: seq<int>, x: int)
    requires Sorted(s)
    ensures Sorted(Place(s, x))
    decreases |s|
  {
    if s != [] {
      TailAbove(s);
      if x < s[0] {
        assert forall k :: 0 <= k < |s| ==> x < s[k];
        ConsSorted(x, s);
      } else if x > s[0] {
        var t := Place(s[1..], x);
        InsertSorted(s[1..], x);
        InsertElems(s[1..], x);
        Above(s[0], t);
        ConsSorted(s[0], t);
      }
    }
  }

  lemma {:induction false} InsertSize(s: seq<int>, x: int)
    requires Sorted(s)
    ensures |Place(s, x)| == if x in s then |s| else |s| + 1
    decreases |s|
  {
    if s != [] {
      TailAbove(s);
      assert s == [s[0]] + s[1..];
      ConsElems(s[0], s[1..]);
      if x < s[0] {
        assert x !in Elems(s);
      } else if x > s[0] {
        InsertSize(s[1..], x);
        assert x in s <==> x in s[1..];
      }
    }
  }

  lemma {:induction false} ConsElems(y: int, t: seq<int>)
    ensures Elems([y] + t) == {y} + Elems(t)
  {
    assert forall z :: z in [y] + t <==> z == y || z in t;
  }

  /** Every element of a sorted sequence's tail exceeds its head. */
  lemma {:induction false} TailAbove(s: seq<int>)
    requires Sorted(s) && s != []
    ensures Sorted(s[1..])
    ensures forall z :: z in Elems(s[1..]) ==> s[0] < z
  {
    forall z | z in Elems(s[1..]) ensures s[0] < z {
      var k :| 0 <= k < |s[1..]| && s[1..][k] == z;
      assert s[k + 1] == z;
    }
  }

  /** A bound on a sequence's elements bounds each position. */
  lemma {:induction false} Above(y: int, t: seq<int>)
    requires forall z :: z in Elems(t) ==> y < z
    ensures forall k :: 0 <= k < |t| ==> y < t[k]
  {
    forall k | 0 <= k < |t| ensures y < t[k] {
      assert t[k] in Elems(t);
    }
  }

  lemma {:induction false} ConsSorted(y: int, t: seq<int>)
    requires Sorted(t) && forall k :: 0 <= k < |t| ==> y < t[k]
    ensures Sorted([y] + t)
  {
    var r := [y] + t;
    forall i, j | 0 <= i < j < |r| ensures r[i] < r[j] {
      if i == 0 {
        assert r[j] == t[j - 1];
      } else {
        assert r[i] == t[i - 1] && r[j] == t[j - 1];
      }
    }
  }

  /** A strictly increasing sequence lists each of its elements once. */
  lemma {:induction false} SortedSize(s: seq<int>)
    requires Sorted(s)
    ensures |Elems(s)| == |s|
    decreases |s|
  {
    if s != [] {
      SortedSize(s[1..]);
      assert Elems(s) == {s[0]} + Elems(s[1..]);
      assert s[0] !in Elems(s[1..]);
    }
  }

  /** The i-th element of a strictly increasing sequence has exactly i smaller
      elements: it is the set's i-th smallest id (TreeSet.toArray()[i]). */
  lemma {:induction false} Rank(s: seq<int>, i: int)
    requires Sorted(s) && 0 <= i < |s|
    ensures |set y | y in s && y < s[i]| == i
  {
    var below := set y | y in s && y < s[i];
    assert below == Elems(s[..i]) by {
      forall y | y in below ensures y in s[..i] {
        var j :| 0 <= j < |s| && s[j] == y;
        assert j < i;
        assert s[..i][j] == y;
      }
      forall y | y in s[..i] ensures y in below {
        var j :| 0 <= j < i && s[..i][j] == y;
        assert s[j] == y;
      }
    }
    SortedSize(s[..i]);
  }
}
