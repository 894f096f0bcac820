/**
 * `Array.prototype.sort` as the pages use it: it reorders the array it
 * is called on, so every other reference to that array sees the new order.
 */
module ArraySort {
  import opened Lists

  /** A new array holding `s`, like the copy `[...s]` or the result of `filter`. */
  method ArrayOf<T>(s: seq<T>) returns (a: array<T>)
    ensures fresh(a) && a[..] == s
  {
    a := new T[|s|](i requires 0 <= i < |s| => s[i]);
  }

  /** Two orderings of the same elements have the same members. */
  lemma SameMembers<T>(a: seq<T>, b: seq<T>)
    requires multiset(a) == multiset(b)
    ensures forall x :: x in a <==> x in b
  {
    assert forall x :: x in a <==> x in multiset(a);
    assert forall x :: x in b <==> x in multiset(b);
  }

  /**
   * While the element that started at index `i` sinks to index `j`:
   * the part before it and the part after it are each sorted, it is no
   * greater than what lies after it, and what lies before it is no
   * greater than what lies after it.
   */
  ghost predicate Sinking<T>(s: seq<T>, i: nat, j: nat, le: (T, T) -> bool) {
    && j <= i < |s|
    && Sorted(s[..j], le)
    && Sorted(s[j + 1..i + 1], le)
    && (forall m :: j < m <= i ==> le(s[j], s[m]))
    && (forall k, m :: 0 <= k < j < m <= i ==> le(s[k], s[m]))
  }

  lemma SinkingStarts<T>(s: seq<T>, i: nat, le: (T, T) -> bool)
    requires i < |s| && Sorted(s[..i], le)
    ensures Sinking(s, i, i, le)
  {
  }

  lemma SinkingStep<T(!new)>(s: seq<T>, i: nat, j: nat, le: (T, T) -> bool)
    requires TotalPreorder(le)
    requires Sinking(s, i, j, le) && 0 < j && !le(s[j - 1], s[j])
    ensures Sinking(s[j - 1 := s[j]][j := s[j - 1]], i, j - 1, le)
  {
    var t := s[j - 1 := s[j]][j := s[j - 1]];
    assert le(s[j], s[j - 1]);
    assert t[..j - 1] == s[..j - 1];
    forall m | j - 1 < m <= i ensures le(t[j - 1], t[m]) {
      if m > j {
        assert t[m] == s[m];
      }
    }
    forall k, m | 0 <= k < j - 1 < m <= i ensures le(t[k], t[m]) {
      assert t[k] == s[k];
      if m == j {
        assert t[m] == s[j - 1];
      } else {
        assert t[m] == s[m];
      }
    }
    forall a, b | j <= a < b <= i ensures le(t[a], t[b]) {
      if a == j {
        assert t[a] == s[j - 1];
        assert t[b] == s[b];
      } else {
        assert t[a] == s[a] && t[b] == s[b];
      }
    }
  }

  lemma SinkingDone<T(!new)>(s: seq<T>, i: nat, j: nat, le: (T, T) -> bool)
    requires TotalPreorder(le)
    requires Sinking(s, i, j, le) && (j == 0 || le(s[j - 1], s[j]))
    ensures Sorted(s[..i + 1], le)
  {
    forall k | 0 <= k < j ensures le(s[k], s[j]) {
      if k < j - 1 {
        assert le(s[k], s[j - 1]);
      }
    }
    forall a, b | 0 <= a < b <= i ensures le(s[a], s[b]) {
      if b < j {
        assert s[..j][a] == s[a] && s[..j][b] == s[b];
      } else if j < a {
        assert s[j + 1..i + 1][a - j - 1] == s[a] && s[j + 1..i + 1][b - j - 1] == s[b];
      }
    }
  }

  method Swap<T>(a: array<T>, i: nat, j: nat)
    requires i < a.Length && j < a.Length
    modifies a
    ensures a[..] == old(a[..])[i := old(a[j])][j := old(a[i])]
    ensures multiset(a[..]) == multiset(old(a[..]))
  {
    a[i], a[j] := a[j], a[i];
  }

  /** `a.sort(cmp)` with `le(x, y)` meaning `cmp(x, y) <= 0`: sorted in place, same elements. */
  method SortInPlace<T(!new)>(a: array<T>, le: (T, T) -> bool)
    requires TotalPreorder(le)
    modifies a
    ensures Sorted(a[..], le)
    ensures multiset(a[..]) == multiset(old(a[..]))
  {
    var i := 0;
    while i < a.Length
      invariant 0 <= i <= a.Length
      invariant Sorted(a[..i], le)
      invariant multiset(a[..]) == multiset(old(a[..]))
    {
      SinkingStarts(a[..], i, le);
      var j := i;
      while j > 0 && !le(a[j - 1], a[j])
        invariant 0 <= j <= i
        invariant Sinking(a[..], i, j, le)
        invariant multiset(a[..]) == multiset(old(a[..]))
      {
        SinkingStep(a[..], i, j, le);
        Swap(a, j - 1, j);
        j := j - 1;
      }
      SinkingDone(a[..], i, j, le);
      i := i + 1;
    }
    assert a[..a.Length] == a[..];
  }
}
