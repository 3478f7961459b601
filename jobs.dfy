/** The job table's removal step: resizeArray compacts the pid array in place. */
module Jobs {
  import opened Common

  /** The entries of s other than x, in their original order. */
  function Without<T(==)>(s: seq<T>, x: T): (r: seq<T>)
    ensures |r| <= |s|
    decreases |s|
  {
    if s == [] then []
    else Without(s[..|s| - 1], x) + (if s[|s| - 1] != x then [s[|s| - 1]] else [])
  }

  predicate Distinct<T(==)>(s: seq<T>)
  {
    forall i, j :: 0 <= i < j < |s| ==> s[i] != s[j]
  }

  /** Exactly the occurrences of x go: every other entry keeps its multiplicity. */
  lemma {:induction false} WithoutCounts<T>(s: seq<T>, x: T)
    ensures multiset(Without(s, x)) == multiset(s)[x := 0]
    decreases |s|
  {
    if s != [] {
      var front := s[..|s| - 1];
      WithoutCounts(front, x);
      assert s == front + [s[|s| - 1]];
    }
  }

  /** Removal preserves order: it distributes over concatenation. */
  lemma {:induction false} WithoutAppend<T>(a: seq<T>, b: seq<T>, x: T)
    ensures Without(a + b, x) == Without(a, x) + Without(b, x)
    decreases |b|
  {
    if b == [] {
      assert a + b == a;
    } else {
      var b' := b[..|b| - 1];
      assert (a + b)[..|a + b| - 1] == a + b';
      WithoutAppend(a, b', x);
    }
  }

  /** Removing a pid that is not there changes nothing. */
  lemma {:induction false} WithoutAbsent<T>(s: seq<T>, x: T)
    requires x !in s
    ensures Without(s, x) == s
    decreases |s|
  {
    if s != [] {
      var front := s[..|s| - 1];
      WithoutAbsent(front, x);
      assert s == front + [s[|s| - 1]];
    }
  }

  /** The entries left are exactly the entries other than x. */
  lemma WithoutMembers<T>(s: seq<T>, x: T)
    ensures forall y :: y in Without(s, x) <==> y in s && y != x
  {
    WithoutCounts(s, x);
    forall y
      ensures y in Without(s, x) <==> y in s && y != x
    {
      assert y in Without(s, x) <==> multiset(Without(s, x))[y] > 0;
      assert y in s <==> multiset(s)[y] > 0;
    }
  }

  /**
   * Removing a pid that occurs once shortens the table by exactly one, which is
   * the caller's decrement of childArrayLength, and keeps the pids distinct.
   */
  lemma {:induction false} RemoveRegistered<T>(s: seq<T>, x: T)
    requires Distinct(s) && x in s
    ensures |Without(s, x)| == |s| - 1
    ensures Distinct(Without(s, x))
    ensures forall y :: y in Without(s, x) <==> y in s && y != x
    decreases |s|
  {
    WithoutMembers(s, x);
    var front, last := s[..|s| - 1], s[|s| - 1];
    assert s == front + [last];
    assert Distinct(front);
    if last == x {
      assert x !in front;
      WithoutAbsent(front, x);
      assert Without(s, x) == front;
    } else {
      assert x in front;
      RemoveRegistered(front, x);
      assert Without(s, x) == Without(front, x) + [last];
      assert last !in front;
      assert last !in Without(front, x);
    }
  }

  /**
   * resizeArray: rewrites the first slots of arrayVar with the entries among the
   * first `length` that differ from pid, in order; the slots after them keep
   * their old contents. The scratch array holds MAXARG entries.
   */
  method ResizeArray(arrayVar: array<nat>, pid: nat, length: nat)
    requires length <= arrayVar.Length && length <= MAXARG
    modifies arrayVar
    ensures arrayVar[..|Without(old(arrayVar[..length]), pid)|] == Without(old(arrayVar[..length]), pid)
    ensures arrayVar[|Without(old(arrayVar[..length]), pid)|..] == old(arrayVar[..])[|Without(old(arrayVar[..length]), pid)|..]
  {
    ghost var before := arrayVar[..];
    var pidListNew := new nat[MAXARG];
    var newLength := 0;
    var j := 0;
    while j < length
      invariant 0 <= j <= length
      invariant newLength <= j
      invariant pidListNew[..newLength] == Without(arrayVar[..j], pid)
      modifies pidListNew
    {
      assert Without(arrayVar[..j + 1], pid)
          == Without(arrayVar[..j], pid) + (if arrayVar[j] != pid then [arrayVar[j]] else []) by {
        assert arrayVar[..j + 1][..j] == arrayVar[..j];
      }
      if arrayVar[j] != pid {
        ghost var stored := pidListNew[..newLength];
        pidListNew[newLength] := arrayVar[j];
        assert pidListNew[..newLength + 1] == stored + [arrayVar[j]];
        newLength := newLength + 1;
      }
      j := j + 1;
    }
    ghost var kept := pidListNew[..newLength];
    assert kept == Without(before[..length], pid) by {
      assert arrayVar[..length] == before[..length];
    }
    assert |kept| == newLength;
    j := 0;
    while j < newLength
      invariant 0 <= j <= newLength
      invariant forall m :: 0 <= m < j ==> arrayVar[m] == kept[m]
      invariant forall m :: j <= m < arrayVar.Length ==> arrayVar[m] == before[m]
      invariant pidListNew[..newLength] == kept
    {
      arrayVar[j] := pidListNew[j];
      j := j + 1;
    }
    assert arrayVar[..newLength] == kept;
    assert arrayVar[newLength..] == before[newLength..];
    assert old(arrayVar[..length]) == before[..length];
  }
}
