/** Types shared by the models. */
module Common {
  datatype Option<+T> = None | Some(value: T)

  type byte = b: int | 0 <= b < 256

  /** `a` is `b` with elements left out. */
  predicate Subsequence<T(==)>(a: seq<T>, b: seq<T>)
    decreases |b|
  {
    a == [] || (b != [] &&
      (Subsequence(a, b[..|b| - 1]) || (a[|a| - 1] == b[|b| - 1] && Subsequence(a[..|a| - 1], b[..|b| - 1]))))
  }

  lemma {:induction false} WithoutLast<T>(a: seq<T>, last: T, b: seq<T>)
    requires Subsequence(a + [last], b)
    ensures Subsequence(a, b)
    decreases |b|
  {
    assert (a + [last])[..|a|] == a;
    if a != [] && Subsequence(a + [last], b[..|b| - 1]) {
      WithoutLast(a, last, b[..|b| - 1]);
    }
  }

  lemma BothLonger<T>(a: seq<T>, b: seq<T>, last: T)
    requires Subsequence(a, b)
    ensures Subsequence(a + [last], b + [last])
  {
    assert (a + [last])[..|a|] == a && (b + [last])[..|b|] == b;
  }

  lemma {:induction false} Shorter<T>(a: seq<T>, b: seq<T>, more: seq<T>)
    requires Subsequence(a, b)
    ensures Subsequence(a, b + more)
    decreases |more|
  {
    if more == [] {
      assert b + more == b;
    } else {
      var init := more[..|more| - 1];
      Shorter(a, b, init);
      assert (b + more)[..|b + more| - 1] == b + init;
    }
  }

  lemma {:induction false} BothJoined<T>(a: seq<T>, b: seq<T>, c: seq<T>, d: seq<T>)
    requires Subsequence(a, b) && Subsequence(c, d)
    ensures Subsequence(a + c, b + d)
    decreases |d|
  {
    if c == [] {
      assert a + c == a;
      Shorter(a, b, d);
    } else {
      var last, rest := d[|d| - 1], d[..|d| - 1];
      assert (b + d)[..|b + d| - 1] == b + rest;
      if Subsequence(c, rest) {
        BothJoined(a, b, c, rest);
      } else {
        BothJoined(a, b, c[..|c| - 1], rest);
        assert (a + c)[..|a + c| - 1] == a + c[..|c| - 1];
      }
    }
  }
}
