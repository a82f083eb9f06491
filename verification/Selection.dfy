/** ORDER BY ... LIMIT n over a finite set, for any strict total order. */
module Selection {

  ghost predicate StrictOrder<T(!new)>(less: (T, T) -> bool) {
    && (forall x :: !less(x, x))
    && (forall x, y :: x != y ==> less(x, y) || less(y, x))
    && (forall x, y, z :: less(x, y) && less(y, z) ==> less(x, z))
  }

  ghost predicate IsLeast<T(!new)>(less: (T, T) -> bool, s: set<T>, x: T) {
    x in s && forall y :: y in s && y != x ==> less(x, y)
  }

  lemma {:induction false} LeastExists<T(!new)>(less: (T, T) -> bool, s: set<T>)
    requires StrictOrder(less) && s != {}
    ensures exists x :: IsLeast(less, s, x)
    decreases |s|
  {
    var a :| a in s;
    var rest := s - {a};
    if rest == {} {
      assert s == {a};
      assert IsLeast(less, s, a);
    } else {
      LeastExists(less, rest);
      var b :| IsLeast(less, rest, b);
      if less(a, b) {
        forall y | y in s && y != a ensures less(a, y) {
          assert y == b || less(b, y);
        }
        assert IsLeast(less, s, a);
      } else {
        assert IsLeast(less, s, b);
      }
    }
  }

  ghost predicate Sorted<T(!new)>(less: (T, T) -> bool, r: seq<T>) {
    forall i, j :: 0 <= i < j < |r| ==> less(r[i], r[j])
  }

  /** `r` is the result of sorting `s` and keeping the first `n` rows. */
  ghost predicate IsFirst<T(!new)>(less: (T, T) -> bool, s: set<T>, n: nat, r: seq<T>) {
    && Sorted(less, r)
    && (forall x :: x in r ==> x in s)
    && |r| == (if |s| < n then |s| else n)
    && (forall x, y :: x in r && y in s && y !in r ==> less(x, y))
  }

  ghost function First<T(!new)>(less: (T, T) -> bool, s: set<T>, n: nat): seq<T>
    requires StrictOrder(less)
    decreases n
  {
    if n == 0 || s == {} then []
    else
      LeastExists(less, s);
      var a :| IsLeast(less, s, a);
      [a] + First(less, s - {a}, n - 1)
  }

  /** The least row followed by the first rows of the rest. */
  lemma LeastFirst<T(!new)>(less: (T, T) -> bool, s: set<T>, n: nat, a: T, tail: seq<T>)
    requires n > 0 && IsLeast(less, s, a) && IsFirst(less, s - {a}, n - 1, tail)
    ensures IsFirst(less, s, n, [a] + tail)
    ensures forall x :: x in [a] + tail <==> x == a || x in tail
  {
    var r := [a] + tail;
    assert forall x :: x in r <==> x == a || x in tail;
    forall i, j | 0 <= i < j < |r| ensures less(r[i], r[j]) {
      assert r[j] == tail[j - 1] && tail[j - 1] in s - {a};
      assert i > 0 ==> r[i] == tail[i - 1];
    }
    forall x, y | x in r && y in s && y !in r ensures less(x, y) {
      assert y in s - {a};
    }
  }

  lemma {:induction false} FirstIsFirst<T(!new)>(less: (T, T) -> bool, s: set<T>, n: nat)
    requires StrictOrder(less)
    ensures IsFirst(less, s, n, First(less, s, n))
    ensures |s| <= n ==> forall x :: x in s ==> x in First(less, s, n)
    decreases n
  {
    if n > 0 && s != {} {
      LeastExists(less, s);
      var a :| IsLeast(less, s, a) && First(less, s, n) == [a] + First(less, s - {a}, n - 1);
      FirstIsFirst(less, s - {a}, n - 1);
      LeastFirst(less, s, n, a, First(less, s - {a}, n - 1));
    }
  }

  /** Taking the least element first: the step of a loop that reads rows in order. */
  lemma FirstUnfold<T(!new)>(less: (T, T) -> bool, s: set<T>, n: nat, x: T)
    requires StrictOrder(less) && IsLeast(less, s, x) && n > 0
    ensures First(less, s, n) == [x] + First(less, s - {x}, n - 1)
  {
    assert forall a :: IsLeast(less, s, a) ==> a == x;
  }

  /** ORDER BY ... LIMIT has one result. */
  lemma {:induction false} FirstUnique<T(!new)>(less: (T, T) -> bool, s: set<T>, n: nat, r: seq<T>)
    requires StrictOrder(less) && IsFirst(less, s, n, r)
    ensures r == First(less, s, n)
    decreases n
  {
    if n > 0 && s != {} {
      var x, rest := r[0], r[1..];
      assert r == [x] + rest && x in r;
      assert forall i :: 0 < i < |r| ==> less(r[0], r[i]);
      assert IsLeast(less, s, x);
      assert IsFirst(less, s - {x}, n - 1, rest);
      FirstUnique(less, s - {x}, n - 1, rest);
      FirstUnfold(less, s, n, x);
    }
  }
}
