/** Strict total orders and the greatest element of a finite set. */
module Orders {

  ghost predicate StrictOrder<T(!new)>(less: (T, T) -> bool) {
    && (forall a, b :: less(a, b) || a == b || less(b, a))
    && (forall a :: !less(a, a))
    && (forall a, b, c :: less(a, b) && less(b, c) ==> less(a, c))
  }

  ghost predicate Greatest<T(!new)>(x: T, s: set<T>, less: (T, T) -> bool) {
    x in s && forall y :: y in s && y != x ==> less(y, x)
  }

  lemma {:induction false} GreatestExists<T(!new)>(s: set<T>, less: (T, T) -> bool)
    requires StrictOrder(less) && s != {}
    ensures exists x :: Greatest(x, s, less)
  {
    var x :| x in s;
    if s == {x} {
      assert Greatest(x, s, less);
    } else {
      GreatestExists(s - {x}, less);
      var z :| Greatest(z, s - {x}, less);
      var top := if less(z, x) then x else z;
      forall y | y in s && y != top ensures less(y, top) {
        if top == x && y != z {
          assert less(y, z) && less(z, x);
        } else if top == z && y == x {
          assert less(x, z);
        }
      }
      assert Greatest(top, s, less);
    }
  }
}
