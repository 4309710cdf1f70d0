/** Small datatypes and set/sequence facts shared by the other modules. */
module Prelude {

  datatype Option<+T> = None | Some(value: T)

  datatype Result<+T, +E> = Ok(value: T) | Err(error: E)

  /** Identifiers of tables, columns, keys and users, compared only for equality. */
  datatype Name = Name(text: string)

  predicate InRange(n: int, low: int, high: int) {
    low <= n <= high
  }

  ghost predicate Distinct<T>(s: seq<T>) {
    forall i, j :: 0 <= i < j < |s| ==> s[i] != s[j]
  }

  function Elements<T>(s: seq<T>): set<T> {
    set x | x in s
  }

  /** A sequence has at most as many different elements as positions. */
  lemma {:induction false} ElementsAtMostLength<T>(s: seq<T>)
    ensures |Elements(s)| <= |s|
    ensures Distinct(s) <==> |Elements(s)| == |s|
  {
    if s != [] {
      var n := |s| - 1;
      ElementsAtMostLength(s[..n]);
      assert s == s[..n] + [s[n]];
      assert Elements(s) == Elements(s[..n]) + {s[n]};
      if s[n] in s[..n] {
        var i :| 0 <= i < n && s[..n][i] == s[n];
        assert s[i] == s[n];
        assert Elements(s) == Elements(s[..n]);
      } else {
        assert Distinct(s) <==> Distinct(s[..n]) by {
          if Distinct(s[..n]) {
            forall i, j | 0 <= i < j < |s| ensures s[i] != s[j] {
              if j < n { assert s[..n][i] != s[..n][j]; } else { assert s[..n][i] == s[i]; }
            }
          }
          if Distinct(s) {
            forall i, j | 0 <= i < j < n ensures s[..n][i] != s[..n][j] {
              assert s[i] != s[j];
            }
          }
        }
      }
    }
  }

  lemma SubsetCardinality<T>(a: set<T>, b: set<T>)
    requires a <= b
    ensures |a| <= |b|
    ensures |a| == |b| ==> a == b
  {
    assert b == a + (b - a);
    assert |b| == |a| + |b - a|;
  }
}
