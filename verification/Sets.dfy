/** Sizes of finite sets. */
module Sets {

  lemma {:induction false} SubsetIsSmaller<T>(a: set<T>, b: set<T>)
    requires a <= b
    ensures |a| <= |b|
    decreases |a|
  {
    if a != {} {
      var x :| x in a;
      SubsetIsSmaller(a - {x}, b - {x});
    }
  }

  /** A set that a function reaches from another set is not larger. */
  lemma {:induction false} ImageIsSmaller<S, T>(a: set<T>, b: set<S>, f: S -> T)
    requires forall x | x in a :: exists y | y in b :: f(y) == x
    ensures |a| <= |b|
    decreases |a|
  {
    if a != {} {
      var x :| x in a;
      var y :| y in b && f(y) == x;
      ImageIsSmaller(a - {x}, b - {y}, f);
    }
  }
}
