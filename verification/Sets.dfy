module Sets {
  lemma Inhabited<T(!new)>(s: set<T>)
    ensures s == {} || exists x :: x in s
  {
    if forall x :: x !in s {
      assert s == {};
    }
  }

  /** Any element of a set: callers do not depend on the order in which they get them. */
  method Pick<T(!new, ==)>(s: set<T>) returns (x: T)
    requires s != {}
    ensures x in s
  {
    Inhabited(s);
    x :| x in s;
  }
}
