/** Small things many modules use. */
module Options {
  /** A value, or the kernel's null, -1 or panic. */
  datatype Option<+T> = None | Some(value: T)

  function Count(b: bool): nat { if b then 1 else 0 }
}

/** Sizes of finite sets. */
module Sets {
  lemma {:induction false} Subset<T>(a: set<T>, b: set<T>)
    requires a <= b
    ensures |a| <= |b|
    decreases a
  {
    if a != {} {
      var x :| x in a;
      Subset(a - {x}, b - {x});
    }
  }

  lemma SizeOfUnion<T>(a: set<T>, b: set<T>)
    ensures |a + b| <= |a| + |b|
  {
    assert a + b == a + (b - a);
    Subset(b - a, b);
  }
}
