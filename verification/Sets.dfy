/** Sizes of finite sets. */
module Sets {
  /** A subset is no larger, and one of the same size is the whole set. */
  lemma {:induction false} SubsetSize<T>(small: set<T>, big: set<T>)
    requires small <= big
    ensures |small| <= |big|
    ensures |small| == |big| ==> small == big
    decreases |small|
  {
    if small != {} {
      var x :| x in small;
      SubsetSize(small - {x}, big - {x});
      assert small == small - {x} + {x} && big == big - {x} + {x};
    }
  }
}
