/** Cardinality of finite sets. */
module Sets {

  lemma {:induction false} NoLarger<T>(s: set<T>, t: set<T>)
    requires s <= t
    ensures |s| <= |t|
  {
    if s != {} {
      var x :| x in s;
      NoLarger(s - {x}, t - {x});
    }
  }
}
