/** Python loops over a set visit its members in an order the language leaves open; the loops here pick any member next. */
module Sets {

  /** A member of a non-empty set. */
  lemma Pick<T>(s: set<T>) returns (x: T)
    requires s != {}
    ensures x in s
  {
    x :| x in s;
  }
}
