/** Go ranges over a map in an unspecified order. Loops over maps here take the keys in any order at all. */
module Ranging {

  /** Any one element, chosen freely. */
  method Pick<T(==)>(s: set<T>) returns (x: T)
    requires s != {}
    ensures x in s
  {
    x :| x in s;
  }
}
