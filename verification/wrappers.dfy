/** An optional value: the model's stand-in for Python's `None`. */
module Wrappers {

  datatype Option<+T> = None | Some(value: T)

  /** The values an option holds, as a multiset (empty for None). */
  function AsMultiset<T>(o: Option<T>): (m: multiset<T>)
    ensures |m| <= 1
    ensures o.Some? ==> o.value in m
  {
    if o.Some? then multiset{o.value} else multiset{}
  }
}
