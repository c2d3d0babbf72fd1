/** What both halves of the model use. */
module Common {
  datatype Option<+T> = None | Some(value: T)

  /** Where `x` stands first in `s`. */
  function IndexOf<T(==)>(s: seq<T>, x: T): (i: nat)
    ensures x in s ==> i < |s| && s[i] == x
  {
    if s == [] || s[0] == x then 0 else 1 + IndexOf(s[1..], x)
  }
}
