/** Generic pieces shared by the device and switch lists. */
module Lists {

  /** The value-or-nothing result of a lookup, in place of a null pointer. */
  datatype Option<+T> = None | Some(value: T)

  /** List::add of utils.h: the intrusive singly-linked list links the new
      element after the current tail (or makes it the head of an empty list).
      Only the resulting order is observable, so the list is a sequence. */
  function Append<T>(list: seq<T>, x: T): (r: seq<T>)
    ensures |r| == |list| + 1
    ensures r[..|list|] == list
    ensures r[|list|] == x
  {
    list + [x]
  }
}
