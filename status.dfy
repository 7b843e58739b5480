/** The three states of a run of the page, in the order they are reached. */
module RunStatus {

  datatype Status = Ready | Processing | Complete

  /** Position of a status in the order ready, processing, complete. */
  function Rank(s: Status): nat {
    match s
    case Ready => 0
    case Processing => 1
    case Complete => 2
  }

  /** The start button reacts only while the page is ready. */
  predicate ButtonEnabled(s: Status): (r: bool)
    ensures r <==> Rank(s) < Rank(Processing)
  {
    s == Ready
  }

  /**
    The status after a result with the given index has been handled: complete
    once the index reaches the last one of `count`, otherwise as it was.
   */
  function AfterResult(s: Status, index: nat, count: nat): (r: Status)
    ensures Rank(s) <= Rank(r)
    ensures r == Complete <==> s == Complete || count <= index + 1
    ensures r != Complete ==> r == s
  {
    if index + 1 >= count then Complete else s
  }
}
