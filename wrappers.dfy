/** Optional values and first-match search, shared by the server and client models. */
module Wrappers {

  /** A value that may be absent (JavaScript's `undefined` or `null`). */
  datatype Option<+T> = None | Some(value: T) {
    function GetOr(default: T): T {
      match this
      case Some(v) => v
      case None => default
    }
  }

  /** `Array.prototype.find`: the first element satisfying `matches`, if any. */
  function FindFirst<T>(xs: seq<T>, matches: T -> bool): (r: Option<T>)
    ensures r.None? <==> forall k :: 0 <= k < |xs| ==> !matches(xs[k])
    ensures r.Some? ==> exists k :: 0 <= k < |xs| && xs[k] == r.value && matches(xs[k])
                                  && forall j :: 0 <= j < k ==> !matches(xs[j])
  {
    if xs == [] then None
    else if matches(xs[0]) then Some(xs[0])
    else
      var r := FindFirst(xs[1..], matches);
      assert r.Some? ==> exists k :: 1 <= k < |xs| && xs[k] == r.value && matches(xs[k])
                                    && forall j :: 0 <= j < k ==> !matches(xs[j]) by {
        if r.Some? {
          var k :| 0 <= k < |xs[1..]| && xs[1..][k] == r.value && matches(xs[1..][k])
                   && forall j :: 0 <= j < k ==> !matches(xs[1..][j]);
          assert forall j :: 1 <= j < k + 1 ==> !matches(xs[j]) by {
            forall j | 1 <= j < k + 1 ensures !matches(xs[j]) { assert xs[j] == xs[1..][j - 1]; }
          }
          assert xs[k + 1] == r.value;
        }
      }
      assert r.None? ==> forall k :: 0 <= k < |xs| ==> !matches(xs[k]) by {
        if r.None? {
          forall k | 0 <= k < |xs| ensures !matches(xs[k]) {
            if k > 0 { assert xs[k] == xs[1..][k - 1]; }
          }
        }
      }
      r
  }
}
