/** String helpers: suffix test and map-and-join. */
module Util {

  /** Reference definition: suffix is a suffix of str. */
  ghost predicate IsSuffix(suffix: string, str: string) {
    |suffix| <= |str| && str[|str| - |suffix|..] == suffix
  }

  /** ends_with: compares characters from the back while counting down. */
  method EndsWith(str: string, suffix: string) returns (r: bool)
    ensures r <==> IsSuffix(suffix, str)
    ensures |suffix| == 0 ==> r
    ensures |suffix| > |str| ==> !r
  {
    var len := |suffix|;
    var lenStr := |str|;
    if lenStr < len {
      return false;
    }
    while len > 0
      invariant 0 <= len <= |suffix|
      invariant lenStr == |str| - |suffix| + len
      invariant forall k :: len <= k < |suffix| ==> suffix[k] == str[|str| - |suffix| + k]
    {
      if suffix[len - 1] != str[lenStr - 1] {
        return false;
      }
      len, lenStr := len - 1, lenStr - 1;
    }
    return true;
  }

  function Map<T>(xs: seq<T>, f: T -> string): (r: seq<string>)
    ensures |r| == |xs| && forall i :: 0 <= i < |xs| ==> r[i] == f(xs[i])
    decreases |xs|
  {
    if |xs| == 0 then [] else [f(xs[0])] + Map(xs[1..], f)
  }

  /** Reference definition: parts separated by sep. */
  function Join(parts: seq<string>, sep: string): string
    requires |parts| > 0
    decreases |parts|
  {
    if |parts| == 1 then parts[0] else parts[0] + sep + Join(parts[1..], sep)
  }

  /** std::accumulate from acc over xs with a combining function. */
  function Accumulate<T>(acc: string, xs: seq<T>, join: (string, string) -> string, f: T -> string): string
    decreases |xs|
  {
    if |xs| == 0 then acc else Accumulate(join(acc, f(xs[0])), xs[1..], join, f)
  }

  /** map_and_join with a string separator (the range must be non-empty). */
  function MapAndJoin<T>(xs: seq<T>, f: T -> string, sep: string): string
    requires |xs| > 0
  {
    Accumulate(f(xs[0]), xs[1..], (a: string, b: string) => a + sep + b, f)
  }

  /** map_and_join with a joining function: the left fold of join over the images. */
  function MapAndJoinWith<T>(xs: seq<T>, f: T -> string, join: (string, string) -> string): string
    requires |xs| > 0
  {
    Accumulate(f(xs[0]), xs[1..], join, f)
  }

  lemma {:induction false} AccumulateJoin<T>(acc: string, xs: seq<T>, f: T -> string, sep: string)
    requires |xs| > 0
    ensures Accumulate(acc, xs, (a: string, b: string) => a + sep + b, f) == acc + sep + Join(Map(xs, f), sep)
    decreases |xs|
  {
    var m := Map(xs, f);
    assert m[1..] == Map(xs[1..], f);
    if |xs| > 1 {
      AccumulateJoin(acc + sep + f(xs[0]), xs[1..], f, sep);
    }
  }

  /** The string-separator form is the mapped elements joined by sep. */
  lemma MapAndJoinIsJoin<T>(xs: seq<T>, f: T -> string, sep: string)
    requires |xs| > 0
    ensures MapAndJoin(xs, f, sep) == Join(Map(xs, f), sep)
  {
    var m := Map(xs, f);
    if |xs| > 1 {
      AccumulateJoin(f(xs[0]), xs[1..], f, sep);
      assert m[1..] == Map(xs[1..], f);
    }
  }

  /** Both forms agree when the joining function inserts the separator. */
  lemma MapAndJoinForms<T>(xs: seq<T>, f: T -> string, sep: string)
    requires |xs| > 0
    ensures MapAndJoinWith(xs, f, (a: string, b: string) => a + sep + b) == MapAndJoin(xs, f, sep)
  {
  }
}
