/**
 * The one sequence operation both parts of the application share: keeping only
 * the newest `n` elements of a list, as JavaScript's `slice(-n)` does for a
 * positive `n` (the whole list when it is shorter than `n`).
 */
module Sequences {

  function Min(a: int, b: int): int {
    if a <= b then a else b
  }

  /** The last `n` elements of `s`, in their original order. */
  function LastN<T>(s: seq<T>, n: nat): (r: seq<T>)
    ensures |r| == Min(|s|, n)
    ensures r == s[|s| - |r|..]
  {
    if |s| <= n then s else s[|s| - n..]
  }

  /** Elements older than the last `n` never reach the result. */
  lemma LastNIgnoresOlder<T>(older: seq<T>, recent: seq<T>, n: nat)
    requires |recent| >= n
    ensures LastN(older + recent, n) == LastN(recent, n)
  {
    var s := older + recent;
    assert s[|s| - n..] == recent[|recent| - n..];
  }
}
