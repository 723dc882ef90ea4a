/**
 * The two ways Python's `re` engine picks one match: at one position it
 * tries the ways a pattern can match in a fixed (backtracking) order and
 * keeps the first that succeeds; `re.search` tries the positions from left
 * to right and keeps the first position where anything matches.
 */
module Search {
  import opened Wrappers

  /** The index of the first element of `cs` accepted by `ok`. */
  function FirstIn<C>(cs: seq<C>, ok: C -> bool): (r: Option<nat>)
    ensures r.Some? ==> r.value < |cs| && ok(cs[r.value])
    ensures r.Some? ==> forall k | 0 <= k < r.value :: !ok(cs[k])
    ensures r.None? ==> forall k | 0 <= k < |cs| :: !ok(cs[k])
  {
    if cs == [] then None
    else if ok(cs[0]) then Some(0)
    else match FirstIn(cs[1..], ok)
      case None => None
      case Some(k) => Some(k + 1)
  }

  /** A match found by `re.search`: its start position and how the pattern matched there. */
  datatype Hit<C> = Hit(pos: nat, cand: C)

  /** The first position in `i..n` at which `at` finds a match. */
  function SearchFrom<C>(at: nat -> Option<C>, i: nat, n: nat): (r: Option<Hit<C>>)
    ensures r.Some? ==> i <= r.value.pos <= n && at(r.value.pos) == Some(r.value.cand)
    ensures r.Some? ==> forall j | i <= j < r.value.pos :: at(j).None?
    ensures r.None? ==> forall j | i <= j <= n :: at(j).None?
    decreases n + 1 - i
  {
    if i > n then None
    else match at(i)
      case Some(c) => Some(Hit(i, c))
      case None => SearchFrom(at, i + 1, n)
  }
}
