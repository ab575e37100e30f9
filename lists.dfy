/** Searching a list of records by their `Name`, as `Array.prototype.find`
    does for the stack list (index.js:47) and the team roster
    (index.js:97). */
module Lists {
  import opened Optional

  /** Element `i` is the first whose name is `key`. */
  predicate FirstNamed<T>(xs: seq<T>, name: T -> string, key: string, i: nat) {
    && i < |xs|
    && name(xs[i]) == key
    && forall j :: 0 <= j < i ==> name(xs[j]) != key
  }

  /** `xs.findIndex(x => x.Name === key)`, `None` for -1. */
  function FindNamed<T>(xs: seq<T>, name: T -> string, key: string): (r: Option<nat>)
    ensures r.Some? ==> FirstNamed(xs, name, key, r.value)
    ensures r.None? <==> forall j :: 0 <= j < |xs| ==> name(xs[j]) != key
  {
    if |xs| == 0 then None
    else if name(xs[0]) == key then Some(0)
    else
      match FindNamed(xs[1..], name, key)
      case None => None
      case Some(i) => Some(i + 1)
  }
}
