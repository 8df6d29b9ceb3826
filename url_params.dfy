/**
 * `URLSearchParams` as the ordered list of name/value pairs it keeps, with the
 * `get`, `set` and `delete` operations the controller and the callback use.
 * Serialisation to a query string is not modelled.
 */
module UrlParams {
  import opened Wrappers

  type Params = seq<(string, string)>

  /** `params.get(name)`: the value of the first pair with that name. */
  function Get(p: Params, name: string): Option<string> {
    if p == [] then None
    else if p[0].0 == name then Some(p[0].1)
    else Get(p[1..], name)
  }

  /** `params.delete(name)`: every pair with that name removed, the others kept in order. */
  function Delete(p: Params, name: string): (r: Params)
    ensures |r| <= |p|
    ensures forall i :: 0 <= i < |r| ==> r[i].0 != name && r[i] in p
  {
    if p == [] then []
    else if p[0].0 == name then Delete(p[1..], name)
    else [p[0]] + Delete(p[1..], name)
  }

  /**
   * `params.set(name, value)`: the first pair with that name takes the value and
   * later pairs with that name are removed; with no such pair, one is appended.
   */
  function Set(p: Params, name: string, value: string): Params {
    if p == [] then [(name, value)]
    else if p[0].0 == name then [(name, value)] + Delete(p[1..], name)
    else [p[0]] + Set(p[1..], name, value)
  }

  /** Number of pairs with the given name. */
  function Count(p: Params, name: string): nat {
    if p == [] then 0 else (if p[0].0 == name then 1 else 0) + Count(p[1..], name)
  }

  lemma {:induction false} DeleteRemovesName(p: Params, name: string)
    ensures Get(Delete(p, name), name) == None
    ensures Count(Delete(p, name), name) == 0
  {
    if p != [] {
      DeleteRemovesName(p[1..], name);
    }
  }

  /** Deleting one name leaves the lookups of every other name as they were. */
  lemma {:induction false} DeleteKeepsOthers(p: Params, name: string, other: string)
    requires other != name
    ensures Get(Delete(p, name), other) == Get(p, other)
  {
    if p != [] {
      DeleteKeepsOthers(p[1..], name, other);
    }
  }

  /** After `set`, the name holds exactly one pair, carrying the new value. */
  lemma {:induction false} SetStoresValue(p: Params, name: string, value: string)
    ensures Get(Set(p, name, value), name) == Some(value)
    ensures Count(Set(p, name, value), name) == 1
  {
    if p != [] {
      if p[0].0 == name {
        DeleteRemovesName(p[1..], name);
      } else {
        SetStoresValue(p[1..], name, value);
      }
    }
  }

  /** `set` leaves the lookups of every other name as they were. */
  lemma {:induction false} SetKeepsOthers(p: Params, name: string, value: string, other: string)
    requires other != name
    ensures Get(Set(p, name, value), other) == Get(p, other)
  {
    if p != [] {
      if p[0].0 == name {
        DeleteKeepsOthers(p[1..], name, other);
      } else {
        SetKeepsOthers(p[1..], name, value, other);
      }
    }
  }

  /** Deleting twice is deleting once. */
  lemma {:induction false} DeleteIdempotent(p: Params, name: string)
    ensures Delete(Delete(p, name), name) == Delete(p, name)
  {
    if p != [] {
      DeleteIdempotent(p[1..], name);
    }
  }

  /**
   * `set` and `delete` change only the pairs of the given name: the pairs of every
   * other name stay, in their order.
   */
  lemma {:induction false} SetKeepsOtherPairs(p: Params, name: string, value: string)
    ensures Delete(Set(p, name, value), name) == Delete(p, name)
  {
    if p != [] {
      if p[0].0 == name {
        DeleteIdempotent(p[1..], name);
      } else {
        SetKeepsOtherPairs(p[1..], name, value);
      }
    }
  }
}
