/**
 * The binding tables of the player: ordered maps from a device code
 * (keyboard key or mouse button) to the action it triggers. std::map
 * keeps its keys in ascending order, so "the first key bound to an
 * action" is the least such code.
 */
module Bindings {
  import opened Commands

  /** Code k is bound to action a in m. */
  predicate BoundTo(m: map<int, Action>, k: int, a: Action) {
    k in m && m[k] == a
  }

  /** The table left once every code bound to `a` has been erased. */
  function Unbind(m: map<int, Action>, a: Action): (r: map<int, Action>)
    ensures r.Keys <= m.Keys
    ensures forall k :: k in r ==> r[k] == m[k]
    ensures forall k :: !BoundTo(r, k, a)
    ensures forall k :: k in m && m[k] != a ==> k in r
  {
    map k | k in m && m[k] != a :: m[k]
  }

  /**
   * assignKey / assignButton: erase every binding of `a`, then bind code k
   * to `a`. Afterwards k is the only code bound to `a`; every other code
   * keeps its action unless that action was `a`.
   */
  function Rebind(m: map<int, Action>, a: Action, k: int): (r: map<int, Action>)
    ensures BoundTo(r, k, a)
    ensures forall j :: BoundTo(r, j, a) ==> j == k
    ensures forall j, b :: j != k && b != a ==> (BoundTo(r, j, b) <==> BoundTo(m, j, b))
    ensures r.Keys == Unbind(m, a).Keys + {k}
  {
    Unbind(m, a)[k := a]
  }

  /**
   * The least code in [lo, hi) bound to `a`, or the sentinel `none` when
   * there is none: the first hit of an in-order traversal of the map.
   */
  function FirstBound(m: map<int, Action>, a: Action, lo: int, hi: int, none: int): (r: int)
    decreases hi - lo
    ensures r == none || (lo <= r < hi && BoundTo(m, r, a))
    ensures r != none ==> forall j :: lo <= j < r ==> !BoundTo(m, j, a)
    ensures (forall j :: lo <= j < hi ==> !BoundTo(m, j, a)) ==> r == none
    ensures forall j :: lo <= j < hi && BoundTo(m, j, a) && j != none ==>
              lo <= r <= j && BoundTo(m, r, a)
  {
    if lo >= hi then none
    else if BoundTo(m, lo, a) then lo
    else FirstBound(m, a, lo + 1, hi, none)
  }

  /**
   * The erase loop of assignKey / assignButton: walk the table in key
   * order and drop every entry whose action is `a`.
   */
  method EraseAction(m: map<int, Action>, a: Action, lo: int, hi: int) returns (r: map<int, Action>)
    requires lo <= hi
    requires forall k :: k in m ==> lo <= k < hi
    ensures r == Unbind(m, a)
  {
    r := m;
    var k := lo;
    while k < hi
      invariant lo <= k <= hi
      invariant r == map j | j in m && (j >= k || m[j] != a) :: m[j]
    {
      if k in r && r[k] == a {
        r := r - {k};
      }
      k := k + 1;
    }
  }

  /** Round trip: after rebinding `a` to k, the lookup of `a` finds k. */
  lemma LookupAfterRebind(m: map<int, Action>, a: Action, k: int, lo: int, hi: int, none: int)
    requires lo <= k < hi && k != none
    ensures FirstBound(Rebind(m, a, k), a, lo, hi, none) == k
  {
    assert BoundTo(Rebind(m, a, k), k, a);
  }

  /**
   * Rebinding `a` to k leaves the lookup of every other action alone,
   * unless that action was found at k itself (whose binding is overwritten).
   */
  lemma {:induction false} LookupOtherAfterRebind(m: map<int, Action>, a: Action, b: Action, k: int, lo: int, hi: int, none: int)
    requires a != b
    requires FirstBound(m, b, lo, hi, none) != k
    decreases hi - lo
    ensures FirstBound(Rebind(m, a, k), b, lo, hi, none) == FirstBound(m, b, lo, hi, none)
  {
    var m' := Rebind(m, a, k);
    if lo < hi && !BoundTo(m, lo, b) {
      assert !BoundTo(m', lo, b);
      LookupOtherAfterRebind(m, a, b, k, lo + 1, hi, none);
    }
  }
}
