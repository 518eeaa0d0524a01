/** Go slices of numbers over a store of backing arrays, and append on them. */
module Slices {

  /** Every backing array ever made, each as long as its capacity. */
  type Store = seq<seq<nat>>

  /** All slices here start at the beginning of their array. */
  datatype Slice = Slice(arr: nat, len: nat)

  predicate In(st: Store, s: Slice) { s.arr < |st| && s.len <= |st[s.arr]| }

  function View(st: Store, s: Slice): seq<nat>
    requires In(st, s)
  {
    st[s.arr][..s.len]
  }

  /** How much room append leaves in a new array, from the old capacity and the new length. */
  type Growth = (nat, nat) -> nat

  const ZERO: nat := 0

  function Room(n: nat): seq<nat> { seq(n, _ => ZERO) }

  function Append(grow: Growth, st: Store, s: Slice, xs: seq<nat>): (Store, Slice)
    requires In(st, s)
  {
    var a, n := st[s.arr], s.len + |xs|;
    if n <= |a| then (st[s.arr := a[..s.len] + xs + a[n..]], Slice(s.arr, n))
    else (st + [a[..s.len] + xs + Room(grow(|a|, n))], Slice(|st|, n))
  }

  /** `st'` differs from `st` in array `a` and in new arrays only. */
  ghost predicate OnlyAt(st: Store, st': Store, a: nat) {
    && |st| <= |st'|
    && forall b :: 0 <= b < |st| ==> |st'[b]| == |st[b]| && (b != a ==> st'[b] == st[b])
  }

  /** The longer slice, in place when the array has room and in a new array otherwise. */
  lemma AppendView(grow: Growth, st: Store, s: Slice, xs: seq<nat>)
    requires In(st, s)
    ensures var (st', s') := Append(grow, st, s, xs);
            && In(st', s') && View(st', s') == View(st, s) + xs && OnlyAt(st, st', s.arr)
            && s'.arr == (if s.len + |xs| <= |st[s.arr]| then s.arr else |st|)
            && (s'.arr == |st| ==> st' == st + [st'[|st|]])
  {
    var a := st[s.arr];
    assert a[..s.len] + xs == View(st, s) + xs;
  }
}
