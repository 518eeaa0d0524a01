/**
  utils.SimpleLockStack: a pool of reusable objects kept in a doubly linked list whose nodes are
  never unlinked. Current is the top stored node, or the bottom node when nothing is stored.
 */
module Pool {
  import opened Common

  // ----- the pool as a sequence -----

  /** `emptyPops` counts the pops that found nothing stored. */
  datatype State<T> = State(items: seq<T>, active: int, emptyPops: nat)

  datatype Op<T> = PopOp | PushOp(value: T)

  function AfterPop<T>(s: State<T>): State<T> {
    if s.items == [] then s.(active := s.active + 1, emptyPops := s.emptyPops + 1)
    else s.(items := s.items[..|s.items| - 1], active := s.active + 1)
  }

  /** A push onto an empty pool is always stored; onto a full one it is dropped, and not counted. */
  predicate IsStored<T>(s: State<T>, maxsize: int) {
    s.items == [] || |s.items| < maxsize
  }

  function AfterPush<T>(s: State<T>, maxsize: int, value: T): State<T> {
    if IsStored(s, maxsize) then s.(items := s.items + [value], active := s.active - 1) else s
  }

  function After<T>(s: State<T>, maxsize: int, ops: seq<Op<T>>): State<T>
    decreases |ops|
  {
    if ops == [] then s
    else After(if ops[0].PopOp? then AfterPop(s) else AfterPush(s, maxsize, ops[0].value), maxsize, ops[1..])
  }

  function Max(a: int, b: int): int { if a > b then a else b }

  ghost predicate Balanced<T>(s: State<T>, startsize: int, maxsize: int) {
    && s.active + |s.items| == Max(startsize, 0) + s.emptyPops
    && |s.items| <= Max(Max(startsize, maxsize), 1)
  }

  /**
    In every run: what is out plus what is stored is what there was at the start plus what empty
    pops created, and never more is stored than the larger of the two sizes, or one item.
   */
  lemma {:induction false} RunIsBalanced<T>(s: State<T>, startsize: int, maxsize: int, ops: seq<Op<T>>)
    requires Balanced(s, startsize, maxsize)
    ensures Balanced(After(s, maxsize, ops), startsize, maxsize)
    decreases |ops|
  {
    if ops != [] {
      var next := if ops[0].PopOp? then AfterPop(s) else AfterPush(s, maxsize, ops[0].value);
      RunIsBalanced(next, startsize, maxsize, ops[1..]);
    }
  }

  function Pushes<T>(vs: seq<T>): seq<Op<T>> {
    if vs == [] then [] else [PushOp(vs[0])] + Pushes(vs[1..])
  }

  /** The values that `n` pops return while something is stored, last in first. */
  function Popped<T>(s: State<T>, n: nat): seq<T>
    requires n <= |s.items|
    decreases n
  {
    if n == 0 then [] else [s.items[|s.items| - 1]] + Popped(AfterPop(s), n - 1)
  }

  function Pops<T>(n: nat): seq<Op<T>> {
    if n == 0 then [] else [PopOp] + Pops(n - 1)
  }

  lemma {:induction false} PushesAreStored<T>(s: State<T>, maxsize: int, vs: seq<T>)
    requires |s.items| + |vs| <= maxsize
    ensures After(s, maxsize, Pushes(vs)) == s.(items := s.items + vs, active := s.active - |vs|)
    decreases |vs|
  {
    if vs == [] {
      assert s.items + vs == s.items;
    } else {
      var next, ops := AfterPush(s, maxsize, vs[0]), Pushes(vs);
      assert ops[0] == PushOp(vs[0]) && ops[1..] == Pushes(vs[1..]);
      assert After(s, maxsize, ops) == After(next, maxsize, ops[1..]);
      PushesAreStored(next, maxsize, vs[1..]);
      assert next.items + vs[1..] == s.items + vs;
    }
  }

  lemma {:induction false} PopsAreReversed<T>(s: State<T>, maxsize: int, n: nat)
    requires n <= |s.items|
    ensures After(s, maxsize, Pops(n)) == s.(items := s.items[..|s.items| - n], active := s.active + n)
    ensures |Popped(s, n)| == n && forall i :: 0 <= i < n ==> Popped(s, n)[i] == s.items[|s.items| - 1 - i]
    decreases n
  {
    if n > 0 {
      PopsAreReversed(AfterPop(s), maxsize, n - 1);
      assert Pops<T>(n)[1..] == Pops<T>(n - 1);
    }
  }

  /** Values pushed within the limit are popped in reverse, and the pool is as it was before. */
  lemma LastInFirstOut<T>(s: State<T>, maxsize: int, vs: seq<T>)
    requires |s.items| + |vs| <= maxsize
    ensures var full := After(s, maxsize, Pushes(vs));
            && |full.items| >= |vs| && After(full, maxsize, Pops(|vs|)) == s
            && |Popped(full, |vs|)| == |vs|
            && forall i :: 0 <= i < |vs| ==> Popped(full, |vs|)[i] == vs[|vs| - 1 - i]
  {
    PushesAreStored(s, maxsize, vs);
    var full := After(s, maxsize, Pushes(vs));
    PopsAreReversed(full, maxsize, |vs|);
    assert full.items[..|s.items|] == s.items;
  }

  // ----- the linked list -----

  class Element<T> {
    var Value: T
    var Previous: Element?<T>
    var Next: Element?<T>

    constructor (value: T, previous: Element?<T>)
      ensures Value == value && Previous == previous && Next == null
    {
      Value, Previous, Next := value, previous, null;
    }
  }

  class SimpleLockStack<T> {
    var Current: Element<T>
    var Creator: Option<nat -> T>      // the n-th object it makes
    var created: nat                   // how many it has made
    var len: nat
    var capacity: int
    var active: int
    const maxsize: int
    const nil: T

    ghost var nodes: seq<Element<T>>   // every node ever linked, bottom first
    ghost var emptyPops: nat
    ghost const spare: nat             // the first node is not counted in a pool that starts empty

    /** The nodes form one chain without repetition, linked both ways. */
    ghost predicate Linked()
      reads this, nodes
    {
      && |nodes| > 0
      && (forall i, j :: 0 <= i < j < |nodes| ==> nodes[i] != nodes[j])
      && nodes[0].Previous == null && nodes[|nodes| - 1].Next == null
      && (forall i :: 0 < i < |nodes| ==> nodes[i].Previous == nodes[i - 1])
      && (forall i :: 0 < i < |nodes| ==> nodes[i - 1].Next == nodes[i])
    }

    ghost predicate Valid()
      reads this, nodes
    {
      && Linked()
      && len <= |nodes|
      && Current == nodes[Max(len, 1) - 1]
      && capacity + spare == |nodes|
    }

    /** The stored values, bottom first. */
    ghost function Items(): seq<T>
      reads this, nodes
      requires Valid()
    {
      seq(len, i requires 0 <= i < len && len <= |nodes| reads this, nodes => nodes[i].Value)
    }

    ghost function Abs(): State<T>
      reads this, nodes
      requires Valid()
    {
      State(Items(), active, emptyPops)
    }

    /** Links a fresh node above the topmost one. */
    method LinkTop(top: Element<T>, value: T) returns (e: Element<T>)
      requires Linked() && top == nodes[|nodes| - 1]
      modifies this`nodes, top`Next
      ensures Linked() && fresh(e) && nodes == old(nodes) + [e]
      ensures e.Value == value && top.Next == e
    {
      e := new Element(value, top);
      top.Next := e;
      nodes := nodes + [e];
    }

    /** The loop of NewStackLock: a node for each further object. */
    method Fill(first: Element<T>, startsize: int, creator: nat -> T) returns (current: Element<T>)
      requires startsize > 0 && nodes == [first] && Linked() && first.Value == creator(0)
      modifies this`nodes, first
      ensures Linked() && |nodes| == startsize && nodes[0] == first && current == nodes[startsize - 1]
      ensures forall j :: 0 < j < startsize ==> fresh(nodes[j])
      ensures forall j :: 0 <= j < startsize ==> nodes[j].Value == creator(j)
    {
      current := first;
      for i := 1 to startsize
        invariant Linked() && |nodes| == i && nodes[0] == first && current == nodes[i - 1]
        invariant forall j :: 0 < j < i ==> fresh(nodes[j])
        invariant forall j :: 0 <= j < i ==> nodes[j].Value == creator(j)
      {
        current := LinkTop(current, creator(i));
      }
    }

    /** The struct that NewStackLock starts from: one object made, and none stored. */
    constructor (maxsize: int, creator: nat -> T, nil: T, ghost spare: nat)
      ensures Linked() && |nodes| == 1 && fresh(nodes[0]) && Current == nodes[0] && nodes[0].Value == creator(0)
      ensures this.maxsize == maxsize && this.nil == nil && this.spare == spare && Creator == Some(creator)
      ensures len == 0 && capacity == 0 && active == 0 && emptyPops == 0 && created == 1
    {
      var first := new Element(creator(0), null);
      this.Current, this.Creator, this.maxsize, this.nil := first, Some(creator), maxsize, nil;
      this.len, this.capacity, this.active, this.created := 0, 0, 0, 1;
      this.nodes, this.emptyPops, this.spare := [first], 0, spare;
    }

    /** `startsize` objects are made and stored, or one that is not stored. */
    static method NewStackLock(startsize: int, maxsize: int, creator: nat -> T, nil: T) returns (ss: SimpleLockStack<T>)
      ensures fresh(ss) && ss.Valid() && fresh(ss.nodes)
      ensures ss.maxsize == maxsize && ss.nil == nil && ss.Creator == Some(creator)
      ensures |ss.Items()| == Max(startsize, 0) && ss.active == 0 && ss.emptyPops == 0
      ensures forall i :: 0 <= i < startsize ==> ss.Items()[i] == creator(i)
      ensures Balanced(ss.Abs(), startsize, maxsize)
      ensures ss.created == Max(startsize, 1) && ss.capacity == Max(startsize, 0)
    {
      ss := new SimpleLockStack(maxsize, creator, nil, if startsize > 0 then 0 else 1);
      if startsize > 0 { ss.Stock(startsize, creator); }
    }

    method Stock(startsize: int, creator: nat -> T)
      requires startsize > 0 && nodes == [Current] && Linked() && Current.Value == creator(0) && spare == 0
      modifies this, Current
      ensures Valid() && nodes[0] == old(Current) && (forall j :: 0 < j < |nodes| ==> fresh(nodes[j]))
      ensures len == capacity == created == startsize && active == 0 && emptyPops == old(emptyPops)
      ensures Creator == old(Creator) && forall j :: 0 <= j < startsize ==> nodes[j].Value == creator(j)
    {
      var current := Fill(Current, startsize, creator);
      created := startsize;
      capacity, len, active := startsize, startsize, 0;
      Current := current;
    }

    method Pop() returns (value: T)
      requires Valid()
      modifies this
      ensures Valid() && nodes == old(nodes) && Creator == old(Creator) && capacity == old(capacity)
      ensures Abs() == AfterPop(old(Abs()))
      ensures value == if old(Items()) != [] then old(Items())[|old(Items())| - 1]
                       else if Creator.Some? then Creator.value(old(created)) else nil
      ensures created == old(created) + (if old(Items()) == [] && Creator.Some? then 1 else 0)
    {
      if len == 0 {
        value := nil;
        if Creator.Some? {
          value := Creator.value(created);
          created := created + 1;
        }
        emptyPops := emptyPops + 1;
      } else {
        value := Current.Value;
        len := len - 1;
        if Current.Previous != null {
          Current := Current.Previous;
        }
      }
      active := active + 1;
    }

    /** A node above the current one is reused; a new one is linked only at the top of the chain. */
    method Push(value: T)
      requires Valid()
      modifies this, nodes
      ensures Valid() && Creator == old(Creator) && created == old(created)
      ensures Abs() == AfterPush(old(Abs()), maxsize, value)
      ensures if IsStored(old(Abs()), maxsize) && old(len) == |old(nodes)|
              then |nodes| == |old(nodes)| + 1 && nodes[..|old(nodes)|] == old(nodes) && fresh(nodes[|old(nodes)|])
              else nodes == old(nodes)
    {
      if len == 0 {
        Current.Value := value;
      } else if len < maxsize {
        assert Current == nodes[len - 1];
        assert len < |nodes| ==> nodes[len - 1].Next == nodes[len];
        if Current.Next == null {
          var e := LinkTop(Current, value);
          assert nodes[len - 1] == Current && nodes[len] == e;
          capacity := capacity + 1;
        } else {
          assert Current.Next == nodes[len];
          Current.Next.Value := value;
        }
        Current := Current.Next;
      } else {
        return;
      }
      len := len + 1;
      active := active - 1;
    }
  }
}
