/**
  The *Controller fields that an application controller embeds, at any depth, and the breadth-first
  search for them, with field paths as values.
 */
module ControllerPaths {
  import opened Common

  /**
    A field's type as the search sees it. The search runs over a zero value, so every embedded
    pointer other than *Controller is nil.
   */
  datatype Typ = ControllerPtr | NilPtr | NotStruct | Struct(fields: seq<Field>)

  datatype Field = Field(anonymous: bool, typ: Typ)

  type Path = seq<nat>

  /** What the anonymous fields at the positions of `path` lead to. */
  function At(t: Typ, path: Path): Option<Typ>
    decreases |path|
  {
    if path == [] then Some(t)
    else if t.Struct? && path[0] < |t.fields| && t.fields[path[0]].anonymous
    then At(t.fields[path[0]].typ, path[1..])
    else None
  }

  ghost predicate IsController(app: Typ, path: Path) {
    path != [] && At(app, path) == Some(ControllerPtr)
  }

  ghost predicate IsNil(app: Typ, path: Path) {
    path != [] && At(app, path) == Some(NilPtr)
  }

  lemma {:induction false} AtExtended(t: Typ, path: Path, rest: Path)
    ensures At(t, path + rest) == if At(t, path).Some? then At(At(t, path).value, rest) else None
    decreases |path|
  {
    if path == [] {
      assert path + rest == rest;
    } else {
      assert (path + rest)[1..] == path[1..] + rest;
      if t.Struct? && path[0] < |t.fields| && t.fields[path[0]].anonymous {
        AtExtended(t.fields[path[0]].typ, path[1..], rest);
      }
    }
  }

  // ----- breadth-first order -----

  predicate LexLess(a: Path, b: Path)
    decreases |a|
  {
    |a| == |b| && a != [] && (a[0] < b[0] || (a[0] == b[0] && LexLess(a[1..], b[1..])))
  }

  /** Shorter paths first, and paths of one length by their positions. */
  predicate Before(a: Path, b: Path) { |a| < |b| || LexLess(a, b) }

  lemma {:induction false} LexTrans(a: Path, b: Path, c: Path)
    requires LexLess(a, b) && LexLess(b, c)
    ensures LexLess(a, c)
    decreases |a|
  {
    if a[0] == b[0] && b[0] == c[0] { LexTrans(a[1..], b[1..], c[1..]); }
  }

  lemma {:induction false} LexAppend(a: Path, b: Path, i: nat, j: nat)
    requires LexLess(a, b) || (a == b && i < j)
    ensures LexLess(a + [i], b + [j])
    decreases |a|
  {
    if a != [] && a[0] == b[0] {
      assert (a + [i])[1..] == a[1..] + [i] && (b + [j])[1..] == b[1..] + [j];
      LexAppend(a[1..], b[1..], i, j);
    }
  }

  ghost predicate Ordered(ps: seq<Path>) {
    forall i, j :: 0 <= i < j < |ps| ==> Before(ps[i], ps[j])
  }

  /** `x` comes before every child of `h` or of a later node. */
  ghost predicate Settled(x: Path, h: Path) {
    |x| <= |h| || (|x| == |h| + 1 && LexLess(x[..|h|], h))
  }

  lemma SettledBeforeChild(x: Path, h: Path, i: nat)
    requires Settled(x, h)
    ensures Before(x, h + [i])
  {
    if |x| == |h| + 1 {
      LexAppend(x[..|h|], h, x[|h|], i);
      assert x == x[..|h|] + [x[|h|]];
    }
  }

  lemma SettledLater(x: Path, h: Path, h': Path)
    requires Settled(x, h) || (|x| == |h| + 1 && x[..|h|] == h)
    requires Before(h, h') && |h'| <= |h| + 1
    ensures Settled(x, h')
  {
    if |x| == |h| + 1 && |h'| == |h| && LexLess(x[..|h|], h) { LexTrans(x[..|h|], h, h'); }
  }

  // ----- the search -----

  /** A queued value: the fresh *App the search starts from, or a zero field. */
  datatype Val = NewPtr(elem: Typ) | ZeroOf(typ: Typ)

  datatype Node = Node(val: Val, index: Path)

  /** Dereferencing a pointer if there is one; None is the panic on a nil pointer. */
  function Deref(v: Val): Option<Typ> {
    match v
    case NewPtr(t) => Some(t)
    case ZeroOf(t) => if t.NilPtr? then None else Some(t)
  }

  function TypOf(v: Val): Typ {
    match v
    case NewPtr(t) => t
    case ZeroOf(t) => t
  }

  /** The positions below `n` of the anonymous fields that are controllers, or that are not. */
  function Picks(fields: seq<Field>, controllers: bool, n: nat): (r: seq<nat>)
    requires n <= |fields|
    ensures forall k :: 0 <= k < |r| ==> r[k] < n
  {
    if n == 0 then []
    else
      var before := Picks(fields, controllers, n - 1);
      if IsPick(fields, controllers, n - 1) then before + [n - 1] else before
  }

  predicate IsPick(fields: seq<Field>, controllers: bool, i: nat) {
    i < |fields| && fields[i].anonymous && fields[i].typ.ControllerPtr? == controllers
  }

  ghost predicate AllPicked(fields: seq<Field>, controllers: bool, n: nat, picks: seq<nat>) {
    && (forall k :: 0 <= k < |picks| ==> picks[k] < n && IsPick(fields, controllers, picks[k]))
    && (forall k, l :: 0 <= k < l < |picks| ==> picks[k] < picks[l])
    && (forall i :: 0 <= i < n && IsPick(fields, controllers, i) ==> i in picks)
  }

  lemma {:induction false} PickAt(fields: seq<Field>, controllers: bool, n: nat, k: nat)
    requires n <= |fields| && k < |Picks(fields, controllers, n)|
    ensures Picks(fields, controllers, n)[k] < n && IsPick(fields, controllers, Picks(fields, controllers, n)[k])
  {
    if k < |Picks(fields, controllers, n - 1)| { PickAt(fields, controllers, n - 1, k); }
  }

  lemma {:induction false} PicksIncrease(fields: seq<Field>, controllers: bool, n: nat, k: nat, l: nat)
    requires n <= |fields| && k < l < |Picks(fields, controllers, n)|
    ensures Picks(fields, controllers, n)[k] < Picks(fields, controllers, n)[l]
  {
    if l < |Picks(fields, controllers, n - 1)| {
      PicksIncrease(fields, controllers, n - 1, k, l);
    } else {
      PickAt(fields, controllers, n - 1, k);
    }
  }

  lemma {:induction false} IsPicked(fields: seq<Field>, controllers: bool, n: nat, i: nat)
    requires i < n <= |fields| && IsPick(fields, controllers, i)
    ensures i in Picks(fields, controllers, n)
  {
    if i < n - 1 {
      IsPicked(fields, controllers, n - 1, i);
    }
  }

  lemma PicksAre(fields: seq<Field>, controllers: bool, n: nat)
    requires n <= |fields|
    ensures AllPicked(fields, controllers, n, Picks(fields, controllers, n))
  {
    var picks := Picks(fields, controllers, n);
    forall k | 0 <= k < |picks| ensures picks[k] < n && IsPick(fields, controllers, picks[k]) {
      PickAt(fields, controllers, n, k);
    }
    forall k, l | 0 <= k < l < |picks| ensures picks[k] < picks[l] {
      PicksIncrease(fields, controllers, n, k, l);
    }
    forall i | 0 <= i < n && IsPick(fields, controllers, i) ensures i in picks {
      IsPicked(fields, controllers, n, i);
    }
  }

  function ChildPaths(index: Path, picks: seq<nat>): seq<Path> {
    seq(|picks|, k requires 0 <= k < |picks| => index + [picks[k]])
  }

  function ChildNodes(fields: seq<Field>, index: Path, picks: seq<nat>): seq<Node>
    requires forall k :: 0 <= k < |picks| ==> picks[k] < |fields|
  {
    seq(|picks|, k requires 0 <= k < |picks| => Node(ZeroOf(fields[picks[k]].typ), index + [picks[k]]))
  }

  function Paths(queue: seq<Node>): seq<Path> {
    seq(|queue|, i requires 0 <= i < |queue| => queue[i].index)
  }

  // ----- the invariant -----

  ghost predicate NodeOk(app: Typ, n: Node) {
    && At(app, n.index) == Some(TypOf(n.val))
    && (n.val.NewPtr? <==> n.index == [])
  }

  ghost predicate AllSettled(ps: seq<Path>, h: Path) {
    forall i :: 0 <= i < |ps| ==> Settled(ps[i], h)
  }

  /** What is found and queued is right and in order, and `queue[0]` comes next. */
  ghost predicate Sound(app: Typ, queue: seq<Node>, indexes: seq<Path>) {
    && (forall i :: 0 <= i < |queue| ==> NodeOk(app, queue[i]))
    && (forall i :: 0 <= i < |indexes| ==> IsController(app, indexes[i]))
    && Ordered(indexes) && Ordered(Paths(queue))
    && (queue != [] ==> AllSettled(indexes, queue[0].index) && AllSettled(Paths(queue), queue[0].index))
  }

  ghost predicate Ahead(queue: seq<Node>, path: Path, strictly: bool) {
    exists i :: 0 <= i < |queue| && queue[i].index <= path && (strictly ==> queue[i].index != path)
  }

  /** Nothing has been passed over. */
  ghost predicate Complete(app: Typ, queue: seq<Node>, indexes: seq<Path>) {
    && (forall path {:trigger IsController(app, path)} ::
          IsController(app, path) ==> path in indexes || Ahead(queue, path, true))
    && (forall path {:trigger IsNil(app, path)} :: IsNil(app, path) ==> Ahead(queue, path, false))
  }

  function FieldsOf(t: Typ): seq<Field> { if t.Struct? then t.fields else [] }

  /** The queue and the result after the node at the head has been looked at. */
  function NextQueue(queue: seq<Node>): seq<Node>
    requires queue != []
  {
    var fields := FieldsOf(TypOf(queue[0].val));
    queue[1..] + ChildNodes(fields, queue[0].index, Picks(fields, false, |fields|))
  }

  function NextIndexes(queue: seq<Node>, indexes: seq<Path>): seq<Path>
    requires queue != []
  {
    var fields := FieldsOf(TypOf(queue[0].val));
    indexes + ChildPaths(queue[0].index, Picks(fields, true, |fields|))
  }

  lemma AtChild(app: Typ, h: Path, i: nat)
    requires At(app, h).Some? && i < |FieldsOf(At(app, h).value)| && FieldsOf(At(app, h).value)[i].anonymous
    ensures At(app, h + [i]) == Some(FieldsOf(At(app, h).value)[i].typ)
  {
    AtExtended(app, h, [i]);
  }

  lemma OrderedAppend(ps: seq<Path>, h: Path, picks: seq<nat>)
    requires Ordered(ps) && AllSettled(ps, h)
    requires forall k, l :: 0 <= k < l < |picks| ==> picks[k] < picks[l]
    ensures Ordered(ps + ChildPaths(h, picks))
  {
    var qs := ps + ChildPaths(h, picks);
    forall i, j | 0 <= i < j < |qs| ensures Before(qs[i], qs[j]) {
      if |ps| <= i {
        LexAppend(h, h, picks[i - |ps|], picks[j - |ps|]);
      } else if |ps| <= j {
        SettledBeforeChild(ps[i], h, picks[j - |ps|]);
      }
    }
  }

  lemma SettledForward(ps: seq<Path>, h: Path, picks: seq<nat>, h': Path)
    requires AllSettled(ps, h) && Before(h, h') && |h'| <= |h| + 1
    ensures AllSettled(ps + ChildPaths(h, picks), h')
  {
    var qs := ps + ChildPaths(h, picks);
    forall i | 0 <= i < |qs| ensures Settled(qs[i], h') {
      if i >= |ps| { assert qs[i][..|h|] == h; }
      SettledLater(qs[i], h, h');
    }
  }

  lemma PathsOfNext(queue: seq<Node>)
    requires queue != []
    ensures var fields := FieldsOf(TypOf(queue[0].val));
            Paths(NextQueue(queue)) == Paths(queue)[1..] + ChildPaths(queue[0].index, Picks(fields, false, |fields|))
  {
  }

  lemma KidsOk(app: Typ, node: Node, kids: seq<nat>)
    requires NodeOk(app, node)
    requires var fields := FieldsOf(TypOf(node.val)); AllPicked(fields, false, |fields|, kids)
    ensures var nodes := ChildNodes(FieldsOf(TypOf(node.val)), node.index, kids);
            forall k :: 0 <= k < |nodes| ==> NodeOk(app, nodes[k])
  {
    forall k | 0 <= k < |kids| ensures NodeOk(app, ChildNodes(FieldsOf(TypOf(node.val)), node.index, kids)[k]) {
      AtChild(app, node.index, kids[k]);
    }
  }

  lemma HitsOk(app: Typ, node: Node, hits: seq<nat>)
    requires NodeOk(app, node)
    requires var fields := FieldsOf(TypOf(node.val)); AllPicked(fields, true, |fields|, hits)
    ensures forall k :: 0 <= k < |hits| ==> IsController(app, ChildPaths(node.index, hits)[k])
  {
    forall k | 0 <= k < |hits| ensures IsController(app, ChildPaths(node.index, hits)[k]) {
      AtChild(app, node.index, hits[k]);
    }
  }

  /** What one step adds to the queue, and to the result. */
  lemma StepItems(app: Typ, node: Node)
    requires NodeOk(app, node)
    ensures var fields := FieldsOf(TypOf(node.val));
            && (forall n :: n in ChildNodes(fields, node.index, Picks(fields, false, |fields|)) ==> NodeOk(app, n))
            && (forall p :: p in ChildPaths(node.index, Picks(fields, true, |fields|)) ==> IsController(app, p))
  {
    var fields := FieldsOf(TypOf(node.val));
    PicksAre(fields, true, |fields|);
    PicksAre(fields, false, |fields|);
    KidsOk(app, node, Picks(fields, false, |fields|));
    HitsOk(app, node, Picks(fields, true, |fields|));
  }

  lemma StepOrder(app: Typ, queue: seq<Node>, indexes: seq<Path>)
    requires queue != [] && Sound(app, queue, indexes)
    ensures var queue', indexes' := NextQueue(queue), NextIndexes(queue, indexes);
            && Ordered(indexes') && Ordered(Paths(queue'))
            && (queue' != [] ==> AllSettled(indexes', queue'[0].index) && AllSettled(Paths(queue'), queue'[0].index))
  {
    var h, ps := queue[0].index, Paths(queue);
    var fields := FieldsOf(TypOf(queue[0].val));
    var hits, kids := Picks(fields, true, |fields|), Picks(fields, false, |fields|);
    var queue' := NextQueue(queue);
    PicksAre(fields, true, |fields|);
    PicksAre(fields, false, |fields|);
    OrderedAppend(indexes, h, hits);
    OrderedAppend(ps[1..], h, kids);
    PathsOfNext(queue);
    if queue' != [] {
      NextHead(queue);
      SettledForward(indexes, h, hits, queue'[0].index);
      SettledForward(ps[1..], h, kids, queue'[0].index);
    }
  }

  lemma StepSound(app: Typ, queue: seq<Node>, indexes: seq<Path>)
    requires queue != [] && Sound(app, queue, indexes)
    ensures Sound(app, NextQueue(queue), NextIndexes(queue, indexes))
  {
    StepOrder(app, queue, indexes);
    StepItems(app, queue[0]);
  }

  lemma NextHead(queue: seq<Node>)
    requires queue != [] && Ordered(Paths(queue)) && AllSettled(Paths(queue), queue[0].index) && NextQueue(queue) != []
    ensures Before(queue[0].index, NextQueue(queue)[0].index)
    ensures |NextQueue(queue)[0].index| <= |queue[0].index| + 1
  {
    if |queue| > 1 {
      assert Paths(queue)[0] == queue[0].index && Paths(queue)[1] == queue[1].index;
    }
  }

  lemma StepComplete(app: Typ, queue: seq<Node>, indexes: seq<Path>)
    requires queue != [] && Sound(app, queue, indexes) && Complete(app, queue, indexes) && Deref(queue[0].val).Some?
    ensures Complete(app, NextQueue(queue), NextIndexes(queue, indexes))
  {
    var queue', indexes' := NextQueue(queue), NextIndexes(queue, indexes);
    forall path | IsController(app, path) ensures path in indexes' || Ahead(queue', path, true) {
      if path !in indexes { AheadNext(app, queue, indexes, path, true); }
    }
    forall path | IsNil(app, path) ensures Ahead(queue', path, false) {
      AheadNext(app, queue, indexes, path, false);
    }
  }

  /** A path that was ahead is found now or still ahead. */
  lemma AheadNext(app: Typ, queue: seq<Node>, indexes: seq<Path>, path: Path, controller: bool)
    requires queue != [] && Sound(app, queue, indexes) && Deref(queue[0].val).Some? && Ahead(queue, path, controller)
    requires if controller then IsController(app, path) else IsNil(app, path)
    ensures (controller && path in NextIndexes(queue, indexes)) || Ahead(NextQueue(queue), path, controller)
  {
    var j :| 0 <= j < |queue| && queue[j].index <= path && (controller ==> queue[j].index != path);
    var queue' := NextQueue(queue);
    if j > 0 {
      assert queue'[j - 1] == queue[j];
    } else {
      var h := queue[0].index;
      assert NodeOk(app, queue[0]);
      assert h != path;
      var i := path[|h|];
      var t := TypOf(queue[0].val);
      assert path == h + path[|h|..];
      AtExtended(app, h, path[|h|..]);
      var fields := FieldsOf(t);
      assert i < |fields| && fields[i].anonymous;
      AtChild(app, h, i);
      FoundOrQueued(app, queue, indexes, path, i, controller);
    }
  }

  lemma FoundOrQueued(app: Typ, queue: seq<Node>, indexes: seq<Path>, path: Path, i: nat, controller: bool)
    requires queue != [] && NodeOk(app, queue[0])
    requires var h, fields := queue[0].index, FieldsOf(TypOf(queue[0].val));
             |h| < |path| && h <= path && path[|h|] == i < |fields| && fields[i].anonymous
    requires if controller then IsController(app, path) else IsNil(app, path)
    ensures (controller && path in NextIndexes(queue, indexes)) || Ahead(NextQueue(queue), path, controller)
  {
    var h, fields := queue[0].index, FieldsOf(TypOf(queue[0].val));
    var child := h + [i];
    assert child <= path;
    AtChild(app, h, i);
    assert path == child + path[|child|..];
    AtExtended(app, child, path[|child|..]);
    PicksAre(fields, fields[i].typ.ControllerPtr?, |fields|);
    if fields[i].typ.ControllerPtr? {
      assert path[|child|..] == [] && path == child;
      HitIsFound(queue, indexes, i);
    } else {
      KidIsQueued(queue, i);
    }
  }

  lemma HitIsFound(queue: seq<Node>, indexes: seq<Path>, i: nat)
    requires queue != []
    requires var fields := FieldsOf(TypOf(queue[0].val)); i in Picks(fields, true, |fields|)
    ensures queue[0].index + [i] in NextIndexes(queue, indexes)
  {
    var fields := FieldsOf(TypOf(queue[0].val));
    var hits := Picks(fields, true, |fields|);
    var k :| 0 <= k < |hits| && hits[k] == i;
    assert NextIndexes(queue, indexes)[|indexes| + k] == queue[0].index + [i];
  }

  lemma KidIsQueued(queue: seq<Node>, i: nat)
    requires queue != []
    requires var fields := FieldsOf(TypOf(queue[0].val)); i in Picks(fields, false, |fields|)
    ensures exists j :: 0 <= j < |NextQueue(queue)| && NextQueue(queue)[j].index == queue[0].index + [i]
  {
    var fields := FieldsOf(TypOf(queue[0].val));
    var kids := Picks(fields, false, |fields|);
    var k :| 0 <= k < |kids| && kids[k] == i;
    assert NextQueue(queue)[|queue| - 1 + k].index == queue[0].index + [i];
  }

  // ----- termination -----

  function Size(t: Typ): nat
    decreases t, if t.Struct? then |t.fields| + 1 else 0
  {
    if t.Struct? then 1 + FieldSizes(t, |t.fields|) else 1
  }

  /** The first `n` fields of a struct. */
  function FieldSizes(t: Typ, n: nat): nat
    requires t.Struct? && n <= |t.fields|
    decreases t, n
  {
    if n == 0 then 0 else FieldSizes(t, n - 1) + Size(t.fields[n - 1].typ)
  }

  function QueueSize(queue: seq<Node>): nat {
    if queue == [] then 0 else QueueSize(queue[..|queue| - 1]) + Size(TypOf(queue[|queue| - 1].val))
  }

  lemma {:induction false} QueueSizeConcat(a: seq<Node>, b: seq<Node>)
    ensures QueueSize(a + b) == QueueSize(a) + QueueSize(b)
    decreases |b|
  {
    if b == [] {
      assert a + b == a;
    } else {
      assert (a + b)[..|a + b| - 1] == a + b[..|b| - 1];
      QueueSizeConcat(a, b[..|b| - 1]);
    }
  }

  lemma {:induction false} KidsAreSmaller(t: Typ, index: Path, n: nat)
    requires t.Struct? && n <= |t.fields|
    ensures QueueSize(ChildNodes(t.fields, index, Picks(t.fields, false, n))) <= FieldSizes(t, n)
    decreases n
  {
    if n > 0 {
      KidsAreSmaller(t, index, n - 1);
      OneFieldMore(t.fields, index, n);
    }
  }

  lemma OneFieldMore(fields: seq<Field>, index: Path, n: nat)
    requires 0 < n <= |fields|
    ensures QueueSize(ChildNodes(fields, index, Picks(fields, false, n)))
         <= QueueSize(ChildNodes(fields, index, Picks(fields, false, n - 1))) + Size(fields[n - 1].typ)
  {
    var kids := ChildNodes(fields, index, Picks(fields, false, n - 1));
    var kid := Node(ZeroOf(fields[n - 1].typ), index + [n - 1]);
    ChildNodesMore(fields, index, n);
    OneKidMore(kids, kid);
  }

  lemma OneKidMore(kids: seq<Node>, kid: Node)
    ensures QueueSize(kids + [kid]) == QueueSize(kids) + Size(TypOf(kid.val))
  {
    QueueSizeConcat(kids, [kid]);
    QueueSizeOne(kid);
  }

  lemma ChildNodesMore(fields: seq<Field>, index: Path, n: nat)
    requires 0 < n <= |fields|
    ensures ChildNodes(fields, index, Picks(fields, false, n))
         == var before := ChildNodes(fields, index, Picks(fields, false, n - 1));
            if IsPick(fields, false, n - 1) then before + [Node(ZeroOf(fields[n - 1].typ), index + [n - 1])] else before
  {
  }

  lemma ChildPathsMore(fields: seq<Field>, index: Path, n: nat)
    requires 0 < n <= |fields|
    ensures ChildPaths(index, Picks(fields, true, n))
         == var before := ChildPaths(index, Picks(fields, true, n - 1));
            if IsPick(fields, true, n - 1) then before + [index + [n - 1]] else before
  {
  }

  lemma QueueShrinks(queue: seq<Node>)
    requires queue != []
    ensures QueueSize(NextQueue(queue)) < QueueSize(queue)
  {
    var t := TypOf(queue[0].val);
    var fields := FieldsOf(t);
    if t.Struct? { KidsAreSmaller(t, queue[0].index, |fields|); }
    QueueSizeConcat(queue[1..], ChildNodes(fields, queue[0].index, Picks(fields, false, |fields|)));
    assert queue == queue[..1] + queue[1..];
    QueueSizeConcat(queue[..1], queue[1..]);
    QueueSizeOne(queue[0]);
    assert queue[..1] == [queue[0]];
  }

  lemma QueueSizeOne(n: Node)
    ensures QueueSize([n]) == Size(TypOf(n.val))
  {
    assert [n][..0] == [];
  }

  // ----- one round -----

  /** One more field of a node. */
  lemma OneField(fields: seq<Field>, index: Path, i: nat)
    requires i < |fields|
    ensures var kids, child := ChildNodes(fields, index, Picks(fields, false, i)), index + [i];
            ChildNodes(fields, index, Picks(fields, false, i + 1))
            == if fields[i].anonymous && !fields[i].typ.ControllerPtr?
               then kids + [Node(ZeroOf(fields[i].typ), child)] else kids
    ensures var hits := ChildPaths(index, Picks(fields, true, i));
            ChildPaths(index, Picks(fields, true, i + 1))
            == if fields[i].anonymous && fields[i].typ.ControllerPtr? then hits + [index + [i]] else hits
  {
    ChildNodesMore(fields, index, i + 1);
    ChildPathsMore(fields, index, i + 1);
  }

  lemma NilAtHead(app: Typ, queue: seq<Node>, indexes: seq<Path>)
    requires queue != [] && Sound(app, queue, indexes) && Deref(queue[0].val).None?
    ensures IsNil(app, queue[0].index)
  {
    assert NodeOk(app, queue[0]);
  }

  lemma AllAheadOfRoot(app: Typ)
    ensures Complete(app, [Node(NewPtr(app), [])], [])
  {
    var queue := [Node(NewPtr(app), [])];
    forall path: Path, strictly: bool ensures path != [] ==> Ahead(queue, path, strictly) {
      assert queue[0].index <= path;
    }
  }

  lemma NextRound(app: Typ, queue: seq<Node>, indexes: seq<Path>)
    requires queue != [] && Sound(app, queue, indexes) && Complete(app, queue, indexes) && Deref(queue[0].val).Some?
    ensures Sound(app, NextQueue(queue), NextIndexes(queue, indexes))
    ensures Complete(app, NextQueue(queue), NextIndexes(queue, indexes))
    ensures QueueSize(NextQueue(queue)) < QueueSize(queue)
  {
    StepSound(app, queue, indexes);
    StepComplete(app, queue, indexes);
    QueueShrinks(queue);
  }

  lemma NothingLeft(app: Typ, indexes: seq<Path>)
    requires Sound(app, [], indexes) && Complete(app, [], indexes)
    ensures Ordered(indexes) && forall path :: path in indexes <==> IsController(app, path)
    ensures forall path :: !IsNil(app, path)
  {
    forall path | IsController(app, path) ensures path in indexes {
      assert !Ahead([], path, true);
    }
    forall path ensures !IsNil(app, path) {
      assert !Ahead([], path, false);
    }
  }
}
