/**
  findControllers with its slices: each queued field has an index slice in an array of its own, and a
  found *Controller appends to the index of the struct that embeds it. When that array has room, all
  controllers of one struct are written to the same place.
 */
module FindControllers {
  import opened Common
  import opened Slices
  import opened ControllerPaths

  // ----- index slices -----

  /** append(append([]int{}, s...), i) */
  function FreshIndex(grow: Growth, st: Store, s: Slice, i: nat): (Store, Slice)
    requires In(st, s)
  {
    var (st1, s1) := Append(grow, st + [[]], Slice(|st|, 0), View(st, s));
    AppendView(grow, st + [[]], Slice(|st|, 0), View(st, s));
    Append(grow, st1, s1, [i])
  }

  /** The capacity that this leaves for an index of length `n`. */
  function Capacity(grow: Growth, n: nat): nat {
    if n == 0 then 0
    else
      var copied := if n == 1 then 0 else n - 1 + grow(0, n - 1);
      if n <= copied then copied else n + grow(copied, n)
  }

  /** The index of a struct at this depth has room for one more. */
  predicate Roomy(grow: Growth, n: nat) { Capacity(grow, n) > n }

  lemma FreshIndexIs(grow: Growth, st: Store, s: Slice, i: nat)
    requires In(st, s)
    ensures var (st', s') := FreshIndex(grow, st, s, i);
            && In(st', s') && View(st', s') == View(st, s) + [i] && s'.arr >= |st|
            && |st'[s'.arr]| == Capacity(grow, s.len + 1)
            && |st| <= |st'| && forall b :: 0 <= b < |st| ==> st'[b] == st[b]
  {
    var h, st0 := View(st, s), st + [[]];
    var (st1, s1) := Append(grow, st0, Slice(|st|, 0), h);
    AppendView(grow, st0, Slice(|st|, 0), h);
    AppendView(grow, st1, s1, [i]);
    assert View(st0, Slice(|st|, 0)) + h == h;
    assert forall b :: 0 <= b < |st| ==> st0[b] == st[b];
    if h == [] { assert st1 == st0; }
  }

  /** A queued value with its index slice. */
  datatype Entry = Entry(val: Val, index: Slice)

  // ----- what the slices show -----

  ghost predicate Mirrors(grow: Growth, st: Store, e: Entry, n: Node) {
    && e.val == n.val && In(st, e.index) && View(st, e.index) == n.index
    && |st[e.index.arr]| == Capacity(grow, |n.index|)
  }

  ghost predicate QueueMirrors(grow: Growth, st: Store, queue: seq<Entry>, nodes: seq<Node>) {
    && |queue| == |nodes|
    && (forall k :: 0 <= k < |queue| ==> Mirrors(grow, st, queue[k], nodes[k]))
    && (forall k, l :: 0 <= k < l < |queue| ==> queue[k].index.arr != queue[l].index.arr)
  }

  /** No queued index is in array `a`. */
  ghost predicate Clear(queue: seq<Entry>, a: nat) { forall k :: 0 <= k < |queue| ==> queue[k].index.arr != a }

  ghost predicate AllClear(queue: seq<Entry>, indexes: seq<Slice>) {
    forall k :: 0 <= k < |indexes| ==> Clear(queue, indexes[k].arr)
  }

  ghost predicate Shows(st: Store, indexes: seq<Slice>, shown: seq<Path>) {
    && |indexes| == |shown|
    && forall k :: 0 <= k < |indexes| ==> In(st, indexes[k]) && View(st, indexes[k]) == shown[k]
  }

  ghost predicate Avoids(indexes: seq<Slice>, a: nat) { forall k :: 0 <= k < |indexes| ==> indexes[k].arr != a }

  /** The controllers found in one struct: with room they are all in its own array and show the last one. */
  function HitsShown(grow: Growth, h: Path, picks: seq<nat>): seq<Path> {
    seq(|picks|, k requires 0 <= k < |picks| => h + [if Roomy(grow, |h|) then picks[|picks| - 1] else picks[k]])
  }

  ghost predicate HitsAt(grow: Growth, s: Slice, h: Path, hits: seq<Slice>) {
    forall k :: 0 <= k < |hits| ==> if Roomy(grow, |h|) then hits[k] == Slice(s.arr, |h| + 1) else hits[k].arr != s.arr
  }

  /** The node whose fields are being looked at. */
  ghost predicate AtNode(grow: Growth, st: Store, s: Slice, h: Path) {
    In(st, s) && View(st, s) == h && |st[s.arr]| == Capacity(grow, |h|)
  }

  // ----- writing to one array leaves the others -----

  lemma QueueKept(grow: Growth, st: Store, st': Store, a: nat, queue: seq<Entry>, nodes: seq<Node>)
    requires QueueMirrors(grow, st, queue, nodes) && OnlyAt(st, st', a) && Clear(queue, a)
    ensures QueueMirrors(grow, st', queue, nodes)
  {
    forall k | 0 <= k < |queue| ensures Mirrors(grow, st', queue[k], nodes[k]) {
      assert Mirrors(grow, st, queue[k], nodes[k]);
    }
  }

  lemma ShownKept(st: Store, st': Store, a: nat, indexes: seq<Slice>, shown: seq<Path>)
    requires Shows(st, indexes, shown) && OnlyAt(st, st', a) && Avoids(indexes, a)
    ensures Shows(st', indexes, shown)
  {
  }

  lemma NewIsClear(grow: Growth, st: Store, queue: seq<Entry>, nodes: seq<Node>, a: nat)
    requires QueueMirrors(grow, st, queue, nodes) && a >= |st|
    ensures Clear(queue, a)
  {
    forall k | 0 <= k < |queue| ensures queue[k].index.arr != a { assert Mirrors(grow, st, queue[k], nodes[k]); }
  }

  // ----- the loop over the fields of one node -----

  /** `picks` and `kids` are the controllers and the other anonymous fields seen so far. */
  ghost predicate Looking(grow: Growth, st: Store, s: Slice, h: Path, queue: seq<Entry>, nodes: seq<Node>,
                          indexes: seq<Slice>, shown: seq<Path>, hits: seq<Slice>, picks: seq<nat>)
  {
    && AtNode(grow, st, s, h) && QueueMirrors(grow, st, queue, nodes) && Clear(queue, s.arr)
    && Shows(st, indexes, shown) && Avoids(indexes, s.arr) && AllClear(queue, indexes)
    && Shows(st, hits, HitsShown(grow, h, picks)) && HitsAt(grow, s, h, hits) && AllClear(queue, hits)
  }

  /** A controller field: append(node.index, i). */
  lemma HitAdded(grow: Growth, st: Store, s: Slice, h: Path, queue: seq<Entry>, nodes: seq<Node>,
                 indexes: seq<Slice>, shown: seq<Path>, hits: seq<Slice>, picks: seq<nat>, i: nat)
    requires Looking(grow, st, s, h, queue, nodes, indexes, shown, hits, picks)
    ensures var (st', hit) := Append(grow, st, s, [i]);
            Looking(grow, st', s, h, queue, nodes, indexes, shown, hits + [hit], picks + [i])
  {
    var (st', hit) := Append(grow, st, s, [i]);
    AppendView(grow, st, s, [i]);
    QueueKept(grow, st, st', s.arr, queue, nodes);
    ShownKept(st, st', s.arr, indexes, shown);
    NewIsClear(grow, st, queue, nodes, |st|);
    HitsShow(grow, st, s, h, hits, picks, i);
    NodeKept(grow, st, s, h, i);
  }

  lemma NodeKept(grow: Growth, st: Store, s: Slice, h: Path, i: nat)
    requires AtNode(grow, st, s, h)
    ensures AtNode(grow, Append(grow, st, s, [i]).0, s, h)
  {
    var a := st[s.arr];
    if s.len + 1 <= |a| { assert (a[..s.len] + [i] + a[s.len + 1..])[..s.len] == a[..s.len]; }
  }

  lemma HitsShow(grow: Growth, st: Store, s: Slice, h: Path, hits: seq<Slice>, picks: seq<nat>, i: nat)
    requires AtNode(grow, st, s, h) && Shows(st, hits, HitsShown(grow, h, picks)) && HitsAt(grow, s, h, hits)
    ensures var (st', hit) := Append(grow, st, s, [i]);
            && Shows(st', hits + [hit], HitsShown(grow, h, picks + [i])) && HitsAt(grow, s, h, hits + [hit])
  {
    var (st', hit) := Append(grow, st, s, [i]);
    AppendView(grow, st, s, [i]);
    var shown, all := HitsShown(grow, h, picks + [i]), hits + [hit];
    forall k | 0 <= k < |all| ensures In(st', all[k]) && View(st', all[k]) == shown[k] {
      if k < |hits| && !Roomy(grow, |h|) {
        assert all[k] == hits[k] && View(st, hits[k]) == HitsShown(grow, h, picks)[k];
      }
    }
  }

  /** Another anonymous field: a node with an index of its own. */
  lemma KidAdded(grow: Growth, st: Store, s: Slice, h: Path, queue: seq<Entry>, nodes: seq<Node>,
                 indexes: seq<Slice>, shown: seq<Path>, hits: seq<Slice>, picks: seq<nat>, i: nat, val: Val)
    requires Looking(grow, st, s, h, queue, nodes, indexes, shown, hits, picks)
    ensures var (st', index) := FreshIndex(grow, st, s, i);
            Looking(grow, st', s, h, queue + [Entry(val, index)], nodes + [Node(val, h + [i])],
                    indexes, shown, hits, picks)
  {
    var (st', index) := FreshIndex(grow, st, s, i);
    FreshIndexIs(grow, st, s, i);
    NewIsClear(grow, st, queue, nodes, index.arr);
    NewIsClear(grow, st, queue, nodes, |st'|);
    QueueKept(grow, st, st', |st'|, queue, nodes);
    assert Mirrors(grow, st', Entry(val, index), Node(val, h + [i]));
    KidIsClear(st, queue, indexes, shown, Entry(val, index));
    KidIsClear(st, queue, hits, HitsShown(grow, h, picks), Entry(val, index));
  }

  lemma KidIsClear(st: Store, queue: seq<Entry>, indexes: seq<Slice>, shown: seq<Path>, e: Entry)
    requires Shows(st, indexes, shown) && AllClear(queue, indexes) && e.index.arr >= |st|
    ensures AllClear(queue + [e], indexes)
  {
  }

  /** After the first `i` fields. */
  ghost predicate LookedAt(grow: Growth, st: Store, s: Slice, h: Path, fields: seq<Field>, i: nat,
                           queue: seq<Entry>, nodes: seq<Node>, indexes: seq<Slice>, shown: seq<Path>, hits: seq<Slice>)
    requires i <= |fields|
  {
    Looking(grow, st, s, h, queue, nodes + ChildNodes(fields, h, Picks(fields, false, i)),
            indexes, shown, hits, Picks(fields, true, i))
  }

  lemma LookedAtNone(grow: Growth, st: Store, s: Slice, h: Path, fields: seq<Field>,
                     queue: seq<Entry>, nodes: seq<Node>, indexes: seq<Slice>, shown: seq<Path>)
    requires Looking(grow, st, s, h, queue, nodes, indexes, shown, [], [])
    ensures LookedAt(grow, st, s, h, fields, 0, queue, nodes, indexes, shown, [])
  {
    assert nodes + ChildNodes(fields, h, []) == nodes;
  }

  lemma Skipped(grow: Growth, st: Store, s: Slice, h: Path, fields: seq<Field>, i: nat,
                queue: seq<Entry>, nodes: seq<Node>, indexes: seq<Slice>, shown: seq<Path>, hits: seq<Slice>)
    requires i < |fields| && !fields[i].anonymous
    requires LookedAt(grow, st, s, h, fields, i, queue, nodes, indexes, shown, hits)
    ensures LookedAt(grow, st, s, h, fields, i + 1, queue, nodes, indexes, shown, hits)
  {
    OneField(fields, h, i);
  }

  lemma Found(grow: Growth, st: Store, s: Slice, h: Path, fields: seq<Field>, i: nat,
              queue: seq<Entry>, nodes: seq<Node>, indexes: seq<Slice>, shown: seq<Path>, hits: seq<Slice>)
    requires i < |fields| && fields[i].anonymous && fields[i].typ.ControllerPtr?
    requires LookedAt(grow, st, s, h, fields, i, queue, nodes, indexes, shown, hits)
    ensures In(st, s)
    ensures var (st', hit) := Append(grow, st, s, [i]);
            LookedAt(grow, st', s, h, fields, i + 1, queue, nodes, indexes, shown, hits + [hit])
  {
    OneField(fields, h, i);
    HitAdded(grow, st, s, h, queue, nodes + ChildNodes(fields, h, Picks(fields, false, i)),
             indexes, shown, hits, Picks(fields, true, i), i);
  }

  lemma Queued(grow: Growth, st: Store, s: Slice, h: Path, fields: seq<Field>, i: nat,
               queue: seq<Entry>, nodes: seq<Node>, indexes: seq<Slice>, shown: seq<Path>, hits: seq<Slice>)
    requires i < |fields| && fields[i].anonymous && !fields[i].typ.ControllerPtr?
    requires LookedAt(grow, st, s, h, fields, i, queue, nodes, indexes, shown, hits)
    ensures In(st, s)
    ensures var (st', index) := FreshIndex(grow, st, s, i);
            LookedAt(grow, st', s, h, fields, i + 1, queue + [Entry(ZeroOf(fields[i].typ), index)],
                     nodes, indexes, shown, hits)
  {
    OneField(fields, h, i);
    var kids := ChildNodes(fields, h, Picks(fields, false, i));
    var val := ZeroOf(fields[i].typ);
    KidAdded(grow, st, s, h, queue, nodes + kids, indexes, shown, hits, Picks(fields, true, i), i, val);
    Reassociate(nodes, kids, [Node(val, h + [i])]);
  }

  lemma LookedAtAll(grow: Growth, st: Store, s: Slice, h: Path, fields: seq<Field>,
                    queue: seq<Entry>, nodes: seq<Node>, indexes: seq<Slice>, shown: seq<Path>, hits: seq<Slice>)
    requires LookedAt(grow, st, s, h, fields, |fields|, queue, nodes, indexes, shown, hits)
    ensures QueueMirrors(grow, st, queue, nodes + ChildNodes(fields, h, Picks(fields, false, |fields|)))
    ensures Shows(st, indexes + hits, shown + HitsShown(grow, h, Picks(fields, true, |fields|)))
    ensures AllClear(queue, indexes + hits)
  {
    BothShow(st, indexes, shown, hits, HitsShown(grow, h, Picks(fields, true, |fields|)));
    BothClear(queue, indexes, hits);
  }

  method LookAtFields(grow: Growth, store: Store, node: Entry, fields: seq<Field>, queue: seq<Entry>,
                      indexes: seq<Slice>, ghost h: Path, ghost nodes: seq<Node>, ghost shown: seq<Path>)
    returns (store': Store, queue': seq<Entry>, indexes': seq<Slice>)
    requires Looking(grow, store, node.index, h, queue, nodes, indexes, shown, [], [])
    ensures QueueMirrors(grow, store', queue', nodes + ChildNodes(fields, h, Picks(fields, false, |fields|)))
    ensures Shows(store', indexes', shown + HitsShown(grow, h, Picks(fields, true, |fields|)))
    ensures AllClear(queue', indexes')
  {
    store', queue', indexes' := store, queue, indexes;
    ghost var hits: seq<Slice> := [];
    LookedAtNone(grow, store, node.index, h, fields, queue, nodes, indexes, shown);
    for i := 0 to |fields|
      invariant indexes' == indexes + hits
      invariant LookedAt(grow, store', node.index, h, fields, i, queue', nodes, indexes, shown, hits)
    {
      if !fields[i].anonymous {
        Skipped(grow, store', node.index, h, fields, i, queue', nodes, indexes, shown, hits);
        continue;
      }
      if fields[i].typ.ControllerPtr? {
        Found(grow, store', node.index, h, fields, i, queue', nodes, indexes, shown, hits);
        var longer := Append(grow, store', node.index, [i]);
        Reassociate(indexes, hits, [longer.1]);
        store', indexes', hits := longer.0, indexes' + [longer.1], hits + [longer.1];
        continue;
      }
      Queued(grow, store', node.index, h, fields, i, queue', nodes, indexes, shown, hits);
      var own := FreshIndex(grow, store', node.index, i);
      store', queue' := own.0, queue' + [Entry(ZeroOf(fields[i].typ), own.1)];
    }
    LookedAtAll(grow, store', node.index, h, fields, queue', nodes, indexes, shown, hits);
  }

  lemma BothShow(st: Store, a: seq<Slice>, x: seq<Path>, b: seq<Slice>, y: seq<Path>)
    requires Shows(st, a, x) && Shows(st, b, y)
    ensures Shows(st, a + b, x + y)
  {
  }

  lemma BothClear(queue: seq<Entry>, a: seq<Slice>, b: seq<Slice>)
    requires AllClear(queue, a) && AllClear(queue, b)
    ensures AllClear(queue, a + b)
  {
  }

  // ----- what the search returns -----

  /** The last *Controller that a type embeds. */
  function LastPick(t: Typ): nat {
    var picks := Picks(FieldsOf(t), true, |FieldsOf(t)|);
    if picks == [] then 0 else picks[|picks| - 1]
  }

  /** What is returned in the place of a controller's path. */
  function ShownPath(grow: Growth, app: Typ, path: Path): Path {
    if path == [] then path
    else
      var h := path[..|path| - 1];
      if Roomy(grow, |h|) && At(app, h).Some? then h + [LastPick(At(app, h).value)] else path
  }

  function ShownPaths(grow: Growth, app: Typ, paths: seq<Path>): seq<Path> {
    seq(|paths|, k requires 0 <= k < |paths| => ShownPath(grow, app, paths[k]))
  }

  lemma ShownChild(grow: Growth, app: Typ, h: Path, i: nat)
    requires At(app, h).Some?
    ensures ShownPath(grow, app, h + [i]) == h + [if Roomy(grow, |h|) then LastPick(At(app, h).value) else i]
  {
    assert (h + [i])[..|h|] == h;
  }

  lemma HitsAreShown(grow: Growth, app: Typ, h: Path, picks: seq<nat>)
    requires At(app, h).Some? && (picks != [] ==> LastPick(At(app, h).value) == picks[|picks| - 1])
    ensures HitsShown(grow, h, picks) == ShownPaths(grow, app, ChildPaths(h, picks))
  {
    forall k | 0 <= k < |picks|
      ensures HitsShown(grow, h, picks)[k] == ShownPaths(grow, app, ChildPaths(h, picks))[k]
    {
      ShownChild(grow, app, h, picks[k]);
    }
  }

  lemma ShownConcat(grow: Growth, app: Typ, a: seq<Path>, b: seq<Path>)
    ensures ShownPaths(grow, app, a + b) == ShownPaths(grow, app, a) + ShownPaths(grow, app, b)
  {
  }

  /** The paths of all embedded controllers, each once and in breadth-first order. */
  ghost predicate AllControllers(app: Typ, paths: seq<Path>) {
    Ordered(paths) && forall path :: path in paths <==> IsController(app, path)
  }

  /** One struct embeds *Controller twice where its index has room. */
  ghost predicate Clashes(grow: Growth, app: Typ) {
    exists h: Path, i: nat, j: nat ::
      i != j && Roomy(grow, |h|) && IsController(app, h + [i]) && IsController(app, h + [j])
  }

  lemma LastPickIs(app: Typ, h: Path, i: nat)
    requires IsController(app, h + [i])
    ensures At(app, h).Some? && IsController(app, h + [LastPick(At(app, h).value)])
  {
    AtExtended(app, h, [i]);
    var t := At(app, h).value;
    assert At(t, [i]) == Some(ControllerPtr) && [i][1..] == [];
    var fields := FieldsOf(t);
    PicksAre(fields, true, |fields|);
    assert IsPick(fields, true, i);
    var picks := Picks(fields, true, |fields|);
    assert picks != [];
    assert IsPick(fields, true, picks[|picks| - 1]);
    AtChild(app, h, LastPick(t));
  }

  lemma ShownAt(grow: Growth, app: Typ, h: Path, i: nat)
    requires IsController(app, h + [i])
    ensures At(app, h).Some?
    ensures ShownPath(grow, app, h + [i]) == if Roomy(grow, |h|) then h + [LastPick(At(app, h).value)] else h + [i]
  {
    LastPickIs(app, h, i);
    ShownChild(grow, app, h, i);
  }

  /** Without a clash each path is returned as it is. */
  lemma NoClashAt(grow: Growth, app: Typ, path: Path)
    requires IsController(app, path) && !Clashes(grow, app)
    ensures ShownPath(grow, app, path) == path
  {
    var h, i := path[..|path| - 1], path[|path| - 1];
    assert path == h + [i];
    ShownAt(grow, app, h, i);
    LastPickIs(app, h, i);
  }

  lemma NoClashShows(grow: Growth, app: Typ, paths: seq<Path>)
    requires AllControllers(app, paths) && !Clashes(grow, app)
    ensures ShownPaths(grow, app, paths) == paths
  {
    forall k | 0 <= k < |paths| ensures ShownPath(grow, app, paths[k]) == paths[k] {
      AreControllers(app, paths, k);
      NoClashAt(grow, app, paths[k]);
    }
  }

  lemma AreControllers(app: Typ, paths: seq<Path>, k: nat)
    requires AllControllers(app, paths) && k < |paths|
    ensures IsController(app, paths[k])
  {
    assert paths[k] in paths;
  }

  lemma {:induction false} NotBeforeItself(p: Path)
    ensures !Before(p, p)
    decreases |p|
  {
    if p != [] && LexLess(p, p) { NotBeforeItself(p[1..]); }
  }

  lemma TwiceIsNotOrdered(ps: seq<Path>, k: nat, l: nat)
    requires k < |ps| && l < |ps| && k != l && ps[k] == ps[l]
    ensures !Ordered(ps)
  {
    NotBeforeItself(ps[k]);
    assert k < l ==> !Before(ps[k], ps[l]);
    assert l < k ==> !Before(ps[l], ps[k]);
  }

  lemma SameTwice(grow: Growth, app: Typ, paths: seq<Path>, h: Path, k: nat, l: nat)
    requires k < |paths| && l < |paths| && k != l && Roomy(grow, |h|)
    requires |paths[k]| == |paths[l]| == |h| + 1 && h <= paths[k] && h <= paths[l]
    requires IsController(app, paths[k]) && IsController(app, paths[l])
    ensures !Ordered(ShownPaths(grow, app, paths))
  {
    var i, j := paths[k][|h|], paths[l][|h|];
    assert paths[k] == h + [i] && paths[l] == h + [j];
    ShownAt(grow, app, h, i);
    ShownAt(grow, app, h, j);
    TwiceIsNotOrdered(ShownPaths(grow, app, paths), k, l);
  }

  lemma IndexIn(app: Typ, paths: seq<Path>, path: Path) returns (k: nat)
    requires AllControllers(app, paths) && IsController(app, path)
    ensures k < |paths| && paths[k] == path
  {
    assert path in paths;
    k :| k < |paths| && paths[k] == path;
  }

  /** With a clash two of the paths returned are the same, and so one is missing. */
  lemma ClashShows(grow: Growth, app: Typ, paths: seq<Path>)
    requires AllControllers(app, paths) && Clashes(grow, app)
    ensures !Ordered(ShownPaths(grow, app, paths))
  {
    var h: Path, i: nat, j: nat :|
      i != j && Roomy(grow, |h|) && IsController(app, h + [i]) && IsController(app, h + [j]);
    var k := IndexIn(app, paths, h + [i]);
    var l := IndexIn(app, paths, h + [j]);
    assert (h + [i])[|h|] == i && (h + [j])[|h|] == j;
    SameTwice(grow, app, paths, h, k, l);
  }

  /** What is returned is right exactly when there is no clash. */
  lemma RightIff(grow: Growth, app: Typ, paths: seq<Path>)
    requires AllControllers(app, paths)
    ensures AllControllers(app, ShownPaths(grow, app, paths)) <==> !Clashes(grow, app)
  {
    if Clashes(grow, app) { ClashShows(grow, app, paths); } else { NoClashShows(grow, app, paths); }
  }

  /**
    Ends on every type; None is the panic on an embedded nil pointer, and happens only then. `right` holds
    the path to each embedded *Controller exactly once, in breadth-first order. What is returned shows, for
    each, the last controller of the same struct where that struct's index has room; so it is right exactly
    when no struct with room embeds *Controller twice.
   */
  method FindControllers(grow: Growth, app: Typ) returns (r: Option<seq<Path>>, ghost right: seq<Path>)
    ensures r.None? <==> exists path :: IsNil(app, path)
    ensures r.Some? ==> AllControllers(app, right) && r.value == ShownPaths(grow, app, right)
    ensures r.Some? ==> (AllControllers(app, r.value) <==> !Clashes(grow, app))
  {
    var store: Store := [[]];
    var queue := [Entry(NewPtr(app), Slice(0, 0))];
    var indexes: seq<Slice> := [];
    ghost var nodes := [Node(NewPtr(app), [])];
    right := [];
    AllAheadOfRoot(app);
    while |queue| > 0
      invariant Searching(grow, app, store, queue, indexes, nodes, right)
      decreases QueueSize(nodes)
    {
      var node := queue[0];
      HeadIs(grow, app, store, queue, indexes, nodes, right);
      var elemType := Deref(node.val);
      if elemType.None? {
        NilAtHead(app, nodes, right);
        return None, right;
      }
      store, queue, indexes := LookAtFields(grow, store, node, FieldsOf(elemType.value), queue[1..], indexes,
                                            nodes[0].index, nodes[1..], ShownPaths(grow, app, right));
      RoundDone(grow, app, nodes, right, store, queue, indexes);
      nodes, right := NextQueue(nodes), NextIndexes(nodes, right);
    }
    NothingLeft(app, right);
    r := Some(Views(store, indexes));
    ViewsAre(store, indexes, ShownPaths(grow, app, right));
    RightIff(grow, app, right);
  }

  ghost predicate Searching(grow: Growth, app: Typ, st: Store, queue: seq<Entry>, indexes: seq<Slice>,
                            nodes: seq<Node>, right: seq<Path>)
  {
    && Sound(app, nodes, right) && Complete(app, nodes, right) && QueueMirrors(grow, st, queue, nodes)
    && Shows(st, indexes, ShownPaths(grow, app, right)) && AllClear(queue, indexes)
  }

  lemma HeadIs(grow: Growth, app: Typ, st: Store, queue: seq<Entry>, indexes: seq<Slice>,
               nodes: seq<Node>, right: seq<Path>)
    requires Searching(grow, app, st, queue, indexes, nodes, right) && queue != []
    ensures nodes != [] && NodeOk(app, nodes[0]) && queue[0].val == nodes[0].val
    ensures Looking(grow, st, queue[0].index, nodes[0].index, queue[1..], nodes[1..],
                    indexes, ShownPaths(grow, app, right), [], [])
  {
    assert Mirrors(grow, st, queue[0], nodes[0]);
    StartLooking(grow, st, queue, nodes, indexes, ShownPaths(grow, app, right));
  }

  lemma RoundDone(grow: Growth, app: Typ, nodes: seq<Node>, right: seq<Path>,
                  st: Store, queue: seq<Entry>, indexes: seq<Slice>)
    requires nodes != [] && Sound(app, nodes, right) && Complete(app, nodes, right) && Deref(nodes[0].val).Some?
    requires QueueMirrors(grow, st, queue, NextQueue(nodes)) && AllClear(queue, indexes)
    requires var fields := FieldsOf(TypOf(nodes[0].val));
             Shows(st, indexes, ShownPaths(grow, app, right)
                                + HitsShown(grow, nodes[0].index, Picks(fields, true, |fields|)))
    ensures Searching(grow, app, st, queue, indexes, NextQueue(nodes), NextIndexes(nodes, right))
    ensures QueueSize(NextQueue(nodes)) < QueueSize(nodes)
  {
    assert NodeOk(app, nodes[0]);
    NextRound(app, nodes, right);
    var fields := FieldsOf(TypOf(nodes[0].val));
    HitsAreShown(grow, app, nodes[0].index, Picks(fields, true, |fields|));
    ShownConcat(grow, app, right, ChildPaths(nodes[0].index, Picks(fields, true, |fields|)));
  }

  function Views(st: Store, indexes: seq<Slice>): seq<Path>
    requires forall k :: 0 <= k < |indexes| ==> In(st, indexes[k])
  {
    seq(|indexes|, k requires 0 <= k < |indexes| => View(st, indexes[k]))
  }

  lemma ViewsAre(st: Store, indexes: seq<Slice>, shown: seq<Path>)
    requires Shows(st, indexes, shown)
    ensures Views(st, indexes) == shown
  {
  }

  lemma StartLooking(grow: Growth, st: Store, queue: seq<Entry>, nodes: seq<Node>,
                     indexes: seq<Slice>, shown: seq<Path>)
    requires queue != [] && QueueMirrors(grow, st, queue, nodes)
    requires Shows(st, indexes, shown) && AllClear(queue, indexes)
    ensures Looking(grow, st, queue[0].index, nodes[0].index, queue[1..], nodes[1..], indexes, shown, [], [])
  {
    assert Mirrors(grow, st, queue[0], nodes[0]);
    forall k | 0 <= k < |queue[1..]| ensures Mirrors(grow, st, queue[1..][k], nodes[1..][k]) {
      assert Mirrors(grow, st, queue[k + 1], nodes[k + 1]);
    }
    forall k | 0 <= k < |indexes| ensures Clear(queue[1..], indexes[k].arr) && indexes[k].arr != queue[0].index.arr {
      assert Clear(queue, indexes[k].arr);
    }
  }

  // ----- types without a clash -----

  /** No struct on the way embeds *Controller twice, as in Go without a second name for the type. */
  predicate OneEach(t: Typ) {
    t.Struct? ==>
      && (forall i, j :: 0 <= i < j < |t.fields| ==> !(IsPick(t.fields, true, i) && IsPick(t.fields, true, j)))
      && (forall i :: 0 <= i < |t.fields| && t.fields[i].anonymous ==> OneEach(t.fields[i].typ))
  }

  lemma {:induction false} OneEachBelow(t: Typ, h: Path)
    requires OneEach(t) && At(t, h).Some?
    ensures OneEach(At(t, h).value)
    decreases |h|
  {
    if h != [] { OneEachBelow(t.fields[h[0]].typ, h[1..]); }
  }

  /** Such a type is searched correctly however append grows. */
  lemma OneEachIsRight(grow: Growth, app: Typ)
    requires OneEach(app)
    ensures !Clashes(grow, app)
  {
    forall h: Path, i: nat, j: nat | IsController(app, h + [i]) && IsController(app, h + [j]) ensures i == j {
      AtExtended(app, h, [i]);
      AtExtended(app, h, [j]);
      var t := At(app, h).value;
      assert [i][1..] == [] && [j][1..] == [];
      assert At(t, [i]) == Some(ControllerPtr) && At(t, [j]) == Some(ControllerPtr);
      OneEachBelow(app, h);
      assert IsPick(t.fields, true, i) && IsPick(t.fields, true, j);
    }
  }

  // ----- where the search goes wrong -----

  function Embedding(t: Typ): Typ { Struct([Field(true, t)]) }

  /** A struct three levels down that embeds *Controller and a second name for it. */
  function Twice(): Typ {
    Embedding(Embedding(Embedding(Struct([Field(true, ControllerPtr), Field(true, ControllerPtr)]))))
  }

  lemma TwiceHas(path: Path)
    ensures IsController(Twice(), path) <==> path == [0, 0, 0, 0] || path == [0, 0, 0, 1]
  {
    var t := Struct([Field(true, ControllerPtr), Field(true, ControllerPtr)]);
    if path != [] && path[0] == 0 { Embedded(Embedding(Embedding(t)), path); }
    if |path| > 1 && path[1] == 0 { Embedded(Embedding(t), path[1..]); }
    if |path| > 2 && path[2] == 0 { Embedded(t, path[2..]); }
    if |path| == 4 { assert path == [path[0], path[1], path[2], path[3]]; }
  }

  lemma Embedded(t: Typ, path: Path)
    requires path != []
    ensures At(Embedding(t), path) == if path[0] == 0 then At(t, path[1..]) else None
  {
  }

  const FIRST: Path := [0, 0, 0, 0]
  const SECOND: Path := [0, 0, 0, 1]

  lemma TwiceAll()
    ensures AllControllers(Twice(), [FIRST, SECOND])
  {
    forall path ensures path in [FIRST, SECOND] <==> IsController(Twice(), path) { TwiceHas(path); }
    FirstIsBefore();
  }

  lemma FirstIsBefore()
    ensures Before(FIRST, SECOND)
  {
    var h: Path := [0, 0, 0];
    assert h + [0] == FIRST && h + [1] == SECOND;
    LexAppend(h, h, 0, 1);
  }

  /** Go copies two numbers into an array of two, and doubles it for a third: the first controller is lost. */
  lemma SecondControllerTwice(grow: Growth)
    requires grow(0, 2) == 0 && grow(2, 3) == 1
    ensures AllControllers(Twice(), [FIRST, SECOND])
    ensures ShownPaths(grow, Twice(), [FIRST, SECOND]) == [SECOND, SECOND]
  {
    TwiceAll();
    assert Roomy(grow, 3);
    TwiceShown(grow, FIRST, 0);
    TwiceShown(grow, SECOND, 1);
  }

  lemma TwiceShown(grow: Growth, path: Path, i: nat)
    requires Roomy(grow, 3) && path == [0, 0, 0, i]
    ensures ShownPath(grow, Twice(), path) == SECOND
  {
    LastPickIsOne([0, 0, 0]);
    assert path[..3] == [0, 0, 0];
    assert [0, 0, 0] + [1] == SECOND;
  }

  lemma LastPickIsOne(h: Path)
    requires h == [0, 0, 0]
    ensures At(Twice(), h).Some? && LastPick(At(Twice(), h).value) == 1
  {
    var t := Struct([Field(true, ControllerPtr), Field(true, ControllerPtr)]);
    Embedded(Embedding(Embedding(t)), h);
    Embedded(Embedding(t), h[1..]);
    Embedded(t, h[2..]);
    assert h[1..][1..] == h[2..] && h[2..][1..] == [];
    assert Picks(t.fields, true, 1) == [0] && Picks(t.fields, true, 2) == [0, 1];
  }
}
