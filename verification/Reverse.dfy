/**
  Reverse routing: from a route and the arguments of an action to a URL. Arguments named in the
  route's path go there and the others into the query.
 */
module Reverse {
  import opened Common
  import opened Text
  import opened CookieText
  import opened Escape

  type Args = map<Bytes, Bytes>

  // ----- strings.Split and strings.Join -----

  /** No part holds `c`. */
  predicate Free(parts: seq<Bytes>, c: Byte) { forall i :: 0 <= i < |parts| ==> c !in parts[i] }

  function Split(s: Bytes, sep: Byte): (r: seq<Bytes>)
    ensures r != [] && Free(r, sep)
    decreases |s|
  {
    var i := IndexOf(s, sep);
    if i < 0 then [s] else [s[..i]] + Split(s[i + 1..], sep)
  }

  function Join(parts: seq<Bytes>, sep: Byte): Bytes {
    if parts == [] then []
    else if |parts| == 1 then parts[0]
    else parts[0] + [sep] + Join(parts[1..], sep)
  }

  lemma {:induction false} JoinSplit(s: Bytes, sep: Byte)
    ensures Join(Split(s, sep), sep) == s
    decreases |s|
  {
    var i := IndexOf(s, sep);
    if i >= 0 {
      JoinSplit(s[i + 1..], sep);
      assert s == s[..i] + [sep] + s[i + 1..];
      assert Split(s, sep)[1..] == Split(s[i + 1..], sep);
    }
  }

  lemma SplitFirst(a: Bytes, rest: Bytes, sep: Byte)
    requires sep !in a
    ensures Split(a + [sep] + rest, sep) == [a] + Split(rest, sep)
  {
    var s := a + [sep] + rest;
    assert s[..|a|] == a && s[|a| + 1..] == rest;
    IndexOfIs(s, sep, |a|);
  }

  /** A separator in the last part splits that part only. */
  lemma {:induction false} SplitJoinLast(parts: seq<Bytes>, sep: Byte)
    requires parts != [] && Free(parts[..|parts| - 1], sep)
    ensures Split(Join(parts, sep), sep) == parts[..|parts| - 1] + Split(parts[|parts| - 1], sep)
    decreases |parts|
  {
    if |parts| > 1 {
      FreeBeforeLast(parts, sep);
      SplitFirst(parts[0], Join(parts[1..], sep), sep);
      SplitJoinLast(parts[1..], sep);
      PrependParts(parts, Split(parts[|parts| - 1], sep));
    }
  }

  lemma FreeBeforeLast(parts: seq<Bytes>, c: Byte)
    requires |parts| > 1 && Free(parts[..|parts| - 1], c)
    ensures c !in parts[0] && Free(parts[1..][..|parts| - 2], c)
  {
    var init := parts[..|parts| - 1];
    assert init[0] == parts[0] && init[1..] == parts[1..][..|parts| - 2];
  }

  lemma PrependParts(parts: seq<Bytes>, tail: seq<Bytes>)
    requires |parts| > 1
    ensures [parts[0]] + (parts[1..][..|parts| - 2] + tail) == parts[..|parts| - 1] + tail
  {
    assert [parts[0]] + parts[1..][..|parts| - 2] == parts[..|parts| - 1];
  }

  lemma SplitWhole(s: Bytes, sep: Byte)
    requires sep !in s
    ensures Split(s, sep) == [s]
  {
  }

  /** Splitting finds the parts again exactly when the separator is in none of them. */
  lemma SplitJoinIff(parts: seq<Bytes>, sep: Byte)
    requires parts != []
    ensures Split(Join(parts, sep), sep) == parts <==> Free(parts, sep)
  {
    if Free(parts, sep) { SplitJoin(parts, sep); }
  }

  lemma SplitJoin(parts: seq<Bytes>, sep: Byte)
    requires parts != [] && Free(parts, sep)
    ensures Split(Join(parts, sep), sep) == parts
  {
    var init, last := parts[..|parts| - 1], parts[|parts| - 1];
    FreeInit(parts, sep);
    SplitJoinLast(parts, sep);
    SplitWhole(last, sep);
    assert parts == init + [last];
  }

  lemma FreeInit(parts: seq<Bytes>, c: Byte)
    requires parts != [] && Free(parts, c)
    ensures Free(parts[..|parts| - 1], c) && c !in parts[|parts| - 1]
  {
  }

  lemma {:induction false} InJoin(parts: seq<Bytes>, sep: Byte, c: Byte)
    requires c != sep
    ensures c !in Join(parts, sep) <==> Free(parts, c)
    decreases |parts|
  {
    if |parts| > 1 {
      InJoin(parts[1..], sep, c);
      FreeMore(parts[0], parts[1..], c);
      assert parts == [parts[0]] + parts[1..];
    }
  }

  lemma FreeMore(part: Bytes, rest: seq<Bytes>, c: Byte)
    ensures Free([part] + rest, c) <==> c !in part && Free(rest, c)
  {
    if Free([part] + rest, c) {
      assert ([part] + rest)[0] == part;
      forall i | 0 <= i < |rest| ensures c !in rest[i] { assert ([part] + rest)[i + 1] == rest[i]; }
    }
  }

  // ----- the query -----

  function Segment(p: Pair): Bytes { QueryEscape(p.key) + ['='] + QueryEscape(p.val) }

  function Segments(ps: seq<Pair>): (r: seq<Bytes>)
    ensures |r| == |ps|
  {
    seq(|ps|, i requires 0 <= i < |ps| => Segment(ps[i]))
  }

  /** url.Values.Encode, for one listing of the values. */
  function Query(ps: seq<Pair>): Bytes { Join(Segments(ps), '&') }

  /** One `key=value` of a query; an escape that cannot be read makes it an error. */
  function ReadSegment(s: Bytes): Option<Pair> {
    var i := IndexOf(s, '=');
    var (k, v) := if i < 0 then (s, []) else (s[..i], s[i + 1..]);
    var key, val := QueryUnescape(k), QueryUnescape(v);
    if key.None? || val.None? then None else Some(Pair(key.value, val.value))
  }

  /** url.ParseQuery: empty segments and those that cannot be read are passed over. */
  function ReadSegments(parts: seq<Bytes>): seq<Pair> {
    if parts == [] then []
    else
      var first := ReadSegment(parts[0]);
      (if parts[0] == [] || first.None? then [] else [first.value]) + ReadSegments(parts[1..])
  }

  function ParseQuery(q: Bytes): seq<Pair> { ReadSegments(Split(q, '&')) }

  lemma {:induction false} EscapedChars(s: Bytes, c: Byte)
    requires c == '&' || c == '=' || c == '?'
    ensures c !in QueryEscape(s)
  {
    if s != [] {
      EscapedChars(s[1..], c);
      HexDigitsArePlain(s[0] as int / 16, c);
      HexDigitsArePlain(s[0] as int % 16, c);
    }
  }

  lemma HexDigitsArePlain(v: nat, c: Byte)
    requires v < 16 && (c == '&' || c == '=' || c == '?')
    ensures UPPER[v] != c
  {
  }

  lemma SegmentReadsBack(p: Pair)
    ensures ReadSegment(Segment(p)) == Some(p) && '&' !in Segment(p) && Segment(p) != []
  {
    EscapedChars(p.key, '=');
    EscapedChars(p.key, '&');
    EscapedChars(p.val, '&');
    var s, i := Segment(p), |QueryEscape(p.key)|;
    assert s[..i] == QueryEscape(p.key) && s[i + 1..] == QueryEscape(p.val);
    IndexOfIs(s, '=', i);
    EscapeRoundTrip(p.key);
    EscapeRoundTrip(p.val);
  }

  lemma {:induction false} SegmentsReadBack(ps: seq<Pair>)
    ensures ReadSegments(Segments(ps)) == ps
    decreases |ps|
  {
    if ps != [] {
      SegmentReadsBack(ps[0]);
      SegmentsReadBack(ps[1..]);
      SegmentsFirst(ps);
      assert ps == [ps[0]] + ps[1..];
    }
  }

  lemma SegmentsFirst(ps: seq<Pair>)
    requires ps != []
    ensures Segments(ps)[0] == Segment(ps[0]) && Segments(ps)[1..] == Segments(ps[1..])
  {
  }

  /** Reading an encoded query gives the pairs back, in order. */
  lemma QueryRoundTrip(ps: seq<Pair>)
    ensures ParseQuery(Query(ps)) == ps
  {
    if ps == [] {
      assert Split([], '&') == [[]];
    } else {
      forall i | 0 <= i < |ps| ensures '&' !in Segments(ps)[i] { SegmentReadsBack(ps[i]); }
      SplitJoinIff(Segments(ps), '&');
      SegmentsReadBack(ps);
    }
  }

  // ----- the URL -----

  datatype Route = Route(path: Bytes, controllerName: Bytes, methodName: Bytes)

  /** `Missing` is the panic for a path argument without a value. */
  datatype Reversed = NotFound | Missing(name: Bytes) | Url(text: Bytes)

  predicate IsWildcard(el: Bytes) { el != [] && (el[0] == ':' || el[0] == '*') }

  predicate Names(el: Bytes, name: Bytes) { IsWildcard(el) && el[1..] == name }

  /** One of the first `n` path elements is a wildcard of this name. */
  ghost predicate Used(els: seq<Bytes>, n: nat, name: Bytes)
    requires n <= |els|
  {
    exists j :: 0 <= j < n && Names(els[j], name)
  }

  /** A fixed parameter can be used any number of times, an argument once. */
  ghost predicate Available(els: seq<Bytes>, fixed: Args, args: Args, i: nat)
    requires i < |els|
  {
    IsWildcard(els[i]) ==> els[i][1..] in fixed || (els[i][1..] in args && !Used(els, i, els[i][1..]))
  }

  ghost predicate Placeable(els: seq<Bytes>, fixed: Args, args: Args) {
    forall i :: 0 <= i < |els| ==> Available(els, fixed, args, i)
  }

  predicate SameName(a: Bytes, b: Bytes) { IsWildcard(a) && IsWildcard(b) && a[1..] == b[1..] }

  /** Every wildcard can be given a value exactly when each names one, and no two name the same argument. */
  lemma PlaceableIff(els: seq<Bytes>, fixed: Args, args: Args)
    ensures Placeable(els, fixed, args) <==>
              && (forall i :: 0 <= i < |els| && IsWildcard(els[i]) ==> els[i][1..] in fixed || els[i][1..] in args)
              && (forall i, j :: 0 <= i < j < |els| && SameName(els[i], els[j]) ==> els[j][1..] in fixed)
  {
    if Placeable(els, fixed, args) {
      forall i, j | 0 <= i < j < |els| && SameName(els[i], els[j]) ensures els[j][1..] in fixed {
        assert Available(els, fixed, args, j);
        assert Names(els[i], els[j][1..]);
      }
      forall i | 0 <= i < |els| && IsWildcard(els[i]) ensures els[i][1..] in fixed || els[i][1..] in args {
        assert Available(els, fixed, args, i);
      }
    }
  }

  /** What stands at an element's place in the URL. */
  function Put(el: Bytes, fixed: Args, args: Args): Bytes {
    if !IsWildcard(el) then el
    else if el[1..] in fixed then fixed[el[1..]]
    else if el[1..] in args then args[el[1..]]
    else []
  }

  function Placed(els: seq<Bytes>, fixed: Args, args: Args): (r: seq<Bytes>)
    ensures |r| == |els|
  {
    seq(|els|, i requires 0 <= i < |els| => Put(els[i], fixed, args))
  }

  /** The arguments that the first `n` path elements do not name. */
  ghost function Remaining(els: seq<Bytes>, n: nat, args: Args): Args
    requires n <= |els|
  {
    map k | k in args && !Used(els, n, k) :: args[k]
  }

  /** The arguments with the names of the controller and the method, where the route has wildcards for them. */
  function Injected(route: Route, controller: Bytes, action: Bytes, args: Args): (r: Args)
    requires route.controllerName != [] && route.methodName != []
    ensures forall k :: k in r ==>
              r[k] == if [':'] + k == route.methodName then action
                      else if [':'] + k == route.controllerName then controller
                      else if k in args then args[k] else []
    ensures forall k :: k in r <==> k in args || [':'] + k == route.methodName || [':'] + k == route.controllerName
  {
    assert route.methodName[0] == ':' ==> [':'] + route.methodName[1..] == route.methodName;
    assert route.controllerName[0] == ':' ==> [':'] + route.controllerName[1..] == route.controllerName;
    var a := if route.controllerName[0] == ':' then args[route.controllerName[1..] := controller] else args;
    if route.methodName[0] == ':' then a[route.methodName[1..] := action] else a
  }

  function UrlText(parts: seq<Bytes>, order: seq<Pair>): Bytes {
    Join(parts, '/') + (if order == [] then [] else ['?'] + Query(order))
  }

  lemma UsedMore(els: seq<Bytes>, n: nat, name: Bytes)
    requires n < |els|
    ensures Used(els, n + 1, name) <==> Used(els, n, name) || Names(els[n], name)
  {
    if Names(els[n], name) { assert Used(els, n + 1, name); }
  }

  lemma RemainingMore(els: seq<Bytes>, n: nat, args: Args)
    requires n < |els|
    ensures Remaining(els, n + 1, args)
         == if IsWildcard(els[n]) then Remaining(els, n, args) - {els[n][1..]} else Remaining(els, n, args)
  {
    forall k ensures Used(els, n + 1, k) <==> Used(els, n, k) || Names(els[n], k) { UsedMore(els, n, k); }
  }

  // ----- reading a URL -----

  function PathOf(url: Bytes): Bytes {
    if IndexOf(url, '?') < 0 then url else url[..IndexOf(url, '?')]
  }

  function QueryOf(url: Bytes): Bytes {
    if IndexOf(url, '?') < 0 then [] else url[IndexOf(url, '?') + 1..]
  }

  lemma CutAt(path: Bytes, q: Bytes)
    requires '?' !in path
    ensures PathOf(path + (['?'] + q)) == path && QueryOf(path + (['?'] + q)) == q
  {
    var url := path + (['?'] + q);
    assert url[..|path|] == path && url[|path| + 1..] == q;
    IndexOfIs(url, '?', |path|);
  }

  lemma CutAtQuestion(parts: seq<Bytes>, order: seq<Pair>)
    requires '?' !in Join(parts, '/')
    ensures PathOf(UrlText(parts, order)) == Join(parts, '/')
    ensures ParseQuery(QueryOf(UrlText(parts, order))) == order
  {
    var path := Join(parts, '/');
    QueryRoundTrip(order);
    if order != [] {
      CutAt(path, Query(order));
    } else {
      assert path + [] == path && Query([]) == [];
    }
  }

  /** A URL with a question mark in its path is cut short. */
  lemma CutShort(path: Bytes, tail: Bytes)
    requires '?' in path
    ensures |PathOf(path + tail)| < |path|
  {
    var i := IndexOf(path, '?');
    FirstIsBefore(path + tail, '?', i);
  }

  /** The parts and the query are found again exactly when no part holds a slash or a question mark. */
  lemma UrlReadsBack(parts: seq<Bytes>, order: seq<Pair>)
    requires parts != []
    ensures Split(PathOf(UrlText(parts, order)), '/') == parts && ParseQuery(QueryOf(UrlText(parts, order))) == order
       <==> Free(parts, '/') && Free(parts, '?')
  {
    var path, url := Join(parts, '/'), UrlText(parts, order);
    InJoin(parts, '/', '?');
    if '?' in path {
      CutShort(path, if order == [] then [] else ['?'] + Query(order));
      JoinSplit(PathOf(url), '/');
    } else {
      CutAtQuestion(parts, order);
      SplitJoinIff(parts, '/');
    }
  }

  /**
    Reading the URL of a route whose path has no question mark: every literal and every wildcard value
    is found in its place, and the query gives exactly the other arguments, if and only if no value that
    was put into the path holds a slash or a question mark.
   */
  lemma ArgumentsComeBack(path: Bytes, fixed: Args, args: Args, order: seq<Pair>)
    requires '?' !in path && Lists(order, Remaining(Split(path, '/'), |Split(path, '/')|, args))
    ensures var els := Split(path, '/');
            var parts := Placed(els, fixed, args);
            var url := UrlText(parts, order);
            && AsMap(order) == Remaining(els, |els|, args)
            && (Split(PathOf(url), '/') == parts && ParseQuery(QueryOf(url)) == order
                <==> forall i :: 0 <= i < |els| && IsWildcard(els[i]) ==> '/' !in parts[i] && '?' !in parts[i])
  {
    var els := Split(path, '/');
    var parts := Placed(els, fixed, args);
    ListingAsMap(order, Remaining(els, |els|, args));
    JoinSplit(path, '/');
    InJoin(els, '/', '?');
    UrlReadsBack(parts, order);
    PlacedFree(els, fixed, args, '/');
    PlacedFree(els, fixed, args, '?');
  }

  /** Only a wildcard value can bring a character into a part. */
  lemma PlacedFree(els: seq<Bytes>, fixed: Args, args: Args, c: Byte)
    requires Free(els, c)
    ensures var parts := Placed(els, fixed, args);
            Free(parts, c) <==> forall i :: 0 <= i < |els| && IsWildcard(els[i]) ==> c !in parts[i]
  {
    var parts := Placed(els, fixed, args);
    assert forall i :: 0 <= i < |els| && !IsWildcard(els[i]) ==> parts[i] == els[i];
  }

  // ----- the arguments read back from the URL -----

  /** The URL gives `v` for the argument `k`: at the place of its wildcard, or in the query. */
  ghost predicate Tells(els: seq<Bytes>, fixed: Args, url: Bytes, k: Bytes, v: Bytes)
    requires |Split(PathOf(url), '/')| == |els|
  {
    || (k !in fixed && exists i :: 0 <= i < |els| && Names(els[i], k) && Split(PathOf(url), '/')[i] == v)
    || (var query := AsMap(ParseQuery(QueryOf(url))); k in query && query[k] == v)
  }

  /**
    Literals and fixed parameters are at their places, and the wildcards and the query together give the
    arguments, each in one of them, without those that a fixed parameter stands for.
   */
  ghost predicate GivesBack(els: seq<Bytes>, fixed: Args, args: Args, url: Bytes) {
    var found := Split(PathOf(url), '/');
    && |found| == |els|
    && (forall i :: 0 <= i < |els| && !IsWildcard(els[i]) ==> found[i] == els[i])
    && (forall i :: 0 <= i < |els| && IsWildcard(els[i]) && els[i][1..] in fixed ==> found[i] == fixed[els[i][1..]])
    && (forall k, v :: Tells(els, fixed, url, k, v) <==>
          k in args && args[k] == v && !(k in fixed && Used(els, |els|, k)))
    && (forall k :: k in AsMap(ParseQuery(QueryOf(url))) ==> !Used(els, |els|, k))
  }

  predicate PlainText(v: Bytes) { '/' !in v && '?' !in v }

  /** No value that goes into the path has a slash or a question mark. */
  ghost predicate PlainValues(els: seq<Bytes>, fixed: Args, args: Args) {
    forall i :: 0 <= i < |els| && IsWildcard(els[i]) ==>
      var k := els[i][1..];
      if k in fixed then PlainText(fixed[k]) else k in args ==> PlainText(args[k])
  }

  /** What is read when every part is found in its place. */
  lemma ReadInPlace(els: seq<Bytes>, fixed: Args, args: Args, url: Bytes)
    requires Placeable(els, fixed, args) && Split(PathOf(url), '/') == Placed(els, fixed, args)
    requires AsMap(ParseQuery(QueryOf(url))) == Remaining(els, |els|, args)
    ensures GivesBack(els, fixed, args, url)
  {
    forall k, v
      ensures Tells(els, fixed, url, k, v) <==> k in args && args[k] == v && !(k in fixed && Used(els, |els|, k))
    {
      ToldInPlace(els, fixed, args, url, k, v);
    }
  }

  lemma ToldInPlace(els: seq<Bytes>, fixed: Args, args: Args, url: Bytes, k: Bytes, v: Bytes)
    requires Placeable(els, fixed, args) && Split(PathOf(url), '/') == Placed(els, fixed, args)
    requires AsMap(ParseQuery(QueryOf(url))) == Remaining(els, |els|, args)
    ensures Tells(els, fixed, url, k, v) <==> k in args && args[k] == v && !(k in fixed && Used(els, |els|, k))
  {
    forall i | 0 <= i < |els| && Names(els[i], k) && k !in fixed
      ensures k in args && Split(PathOf(url), '/')[i] == args[k]
    {
      assert Available(els, fixed, args, i);
    }
    if Used(els, |els|, k) { var i :| 0 <= i < |els| && Names(els[i], k); }
  }

  lemma PlainPlaced(els: seq<Bytes>, fixed: Args, args: Args)
    requires Placeable(els, fixed, args)
    ensures var parts := Placed(els, fixed, args);
            PlainValues(els, fixed, args) <==>
              forall i :: 0 <= i < |els| && IsWildcard(els[i]) ==> '/' !in parts[i] && '?' !in parts[i]
  {
    forall i | 0 <= i < |els| && IsWildcard(els[i]) ensures els[i][1..] in fixed || els[i][1..] in args {
      assert Available(els, fixed, args, i);
    }
  }

  /** What gives the arguments back has every part in its place. */
  lemma GivenInPlace(els: seq<Bytes>, fixed: Args, args: Args, url: Bytes)
    requires Placeable(els, fixed, args) && GivesBack(els, fixed, args, url)
    ensures Split(PathOf(url), '/') == Placed(els, fixed, args)
  {
    var found, parts := Split(PathOf(url), '/'), Placed(els, fixed, args);
    forall i | 0 <= i < |els| ensures found[i] == parts[i] {
      if IsWildcard(els[i]) && els[i][1..] !in fixed {
        assert Names(els[i], els[i][1..]);
        assert Tells(els, fixed, url, els[i][1..], found[i]);
      }
    }
  }

  lemma PathIsWhole(parts: seq<Bytes>, order: seq<Pair>)
    requires parts != [] && Split(PathOf(UrlText(parts, order)), '/') == parts
    ensures '?' !in Join(parts, '/')
  {
    JoinSplit(PathOf(UrlText(parts, order)), '/');
  }

  /**
    The URL of a route whose path has no question mark gives the arguments back, every one and no other, if and
    only if no value in its path has a slash or a question mark.
   */
  lemma UrlGivesArguments(path: Bytes, fixed: Args, args: Args, order: seq<Pair>)
    requires var els := Split(path, '/');
             '?' !in path && Placeable(els, fixed, args) && Lists(order, Remaining(els, |els|, args))
    ensures var els := Split(path, '/');
            GivesBack(els, fixed, args, UrlText(Placed(els, fixed, args), order)) <==> PlainValues(els, fixed, args)
  {
    var els := Split(path, '/');
    var parts := Placed(els, fixed, args);
    var url := UrlText(parts, order);
    ArgumentsComeBack(path, fixed, args, order);
    PlainPlaced(els, fixed, args);
    if PlainValues(els, fixed, args) { ReadInPlace(els, fixed, args, url); }
    if GivesBack(els, fixed, args, url) {
      GivenInPlace(els, fixed, args, url);
      PathIsWhole(parts, order);
      CutAtQuestion(parts, order);
    }
  }

  /** A last part with slashes, as a star takes, is what is left after the parts before it. */
  lemma LastTakesTheRest(parts: seq<Bytes>, order: seq<Pair>)
    requires parts != [] && Free(parts[..|parts| - 1], '/') && Free(parts, '?')
    ensures var n, found := |parts| - 1, Split(PathOf(UrlText(parts, order)), '/');
            |found| > n && found[..n] == parts[..n] && Join(found[n..], '/') == parts[n]
  {
    var n := |parts| - 1;
    InJoin(parts, '/', '?');
    CutAtQuestion(parts, order);
    SplitJoinLast(parts, '/');
    JoinSplit(parts[n], '/');
  }

  // ----- ReverseError -----

  /** The first element without a value stops the placing; the names before it are used up. */
  ghost predicate StopsAt(els: seq<Bytes>, fixed: Args, args: Args, name: Bytes, left: Args) {
    exists i :: 0 <= i < |els| && !Available(els, fixed, args, i)
                && (forall j :: 0 <= j < i ==> Available(els, fixed, args, j))
                && name == els[i][1..] && left == Remaining(els, i, args)
  }

  /** The caller's map of arguments, which is changed in place. */
  class ArgValues {
    var values: Args
  }

  /**
    From the route on: `known` says that the action's controller type is known, `lookedUp` that a lookup
    by name finds it.
   */
  method ReverseUrl(route: Route, controller: Bytes, action: Bytes, fixed: Args, argValues: ArgValues,
                    known: bool, lookedUp: bool)
    returns (r: Reversed, ghost order: seq<Pair>)
    requires route.controllerName != [] && route.methodName != []
    modifies argValues
    ensures var els, args := Split(route.path, '/'), Injected(route, controller, action, old(argValues.values));
            var wild := route.controllerName[0] == ':' || route.methodName[0] == ':';
            if !known && !(wild && lookedUp) then r == NotFound && argValues.values == args
            else if Placeable(els, fixed, args) then
              && argValues.values == Remaining(els, |els|, args)
              && Lists(order, argValues.values)
              && r == Url(UrlText(Placed(els, fixed, args), order))
              && ('?' !in route.path ==> (GivesBack(els, fixed, args, r.text) <==> PlainValues(els, fixed, args)))
            else r.Missing? && StopsAt(els, fixed, args, r.name, argValues.values)
  {
    order := [];
    var controllerWildcard, methodWildcard := route.controllerName[0] == ':', route.methodName[0] == ':';
    if controllerWildcard { argValues.values := argValues.values[route.controllerName[1..] := controller]; }
    if methodWildcard { argValues.values := argValues.values[route.methodName[1..] := action]; }
    if !known && !((controllerWildcard || methodWildcard) && lookedUp) {
      return NotFound, order;
    }
    r, order := MakeUrl(route.path, fixed, argValues);
  }

  /** From the arguments on. */
  method MakeUrl(path: Bytes, fixed: Args, argValues: ArgValues) returns (r: Reversed, ghost order: seq<Pair>)
    modifies argValues
    ensures var els, args := Split(path, '/'), old(argValues.values);
            if Placeable(els, fixed, args) then
              && argValues.values == Remaining(els, |els|, args)
              && Lists(order, argValues.values)
              && r == Url(UrlText(Placed(els, fixed, args), order))
              && ('?' !in path ==> (GivesBack(els, fixed, args, r.text) <==> PlainValues(els, fixed, args)))
            else r.Missing? && StopsAt(els, fixed, args, r.name, argValues.values)
  {
    order := [];
    var pathElements, missing := FillPath(Split(path, '/'), fixed, argValues);
    if missing.Some? { return Missing(missing.value), order; }
    var query;
    query, order := Encode(argValues.values);
    if '?' !in path { UrlGivesArguments(path, fixed, old(argValues.values), order); }
    r := Url(Join(pathElements, '/') + (if argValues.values != map[] then ['?'] + query else []));
  }

  /** The loop over the path's elements. */
  method FillPath(els: seq<Bytes>, fixed: Args, argValues: ArgValues)
    returns (pathElements: seq<Bytes>, missing: Option<Bytes>)
    modifies argValues
    ensures if missing.None? then
              && Placeable(els, fixed, old(argValues.values))
              && pathElements == Placed(els, fixed, old(argValues.values))
              && argValues.values == Remaining(els, |els|, old(argValues.values))
            else StopsAt(els, fixed, old(argValues.values), missing.value, argValues.values)
  {
    ghost var args := argValues.values;
    pathElements := els;
    assert Remaining(els, 0, args) == args;
    for i := 0 to |pathElements|
      invariant |pathElements| == |els|
      invariant forall j :: 0 <= j < i ==> pathElements[j] == Put(els[j], fixed, args) && Available(els, fixed, args, j)
      invariant forall j :: i <= j < |els| ==> pathElements[j] == els[j]
      invariant argValues.values == Remaining(els, i, args)
    {
      var el := pathElements[i];
      RemainingMore(els, i, args);
      if !IsWildcard(el) { continue; }
      if el[1..] !in fixed && el[1..] !in argValues.values {
        assert !Available(els, fixed, args, i);
        return pathElements, Some(el[1..]);
      }
      var val := if el[1..] in fixed then fixed[el[1..]] else argValues.values[el[1..]];
      pathElements := pathElements[i := val];
      argValues.values := argValues.values - {el[1..]};
    }
    missing := None;
  }

  /** url.Values.Encode, in whatever order of the keys. */
  method Encode(values: Args) returns (query: Bytes, ghost order: seq<Pair>)
    ensures Lists(order, values) && query == Query(order)
    ensures order == [] <==> values == map[]
  {
    query, order := [], [];
    var left := values.Keys;
    while left != {}
      invariant left <= values.Keys && Lists(order, Visited(values, left)) && query == Query(order)
      invariant order == [] <==> left == values.Keys
      decreases |left|
    {
      var k :| k in left;
      var p := Pair(k, values[k]);
      QueryMore(order, p);
      VisitedMore(values, left, k);
      ListsMore(order, Visited(values, left), p);
      if query != [] { query := query + ['&']; }
      query := query + Segment(p);
      order := order + [p];
      left := left - {k};
    }
    VisitedAll(values);
  }

  lemma {:induction false} JoinMore(parts: seq<Bytes>, part: Bytes, sep: Byte)
    requires parts != []
    ensures Join(parts + [part], sep) == Join(parts, sep) + [sep] + part
    decreases |parts|
  {
    assert (parts + [part])[1..] == parts[1..] + [part];
    if |parts| > 1 { JoinMore(parts[1..], part, sep); }
  }

  lemma QueryMore(ps: seq<Pair>, p: Pair)
    ensures Query(ps + [p]) == (if ps == [] then [] else Query(ps) + ['&']) + Segment(p)
    ensures Query(ps) == [] <==> ps == []
  {
    assert Segments(ps + [p]) == Segments(ps) + [Segment(p)];
    if ps == [] {
      assert Segments([]) == [];
    } else {
      JoinMore(Segments(ps), Segment(p), '&');
      JoinNonEmpty(Segments(ps), '&');
    }
  }

  lemma JoinNonEmpty(parts: seq<Bytes>, sep: Byte)
    requires parts != [] && parts[0] != []
    ensures Join(parts, sep) != []
  {
  }
}
