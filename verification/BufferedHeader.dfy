/**
  BufferedServerHeader: header calls are held back until Release, then pushed to the server's own
  header. It is compared here with making every call on the server's header directly.
 */
module BufferedHeader {

  type Values = map<string, seq<string>>

  /** The server's header: `statuses` are the SetStatus calls it received, in order. */
  datatype Header = Header(values: Values, cookies: seq<string>, statuses: seq<int>)

  datatype Op = Set(key: string, value: string) | Del(key: string)
              | SetCookie(cookie: string) | SetStatus(status: int) | Release

  function Lookup(values: Values, key: string): seq<string> {
    if key in values then values[key] else []
  }

  /** A call made on the server's header itself. */
  function Direct(h: Header, op: Op): Header {
    match op
    case Set(k, v) => h.(values := h.values[k := [v]])
    case Del(k) => h.(values := h.values - {k})
    case SetCookie(c) => h.(cookies := h.cookies + [c])
    case SetStatus(s) => h.(statuses := h.statuses + [s])
    case Release => h
  }

  function DirectEnd(h: Header, ops: seq<Op>): Header {
    if ops == [] then h else Direct(DirectEnd(h, ops[..|ops| - 1]), ops[|ops| - 1])
  }

  // ----- the buffer -----

  datatype Buffer = Buffer(own: Values, cookies: seq<string>, status: int, released: bool, original: Header)

  function Start(h: Header): Buffer { Buffer(map[], [], 0, false, h) }

  /** Each held list of values is set value by value, so its last value is what stays. */
  function Lasts(own: Values): Values { map k | k in own && own[k] != [] :: [own[k][|own[k]| - 1]] }

  function Pushed(values: Values, own: Values): Values { values + Lasts(own) }

  function PushedList(values: Values, k: string, vs: seq<string>): Values {
    if vs == [] then values else values[k := [vs[|vs| - 1]]]
  }

  function After(b: Buffer, op: Op): Buffer {
    match op
    case Release =>
      b.(released := true,
         original := Header(Pushed(b.original.values, b.own), b.original.cookies + b.cookies,
                            b.original.statuses + (if b.status > 0 then [b.status] else [])))
    case _ =>
      if b.released then b.(original := Direct(b.original, op))
      else
        match op
        case Set(k, v) => b.(own := b.own[k := [v]])
        case Del(k) => b.(own := b.own - {k})
        case SetCookie(c) => b.(cookies := b.cookies + [c])
        case SetStatus(s) => b.(status := s)
  }

  function End(b: Buffer, ops: seq<Op>): Buffer {
    if ops == [] then b else After(End(b, ops[..|ops| - 1]), ops[|ops| - 1])
  }

  function Got(b: Buffer, key: string): seq<string> {
    if b.released || Lookup(b.own, key) == [] then Lookup(b.original.values, key) else b.own[key]
  }

  /** What Set leaves in the buffer: one value for each key. */
  predicate OneEach(b: Buffer) { forall k :: k in b.own ==> |b.own[k]| == 1 }

  // ----- when buffering cannot be noticed -----

  /** The last call about `key` was Del. */
  predicate Deleted(ops: seq<Op>, key: string) {
    ops != [] &&
    var last := ops[|ops| - 1];
    if last.Set? && last.key == key then false
    else (last.Del? && last.key == key) || Deleted(ops[..|ops| - 1], key)
  }

  /** Del reaches what is held, not the server's header: a value there shows through again. */
  ghost predicate ShowsThrough(h: Header, ops: seq<Op>) {
    exists key :: Deleted(ops, key) && Lookup(h.values, key) != []
  }

  /** After `ops`, Get answers as it would on the header itself; so do the cookies, once released. */
  ghost predicate Agrees(h: Header, ops: seq<Op>) {
    var b, d := End(Start(h), ops), DirectEnd(h, ops);
    && (forall key :: Got(b, key) == Lookup(d.values, key))
    && (b.released ==> b.original.cookies == d.cookies)
  }

  lemma {:induction false} BeforeRelease(h: Header, ops: seq<Op>, key: string)
    requires Release !in ops
    ensures var b, d := End(Start(h), ops), DirectEnd(h, ops);
            && !b.released && b.original == h && OneEach(b) && d.cookies == h.cookies + b.cookies
            && (Deleted(ops, key) ==> key !in b.own)
            && Lookup(d.values, key) == (if key in b.own then b.own[key]
                                         else if Deleted(ops, key) then []
                                         else Lookup(h.values, key))
  {
    if ops == [] {
      assert h.cookies + [] == h.cookies;
    } else {
      BeforeRelease(h, ops[..|ops| - 1], key);
    }
  }

  lemma ReleaseKeepsAnswers(b: Buffer, key: string)
    requires !b.released && OneEach(b)
    ensures Got(After(b, Release), key) == Got(b, key)
  {
    assert key in b.own ==> Lasts(b.own)[key] == b.own[key];
  }

  /** Before Release, and just after it, nothing differs exactly when no deleted value shows through. */
  lemma AgreesIff(h: Header, ops: seq<Op>)
    requires Release !in ops
    ensures Agrees(h, ops) <==> !ShowsThrough(h, ops)
    ensures Agrees(h, ops + [Release]) <==> !ShowsThrough(h, ops)
  {
    var b, d := End(Start(h), ops), DirectEnd(h, ops);
    assert (ops + [Release])[..|ops|] == ops;
    BeforeRelease(h, ops, "");
    forall key
      ensures Got(b, key) == Lookup(d.values, key) <==> !(Deleted(ops, key) && Lookup(h.values, key) != [])
      ensures Got(After(b, Release), key) == Got(b, key)
    {
      BeforeRelease(h, ops, key);
      ReleaseKeepsAnswers(b, key);
    }
    if !ShowsThrough(h, ops) {
      assert Agrees(h, ops);
    } else {
      var key :| Deleted(ops, key) && Lookup(h.values, key) != [];
      assert Got(b, key) != Lookup(d.values, key);
    }
  }

  predicate SameAnswers(b: Buffer, d: Header, key: string) { Got(b, key) == Lookup(d.values, key) }

  /** From Release on, every call goes straight through. */
  lemma {:induction false} AfterRelease(b: Buffer, d: Header, more: seq<Op>)
    requires b.released && b.original.cookies == d.cookies && Release !in more
    requires forall key :: SameAnswers(b, d, key)
    ensures End(b, more).released && End(b, more).original.cookies == DirectEnd(d, more).cookies
    ensures forall key :: SameAnswers(End(b, more), DirectEnd(d, more), key)
  {
    if more != [] {
      var n := |more| - 1;
      AfterRelease(b, d, more[..n]);
      GoesThrough(End(b, more[..n]), DirectEnd(d, more[..n]), more[n]);
    }
  }

  lemma {:induction false} RunOn(h: Header, b: Buffer, ops: seq<Op>, more: seq<Op>)
    ensures End(b, ops + more) == End(End(b, ops), more)
    ensures DirectEnd(h, ops + more) == DirectEnd(DirectEnd(h, ops), more)
    decreases |more|
  {
    if more == [] {
      assert ops + more == ops;
    } else {
      var n := |more| - 1;
      RunOn(h, b, ops, more[..n]);
      assert (ops + more)[..|ops| + n] == ops + more[..n];
    }
  }

  lemma GoesThrough(b: Buffer, d: Header, op: Op)
    requires b.released && op != Release && b.original.cookies == d.cookies
    requires forall key :: SameAnswers(b, d, key)
    ensures After(b, op).released && After(b, op).original.cookies == Direct(d, op).cookies
    ensures forall key :: SameAnswers(After(b, op), Direct(d, op), key)
  {
    forall key ensures SameAnswers(After(b, op), Direct(d, op), key) { assert SameAnswers(b, d, key); }
  }

  lemma AgreesAfter(h: Header, ops: seq<Op>, more: seq<Op>)
    requires End(Start(h), ops).released && Agrees(h, ops) && Release !in more
    ensures Agrees(h, ops + more)
  {
    RunOn(h, Start(h), ops, more);
    var b, d := End(Start(h), ops), DirectEnd(h, ops);
    forall key ensures SameAnswers(b, d, key) {}
    AfterRelease(b, d, more);
    forall key ensures Got(End(b, more), key) == Lookup(DirectEnd(d, more).values, key) {
      assert SameAnswers(End(b, more), DirectEnd(d, more), key);
    }
  }

  /**
    Any run of calls with one Release in it: the buffer answers as the header itself would at every
    point, and leaves the same values and the same cookies in the same order, exactly when at no
    point before the Release a value of the original header has been deleted and not set again.
   */
  lemma BufferingIsInvisible(h: Header, before: seq<Op>, after: seq<Op>)
    requires Release !in before && Release !in after
    ensures (forall i :: 0 <= i <= |before| + 1 + |after| ==> Agrees(h, (before + [Release] + after)[..i]))
       <==> (forall i :: 0 <= i <= |before| ==> !ShowsThrough(h, before[..i]))
  {
    var run := before + [Release] + after;
    forall i | 0 <= i <= |before| ensures Agrees(h, run[..i]) <==> !ShowsThrough(h, before[..i]) {
      assert run[..i] == before[..i];
      AgreesIff(h, before[..i]);
    }
    if forall i :: 0 <= i <= |before| ==> !ShowsThrough(h, before[..i]) {
      forall i | 0 <= i <= |run| ensures Agrees(h, run[..i]) {
        if i > |before| {
          assert before[..|before|] == before;
          AgreesIff(h, before);
          assert (before + [Release])[..|before|] == before;
          AgreesAfter(h, before + [Release], after[..i - |before| - 1]);
          assert run[..i] == before + [Release] + after[..i - |before| - 1];
        }
      }
    }
  }

  /** A run on a header that starts with none of the keys the run deletes is never noticed. */
  lemma FreshKeysAgree(h: Header, before: seq<Op>, after: seq<Op>)
    requires Release !in before && Release !in after
    requires forall op :: op in before && op.Del? ==> Lookup(h.values, op.key) == []
    ensures Agrees(h, before + [Release] + after)
  {
    forall i | 0 <= i <= |before| ensures !ShowsThrough(h, before[..i]) {
      forall key | Deleted(before[..i], key) ensures Lookup(h.values, key) == [] {
        DeletedByDel(before[..i], key);
      }
    }
    BufferingIsInvisible(h, before, after);
    var run := before + [Release] + after;
    assert run[..|before| + 1 + |after|] == run;
  }

  lemma {:induction false} DeletedByDel(ops: seq<Op>, key: string)
    requires Deleted(ops, key)
    ensures Del(key) in ops
  {
    if ops[|ops| - 1] != Del(key) { DeletedByDel(ops[..|ops| - 1], key); }
  }

  /** Of the status codes set before Release only the last is sent on, and only a positive one. */
  lemma LastStatusIsSent(h: Header, before: seq<Op>, after: seq<Op>)
    requires Release !in before && Release !in after
    ensures End(Start(h), before + [Release] + after).original.statuses
         == h.statuses + Sent(Statuses(before)) + Statuses(after)
  {
    HeldStatus(h, before);
    RunOn(h, Start(h), before + [Release], after);
    assert (before + [Release])[..|before|] == before;
    StatusesPassed(End(Start(h), before + [Release]), after);
  }

  function Sent(held: seq<int>): seq<int> {
    if held != [] && held[|held| - 1] > 0 then [held[|held| - 1]] else []
  }

  /** The status codes of a run, in order. */
  function Statuses(ops: seq<Op>): seq<int> {
    if ops == [] then []
    else Statuses(ops[..|ops| - 1]) + (if ops[|ops| - 1].SetStatus? then [ops[|ops| - 1].status] else [])
  }

  lemma {:induction false} HeldStatus(h: Header, before: seq<Op>)
    requires Release !in before
    ensures var b, held := End(Start(h), before), Statuses(before);
            !b.released && b.original == h && b.status == if held == [] then 0 else held[|held| - 1]
  {
    if before != [] { HeldStatus(h, before[..|before| - 1]); }
  }

  lemma {:induction false} StatusesPassed(b: Buffer, ops: seq<Op>)
    requires b.released && Release !in ops
    ensures End(b, ops).released && End(b, ops).original.statuses == b.original.statuses + Statuses(ops)
  {
    if ops != [] { StatusesPassed(b, ops[..|ops| - 1]); }
  }

  // ----- a second release -----

  /** The cookies of a run, in order. */
  function Cookies(ops: seq<Op>): seq<string> {
    if ops == [] then []
    else Cookies(ops[..|ops| - 1]) + (if ops[|ops| - 1].SetCookie? then [ops[|ops| - 1].cookie] else [])
  }

  lemma {:induction false} HeldCookies(h: Header, before: seq<Op>)
    requires Release !in before
    ensures var b := End(Start(h), before); !b.released && b.original == h && b.cookies == Cookies(before)
  {
    if before != [] { HeldCookies(h, before[..|before| - 1]); }
  }

  lemma {:induction false} CookiesPassed(b: Buffer, ops: seq<Op>)
    requires b.released && Release !in ops
    ensures End(b, ops).released && End(b, ops).original.cookies == b.original.cookies + Cookies(ops)
    ensures End(b, ops).cookies == b.cookies
  {
    if ops != [] { CookiesPassed(b, ops[..|ops| - 1]); }
  }

  lemma {:induction false} DirectCookies(h: Header, ops: seq<Op>)
    ensures DirectEnd(h, ops).cookies == h.cookies + Cookies(ops)
  {
    if ops != [] { DirectCookies(h, ops[..|ops| - 1]); }
  }

  /** A second release, as a second WriteHeader makes, sends every cookie again that was held at the first. */
  lemma ReleaseTwice(h: Header, before: seq<Op>, between: seq<Op>)
    requires Release !in before && Release !in between
    ensures var sent := End(Start(h), before + [Release] + between + [Release]).original.cookies;
            && sent == h.cookies + Cookies(before) + Cookies(between) + Cookies(before)
            && (sent == DirectEnd(DirectEnd(h, before), between).cookies <==> Cookies(before) == [])
  {
    HeldCookies(h, before);
    assert (before + [Release])[..|before|] == before;
    RunOn(h, Start(h), before + [Release], between);
    CookiesPassed(End(Start(h), before + [Release]), between);
    assert (before + [Release] + between + [Release])[..|before| + 1 + |between|] == before + [Release] + between;
    DirectCookies(h, before);
    DirectCookies(DirectEnd(h, before), between);
  }

  // ----- the objects -----

  /** The server's header, as seen through the ServerHeader interface. */
  class ServerHeader {
    var values: Values
    var cookies: seq<string>
    var statuses: seq<int>

    function View(): Header reads this { Header(values, cookies, statuses) }

    method Set(key: string, value: string)
      modifies this
      ensures View() == Direct(old(View()), Op.Set(key, value))
    {
      values := values[key := [value]];
    }

    method Del(key: string)
      modifies this
      ensures View() == Direct(old(View()), Op.Del(key))
    {
      values := values - {key};
    }

    method SetCookie(cookie: string)
      modifies this
      ensures View() == Direct(old(View()), Op.SetCookie(cookie))
    {
      cookies := cookies + [cookie];
    }

    method SetStatus(status: int)
      modifies this
      ensures View() == Direct(old(View()), Op.SetStatus(status))
    {
      statuses := statuses + [status];
    }

    method Get(key: string) returns (value: seq<string>)
      ensures value == Lookup(values, key)
    {
      value := if key in values then values[key] else [];
    }
  }

  class BufferedServerHeader {
    var cookieList: seq<string>
    var headerMap: Values
    var status: int
    var released: bool
    const original: ServerHeader

    function View(): Buffer reads this, original {
      Buffer(headerMap, cookieList, status, released, original.View())
    }

    constructor (o: ServerHeader)
      ensures original == o && View() == Start(o.View())
    {
      original, cookieList, headerMap, status, released := o, [], map[], 0, false;
    }

    method SetCookie(cookie: string)
      modifies this, original
      ensures View() == After(old(View()), Op.SetCookie(cookie))
    {
      if released { original.SetCookie(cookie); } else { cookieList := cookieList + [cookie]; }
    }

    method Set(key: string, value: string)
      modifies this, original
      ensures View() == After(old(View()), Op.Set(key, value))
    {
      if released { original.Set(key, value); } else { headerMap := headerMap[key := [value]]; }
    }

    method Del(key: string)
      modifies this, original
      ensures View() == After(old(View()), Op.Del(key))
    {
      if released { original.Del(key); } else { headerMap := headerMap - {key}; }
    }

    method SetStatus(statusCode: int)
      modifies this, original
      ensures View() == After(old(View()), Op.SetStatus(statusCode))
    {
      if released { original.SetStatus(statusCode); } else { status := statusCode; }
    }

    method Get(key: string) returns (value: seq<string>)
      ensures value == Got(View(), key)
    {
      if released {
        value := original.Get(key);
      } else if key in headerMap && |headerMap[key]| > 0 {
        value := headerMap[key];
      } else {
        value := original.Get(key);
      }
    }

    method Release()
      modifies this, original
      ensures View() == After(old(View()), Op.Release)
    {
      released := true;
      PushHeaders();
      ghost var pushed := original.View();
      for i := 0 to |cookieList|
        invariant cookieList == old(cookieList) && headerMap == old(headerMap) && status == old(status) && released
        invariant original.View() == pushed.(cookies := pushed.cookies + cookieList[..i])
      {
        original.SetCookie(cookieList[i]);
        assert cookieList[..i + 1] == cookieList[..i] + [cookieList[i]];
      }
      assert cookieList[..|cookieList|] == cookieList;
      if status > 0 { original.SetStatus(status); }
      assert original.View().statuses == old(original.statuses) + (if status > 0 then [status] else []);
    }

    /** The header loop of Release: the map may be visited in any order. */
    method PushHeaders()
      modifies original
      ensures original.View() == old(original.View()).(values := Pushed(old(original.values), headerMap))
    {
      ghost var was := original.View();
      var todo := headerMap.Keys;
      assert Pushed(was.values, headerMap - todo) == was.values;
      while todo != {}
        invariant todo <= headerMap.Keys
        invariant original.View() == was.(values := Pushed(was.values, headerMap - todo))
        decreases |todo|
      {
        var k :| k in todo;
        PushedOneMore(was.values, headerMap, todo, k);
        PushValues(k, headerMap[k]);
        todo := todo - {k};
      }
      assert headerMap - {} == headerMap;
    }

    method PushValues(k: string, vs: seq<string>)
      modifies original
      ensures original.View() == old(original.View()).(values := PushedList(old(original.values), k, vs))
    {
      for i := 0 to |vs|
        invariant original.View() == old(original.View()).(values := PushedList(old(original.values), k, vs[..i]))
      {
        original.Set(k, vs[i]);
        assert vs[..i + 1][i] == vs[i];
        assert original.values == PushedList(old(original.values), k, vs[..i + 1]);
      }
      assert vs[..|vs|] == vs;
    }
  }

  lemma PushedOneMore(values: Values, own: Values, todo: set<string>, k: string)
    requires k in todo && k in own
    ensures Pushed(values, own - (todo - {k})) == PushedList(Pushed(values, own - todo), k, own[k])
  {
    var now, next := own - todo, own - (todo - {k});
    assert forall j :: j in next <==> j == k || j in now;
    assert forall j :: j in now ==> next[j] == now[j];
    assert k !in now && next[k] == own[k];
    assert Lasts(next) == if own[k] == [] then Lasts(now) else Lasts(now)[k := [own[k][|own[k]| - 1]]];
  }
}
