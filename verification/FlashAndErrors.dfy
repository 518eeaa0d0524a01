/** The two plain cookies that share the codec: flash.go's map and validation.go's error list. */
module FlashAndErrors {
  import opened Common
  import opened CookieText
  import opened Escape

  /** The map's entries are printed in any order. */
  method PrintMap(m: map<Bytes, Bytes>) returns (text: Bytes, ghost order: seq<Pair>)
    ensures Lists(order, m) && text == Print(order)
  {
    text, order := [], [];
    var left := m.Keys;
    while left != {}
      invariant left <= m.Keys
      invariant Lists(order, Visited(m, left)) && text == Print(order)
      decreases |left|
    {
      var key :| key in left;
      PrintedMore(m, left, order, key);
      left := left - {key};
      text := text + [NUL] + key + [':'] + m[key] + [NUL];
      order := order + [Pair(key, m[key])];
    }
    VisitedAll(m);
  }

  predicate FitsCookie(m: map<Bytes, Bytes>) {
    forall k :: k in m ==> ':' !in k && NUL !in m[k]
  }

  /** Whatever the cookie, the map read from it fits. */
  lemma ReadMapFits(cookie: Bytes)
    ensures FitsCookie(AsMap(CookiePairs(cookie)))
  {
    ParsedFit(Unescaped(cookie));
    AsMapKeys(CookiePairs(cookie));
  }

  // ----- flash.go -----

  class Flash {
    var Data: map<Bytes, Bytes>
    var Out: map<Bytes, Bytes>

    /** restoreFlash; None is a request without the cookie. */
    constructor (cookie: Option<Bytes>)
      ensures Data == (if cookie.Some? then AsMap(CookiePairs(cookie.value)) else map[])
      ensures Out == map[]
    {
      var data: map<Bytes, Bytes> := map[];
      if cookie.Some? {
        var calls := ParseKeyValueCookie(cookie.value);
        data := StoreAll(calls);
      }
      Data, Out := data, map[];
    }

    /** Error and Success with no arguments to format. */
    method Error(msg: Bytes)
      modifies this`Out
      ensures Out == old(Out)["error" := msg]
    {
      Out := Out["error" := msg];
    }

    method Success(msg: Bytes)
      modifies this`Out
      ensures Out == old(Out)["success" := msg]
    {
      Out := Out["success" := msg];
    }

    /** The cookie value that FlashFilter sets; it reads back as Out exactly when Out fits the text form. */
    method CookieValue() returns (value: Bytes)
      ensures AsMap(CookiePairs(value)) == Out <==> FitsCookie(Out)
    {
      var text;
      ghost var order;
      text, order := PrintMap(Out);
      value := QueryEscape(text);
      if FitsCookie(Out) {
        CookieRoundTrip(order);
        ListingAsMap(order, Out);
      }
      ReadMapFits(value);
    }
  }

  /** What one request puts in its flash the next one reads, whatever order the map is printed in. */
  method NextRequest(flash: Flash) returns (next: Flash)
    requires FitsCookie(flash.Out)
    ensures fresh(next) && next.Data == flash.Out && next.Out == map[]
  {
    var value := flash.CookieValue();
    next := new Flash(Some(value));
  }

  // ----- validation.go -----

  datatype ValidationError = ValidationError(Key: Bytes, Message: Bytes)

  /** The errors that are stored: those with a message. */
  function Stored(errors: seq<ValidationError>): seq<Pair> {
    if errors == [] then []
    else
      var last := errors[|errors| - 1];
      Stored(errors[..|errors| - 1]) + (if last.Message != [] then [Pair(last.Key, last.Message)] else [])
  }

  method ErrorsText(errors: seq<ValidationError>) returns (text: Bytes)
    ensures text == Print(Stored(errors))
  {
    text := [];
    for i := 0 to |errors|
      invariant text == Print(Stored(errors[..i]))
    {
      StoredMore(errors, i);
      var err := errors[i];
      if err.Message != [] {
        text := text + [NUL] + err.Key + [':'] + err.Message + [NUL];
        PrintMore(Stored(errors[..i]), Pair(err.Key, err.Message));
      }
    }
    assert errors[..|errors|] == errors;
  }

  lemma StoredMore(errors: seq<ValidationError>, i: nat)
    requires i < |errors|
    ensures Stored(errors[..i + 1])
         == if errors[i].Message != [] then Stored(errors[..i]) + [Pair(errors[i].Key, errors[i].Message)]
            else Stored(errors[..i])
  {
    assert errors[..i + 1][..i] == errors[..i];
  }

  /** restoreValidationErrors */
  method RestoreErrors(cookie: Bytes) returns (errors: seq<ValidationError>)
    ensures errors == ErrorsOf(CookiePairs(cookie))
  {
    errors := [];
    var calls := ParseKeyValueCookie(cookie);
    for i := 0 to |calls|
      invariant errors == ErrorsOf(calls[..i])
    {
      OneMoreError(calls, i);
      errors := errors + [ValidationError(calls[i].key, calls[i].val)];
    }
    assert calls[..|calls|] == calls;
  }

  /** One error for each pair, in order. */
  function ErrorsOf(ps: seq<Pair>): seq<ValidationError> {
    if ps == [] then []
    else ErrorsOf(ps[..|ps| - 1]) + [ValidationError(ps[|ps| - 1].key, ps[|ps| - 1].val)]
  }

  lemma OneMoreError(ps: seq<Pair>, i: nat)
    requires i < |ps|
    ensures ErrorsOf(ps[..i + 1]) == ErrorsOf(ps[..i]) + [ValidationError(ps[i].key, ps[i].val)]
  {
    assert ps[..i + 1][..i] == ps[..i];
  }

  lemma {:induction false} ErrorsOfAt(ps: seq<Pair>)
    ensures |ErrorsOf(ps)| == |ps|
    ensures forall i :: 0 <= i < |ps| ==> ErrorsOf(ps)[i] == ValidationError(ps[i].key, ps[i].val)
  {
    if ps != [] { ErrorsOfAt(ps[..|ps| - 1]); }
  }

  function Kept(errors: seq<ValidationError>): seq<ValidationError> {
    if errors == [] then []
    else Kept(errors[..|errors| - 1]) + (if errors[|errors| - 1].Message != [] then [errors[|errors| - 1]] else [])
  }

  lemma {:induction false} KeptConcat(a: seq<ValidationError>, b: seq<ValidationError>)
    ensures Kept(a + b) == Kept(a) + Kept(b)
    decreases |b|
  {
    if b == [] {
      assert a + b == a;
    } else {
      assert (a + b)[..|a + b| - 1] == a + b[..|b| - 1];
      KeptConcat(a, b[..|b| - 1]);
    }
  }

  /** An error is kept at its place among the others exactly when it has a message. */
  lemma KeptAt(a: seq<ValidationError>, e: ValidationError, b: seq<ValidationError>)
    ensures Kept(a + [e] + b) == Kept(a) + (if e.Message != [] then [e] else []) + Kept(b)
  {
    KeptConcat(a + [e], b);
    KeptConcat(a, [e]);
    assert [e][..0] == [];
  }

  lemma {:induction false} StoredAreKept(errors: seq<ValidationError>)
    ensures |Stored(errors)| == |Kept(errors)|
    ensures forall i :: 0 <= i < |Kept(errors)| ==>
              Kept(errors)[i] in errors && Stored(errors)[i] == Pair(Kept(errors)[i].Key, Kept(errors)[i].Message)
  {
    if errors != [] {
      StoredAreKept(errors[..|errors| - 1]);
    }
  }

  /** What the text form can hold. */
  predicate ErrorFits(e: ValidationError) { ':' !in e.Key && NUL !in e.Message }

  /**
    The errors with a message come back in their order, and no others, exactly when each of those fits
    the text form.
   */
  method ErrorsRoundTrip(errors: seq<ValidationError>) returns (restored: seq<ValidationError>)
    ensures restored == Kept(errors) <==> forall i :: 0 <= i < |Kept(errors)| ==> ErrorFits(Kept(errors)[i])
  {
    var text := ErrorsText(errors);
    restored := RestoreErrors(QueryEscape(text));
    RestoredIff(errors);
  }

  lemma RestoredIff(errors: seq<ValidationError>)
    ensures ErrorsOf(CookiePairs(QueryEscape(Print(Stored(errors))))) == Kept(errors)
       <==> forall i :: 0 <= i < |Kept(errors)| ==> ErrorFits(Kept(errors)[i])
  {
    var stored, pairs := Stored(errors), CookiePairs(QueryEscape(Print(Stored(errors))));
    StoredAreKept(errors);
    ErrorsOfAt(pairs);
    EscapedPairs(Print(stored));
    PrintedListComesBack(stored);
    assert ErrorsOf(pairs) == Kept(errors) <==> pairs == stored;
    forall i | 0 <= i < |stored| ensures Fits(stored[i]) <==> ErrorFits(Kept(errors)[i]) {}
  }

  lemma EscapedPairs(text: Bytes)
    ensures CookiePairs(QueryEscape(text)) == Parse(text)
  {
    EscapeRoundTrip(text);
  }
}
