/**
  What the binder makes of texts that it did not print itself: numbers and booleans in any spelling, and
  the brackets and dots of parameter names, each described by the texts alone.
 */
module BindTexts {
  import opened Text
  import opened Decimal
  import opened BinderTypes
  import opened BindSpec

  // ----- numbers -----

  /** The text is a number of 64 bits. */
  ghost predicate IsInt64(text: string) { exists n :: Denotes(text, n) && -TWO63 <= n < TWO63 }

  predicate IsUint64(text: string) { IsNumeral(text) && Decimal.Value(text) <= MAX_UINT64 }

  /** `m` is `n` as far as the width goes. */
  predicate Cut(s: Scalar, n: int, m: int)
    requires s.IntT? || s.UintT?
  {
    Fits(s, NumV(m)) && (m - n) % s.w.Modulus() == 0
  }

  /** What a text is bound to: its number cut to the width, or zero when it is not one. */
  ghost predicate ReadsInt(w: Width, text: string, m: int) {
    if IsInt64(text) then exists n :: Denotes(text, n) && Cut(IntT(w), n, m) else m == 0
  }

  ghost predicate ReadsUint(w: Width, text: string, m: int) {
    if IsUint64(text) then Cut(UintT(w), Decimal.Value(text), m) else m == 0
  }

  lemma OneCut(s: Scalar, n: int, m: int, k: int)
    requires s.IntT? || s.UintT?
    requires Cut(s, n, m) && Cut(s, n, k)
    ensures m == k
  {
    var d := s.w.Modulus();
    var i, j := (m - n) / d, (k - n) / d;
    assert m - k == (i - j) * d;
    Near(i - j, d);
  }

  lemma Near(i: int, d: int)
    requires 0 < d && -d < i * d < d
    ensures i == 0
  {
    Grows(i, d);
  }

  lemma Grows(i: int, d: int)
    requires 0 < d
    ensures i >= 1 ==> i * d >= d
    ensures i <= -1 ==> i * d <= -d
  {
  }

  lemma RemainderCuts(n: int, d: int)
    requires d > 0
    ensures (n % d - n) % d == 0
  {
    var q := n / d;
    assert n % d - n == -q * d;
    Multiple(-q, d);
  }

  lemma Multiple(q: int, d: int)
    requires d > 0
    ensures (q * d) % d == 0
  {
    var r, p := (q * d) % d, (q * d) / d;
    assert r == (q - p) * d;
    Near(q - p, d);
  }

  lemma WrapCuts(w: Width, n: int)
    ensures Cut(IntT(w), n, WrapInt(n, w)) && Cut(UintT(w), n, n % w.Modulus())
  {
    var d := w.Modulus();
    RemainderCuts(n, d);
    RemainderCuts(n + d / 2, d);
    assert d == d / 2 + d / 2;
  }

  lemma OneNumber(text: string, n: int, m: int)
    requires Denotes(text, n) && Denotes(text, m)
    ensures n == m
  {
    DenotesIs(text, n);
    DenotesIs(text, m);
  }

  /** IntBinder on every text: the value is addressable exactly when the text is a number, and zero otherwise. */
  lemma IntTexts(w: Width, text: string, m: int)
    ensures ParsePrim(IntT(w), text).0 == NumV(m) <==> ReadsInt(w, text, m)
    ensures ParsePrim(IntT(w), text).1 <==> IsInt64(text)
  {
    var r := ParseInt(text);
    if r.Number? {
      ParseIntIff(text, r.n);
      WrapCuts(w, r.n);
      forall n | Denotes(text, n) && Cut(IntT(w), n, m) ensures m == WrapInt(r.n, w) {
        OneNumber(text, n, r.n);
        OneCut(IntT(w), n, m, WrapInt(r.n, w));
      }
    } else {
      if IsInt64(text) {
        var n :| Denotes(text, n) && -TWO63 <= n < TWO63;
        ParseIntIff(text, n);
        assert false;
      }
    }
  }

  lemma UintTexts(w: Width, text: string, m: int)
    ensures ParsePrim(UintT(w), text).0 == NumV(m) <==> ReadsUint(w, text, m)
    ensures ParsePrim(UintT(w), text).1 <==> IsUint64(text)
  {
    ParseUintIff(text);
    var r := ParseUint(text);
    if IsUint64(text) { assert r == Number(Decimal.Value(text)); }
    if r.Number? {
      assert r == Number(r.n);
      WrapCuts(w, r.n);
      if Cut(UintT(w), r.n, m) { OneCut(UintT(w), r.n, m, r.n % w.Modulus()); }
    }
  }

  // ----- booleans -----

  /** `t` is `w` up to case, where `w` is in lower case. */
  predicate Folds(t: string, w: string) {
    |t| == |w| && forall i :: 0 <= i < |t| ==> t[i] == w[i] || ('a' <= w[i] <= 'z' && t[i] as int == w[i] as int - 32)
  }

  predicate NoUpper(w: string) { forall i :: 0 <= i < |w| ==> !('A' <= w[i] <= 'Z') }

  lemma FoldsIff(t: string, w: string)
    requires NoUpper(w)
    ensures ToLower(t) == w <==> Folds(t, w)
  {
    if ToLower(t) == w {
      forall i | 0 <= i < |t| ensures t[i] == w[i] || ('a' <= w[i] <= 'z' && t[i] as int == w[i] as int - 32) {
        assert w[i] == ToLower(t)[i];
      }
    }
  }

  lemma LowerSurrounds(a: string, t: string, b: string, s: string)
    requires Surrounds(a, t, b, s)
    ensures TrimSpace(ToLower(s)) == ToLower(t)
  {
    assert ToLower(s) == ToLower(a) + ToLower(t) + ToLower(b);
    TrimmedOf(ToLower(a), ToLower(t), ToLower(b));
  }

  lemma FalseWords(w: string)
    requires w in FALSE_WORDS
    ensures NoUpper(w)
  {
  }

  ghost predicate IsFalse(s: string) {
    exists a, t, b, w :: Surrounds(a, t, b, s) && w in FALSE_WORDS && Folds(t, w)
  }

  /** A boolean is false exactly on six words, in any case and with any white space around them. */
  lemma AtobIff(s: string)
    ensures !Atob(s) <==> IsFalse(s)
  {
    var a, b := TrimSpaceFinds(s);
    var t := TrimSpace(s);
    LowerSurrounds(a, t, b, s);
    if !Atob(s) {
      FalseWords(ToLower(t));
      FoldsIff(t, ToLower(t));
      assert Surrounds(a, t, b, s) && ToLower(t) in FALSE_WORDS && Folds(t, ToLower(t));
    }
    forall a', t', b', w | Surrounds(a', t', b', s) && w in FALSE_WORDS && Folds(t', w) ensures !Atob(s) {
      LowerSurrounds(a', t', b', s);
      FalseWords(w);
      FoldsIff(t', w);
    }
  }

  // ----- one parameter -----

  /** A number, and so addressable. */
  ghost predicate IsNumber(s: Scalar, text: string) { (s.IntT? && IsInt64(text)) || (s.UintT? && IsUint64(text)) }

  /** What a scalar binder makes of a text. */
  ghost predicate ReadsText(s: Scalar, text: string, p: Prim) {
    match s
    case IntT(w) => p.NumV? && ReadsInt(w, text, p.n)
    case UintT(w) => p.NumV? && ReadsUint(w, text, p.n)
    case StringT => p == StrV(text)
    case BoolT => p.BoolV? && (p.b <==> !IsFalse(text))
  }

  /** The scalar binders on every text: one value each, addressable exactly when the text is a number. */
  lemma PrimTexts(s: Scalar, text: string, p: Prim)
    ensures ParsePrim(s, text).0 == p <==> ReadsText(s, text, p)
    ensures ParsePrim(s, text).1 <==> IsNumber(s, text)
  {
    match s
    case IntT(w) => IntTexts(w, text, if p.NumV? then p.n else 0);
    case UintT(w) => UintTexts(w, text, if p.NumV? then p.n else 0);
    case StringT =>
    case BoolT => AtobIff(text);
  }

  /** What Bind gives a scalar from the texts under its name: the first one counts. */
  ghost predicate ReadsFirst(s: Scalar, texts: seq<string>, p: Prim) {
    if texts != [] then ReadsText(s, texts[0], p)
    else p == if s.StringT? then StrV("") else if s.BoolT? then BoolV(false) else NumV(0)
  }

  function TextsAt(params: Params, name: string): seq<string> { if name in params then params[name] else [] }

  /** Bind of a scalar, and of a pointer to one, which is nil unless the text is a number. */
  lemma ScalarOutcome(c: Config, params: Params, name: string, s: Scalar, v: Value)
    requires c.Ok()
    ensures Outcome(c, params, name, Basic(s), v) <==> v.PrimV? && ReadsFirst(s, TextsAt(params, name), v.p)
    ensures Addressable(params, name, Basic(s)) <==>
              TextsAt(params, name) != [] && IsNumber(s, TextsAt(params, name)[0])
  {
    if TextsAt(params, name) != [] {
      PrimTexts(s, params[name][0], if v.PrimV? then v.p else ZeroPrim(s));
    }
  }

  // ----- names of elements, fields and entries -----

  /** The start of a longer name: nothing, or a dot or an opening bracket. */
  predicate Ends(rest: string) { rest == "" || rest[0] == '.' || rest[0] == '[' }

  /** The text in the first brackets is the index; without one the element is un-indexed. */
  lemma IndexText(name: string, text: string, rest: string)
    requires ']' !in text
    ensures var key := name + "[" + text + "]" + rest;
            && SliceIndex(name, key) == (if text == "" then -1 else AtoiDroppingError(text))
            && (text != "" ==> SliceChild(name, key) == name + "[" + text + "]")
  {
    var key := name + "[" + text + "]" + rest;
    var tail := key[|name|..];
    assert tail == "[" + text + "]" + rest;
    assert tail[..|text| + 1] == "[" + text;
    IndexOfIs(tail, ']', |text| + 1);
    assert key[|name| + 1..|name| + 1 + |text|] == text;
    assert key[..|name| + |text| + 2] == name + "[" + text + "]";
  }

  /** An index that is a number is that number, one that is out of range its bound, and any other text 0. */
  lemma IndexRead(name: string, text: string, rest: string, n: int)
    requires ']' !in text && text != ""
    ensures SliceIndex(name, name + "[" + text + "]" + rest) == n <==> AtoiGives(text, n)
  {
    IndexText(name, text, rest);
    AtoiIff(text, n);
  }

  /** Without a closing bracket the element is un-indexed. */
  lemma NoClosingBracket(name: string, rest: string)
    requires ']' !in rest
    ensures SliceIndex(name, name + "[" + rest) == -1
  {
    var key := name + "[" + rest;
    assert key[|name|..] == "[" + rest;
  }

  /** A key names a field exactly when the field follows the dot and is ended by a separator or the end. */
  lemma TouchesIff(name: string, field: string, key: string)
    requires Clean(field)
    ensures Touches(name, field, key) <==> exists rest :: Ends(rest) && key == name + "." + field + rest
  {
    if Touches(name, field, key) {
      var tail := key[|name| + 1..];
      assert key == name + "." + tail && tail == field + tail[|field|..];
      assert Ends(tail[|field|..]) && key == name + "." + field + tail[|field|..];
    }
    if rest :| Ends(rest) && key == name + "." + field + rest {
      assert key[|name| + 1..] == field + rest;
      NextKeyIs(field, field + rest);
    }
  }

  /** A key names a map entry exactly when its brackets hold no separator and a separator or the end follows. */
  lemma MapHitIff(name: string, text: string, key: string)
    ensures MapHit(name, key) && MapText(name, key) == text
       <==> Clean(text) && exists rest :: Ends(rest) && key == MapChild(name, text) + rest
  {
    if MapHit(name, key) && MapText(name, key) == text { HitReads(name, text, key); }
    if Clean(text) && exists rest :: Ends(rest) && key == MapChild(name, text) + rest {
      var rest :| Ends(rest) && key == MapChild(name, text) + rest;
      ReadsHit(name, text, rest);
    }
  }

  lemma ReadsHit(name: string, text: string, rest: string)
    requires Clean(text) && Ends(rest)
    ensures MapHit(name, MapChild(name, text) + rest) && MapText(name, MapChild(name, text) + rest) == text
  {
    var key, segment := MapChild(name, text) + rest, text + "]";
    assert key[|name| + 1..] == segment + rest;
    NextKeyIs(segment, segment + rest);
    assert segment[..|segment| - 1] == text;
  }

  lemma BracketIsSegment(rest: string)
    ensures NextKey("]" + rest) != ""
  {
  }

  lemma HitReads(name: string, text: string, key: string)
    requires MapHit(name, key) && MapText(name, key) == text
    ensures Clean(text) && exists rest :: Ends(rest) && key == MapChild(name, text) + rest
  {
    var tail := key[|name| + 1..];
    var segment := NextKey(tail);
    var rest := key[|MapChild(name, text)|..];
    assert key == MapChild(name, text) + rest;
    assert tail == text + "]" + rest;
    assert segment == tail[..|segment|];
    BracketIsSegment(rest);
    assert segment == text + "]";
    assert tail[|segment|..] == rest;
    assert Ends(rest);
  }
}
