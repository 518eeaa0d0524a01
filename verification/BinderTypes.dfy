/**
  The Go types and values that revel's binder translates, and the one-key texts of the
  scalar binders (IntBinder, UintBinder, StringBinder, BoolBinder).
 */
module BinderTypes {
  import opened Decimal
  import opened Text

  datatype Width = W8 | W16 | W32 | W64 {
    function Modulus(): int {
      match this
      case W8 => 0x100
      case W16 => 0x1_0000
      case W32 => 0x1_0000_0000
      case W64 => 0x1_0000_0000_0000_0000
    }
  }

  datatype Scalar = IntT(w: Width) | UintT(w: Width) | StringT | BoolT

  /** BytesT is []byte: its binder reads uploads only, and it has no Unbind. */
  datatype Typ =
    | Basic(s: Scalar)
    | BytesT
    | SliceT(elem: Typ)
    | StructT(id: nat)
    | MapT(key: Scalar, elem: Typ)
    | PtrT(elem: Typ)

  datatype Field = Field(name: string, typ: Typ, exported: bool)

  datatype Prim = NumV(n: int) | StrV(s: string) | BoolV(b: bool)

  /** A nil slice or map is the empty one. */
  datatype Value =
    | PrimV(p: Prim)
    | BytesV(bytes: string)
    | SliceV(elems: seq<Value>)
    | StructV(fields: seq<Value>)
    | MapV(entries: map<Prim, Value>)
    | NilPtr
    | PtrV(to: Value)

  /**
    The declared structs, and the value of params.max_index.
    A struct may mention any struct behind a slice, map or pointer. Go forbids a struct that
    contains itself by value, so the declarations can be listed with the contained ones first.
   */
  datatype Config = Config(structs: seq<seq<Field>>, maxIndex: int) {

    predicate TypOk(t: Typ) {
      match t
      case Basic(_) => true
      case BytesT => true
      case SliceT(e) => e != Basic(UintT(W8)) && TypOk(e)
      case StructT(id) => id < |structs|
      case MapT(_, e) => TypOk(e)
      case PtrT(e) => TypOk(e)
    }

    predicate FieldsOk(id: nat)
      requires id < |structs|
    {
      && (forall i :: 0 <= i < |structs[id]| ==>
            var f := structs[id][i];
            f.name != "" && Clean(f.name) && TypOk(f.typ) && (f.typ.StructT? ==> f.typ.id < id))
      && (forall i, j :: 0 <= i < j < |structs[id]| ==> structs[id][i].name != structs[id][j].name)
    }

    predicate Ok() {
      forall id: nat :: id < |structs| ==> FieldsOk(id)
    }

    /** The position of the named field, or -1: reflect's FieldByName without embedding. */
    function FieldIndex(id: nat, name: string): (i: int)
      requires id < |structs|
      ensures -1 <= i < |structs[id]|
      ensures i >= 0 ==> structs[id][i].name == name
      ensures i == -1 ==> forall j :: 0 <= j < |structs[id]| ==> structs[id][j].name != name
    {
      FieldIndexFrom(structs[id], 0, name)
    }

    static function FieldIndexFrom(fs: seq<Field>, from: nat, name: string): (i: int)
      requires from <= |fs|
      ensures i == -1 || (from <= i < |fs| && fs[i].name == name)
      ensures i == -1 ==> forall j :: from <= j < |fs| ==> fs[j].name != name
      decreases |fs| - from
    {
      if from == |fs| then -1
      else if fs[from].name == name then from
      else FieldIndexFrom(fs, from + 1, name)
    }

    // ----- zero values and typing -----

    /** reflect.Zero */
    function Zero(t: Typ): Value
      requires Ok() && TypOk(t)
      decreases if t.StructT? then t.id + 1 else 0
    {
      match t
      case Basic(s) => PrimV(ZeroPrim(s))
      case BytesT => BytesV("")
      case SliceT(_) => SliceV([])
      case StructT(id) =>
        assert FieldsOk(id);
        StructV(seq(|structs[id]|, i requires 0 <= i < |structs[id]| => Zero(structs[id][i].typ)))
      case MapT(_, _) => MapV(map[])
      case PtrT(_) => NilPtr
    }

    predicate HasType(t: Typ, v: Value)
      requires Ok() && TypOk(t)
      decreases v
    {
      match v
      case PrimV(p) => t.Basic? && Fits(t.s, p)
      case BytesV(_) => t.BytesT?
      case SliceV(es) => t.SliceT? && |es| < TWO63 && forall i :: 0 <= i < |es| ==> HasType(t.elem, es[i])
      case StructV(fs) =>
        && t.StructT? && |fs| == |structs[t.id]|
        && assert FieldsOk(t.id);
           forall i :: 0 <= i < |fs| ==> HasType(structs[t.id][i].typ, fs[i])
      case MapV(m) => t.MapT? && forall k :: k in m ==> Fits(t.key, k) && HasType(t.elem, m[k])
      case NilPtr => t.PtrT?
      case PtrV(p) => t.PtrT? && HasType(t.elem, p)
    }
  }

  function PtrDepth(t: Typ): nat {
    if t.PtrT? then PtrDepth(t.elem) + 1 else 0
  }

  // ----- scalars -----

  predicate Fits(s: Scalar, p: Prim) {
    match s
    case IntT(w) => p.NumV? && -(w.Modulus() / 2) <= p.n < w.Modulus() / 2
    case UintT(w) => p.NumV? && 0 <= p.n < w.Modulus()
    case StringT => p.StrV?
    case BoolT => p.BoolV?
  }

  function ZeroPrim(s: Scalar): (p: Prim)
    ensures Fits(s, p)
  {
    match s
    case IntT(_) => NumV(0)
    case UintT(_) => NumV(0)
    case StringT => StrV("")
    case BoolT => BoolV(false)
  }

  /** The text written for a scalar: %d, %t, or the string itself; also what %v writes for a map key. */
  function PrimText(p: Prim): string {
    match p
    case NumV(n) => FormatInt(n)
    case StrV(s) => s
    case BoolV(b) => if b then "true" else "false"
  }

  /** reflect's SetInt keeps the low bits of the 64-bit value, as a signed number. */
  function WrapInt(n: int, w: Width): int {
    (n + w.Modulus() / 2) % w.Modulus() - w.Modulus() / 2
  }

  /** A bound scalar, and whether reflect can take its address (only a number that parsed). */
  function ParsePrim(s: Scalar, text: string): (r: (Prim, bool))
    ensures Fits(s, r.0)
  {
    match s
    case IntT(w) =>
      var n := ParseInt(text);
      if n.Number? then (NumV(WrapInt(n.n, w)), true) else (ZeroPrim(s), false)
    case UintT(w) =>
      var n := ParseUint(text);
      if n.Number? then (NumV(n.n % w.Modulus()), true) else (ZeroPrim(s), false)
    case StringT => (StrV(text), false)
    case BoolT => (BoolV(Atob(text)), false)
  }

  function ToLower(s: string): string {
    seq(|s|, i requires 0 <= i < |s| => if 'A' <= s[i] <= 'Z' then (s[i] as int + 32) as char else s[i])
  }

  const FALSE_WORDS: set<string> := {"", "false", "off", "f", "0", "0.0"}

  /** Everything is true except these six texts. */
  predicate Atob(s: string) { TrimSpace(ToLower(s)) !in FALSE_WORDS }

  lemma WrapKeepsFitting(n: int, w: Width)
    requires Fits(IntT(w), NumV(n))
    ensures WrapInt(n, w) == n
  {
    match w { case W8 => case W16 => case W32 => case W64 => }
  }

  lemma FittingIs64Bit(n: int, w: Width)
    ensures Fits(IntT(w), NumV(n)) ==> -TWO63 <= n < TWO63
    ensures Fits(UintT(w), NumV(n)) ==> n <= MAX_UINT64 && n % w.Modulus() == n
  {
    match w { case W8 => case W16 => case W32 => case W64 => }
  }

  lemma AtobOfBool(b: bool)
    ensures Atob(PrimText(BoolV(b))) == b
  {
    assert ToLower("true") == "true" && ToLower("false") == "false";
  }

  /** Each scalar binder reads back what it wrote; only numbers come back addressable. */
  lemma ScalarRoundTrip(s: Scalar, p: Prim)
    requires Fits(s, p)
    ensures ParsePrim(s, PrimText(p)) == (p, s.IntT? || s.UintT?)
  {
    match s
    case IntT(w) =>
      FittingIs64Bit(p.n, w);
      ParseIntOfFormat(p.n);
      WrapKeepsFitting(p.n, w);
    case UintT(w) =>
      FittingIs64Bit(p.n, w);
      ParseUintOfFormat(p.n);
    case StringT =>
    case BoolT =>
      AtobOfBool(p.b);
  }
}
