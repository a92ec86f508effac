// Values that a query binds, the query node itself, and the outcome type of
// rendering.

module Values {

  /** Why a render (or an inline render) produced no text. */
  datatype Failure =
    /** JavaScript would raise a TypeError: `toParam` or `toString` was
        called on a value that has no such method (a string, number, null,
        undefined, an array element that is not a query, or the
        ObjectFormatter that an array under `%(tpl)` turns into). */
    | NoSuchMethod
    /** The value would reach a JavaScript coercion or a foreign escaper
        with an input this model does not describe. */
    | OutOfModel

  datatype Option<+T> = None | Some(value: T)

  datatype Result<+T> = Ok(value: T) | Err(error: Failure) {
    predicate IsFailure() { Err? }
    function PropagateFailure<U>(): Result<U> requires Err? { Err(error) }
    function Extract(): T requires Ok? { value }
  }

  /** A value bound to a tag. `Undefined` is what a missing value reads as. */
  datatype Value =
    | Str(s: string)
    | Num(n: int)
    | Null
    | Undefined
    | Arr(elems: seq<Value>)
    | Sub(q: Query)
    | Map(pairs: seq<(string, Value)>)

  /** A query node: a format string and the values its tags bind, in order. */
  datatype Query = Query(fmt: string, values: seq<Value>)

  /** The three string escapers the library takes from pg-escape. */
  datatype Escapers = Escapers(str: string -> string, ident: string -> string, literal: string -> string)

  /** `values[i]`, reading `undefined` past the end as JavaScript does. */
  function ValueAt(vals: seq<Value>, i: nat): (v: Value)
    ensures i < |vals| ==> v == vals[i]
    ensures i >= |vals| ==> v == Undefined
  {
    if i < |vals| then vals[i] else Undefined
  }

  predicate IsNullish(v: Value) {
    v.Null? || v.Undefined?
  }

  // Sizes: a termination measure for rendering. A `Map` weighs more than the
  // keys and values that an ObjectFormatter built from it binds.

  function Size(v: Value): (n: nat)
    ensures n >= 1
    decreases v, 1
  {
    match v
    case Arr(es) => 2 + ValuesSize(es)
    case Sub(q) => 2 + ValuesSize(q.values)
    case Map(ps) => 2 + PairsSize(ps)
    case _ => 1
  }

  function ValuesSize(vs: seq<Value>): nat
    decreases vs, 0
  {
    if vs == [] then 0 else Size(vs[0]) + ValuesSize(vs[1..])
  }

  function PairsSize(ps: seq<(string, Value)>): nat
    decreases ps, 0
  {
    if ps == [] then 0
    else
      var p := ps[0];
      assert p in ps && p.1 < p;
      1 + Size(p.1) + PairsSize(ps[1..])
  }

  /** The values an ObjectFormatter binds for `ps`: each key, then its value. */
  function PairValues(ps: seq<(string, Value)>): (vs: seq<Value>)
    ensures |vs| == 2 * |ps|
  {
    if ps == [] then [] else [Str(ps[0].0), ps[0].1] + PairValues(ps[1..])
  }

  /** Pair `j` binds its key at `2 * j` and its value right after. */
  lemma {:induction false} PairValuesAt(ps: seq<(string, Value)>, j: nat)
    requires j < |ps|
    ensures PairValues(ps)[2 * j] == Str(ps[j].0) && PairValues(ps)[2 * j + 1] == ps[j].1
  {
    if j > 0 {
      PairValuesAt(ps[1..], j - 1);
    }
  }

  lemma {:induction false} ValueWithinValues(vs: seq<Value>, i: nat)
    requires i < |vs|
    ensures Size(vs[i]) <= ValuesSize(vs)
  {
    if i > 0 {
      ValueWithinValues(vs[1..], i - 1);
    }
  }

  lemma {:induction false} ValuesSizeAppend(a: seq<Value>, b: seq<Value>)
    ensures ValuesSize(a + b) == ValuesSize(a) + ValuesSize(b)
  {
    if a != [] {
      assert (a + b)[1..] == a[1..] + b;
      ValuesSizeAppend(a[1..], b);
    } else {
      assert a + b == b;
    }
  }

  lemma {:induction false} PairValuesSize(ps: seq<(string, Value)>)
    ensures ValuesSize(PairValues(ps)) == PairsSize(ps)
  {
    if ps != [] {
      var head: seq<Value> := [Str(ps[0].0), ps[0].1];
      ValuesSizeAppend(head, PairValues(ps[1..]));
      assert ValuesSize(head) == 1 + Size(ps[0].1) by {
        assert head[1..] == [ps[0].1];
        assert head[1..][1..] == [];
      }
      PairValuesSize(ps[1..]);
    }
  }

  /** Regrouping three strings; a small lemma keeps the solver from
      searching for it inside larger proofs. */
  lemma AppendAssoc(a: string, b: string, c: string)
    ensures a + b + c == a + (b + c)
  {
  }

  // Decimal text of integers, as JavaScript's `'' + n` gives it for a
  // safe integer.

  function DigitChar(d: nat): (c: char)
    requires d < 10
    ensures '0' <= c <= '9'
  {
    ('0' as int + d) as char
  }

  function DigitValue(c: char): nat
    requires '0' <= c <= '9'
  {
    c as int - '0' as int
  }

  predicate AllDigits(s: string) {
    forall k :: 0 <= k < |s| ==> '0' <= s[k] <= '9'
  }

  /** The number a string of decimal digits denotes, read left to right. */
  function DecimalValue(s: string): nat
    requires AllDigits(s)
  {
    if s == [] then 0 else 10 * DecimalValue(s[..|s| - 1]) + DigitValue(s[|s| - 1])
  }

  /** Decimal digits without a leading zero, except for `0` itself. */
  predicate Canonical(s: string) {
    |s| >= 1 && AllDigits(s) && (s[0] == '0' ==> |s| == 1)
  }

  function NatText(n: nat): (s: string)
    ensures |s| >= 1
    ensures forall k :: 0 <= k < |s| ==> '0' <= s[k] <= '9'
  {
    if n < 10 then [DigitChar(n)] else NatText(n / 10) + [DigitChar(n % 10)]
  }

  function IntText(n: int): (s: string)
    ensures |s| >= 1
    ensures s[0] == '-' <==> n < 0
  {
    if n < 0 then "-" + NatText(-n) else NatText(n)
  }

  /** `NatText(n)` is the decimal notation of `n`: canonical digits whose
      value is `n`. */
  lemma {:induction false} NatTextIsDecimal(n: nat)
    ensures Canonical(NatText(n)) && DecimalValue(NatText(n)) == n
  {
    if n >= 10 {
      var d := NatText(n / 10);
      NatTextIsDecimal(n / 10);
      var s := d + [DigitChar(n % 10)];
      assert s[..|s| - 1] == d;
      assert s[0] == d[0];
    }
  }

  /** Each canonical digit string is the `NatText` of its value: `NatText`
      is the only decimal notation there is. */
  lemma {:induction false} DecimalIsNatText(s: string)
    requires Canonical(s)
    ensures NatText(DecimalValue(s)) == s
    decreases |s|
  {
    if |s| >= 2 {
      var init := s[..|s| - 1];
      assert Canonical(init) && init[0] == s[0];
      DecimalIsNatText(init);
      LeadingDigitPositive(init);
      assert DecimalValue(s) / 10 == DecimalValue(init);
      assert DigitChar(DecimalValue(s) % 10) == s[|s| - 1];
      assert init + [s[|s| - 1]] == s;
    }
  }

  /** Digits that do not start with `0` denote a positive number. */
  lemma {:induction false} LeadingDigitPositive(s: string)
    requires |s| >= 1 && AllDigits(s) && s[0] != '0'
    ensures DecimalValue(s) >= 1
    decreases |s|
  {
    if |s| >= 2 {
      LeadingDigitPositive(s[..|s| - 1]);
    }
  }

  /** `IntText(n)`: a minus sign exactly for a negative `n`, then the
      decimal notation of its magnitude. */
  lemma IntTextIsDecimal(n: int)
    ensures n < 0 ==> IntText(n)[0] == '-' && Canonical(IntText(n)[1..]) && DecimalValue(IntText(n)[1..]) == -n
    ensures n >= 0 ==> Canonical(IntText(n)) && DecimalValue(IntText(n)) == n
  {
    if n < 0 {
      NatTextIsDecimal(-n);
      assert IntText(n)[1..] == NatText(-n);
    } else {
      NatTextIsDecimal(n);
    }
  }
}
