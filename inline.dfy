// `Query.prototype.toString` (query.js:150-162): render without numbers,
// then replace every `?` of the text, left to right, by the next bound value
// -- a string through the literal escaper, a number as its decimal text.
//
// The replacement scans the text, so a `?` written in the format itself
// also takes a value. When no text piece holds a `?`, the scan is the same
// as filling each placeholder piece with its own value (FillAgreesWithScan).

module Inline {
  import opened Values
  import opened Scanner
  import opened Render
  import Builders
  import Binding
  import Numbering
  import Shorthands

  /** `value.toString()`, escaped when the value is a string. */
  function InlineValue(v: Value, esc: Escapers): (r: Result<string>)
    ensures r.Ok? <==> v.Str? || v.Num?
    ensures v.Str? ==> r == Ok(esc.literal(v.s))
    ensures v.Num? ==> r == Ok(IntText(v.n))
    ensures IsNullish(v) ==> r == Err(NoSuchMethod)
  {
    match v
    case Str(s) => Ok(esc.literal(s))
    case Num(n) => Ok(IntText(n))
    case Null => Err(NoSuchMethod)       // `null.toString()`
    case Undefined => Err(NoSuchMethod)  // `undefined.toString()`, also past the last value
    case _ => Err(OutOfModel)            // arrays, query objects and plain objects
  }

  /** A number prints as its decimal notation: a minus sign exactly when it
      is negative, then canonical digits denoting its magnitude. */
  lemma InlineNumberIsDecimal(n: int, esc: Escapers)
    ensures InlineValue(Num(n), esc).Ok?
    ensures var s := InlineValue(Num(n), esc).value;
            && (n >= 0 ==> Canonical(s) && DecimalValue(s) == n)
            && (n < 0 ==> s[0] == '-' && Canonical(s[1..]) && DecimalValue(s[1..]) == -n)
  {
    IntTextIsDecimal(n);
  }

  function Prepend(s: string, r: Result<string>): Result<string> {
    match r
    case Ok(t) => Ok(s + t)
    case Err(e) => Err(e)
  }

  /** The `replace(/\?/g, ...)` pass; `i` is the index of the next value. */
  function FillQuestions(text: string, vals: seq<Value>, i: nat, esc: Escapers): Result<string>
    decreases |text|
  {
    if text == [] then Ok("")
    else if text[0] == '?' then
      var x :- InlineValue(ValueAt(vals, i), esc);
      var rest :- FillQuestions(text[1..], vals, i + 1, esc);
      Ok(x + rest)
    else Prepend([text[0]], FillQuestions(text[1..], vals, i, esc))
  }

  function ToString(q: Query, esc: Escapers): Result<string> {
    var p :- ToParam(q, esc, NumberedOnly(false));
    FillQuestions(p.text, p.values, 0, esc)
  }

  /** The reference: each placeholder piece replaced by its own value, and
      every other piece kept as its text. */
  function Fill(ps: seq<Piece>, vals: seq<Value>, i: nat, esc: Escapers): Result<string> {
    if ps == [] then Ok("")
    else if ps[0].Question? then
      var x :- InlineValue(ValueAt(vals, i), esc);
      var rest :- Fill(ps[1..], vals, i + 1, esc);
      Ok(x + rest)
    else Prepend(PieceText(ps[0]), Fill(ps[1..], vals, i, esc))
  }

  /** No text piece contains a `?` of its own. */
  ghost predicate NoStrayQuestion(ps: seq<Piece>) {
    forall j, k :: 0 <= j < |ps| && ps[j].Raw? && 0 <= k < |ps[j].s| ==> ps[j].s[k] != '?'
  }

  /** Text without `?` passes through the scan unchanged. */
  lemma {:induction false} ScanPlain(s: string, t: string, vals: seq<Value>, i: nat, esc: Escapers)
    requires forall k :: 0 <= k < |s| ==> s[k] != '?'
    ensures FillQuestions(s + t, vals, i, esc) == Prepend(s, FillQuestions(t, vals, i, esc))
    decreases |s|
  {
    if s == [] {
      assert s + t == t;
      var r := FillQuestions(t, vals, i, esc);
      if r.Ok? { assert s + r.value == r.value; }
    } else {
      assert (s + t)[0] == s[0] && (s + t)[1..] == s[1..] + t;
      ScanPlain(s[1..], t, vals, i, esc);
      var r := FillQuestions(t, vals, i, esc);
      if r.Ok? { assert [s[0]] + (s[1..] + r.value) == s + r.value; }
    }
  }

  lemma NoQuestionInDigits(n: int)
    ensures forall k :: 0 <= k < |IntText(n)| ==> IntText(n)[k] != '?'
  {
    if n < 0 {
      assert IntText(n) == "-" + NatText(-n);
      assert forall k :: 1 <= k < |IntText(n)| ==> IntText(n)[k] == NatText(-n)[k - 1];
    }
  }

  /** When no text piece holds a `?`, scanning the rendered text for `?` is
      filling each placeholder with its value. */
  lemma {:induction false} FillAgreesWithScan(ps: seq<Piece>, vals: seq<Value>, i: nat, esc: Escapers)
    requires NoStrayQuestion(ps)
    ensures FillQuestions(Text(ps), vals, i, esc) == Fill(ps, vals, i, esc)
    decreases |ps|
  {
    if ps != [] {
      assert NoStrayQuestion(ps[1..]) by {
        forall j, k | 0 <= j < |ps[1..]| && ps[1..][j].Raw? && 0 <= k < |ps[1..][j].s|
          ensures ps[1..][j].s[k] != '?'
        {
          assert ps[1..][j] == ps[j + 1];
        }
      }
      match ps[0]
      case Question =>
        FillAgreesWithScan(ps[1..], vals, i + 1, esc);
        assert Text(ps)[0] == '?' && Text(ps)[1..] == Text(ps[1..]);
      case Raw(s) =>
        assert forall k :: 0 <= k < |s| ==> s[k] != '?' by {
          forall k | 0 <= k < |s| ensures s[k] != '?' {
            assert ps[0].Raw? && 0 <= k < |ps[0].s|;
          }
        }
        ScanPlain(s, Text(ps[1..]), vals, i, esc);
        FillAgreesWithScan(ps[1..], vals, i, esc);
      case Dollar(n) =>
        NoQuestionInDigits(n);
        var d := "$" + IntText(n);
        assert forall k :: 0 <= k < |d| ==> d[k] != '?' by {
          assert forall k :: 1 <= k < |d| ==> d[k] == IntText(n)[k - 1];
        }
        ScanPlain(d, Text(ps[1..]), vals, i, esc);
        FillAgreesWithScan(ps[1..], vals, i, esc);
    }
  }

  /** `toString` fills each placeholder of the un-numbered render with the
      value it bound, provided no text piece holds a `?` of its own. */
  lemma ToStringFillsPlaceholders(q: Query, esc: Escapers)
    requires RenderQuery(q, Ctx(false, esc), 1).Ok?
    requires NoStrayQuestion(RenderQuery(q, Ctx(false, esc), 1).value.pieces)
    ensures var o := RenderQuery(q, Ctx(false, esc), 1).value;
            ToString(q, esc) == Fill(o.pieces, o.values, 0, esc)
  {
    var o := RenderQuery(q, Ctx(false, esc), 1).value;
    FillAgreesWithScan(o.pieces, o.values, 0, esc);
  }

  // Filling splits where the render splits: the placeholders of the first
  // part take the first part's values, and the rest start over at index 0.

  /** Number of `?` placeholders among the pieces. */
  function QuestionCount(ps: seq<Piece>): nat {
    if ps == [] then 0 else (if ps[0].Question? then 1 else 0) + QuestionCount(ps[1..])
  }

  /** One text result followed by another; the first failure wins. */
  function ThenText(r: Result<string>, s: Result<string>): Result<string> {
    match r
    case Ok(t) => Prepend(t, s)
    case Err(e) => Err(e)
  }

  /** Values in front of those the placeholders read only shift the index. */
  lemma {:induction false} FillShift(ps: seq<Piece>, va: seq<Value>, vb: seq<Value>, j: nat, esc: Escapers)
    ensures Fill(ps, va + vb, |va| + j, esc) == Fill(ps, vb, j, esc)
    decreases |ps|
  {
    if ps != [] {
      if ps[0].Question? {
        assert ValueAt(va + vb, |va| + j) == ValueAt(vb, j);
        FillShift(ps[1..], va, vb, j + 1, esc);
      } else {
        FillShift(ps[1..], va, vb, j, esc);
      }
    }
  }

  /** Filling `a + b` over `va + vb`, when the placeholders of `a` from index
      `i` on use up exactly `va`, is filling `a` over `va` and then `b` over
      `vb` from its first value. */
  lemma {:induction false} FillSplit(a: seq<Piece>, b: seq<Piece>, va: seq<Value>, vb: seq<Value>, i: nat, esc: Escapers)
    requires i + QuestionCount(a) == |va|
    ensures Fill(a + b, va + vb, i, esc) == ThenText(Fill(a, va, i, esc), Fill(b, vb, 0, esc))
    decreases |a|
  {
    if a == [] {
      assert a + b == b;
      FillShift(b, va, vb, 0, esc);
      var fb := Fill(b, vb, 0, esc);
      if fb.Ok? { assert "" + fb.value == fb.value; }
    } else {
      if a[0].Question? {
        FillSplit(a[1..], b, va, vb, i + 1, esc);
        FillSplitQuestion(a, b, va, vb, i, esc);
      } else {
        FillSplit(a[1..], b, va, vb, i, esc);
        FillSplitText(a, b, va, vb, i, esc);
      }
    }
  }

  /** The step of `FillSplit` when `a` starts with a placeholder. */
  lemma FillSplitQuestion(a: seq<Piece>, b: seq<Piece>, va: seq<Value>, vb: seq<Value>, i: nat, esc: Escapers)
    requires a != [] && a[0].Question? && i < |va|
    requires Fill(a[1..] + b, va + vb, i + 1, esc) == ThenText(Fill(a[1..], va, i + 1, esc), Fill(b, vb, 0, esc))
    ensures Fill(a + b, va + vb, i, esc) == ThenText(Fill(a, va, i, esc), Fill(b, vb, 0, esc))
  {
    var x := InlineValue(ValueAt(va, i), esc);
    var ra := Fill(a[1..], va, i + 1, esc);
    var fb := Fill(b, vb, 0, esc);
    calc {
      Fill(a + b, va + vb, i, esc);
      { ConsAppend(a, b);
        assert ValueAt(va + vb, i) == ValueAt(va, i);
        FillQuestionHead(a + b, va + vb, i, esc); }
      ThenText(x, Fill(a[1..] + b, va + vb, i + 1, esc));
      ThenText(x, ThenText(ra, fb));
      { ThenTextAssoc(x, ra, fb); }
      ThenText(ThenText(x, ra), fb);
      { FillQuestionHead(a, va, i, esc); }
      ThenText(Fill(a, va, i, esc), fb);
    }
  }

  /** The step of `FillSplit` when `a` starts with text or `$n`. */
  lemma FillSplitText(a: seq<Piece>, b: seq<Piece>, va: seq<Value>, vb: seq<Value>, i: nat, esc: Escapers)
    requires a != [] && !a[0].Question?
    requires Fill(a[1..] + b, va + vb, i, esc) == ThenText(Fill(a[1..], va, i, esc), Fill(b, vb, 0, esc))
    ensures Fill(a + b, va + vb, i, esc) == ThenText(Fill(a, va, i, esc), Fill(b, vb, 0, esc))
  {
    ConsAppend(a, b);
    FillTextHead(a + b, va + vb, i, esc);
    FillTextHead(a, va, i, esc);
    TextStep(PieceText(a[0]), Fill(a[1..], va, i, esc), Fill(b, vb, 0, esc));
  }

  /** A leading text or `$n` piece is kept as its text. */
  lemma FillTextHead(ps: seq<Piece>, vals: seq<Value>, i: nat, esc: Escapers)
    requires ps != [] && !ps[0].Question?
    ensures Fill(ps, vals, i, esc) == Prepend(PieceText(ps[0]), Fill(ps[1..], vals, i, esc))
  {
  }

  lemma ConsAppend(a: seq<Piece>, b: seq<Piece>)
    requires a != []
    ensures (a + b)[0] == a[0] && (a + b)[1..] == a[1..] + b
  {
  }

  /** A leading placeholder takes the value's text, then the rest is filled
      from the next value. */
  lemma FillQuestionHead(ps: seq<Piece>, vals: seq<Value>, i: nat, esc: Escapers)
    requires ps != [] && ps[0].Question?
    ensures Fill(ps, vals, i, esc) == ThenText(InlineValue(ValueAt(vals, i), esc), Fill(ps[1..], vals, i + 1, esc))
  {
  }

  /** Three text results joined in turn, grouped either way. */
  lemma ThenTextAssoc(x: Result<string>, ra: Result<string>, fb: Result<string>)
    ensures ThenText(x, ThenText(ra, fb)) == ThenText(ThenText(x, ra), fb)
  {
    if x.Ok? && ra.Ok? && fb.Ok? {
      AppendAssoc(x.value, ra.value, fb.value);
    }
  }

  /** A piece's text in front of two fills in turn. */
  lemma TextStep(t: string, ra: Result<string>, fb: Result<string>)
    ensures Prepend(t, ThenText(ra, fb)) == ThenText(Prepend(t, ra), fb)
  {
    if ra.Ok? && fb.Ok? {
      AppendAssoc(t, ra.value, fb.value);
    }
  }

  /** The pieces a text without `%` renders as: one per character. */
  function Chars(s: string): seq<Piece> {
    if s == [] then [] else [Raw([s[0]])] + Chars(s[1..])
  }

  /** Text without `%` scans as plain characters and renders as itself,
      binding nothing and leaving the counter alone. */
  lemma {:induction false} PlainRenders(s: string, vals: seq<Value>, i: nat, ctx: Ctx, c: int)
    requires forall k :: 0 <= k < |s| ==> s[k] != '%'
    ensures Binding.Simple(s) && TagCount(Tokenize(s)) == 0
    ensures RenderTokens(Tokenize(s), vals, i, ctx, c) == Ok(Out(Chars(s), [], c))
    decreases |s|
  {
    if s != [] {
      NextPlain(s);
      PlainRenders(s[1..], vals, i, ctx, c);
      assert Tokenize(s)[1..] == Tokenize(s[1..]);
    }
  }

  /** Text without `%` or `?` fills to itself. */
  lemma {:induction false} CharsFill(s: string, vals: seq<Value>, i: nat, esc: Escapers)
    requires forall k :: 0 <= k < |s| ==> s[k] != '?'
    ensures QuestionCount(Chars(s)) == 0 && NoStrayQuestion(Chars(s))
    ensures Fill(Chars(s), vals, i, esc) == Ok(s)
    decreases |s|
  {
    if s != [] {
      CharsFill(s[1..], vals, i, esc);
      var ps := Chars(s);
      assert ps[1..] == Chars(s[1..]);
      assert [s[0]] + s[1..] == s;
      forall j, k | 0 <= j < |ps| && ps[j].Raw? && 0 <= k < |ps[j].s|
        ensures ps[j].s[k] != '?'
      {
        if j > 0 { assert ps[j] == Chars(s[1..])[j - 1]; }
      }
    }
  }

  lemma NoStrayAppend(a: seq<Piece>, b: seq<Piece>)
    requires NoStrayQuestion(a) && NoStrayQuestion(b)
    ensures NoStrayQuestion(a + b)
  {
    forall j, k | 0 <= j < |a + b| && (a + b)[j].Raw? && 0 <= k < |(a + b)[j].s|
      ensures (a + b)[j].s[k] != '?'
    {
      if j >= |a| { assert (a + b)[j] == b[j - |a|]; }
    }
  }

  /** A `$n` piece shows up among the placeholders. */
  lemma {:induction false} DollarIsPlaceholder(ps: seq<Piece>, j: nat)
    requires j < |ps| && ps[j].Dollar?
    ensures ps[j] in Numbering.Placeholders(ps)
    decreases j
  {
    assert Numbering.Placeholders(ps)
        == (if ps[0].Raw? then [] else [ps[0]]) + Numbering.Placeholders(ps[1..]);
    if j > 0 {
      DollarIsPlaceholder(ps[1..], j - 1);
    }
  }

  /** Without numbers, the starting number changes nothing but the counter:
      the same pieces, the same values, the same failure. */
  lemma UnnumberedFromAnywhere(q: Query, esc: Escapers, c: int)
    ensures var r1 := RenderQuery(q, Ctx(false, esc), c);
            var r2 := RenderQuery(q, Ctx(false, esc), 1);
            && r1.Ok? == r2.Ok?
            && (r1.Ok? ==> r1.value.pieces == r2.value.pieces && r1.value.values == r2.value.values)
            && (r1.Err? ==> r1.error == r2.error)
  {
    var ctx := Ctx(false, esc);
    var r1 := RenderQuery(q, ctx, c);
    var r2 := RenderQuery(q, ctx, 1);
    Numbering.QueryModes(q, esc, false, c, false, 1);
    Numbering.QueryNumbering(q, ctx, c);
    Numbering.QueryNumbering(q, ctx, 1);
    if r1.Ok? && r2.Ok? {
      NoDollars(r1.value, ctx, c);
      NoDollars(r2.value, ctx, 1);
    }
  }

  /** An un-numbered render has no `$n` piece, and one `?` per bound
      value. */
  lemma NoDollars(o: Out, ctx: Ctx, c: int)
    requires !ctx.numbered && Numbering.WellNumbered(o, ctx, c)
    ensures Numbering.Erase(o.pieces) == o.pieces
    ensures QuestionCount(o.pieces) == |o.values|
  {
    forall j | 0 <= j < |o.pieces|
      ensures !o.pieces[j].Dollar?
    {
      if o.pieces[j].Dollar? {
        DollarIsPlaceholder(o.pieces, j);
      }
    }
    CountQuestions(o.pieces);
  }

  /** Without `$n` pieces, the placeholders are the `?` pieces. */
  lemma {:induction false} CountQuestions(ps: seq<Piece>)
    requires forall j :: 0 <= j < |ps| ==> !ps[j].Dollar?
    ensures QuestionCount(ps) == |Numbering.Placeholders(ps)|
    decreases |ps|
  {
    if ps != [] {
      CountQuestions(ps[1..]);
    }
  }

  /** The text between the subqueries, then the second subquery: its
      characters, then the pieces and values the subquery renders from 1. */
  lemma GapThenSubquery(s: string, q: Query, esc: Escapers, c: int)
    requires forall k :: 0 <= k < |s| ==> s[k] != '%'
    requires RenderQuery(q, Ctx(false, esc), 1).Ok?
    ensures var o := RenderQuery(q, Ctx(false, esc), 1).value;
            var r := RenderQuery(Query(s + "%Q", [Sub(q)]), Ctx(false, esc), c);
            r.Ok? && r.value.pieces == Chars(s) + o.pieces && r.value.values == o.values
  {
    var ctx := Ctx(false, esc);
    PlainRenders(s, [], 0, ctx, c);
    Binding.SimpleScansApart(s, "%Q");
    Binding.AppendRendersInSequence(Query(s, []), "%Q", [Sub(q)], ctx, c);
    assert [] + [Sub(q)] == [Sub(q)];
    Shorthands.SubqueryRenders(Sub(q), ctx, c);
    UnnumberedFromAnywhere(q, esc, c);
  }

  /** `new Query('%Q' + s + '%Q', q1, q2)` renders without numbers as `q1`,
      the characters of `s`, then `q2`, binding the values of `q1` and then
      those of `q2`. */
  lemma SubqueriesRender(q1: Query, s: string, q2: Query, esc: Escapers)
    requires forall k :: 0 <= k < |s| ==> s[k] != '%'
    requires RenderQuery(q1, Ctx(false, esc), 1).Ok? && RenderQuery(q2, Ctx(false, esc), 1).Ok?
    ensures var o1 := RenderQuery(q1, Ctx(false, esc), 1).value;
            var o2 := RenderQuery(q2, Ctx(false, esc), 1).value;
            var r := RenderQuery(Query("%Q" + s + "%Q", [Sub(q1), Sub(q2)]), Ctx(false, esc), 1);
            r.Ok? && r.value.pieces == o1.pieces + (Chars(s) + o2.pieces) && r.value.values == o1.values + o2.values
  {
    var ctx := Ctx(false, esc);
    var o1 := RenderQuery(q1, ctx, 1).value;
    assert "%Q" + s + "%Q" == "%Q" + (s + "%Q");
    assert [Sub(q1), Sub(q2)] == [Sub(q1)] + [Sub(q2)];
    assert Tokenize("%Q") == [Tag(Q)] && TagCount([Tag(Q)]) == 1 by {
      assert "%Q" == ['%', KindChar(Q)];
      Shorthands.TokenizeTag(Q);
    }
    assert Binding.Simple("%Q") by {
      assert "%Q"[2..] == [];
    }
    Binding.SimpleScansApart("%Q", s + "%Q");
    Binding.AppendRendersInSequence(Builders.Subquery(Sub(q1)), s + "%Q", [Sub(q2)], ctx, 1);
    Shorthands.SubqueryRenders(Sub(q1), ctx, 1);
    GapThenSubquery(s, q2, esc, RenderQuery(q1, ctx, 1).value.counter);
  }

  /** `new Query('%Q UNION ALL %Q', q1, q2).toString()` and the like: the
      first query's `toString`, the text between, then the second query's
      `toString` -- the first failure, if any, being the result. */
  lemma SubqueriesToString(q1: Query, s: string, q2: Query, esc: Escapers)
    requires forall k :: 0 <= k < |s| ==> s[k] != '%' && s[k] != '?'
    requires RenderQuery(q1, Ctx(false, esc), 1).Ok? && RenderQuery(q2, Ctx(false, esc), 1).Ok?
    requires NoStrayQuestion(RenderQuery(q1, Ctx(false, esc), 1).value.pieces)
    requires NoStrayQuestion(RenderQuery(q2, Ctx(false, esc), 1).value.pieces)
    ensures ToString(Query("%Q" + s + "%Q", [Sub(q1), Sub(q2)]), esc)
            == ThenText(ToString(q1, esc), Prepend(s, ToString(q2, esc)))
  {
    var ctx := Ctx(false, esc);
    var o1 := RenderQuery(q1, ctx, 1).value;
    var o2 := RenderQuery(q2, ctx, 1).value;
    var u := Query("%Q" + s + "%Q", [Sub(q1), Sub(q2)]);
    var gap := Chars(s) + o2.pieces;
    SubqueriesRender(q1, s, q2, esc);
    assert ToString(u, esc) == Fill(o1.pieces + gap, o1.values + o2.values, 0, esc) by {
      CharsFill(s, [], 0, esc);
      NoStrayAppend(Chars(s), o2.pieces);
      NoStrayAppend(o1.pieces, gap);
      ToStringFillsPlaceholders(u, esc);
    }
    assert Fill(o1.pieces + gap, o1.values + o2.values, 0, esc)
        == ThenText(Fill(o1.pieces, o1.values, 0, esc), Prepend(s, Fill(o2.pieces, o2.values, 0, esc))) by {
      Numbering.QueryNumbering(q1, ctx, 1);
      NoDollars(o1, ctx, 1);
      FillSplit(o1.pieces, gap, o1.values, o2.values, 0, esc);
      CharsFill(s, [], 0, esc);
      FillSplit(Chars(s), o2.pieces, [], o2.values, 0, esc);
      assert [] + o2.values == o2.values;
    }
    ToStringFillsPlaceholders(q1, esc);
    ToStringFillsPlaceholders(q2, esc);
  }
}
