// Parameter numbering. A render that starts at `k` and binds `n` literals
// emits exactly the placeholders `$k`, ..., `$(k+n-1)` in that order (or `n`
// question marks), however the literals are spread over arrays, nested
// subqueries and object expansions; and it hands the counter back advanced
// by exactly `n`, which is what lets a parent continue after a subquery by
// adding `subquery.values.length` (query.js:111-113, 136-138).

module Numbering {
  import opened Values
  import opened Scanner
  import opened Render
  import Builders

  /** The placeholders among the pieces, in order. */
  function Placeholders(ps: seq<Piece>): (r: seq<Piece>)
    ensures forall j :: 0 <= j < |r| ==> !r[j].Raw?
  {
    if ps == [] then []
    else (if ps[0].Raw? then [] else [ps[0]]) + Placeholders(ps[1..])
  }

  /** `$start`, ..., `$(start+n-1)` when numbered, `n` question marks when not. */
  function Expected(numbered: bool, start: int, n: nat): (r: seq<Piece>)
    decreases n
    ensures |r| == n
    ensures forall j :: 0 <= j < n ==> r[j] == if numbered then Dollar(start + j) else Question
  {
    if n == 0 then [] else [if numbered then Dollar(start) else Question] + Expected(numbered, start + 1, n - 1)
  }

  /** Numbering is gapless and in order, and the counter moves by the number
      of bound values. */
  ghost predicate WellNumbered(o: Out, ctx: Ctx, start: int) {
    && Placeholders(o.pieces) == Expected(ctx.numbered, start, |o.values|)
    && o.counter == start + |o.values|
  }

  lemma {:induction false} PlaceholdersAppend(a: seq<Piece>, b: seq<Piece>)
    ensures Placeholders(a + b) == Placeholders(a) + Placeholders(b)
  {
    if a == [] {
      assert a + b == b;
    } else {
      assert (a + b)[1..] == a[1..] + b;
      PlaceholdersAppend(a[1..], b);
    }
  }

  lemma ExpectedAppend(numbered: bool, start: int, m: nat, n: nat)
    ensures Expected(numbered, start, m) + Expected(numbered, start + m, n) == Expected(numbered, start, m + n)
  {
  }

  /** Joining two well-numbered outputs, the second starting where the first
      stopped, is well numbered. */
  lemma Concat(a: Out, sep: seq<Piece>, b: Out, ctx: Ctx, start: int)
    requires WellNumbered(a, ctx, start) && WellNumbered(b, ctx, a.counter)
    requires Placeholders(sep) == []
    ensures WellNumbered(Out(a.pieces + sep + b.pieces, a.values + b.values, b.counter), ctx, start)
  {
    PlaceholdersAppend(a.pieces, sep);
    PlaceholdersAppend(a.pieces + sep, b.pieces);
    ExpectedAppend(ctx.numbered, start, |a.values|, |b.values|);
  }

  lemma {:induction false} QueryNumbering(q: Query, ctx: Ctx, start: int)
    ensures RenderQuery(q, ctx, start).Ok? ==> WellNumbered(RenderQuery(q, ctx, start).value, ctx, start)
    decreases ValuesSize(q.values) + 1, 2, 0
  {
    TokensNumbering(Tokenize(q.fmt), q.values, 0, ctx, start);
  }

  lemma {:induction false} TokensNumbering(toks: seq<Token>, vals: seq<Value>, i: nat, ctx: Ctx, start: int)
    ensures RenderTokens(toks, vals, i, ctx, start).Ok? ==>
              WellNumbered(RenderTokens(toks, vals, i, ctx, start).value, ctx, start)
    decreases ValuesSize(vals) + 1, 1, |toks|
  {
    if toks != [] {
      var t := toks[0];
      if t.Lit? || t.Percent? {
        TokensNumbering(toks[1..], vals, i, ctx, start);
        var rest := RenderTokens(toks[1..], vals, i, ctx, start);
        if rest.Ok? {
          var text := if t.Lit? then [t.c] else "%";
          PlaceholdersAppend([Raw(text)], rest.value.pieces);
        }
      } else {
        var v := ValueAt(vals, i);
        assert Size(v) <= ValuesSize(vals) + 1 by {
          if i < |vals| { ValueWithinValues(vals, i); }
        }
        ResolveNumbering(t, v, ctx, start);
        var head := Resolve(t, v, ctx, start);
        if head.Ok? {
          TokensNumbering(toks[1..], vals, i + 1, ctx, head.value.counter);
          var rest := RenderTokens(toks[1..], vals, i + 1, ctx, head.value.counter);
          if rest.Ok? {
            Concat(head.value, [], rest.value, ctx, start);
            assert head.value.pieces + [] == head.value.pieces;
          }
        }
      }
    }
  }

  lemma {:induction false} ResolveNumbering(t: Token, v: Value, ctx: Ctx, start: int)
    requires t.Tag? || t.Template?
    ensures Resolve(t, v, ctx, start).Ok? ==> WellNumbered(Resolve(t, v, ctx, start).value, ctx, start)
    decreases Size(v), 0, 1
  {
    match t
    case Tag(k) =>
      if v.Arr? {
        ResolveEachNumbering(k, v.elems, ctx, start);
      } else {
        ResolveSingleNumbering(k, v, ctx, start);
      }
    case Template(tpl) =>
      if tpl != "" && v.Map? {
        var f := Builders.Formatter(tpl, v.pairs);
        assert ValuesSize(f.values) + 1 < Size(v) by {
          Builders.ExpandPairsValues(Query("", []), tpl, v.pairs);
          assert f.values == PairValues(v.pairs);
          PairValuesSize(v.pairs);
        }
        QueryNumbering(f, ctx, start);
      }
  }

  lemma {:induction false} ResolveEachNumbering(k: TagKind, es: seq<Value>, ctx: Ctx, start: int)
    ensures ResolveEach(k, es, ctx, start).Ok? ==> WellNumbered(ResolveEach(k, es, ctx, start).value, ctx, start)
    decreases ValuesSize(es) + 1, 1, |es|
  {
    if es != [] {
      ResolveSingleNumbering(k, es[0], ctx, start);
      var head := ResolveSingle(k, es[0], ctx, start);
      if head.Ok? {
        ResolveEachNumbering(k, es[1..], ctx, head.value.counter);
        var rest := ResolveEach(k, es[1..], ctx, head.value.counter);
        if rest.Ok? {
          var sep := if es[1..] == [] then [] else [Raw(", ")];
          Concat(head.value, sep, rest.value, ctx, start);
        }
      }
    }
  }

  lemma {:induction false} ResolveSingleNumbering(k: TagKind, v: Value, ctx: Ctx, start: int)
    ensures ResolveSingle(k, v, ctx, start).Ok? ==> WellNumbered(ResolveSingle(k, v, ctx, start).value, ctx, start)
    decreases Size(v), 0, 0
  {
    if k.Q? && v.Sub? {
      QueryNumbering(v.q, ctx, start);
    }
  }

  // Rendering with or without numbers, from any starting number, binds the
  // same values and lays out the same pieces once every `$n` is read as `?`.

  function Erase(ps: seq<Piece>): (r: seq<Piece>)
    ensures |r| == |ps|
    ensures forall j :: 0 <= j < |ps| ==> r[j] == if ps[j].Dollar? then Question else ps[j]
  {
    if ps == [] then [] else [if ps[0].Dollar? then Question else ps[0]] + Erase(ps[1..])
  }

  /** A render seen without its numbering: the pieces with every `$n` read as
      `?`, and the bound values. */
  function Shape(r: Result<Out>): Result<(seq<Piece>, seq<Value>)> {
    match r
    case Ok(o) => Ok((Erase(o.pieces), o.values))
    case Err(e) => Err(e)
  }

  lemma {:induction false} EraseAppend(a: seq<Piece>, b: seq<Piece>)
    ensures Erase(a + b) == Erase(a) + Erase(b)
  {
    if a == [] {
      assert a + b == b;
    } else {
      assert (a + b)[1..] == a[1..] + b;
      EraseAppend(a[1..], b);
    }
  }

  /** Joining pieces of equal shape gives pieces of equal shape. */
  lemma JoinShapes(a1: Out, a2: Out, sep: seq<Piece>, b1: Out, b2: Out)
    requires Erase(a1.pieces) == Erase(a2.pieces) && a1.values == a2.values
    requires Erase(b1.pieces) == Erase(b2.pieces) && b1.values == b2.values
    requires Erase(sep) == sep
    ensures Shape(Ok(Out(a1.pieces + sep + b1.pieces, a1.values + b1.values, b1.counter)))
         == Shape(Ok(Out(a2.pieces + sep + b2.pieces, a2.values + b2.values, b2.counter)))
  {
    EraseAppend(a1.pieces, sep);
    EraseAppend(a1.pieces + sep, b1.pieces);
    EraseAppend(a2.pieces, sep);
    EraseAppend(a2.pieces + sep, b2.pieces);
  }

  lemma {:induction false} QueryModes(q: Query, esc: Escapers, b1: bool, c1: int, b2: bool, c2: int)
    ensures Shape(RenderQuery(q, Ctx(b1, esc), c1)) == Shape(RenderQuery(q, Ctx(b2, esc), c2))
    decreases ValuesSize(q.values) + 1, 2, 0
  {
    TokensModes(Tokenize(q.fmt), q.values, 0, esc, b1, c1, b2, c2);
  }

  lemma {:induction false} TokensModes(toks: seq<Token>, vals: seq<Value>, i: nat, esc: Escapers, b1: bool, c1: int, b2: bool, c2: int)
    ensures Shape(RenderTokens(toks, vals, i, Ctx(b1, esc), c1)) == Shape(RenderTokens(toks, vals, i, Ctx(b2, esc), c2))
    decreases ValuesSize(vals) + 1, 1, |toks|
  {
    if toks != [] {
      var t := toks[0];
      if t.Lit? || t.Percent? {
        TokensModes(toks[1..], vals, i, esc, b1, c1, b2, c2);
        TextTokenModes(toks, vals, i, esc, b1, c1, b2, c2);
      } else {
        var v := ValueAt(vals, i);
        assert Size(v) <= ValuesSize(vals) + 1 by {
          if i < |vals| { ValueWithinValues(vals, i); }
        }
        ResolveModes(t, v, esc, b1, c1, b2, c2);
        var h1 := Resolve(t, v, Ctx(b1, esc), c1);
        var h2 := Resolve(t, v, Ctx(b2, esc), c2);
        if h1.Ok? && h2.Ok? {
          TokensModes(toks[1..], vals, i + 1, esc, b1, h1.value.counter, b2, h2.value.counter);
          var r1 := RenderTokens(toks[1..], vals, i + 1, Ctx(b1, esc), h1.value.counter);
          var r2 := RenderTokens(toks[1..], vals, i + 1, Ctx(b2, esc), h2.value.counter);
          if r1.Ok? && r2.Ok? {
            JoinShapes(h1.value, h2.value, [], r1.value, r2.value);
            assert h1.value.pieces + [] == h1.value.pieces;
            assert h2.value.pieces + [] == h2.value.pieces;
          }
        }
      }
    }
  }

  /** A text token keeps equal shapes equal. */
  lemma TextTokenModes(toks: seq<Token>, vals: seq<Value>, i: nat, esc: Escapers, b1: bool, c1: int, b2: bool, c2: int)
    requires toks != [] && (toks[0].Lit? || toks[0].Percent?)
    requires Shape(RenderTokens(toks[1..], vals, i, Ctx(b1, esc), c1)) == Shape(RenderTokens(toks[1..], vals, i, Ctx(b2, esc), c2))
    ensures Shape(RenderTokens(toks, vals, i, Ctx(b1, esc), c1)) == Shape(RenderTokens(toks, vals, i, Ctx(b2, esc), c2))
  {
    var r1 := RenderTokens(toks[1..], vals, i, Ctx(b1, esc), c1);
    var r2 := RenderTokens(toks[1..], vals, i, Ctx(b2, esc), c2);
    if r1.Ok? && r2.Ok? {
      var text := if toks[0].Lit? then [toks[0].c] else "%";
      EraseAppend([Raw(text)], r1.value.pieces);
      EraseAppend([Raw(text)], r2.value.pieces);
    }
  }

  lemma {:induction false} ResolveModes(t: Token, v: Value, esc: Escapers, b1: bool, c1: int, b2: bool, c2: int)
    requires t.Tag? || t.Template?
    ensures Shape(Resolve(t, v, Ctx(b1, esc), c1)) == Shape(Resolve(t, v, Ctx(b2, esc), c2))
    decreases Size(v), 0, 1
  {
    match t
    case Tag(k) =>
      if v.Arr? {
        ResolveEachModes(k, v.elems, esc, b1, c1, b2, c2);
      } else {
        ResolveSingleModes(k, v, esc, b1, c1, b2, c2);
      }
    case Template(tpl) =>
      if tpl != "" && v.Map? {
        var f := Builders.Formatter(tpl, v.pairs);
        assert ValuesSize(f.values) + 1 < Size(v) by {
          Builders.ExpandPairsValues(Query("", []), tpl, v.pairs);
          assert f.values == PairValues(v.pairs);
          PairValuesSize(v.pairs);
        }
        QueryModes(f, esc, b1, c1, b2, c2);
      }
  }

  lemma {:induction false} ResolveEachModes(k: TagKind, es: seq<Value>, esc: Escapers, b1: bool, c1: int, b2: bool, c2: int)
    ensures Shape(ResolveEach(k, es, Ctx(b1, esc), c1)) == Shape(ResolveEach(k, es, Ctx(b2, esc), c2))
    decreases ValuesSize(es) + 1, 1, |es|
  {
    if es != [] {
      ResolveSingleModes(k, es[0], esc, b1, c1, b2, c2);
      var h1 := ResolveSingle(k, es[0], Ctx(b1, esc), c1);
      var h2 := ResolveSingle(k, es[0], Ctx(b2, esc), c2);
      if h1.Ok? && h2.Ok? {
        ResolveEachModes(k, es[1..], esc, b1, h1.value.counter, b2, h2.value.counter);
        var r1 := ResolveEach(k, es[1..], Ctx(b1, esc), h1.value.counter);
        var r2 := ResolveEach(k, es[1..], Ctx(b2, esc), h2.value.counter);
        if r1.Ok? && r2.Ok? {
          var sep := if es[1..] == [] then [] else [Raw(", ")];
          JoinShapes(h1.value, h2.value, sep, r1.value, r2.value);
        }
      }
    }
  }

  lemma {:induction false} ResolveSingleModes(k: TagKind, v: Value, esc: Escapers, b1: bool, c1: int, b2: bool, c2: int)
    ensures Shape(ResolveSingle(k, v, Ctx(b1, esc), c1)) == Shape(ResolveSingle(k, v, Ctx(b2, esc), c2))
    decreases Size(v), 0, 0
  {
    if k.Q? && v.Sub? {
      QueryModes(v.q, esc, b1, c1, b2, c2);
    }
  }

  /** `toParam()` is `toParam(true, 1)` and `toParam(b)` is `toParam(b, 1)`. */
  lemma ToParamDefaults(q: Query, esc: Escapers, b: bool)
    ensures ToParam(q, esc, NoArgs) == ToParam(q, esc, NumberedFrom(true, 1))
    ensures ToParam(q, esc, NumberedOnly(b)) == ToParam(q, esc, NumberedFrom(b, 1))
  {
  }

  /** Whether placeholders are numbered, and from where, changes neither
      whether `toParam` succeeds nor the values it collects. */
  lemma ToParamModes(q: Query, esc: Escapers, b1: bool, c1: int, b2: bool, c2: int)
    ensures ToParam(q, esc, NumberedFrom(b1, c1)).Ok? <==> ToParam(q, esc, NumberedFrom(b2, c2)).Ok?
    ensures ToParam(q, esc, NumberedFrom(b1, c1)).Ok? ==>
              ToParam(q, esc, NumberedFrom(b1, c1)).value.values == ToParam(q, esc, NumberedFrom(b2, c2)).value.values
  {
    QueryModes(q, esc, b1, c1, b2, c2);
  }

  /** `toParam(true, k)` emits `$k`, ..., `$(k+n-1)` in order for its `n`
      collected values; `toParam(false, k)` emits `n` question marks. */
  lemma ToParamNumbering(q: Query, esc: Escapers, numbered: bool, k: int)
    ensures RenderQuery(q, Ctx(numbered, esc), k).Ok? ==>
              var o := RenderQuery(q, Ctx(numbered, esc), k).value;
              && ToParam(q, esc, NumberedFrom(numbered, k)) == Ok(ParamQuery(Text(o.pieces), o.values))
              && Placeholders(o.pieces) == Expected(numbered, k, |o.values|)
  {
    QueryNumbering(q, Ctx(numbered, esc), k);
  }
}
