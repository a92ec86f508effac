// `Query.prototype.toParam` (query.js:68-148): one left-to-right pass over
// the tokens of `fmt`, binding the i-th value-taking tag to `values[i]` and
// threading the running parameter number through array elements and nested
// subqueries. With numbered placeholders that number is `numbering_index`.
// Without them, `%L` leaves `numbering_index` alone (query.js:107, 134)
// while the model's counter still moves by one; no `?` shows a number, so
// the two differ only in a value nothing reads.
//
// The output is kept as a sequence of pieces -- text, `$n` placeholders and
// `?` placeholders -- whose concatenation is the text `toParam` returns.

module Render {
  import opened Values
  import opened Scanner
  import Builders

  datatype Piece =
    | Raw(s: string)
    | Dollar(n: int)   // `'$' + numbering_index`
    | Question         // `'?'`

  /** How a render is asked for: numbered placeholders or not, and the
      escapers `%s` and `%I` use. */
  datatype Ctx = Ctx(numbered: bool, esc: Escapers)

  /** What one render produces: pieces, bound values, and the running
      parameter number afterwards (`numbering_index` when placeholders are
      numbered). */
  datatype Out = Out(pieces: seq<Piece>, values: seq<Value>, counter: int)

  /** The `{text, values}` object `toParam` returns. */
  datatype ParamQuery = ParamQuery(text: string, values: seq<Value>)

  function PieceText(p: Piece): string {
    match p
    case Raw(s) => s
    case Dollar(n) => "$" + IntText(n)
    case Question => "?"
  }

  function Text(ps: seq<Piece>): string {
    if ps == [] then "" else PieceText(ps[0]) + Text(ps[1..])
  }

  /** The placeholder for the next bound literal. */
  function Placeholder(ctx: Ctx, counter: int): Piece {
    if ctx.numbered then Dollar(counter) else Question
  }

  function Empty(counter: int): Out {
    Out([], [], counter)
  }

  /** `q.toParam(ctx.numbered, counter)`: every tag of `q.fmt` resolved. */
  function RenderQuery(q: Query, ctx: Ctx, counter: int): Result<Out>
    decreases ValuesSize(q.values) + 1, 2, 0
  {
    RenderTokens(Tokenize(q.fmt), q.values, 0, ctx, counter)
  }

  /** The tokens from one point of the scan on; `i` is the index of the next
      value to bind (the `i` of query.js:80). */
  function RenderTokens(toks: seq<Token>, vals: seq<Value>, i: nat, ctx: Ctx, counter: int): Result<Out>
    decreases ValuesSize(vals) + 1, 1, |toks|
  {
    if toks == [] then Ok(Empty(counter))
    else
      var t := toks[0];
      if t.Lit? || t.Percent? then
        var rest :- RenderTokens(toks[1..], vals, i, ctx, counter);
        var text := if t.Lit? then [t.c] else "%";
        Ok(Out([Raw(text)] + rest.pieces, rest.values, rest.counter))
      else
        var v := ValueAt(vals, i);
        assert Size(v) <= ValuesSize(vals) + 1 by {
          if i < |vals| { ValueWithinValues(vals, i); }
        }
        var head :- Resolve(t, v, ctx, counter);
        var rest :- RenderTokens(toks[1..], vals, i + 1, ctx, head.counter);
        Ok(Out(head.pieces + rest.pieces, head.values + rest.values, rest.counter))
  }

  /** One value-taking tag and its value (query.js:86-141). */
  function Resolve(t: Token, v: Value, ctx: Ctx, counter: int): Result<Out>
    requires t.Tag? || t.Template?
    decreases Size(v), 0, 1
  {
    match t
    case Tag(k) =>
      if v.Arr? then ResolveEach(k, v.elems, ctx, counter) else ResolveSingle(k, v, ctx, counter)
    case Template(tpl) =>
      if tpl == "" then
        // `%()`: no case of the switch matches, and `replace` inserts the
        // callback's `undefined` as text.
        Ok(Out([Raw("undefined")], [], counter))
      else if v.Arr? then
        // The array becomes one ObjectFormatter, and the `'Q'` case then maps
        // over that object's own properties, the first of which is the
        // separator string: it has no `toParam`.
        Err(NoSuchMethod)
      else
        match v
        case Map(ps) =>
          var f := Builders.Formatter(tpl, ps);
          assert ValuesSize(f.values) + 1 < Size(v) by {
            Builders.ExpandPairsValues(Query("", []), tpl, ps);
            assert f.values == PairValues(ps);
            PairValuesSize(ps);
          }
          var sub :- RenderQuery(f, ctx, counter);
          Ok(Out(sub.pieces, sub.values, counter + |sub.values|))
        case Null => Ok(Empty(counter))
        case Undefined => Ok(Empty(counter))
        case Num(_) => Ok(Empty(counter))
        case _ => Err(OutOfModel)
  }

  /** The elements of an array under one tag, joined by `", "`
      (query.js:96-115). */
  function ResolveEach(k: TagKind, es: seq<Value>, ctx: Ctx, counter: int): Result<Out>
    decreases ValuesSize(es) + 1, 1, |es|
  {
    if es == [] then Ok(Empty(counter))
    else
      var head :- ResolveSingle(k, es[0], ctx, counter);
      var rest :- ResolveEach(k, es[1..], ctx, head.counter);
      var sep := if es[1..] == [] then [] else [Raw(", ")];
      Ok(Out(head.pieces + sep + rest.pieces, head.values + rest.values, rest.counter))
  }

  /** One tag on one value that is not expanded further (query.js:124-139,
      and the element rules at query.js:97-114). */
  function ResolveSingle(k: TagKind, v: Value, ctx: Ctx, counter: int): Result<Out>
    decreases Size(v), 0, 0
  {
    match k
    case S => if v.Str? then Ok(Out([Raw(ctx.esc.str(v.s))], [], counter)) else Err(OutOfModel)
    case I => if v.Str? then Ok(Out([Raw(ctx.esc.ident(v.s))], [], counter)) else Err(OutOfModel)
    case L =>
      if IsNullish(v) then Ok(Out([Raw("NULL")], [], counter))
      else Ok(Out([Placeholder(ctx, counter)], [v], counter + 1))
    case Q =>
      if v.Sub? then
        var sub :- RenderQuery(v.q, ctx, counter);
        Ok(Out(sub.pieces, sub.values, counter + |sub.values|))
      else Err(NoSuchMethod)
  }

  /** The arguments `toParam` can be called with; `arguments.length` decides
      the defaults (query.js:71-76). */
  datatype ParamArgs =
    | NoArgs
    | NumberedOnly(numbered: bool)
    | NumberedFrom(numbered: bool, start: int)

  function ToParam(q: Query, esc: Escapers, args: ParamArgs): Result<ParamQuery> {
    var (numbered, start) :=
      match args
      case NoArgs => (true, 1)
      case NumberedOnly(b) => (b, 1)
      case NumberedFrom(b, n) => (b, n);
    var out :- RenderQuery(q, Ctx(numbered, esc), start);
    Ok(ParamQuery(Text(out.pieces), out.values))
  }
}
