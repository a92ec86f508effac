// What the four single-tag shorthands (query.js:40-51) render to: each is
// the tag's rule applied to its one value.

module Shorthands {
  import opened Values
  import opened Scanner
  import opened Render
  import opened Builders
  import Numbering

  /** A two-character tag scans as that one tag. */
  lemma TokenizeTag(k: TagKind)
    ensures Tokenize(['%', KindChar(k)]) == [Tag(k)]
  {
    var s := ['%', KindChar(k)];
    NextShort(s);
    assert KindOf(KindChar(k)) == k by {
      match k
      case S =>
      case I =>
      case L =>
      case Q =>
    }
    assert s[2..] == [];
  }

  /** A format that is one tag renders as that tag's rule on the first value. */
  lemma SingleTag(k: TagKind, v: Value, ctx: Ctx, c: int)
    ensures RenderQuery(Query(['%', KindChar(k)], [v]), ctx, c) == Resolve(Tag(k), v, ctx, c)
  {
    TokenizeTag(k);
    var toks := [Tag(k)];
    assert toks[1..] == [] && ValueAt([v], 0) == v;
    var r := Resolve(Tag(k), v, ctx, c);
    if r.Ok? {
      assert RenderTokens(toks[1..], [v], 1, ctx, r.value.counter) == Ok(Empty(r.value.counter));
      assert r.value.pieces + [] == r.value.pieces;
      assert r.value.values + [] == r.value.values;
    }
  }

  /** `Query.literal(v)`: `NULL` for null or undefined, otherwise one
      placeholder that binds `v`. */
  lemma LiteralRenders(v: Value, ctx: Ctx, c: int)
    requires !v.Arr?
    ensures RenderQuery(Literal(v), ctx, c)
            == if IsNullish(v) then Ok(Out([Raw("NULL")], [], c))
               else Ok(Out([Placeholder(ctx, c)], [v], c + 1))
  {
    SingleTag(L, v, ctx, c);
  }

  /** `Query.ident(v)`: the identifier escaper's output, binding nothing. */
  lemma IdentRenders(v: Value, ctx: Ctx, c: int)
    requires !v.Arr?
    ensures RenderQuery(Ident(v), ctx, c)
            == if v.Str? then Ok(Out([Raw(ctx.esc.ident(v.s))], [], c)) else Err(OutOfModel)
  {
    SingleTag(I, v, ctx, c);
  }

  /** `Query.string(v)`: the string escaper's output, binding nothing. */
  lemma StringRenders(v: Value, ctx: Ctx, c: int)
    requires !v.Arr?
    ensures RenderQuery(StringQuery(v), ctx, c)
            == if v.Str? then Ok(Out([Raw(ctx.esc.str(v.s))], [], c)) else Err(OutOfModel)
  {
    SingleTag(S, v, ctx, c);
  }

  /** `Query.subquery(q)` renders exactly as `q` does; anything other than a
      query has no `toParam`. */
  lemma SubqueryRenders(v: Value, ctx: Ctx, c: int)
    requires !v.Arr?
    ensures v.Sub? ==> RenderQuery(Subquery(v), ctx, c) == RenderQuery(v.q, ctx, c)
    ensures !v.Sub? ==> RenderQuery(Subquery(v), ctx, c) == Err(NoSuchMethod)
  {
    SingleTag(Q, v, ctx, c);
    if v.Sub? {
      Numbering.QueryNumbering(v.q, ctx, c);
    }
  }
}
