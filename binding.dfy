// Which value each tag binds, and what appending to a query does to its
// render. The i-th value-taking tag binds `values[i]` (query.js:86): a render
// reads the values only at the indices its tags reach, so surplus values
// change nothing and a missing one reads as `undefined`; and a format that
// scans as two independent parts renders as the first part followed by the
// second, numbered on from where the first stopped (query.js:53-58).

module Binding {
  import opened Values
  import opened Scanner
  import opened Render

  /** `n` values of `va` from `i` on are those of `vb` from `j` on. */
  ghost predicate SameWindow(va: seq<Value>, i: nat, vb: seq<Value>, j: nat, n: nat) {
    forall m :: i <= m < i + n ==> ValueAt(va, m) == ValueAt(vb, m - i + j)
  }

  lemma WindowOfPrefix(a: seq<Value>, b: seq<Value>, n: nat)
    requires n <= |a|
    ensures SameWindow(a + b, 0, a, 0, n)
  {
  }

  lemma WindowOfSuffix(a: seq<Value>, b: seq<Value>, n: nat)
    ensures SameWindow(a + b, |a|, b, 0, n)
  {
  }

  /** A render of the tokens reads only the values its tags bind. */
  lemma {:induction false} TokensReadOnlyTheirValues(toks: seq<Token>, va: seq<Value>, i: nat, vb: seq<Value>, j: nat, ctx: Ctx, c: int)
    requires SameWindow(va, i, vb, j, TagCount(toks))
    ensures RenderTokens(toks, va, i, ctx, c) == RenderTokens(toks, vb, j, ctx, c)
    decreases |toks|
  {
    if toks != [] {
      var t := toks[0];
      if t.Lit? || t.Percent? {
        TokensReadOnlyTheirValues(toks[1..], va, i, vb, j, ctx, c);
      } else {
        assert ValueAt(va, i) == ValueAt(vb, i - i + j);
        var head := Resolve(t, ValueAt(va, i), ctx, c);
        if head.Ok? {
          TokensReadOnlyTheirValues(toks[1..], va, i + 1, vb, j + 1, ctx, head.value.counter);
        }
      }
    }
  }

  /** Tokens whose tags use up at most `a` read the same from `a + b`. */
  lemma PrefixValues(toks: seq<Token>, a: seq<Value>, b: seq<Value>, ctx: Ctx, c: int)
    requires TagCount(toks) <= |a|
    ensures RenderTokens(toks, a + b, 0, ctx, c) == RenderTokens(toks, a, 0, ctx, c)
  {
    WindowOfPrefix(a, b, TagCount(toks));
    TokensReadOnlyTheirValues(toks, a + b, 0, a, 0, ctx, c);
  }

  /** Tokens read from `a + b` after `a` read `b`. */
  lemma SuffixValues(toks: seq<Token>, a: seq<Value>, b: seq<Value>, ctx: Ctx, c: int)
    ensures RenderTokens(toks, a + b, |a|, ctx, c) == RenderTokens(toks, b, 0, ctx, c)
  {
    WindowOfSuffix(a, b, TagCount(toks));
    TokensReadOnlyTheirValues(toks, a + b, |a|, b, 0, ctx, c);
  }

  /** Values beyond those the tags bind are ignored. */
  lemma SurplusValuesIgnored(q: Query, extra: seq<Value>, ctx: Ctx, c: int)
    requires TagCount(Tokenize(q.fmt)) <= |q.values|
    ensures RenderQuery(Query(q.fmt, q.values + extra), ctx, c) == RenderQuery(q, ctx, c)
  {
    PrefixValues(Tokenize(q.fmt), q.values, extra, ctx, c);
  }

  /** A tag with no value left binds `undefined`: supplying `undefined`
      explicitly changes nothing. */
  lemma MissingValueIsUndefined(q: Query, ctx: Ctx, c: int)
    ensures RenderQuery(Query(q.fmt, q.values + [Undefined]), ctx, c) == RenderQuery(q, ctx, c)
  {
    assert SameWindow(q.values + [Undefined], 0, q.values, 0, TagCount(Tokenize(q.fmt)));
    TokensReadOnlyTheirValues(Tokenize(q.fmt), q.values + [Undefined], 0, q.values, 0, ctx, c);
  }

  /** The render of `a`, then that of `b` from where `a` stopped. */
  function Then(a: Out, rb: Result<Out>): Result<Out> {
    match rb
    case Ok(b) => Ok(Out(a.pieces + b.pieces, a.values + b.values, b.counter))
    case Err(e) => Err(e)
  }

  lemma {:induction false} TagCountAppend(t1: seq<Token>, t2: seq<Token>)
    ensures TagCount(t1 + t2) == TagCount(t1) + TagCount(t2)
  {
    if t1 == [] {
      assert t1 + t2 == t2;
    } else {
      assert (t1 + t2)[1..] == t1[1..] + t2;
      TagCountAppend(t1[1..], t2);
    }
  }

  /** Rendering two runs of tokens one after the other. */
  lemma {:induction false} TokensAppend(t1: seq<Token>, t2: seq<Token>, vals: seq<Value>, i: nat, ctx: Ctx, c: int)
    ensures var r1 := RenderTokens(t1, vals, i, ctx, c);
            RenderTokens(t1 + t2, vals, i, ctx, c)
            == if r1.Err? then Err(r1.error)
               else Then(r1.value, RenderTokens(t2, vals, i + TagCount(t1), ctx, r1.value.counter))
    decreases |t1|
  {
    if t1 == [] {
      assert t1 + t2 == t2;
      var r2 := RenderTokens(t2, vals, i, ctx, c);
      if r2.Ok? {
        assert [] + r2.value.pieces == r2.value.pieces;
        assert [] + r2.value.values == r2.value.values;
      }
    } else {
      var t := t1[0];
      assert (t1 + t2)[0] == t && (t1 + t2)[1..] == t1[1..] + t2;
      if t.Lit? || t.Percent? {
        TokensAppend(t1[1..], t2, vals, i, ctx, c);
        TextTokenAppend(t1, t2, vals, i, ctx, c);
      } else {
        var head := Resolve(t, ValueAt(vals, i), ctx, c);
        if head.Ok? {
          TokensAppend(t1[1..], t2, vals, i + 1, ctx, head.value.counter);
          TagTokenAppend(t1, t2, vals, i, ctx, c, head.value);
        }
      }
    }
  }

  /** The step of `TokensAppend` for a text token in front. */
  lemma TextTokenAppend(t1: seq<Token>, t2: seq<Token>, vals: seq<Value>, i: nat, ctx: Ctx, c: int)
    requires t1 != [] && (t1[0].Lit? || t1[0].Percent?)
    requires (t1 + t2)[0] == t1[0] && (t1 + t2)[1..] == t1[1..] + t2
    requires var r1 := RenderTokens(t1[1..], vals, i, ctx, c);
             RenderTokens(t1[1..] + t2, vals, i, ctx, c)
             == if r1.Err? then Err(r1.error)
                else Then(r1.value, RenderTokens(t2, vals, i + TagCount(t1[1..]), ctx, r1.value.counter))
    ensures var r1 := RenderTokens(t1, vals, i, ctx, c);
            RenderTokens(t1 + t2, vals, i, ctx, c)
            == if r1.Err? then Err(r1.error)
               else Then(r1.value, RenderTokens(t2, vals, i + TagCount(t1), ctx, r1.value.counter))
  {
    var r1 := RenderTokens(t1[1..], vals, i, ctx, c);
    if r1.Ok? {
      var r2 := RenderTokens(t2, vals, i + TagCount(t1[1..]), ctx, r1.value.counter);
      if r2.Ok? {
        var text := if t1[0].Lit? then [t1[0].c] else "%";
        assert [Raw(text)] + (r1.value.pieces + r2.value.pieces) == ([Raw(text)] + r1.value.pieces) + r2.value.pieces;
      }
    }
  }

  /** The step of `TokensAppend` for a value-taking token in front, whose
      own render is `h`. */
  lemma TagTokenAppend(t1: seq<Token>, t2: seq<Token>, vals: seq<Value>, i: nat, ctx: Ctx, c: int, h: Out)
    requires t1 != [] && (t1[0].Tag? || t1[0].Template?)
    requires Resolve(t1[0], ValueAt(vals, i), ctx, c) == Ok(h)
    requires (t1 + t2)[0] == t1[0] && (t1 + t2)[1..] == t1[1..] + t2
    requires var r1 := RenderTokens(t1[1..], vals, i + 1, ctx, h.counter);
             RenderTokens(t1[1..] + t2, vals, i + 1, ctx, h.counter)
             == if r1.Err? then Err(r1.error)
                else Then(r1.value, RenderTokens(t2, vals, i + 1 + TagCount(t1[1..]), ctx, r1.value.counter))
    ensures var r1 := RenderTokens(t1, vals, i, ctx, c);
            RenderTokens(t1 + t2, vals, i, ctx, c)
            == if r1.Err? then Err(r1.error)
               else Then(r1.value, RenderTokens(t2, vals, i + TagCount(t1), ctx, r1.value.counter))
  {
    var r1 := RenderTokens(t1[1..], vals, i + 1, ctx, h.counter);
    if r1.Ok? {
      var r2 := RenderTokens(t2, vals, i + 1 + TagCount(t1[1..]), ctx, r1.value.counter);
      if r2.Ok? {
        assert h.pieces + (r1.value.pieces + r2.value.pieces) == (h.pieces + r1.value.pieces) + r2.value.pieces;
        assert h.values + (r1.value.values + r2.value.values) == (h.values + r1.value.values) + r2.value.values;
      }
    }
  }

  /** The tag at token `m` binds the value whose index is the number of
      tags before it (`values[i++]`, query.js:86), `undefined` past the
      end: the render is that of the tokens before it, then the tag's rule
      on that value, then the tokens after it from the next index. */
  lemma TagBindsValueAt(toks: seq<Token>, vals: seq<Value>, m: nat, ctx: Ctx, c: int)
    requires m < |toks| && (toks[m].Tag? || toks[m].Template?)
    ensures var before := RenderTokens(toks[..m], vals, 0, ctx, c);
            before.Ok? ==>
              var i := TagCount(toks[..m]);
              var head := Resolve(toks[m], ValueAt(vals, i), ctx, before.value.counter);
              RenderTokens(toks, vals, 0, ctx, c)
              == if head.Err? then Err(head.error)
                 else Then(before.value, Then(head.value, RenderTokens(toks[m + 1..], vals, i + 1, ctx, head.value.counter)))
  {
    assert toks[..m] + toks[m..] == toks;
    TokensAppend(toks[..m], toks[m..], vals, 0, ctx, c);
    assert toks[m..][0] == toks[m] && toks[m..][1..] == toks[m + 1..];
  }

  /** What `append(fragment, ...args)` does to the render: when the old
      format and the fragment scan apart and the old format's tags use up
      exactly the old values, the render is the old render followed by the
      fragment's own render, numbered on from where the old one stopped. */
  lemma AppendRendersInSequence(q: Query, fragment: string, args: seq<Value>, ctx: Ctx, c: int)
    requires Tokenize(q.fmt + fragment) == Tokenize(q.fmt) + Tokenize(fragment)
    requires TagCount(Tokenize(q.fmt)) == |q.values|
    ensures var r1 := RenderQuery(q, ctx, c);
            RenderQuery(Query(q.fmt + fragment, q.values + args), ctx, c)
            == if r1.Err? then Err(r1.error)
               else Then(r1.value, RenderQuery(Query(fragment, args), ctx, r1.value.counter))
  {
    var t1, t2 := Tokenize(q.fmt), Tokenize(fragment);
    var vals := q.values + args;
    var r1 := RenderTokens(t1, vals, 0, ctx, c);
    assert RenderQuery(Query(q.fmt + fragment, vals), ctx, c)
        == if r1.Err? then Err(r1.error) else Then(r1.value, RenderTokens(t2, vals, TagCount(t1), ctx, r1.value.counter)) by {
      assert RenderQuery(Query(q.fmt + fragment, vals), ctx, c) == RenderTokens(t1 + t2, vals, 0, ctx, c);
      TokensAppend(t1, t2, vals, 0, ctx, c);
    }
    assert r1 == RenderQuery(q, ctx, c) by {
      PrefixValues(t1, q.values, args, ctx, c);
    }
    if r1.Ok? {
      assert RenderTokens(t2, vals, TagCount(t1), ctx, r1.value.counter)
          == RenderQuery(Query(fragment, args), ctx, r1.value.counter) by {
        SuffixValues(t2, q.values, args, ctx, r1.value.counter);
      }
    }
  }

  /** A render with a text piece in front. */
  function Prefixed(text: string, r: Result<Out>): Result<Out> {
    match r
    case Ok(o) => Ok(Out([Raw(text)] + o.pieces, o.values, o.counter))
    case Err(e) => Err(e)
  }

  /** `%%` renders as one `%` and binds no value: the rest of the format
      binds from the first value on. */
  lemma PercentBindsNothing(s: string, vals: seq<Value>, ctx: Ctx, c: int)
    ensures RenderQuery(Query("%%" + s, vals), ctx, c) == Prefixed("%", RenderQuery(Query(s, vals), ctx, c))
  {
    NextShort("%%" + s);
    assert ("%%" + s)[2..] == s;
  }

  /** Where the pattern does not match, the character is copied as it is
      and binds no value -- a `%` included. */
  lemma UnmatchedCopiedVerbatim(s: string, vals: seq<Value>, ctx: Ctx, c: int)
    requires s != [] && !Matches(s)
    ensures RenderQuery(Query(s, vals), ctx, c) == Prefixed([s[0]], RenderQuery(Query(s[1..], vals), ctx, c))
  {
    MatchAtIsTheRegex(s);
  }

  /** A format in which every `%` starts `%%`, `%s`, `%I`, `%L` or `%Q`. */
  predicate Simple(s: string)
    decreases |s|
  {
    if s == [] then true
    else if s[0] != '%' then Simple(s[1..])
    else |s| >= 2 && (s[1] == '%' || IsTagChar(s[1])) && Simple(s[2..])
  }

  /** A simple format scans apart from whatever follows it. */
  lemma {:induction false} SimpleScansApart(s: string, rest: string)
    requires Simple(s)
    ensures Tokenize(s + rest) == Tokenize(s) + Tokenize(rest)
    decreases |s|
  {
    if s == [] {
      assert s + rest == rest;
    } else if s[0] != '%' {
      NextPlain(s);
      NextPlain(s + rest);
      assert (s + rest)[1..] == s[1..] + rest;
      SimpleScansApart(s[1..], rest);
    } else {
      NextShort(s);
      NextShort(s + rest);
      assert (s + rest)[2..] == s[2..] + rest;
      SimpleScansApart(s[2..], rest);
    }
  }
}
