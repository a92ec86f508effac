// How a `Query.List` renders (query.js:179-194), and with it the `%(tpl)`
// expansion of a mapping (query.js:117-122, 196-208), whose ObjectFormatter
// is a list with separator `", "`. When every fragment is simple and binds
// exactly its own arguments, and the separator binds nothing, the list
// renders as each fragment's own render in turn, the separator's render
// between each two, numbered on from one fragment to the next.

module Lists {
  import opened Values
  import opened Scanner
  import opened Render
  import opened Builders
  import opened Binding
  import Numbering
  import Expansion

  /** A separator that scans as plain text and binds nothing. */
  predicate Bindless(sep: string) {
    Simple(sep) && TagCount(Tokenize(sep)) == 0
  }

  /** A fragment that is not empty, scans apart from what follows it, and
      has one argument per tag. */
  predicate Exact(f: (string, seq<Value>)) {
    f.0 != "" && Simple(f.0) && TagCount(Tokenize(f.0)) == |f.1|
  }

  /** After the render `a`: the separator, then the fragment `f`, each
      numbered on from where the one before stopped. */
  function Follow(a: Out, sep: string, f: (string, seq<Value>), ctx: Ctx): Result<Out> {
    var gap :- RenderQuery(Query(sep, []), ctx, a.counter);
    Then(a, Then(gap, RenderQuery(Query(f.0, f.1), ctx, gap.counter)))
  }

  /** The reference: each fragment rendered over its own arguments, in
      order, joined by the separator's render. */
  function Joined(frags: seq<(string, seq<Value>)>, sep: string, ctx: Ctx, c: int): Result<Out>
    decreases |frags|
  {
    if frags == [] then Ok(Empty(c))
    else if |frags| == 1 then RenderQuery(Query(frags[0].0, frags[0].1), ctx, c)
    else
      var init :- Joined(frags[..|frags| - 1], sep, ctx, c);
      Follow(init, sep, frags[|frags| - 1], ctx)
  }

  lemma {:induction false} SimpleAppend(a: string, b: string)
    requires Simple(a) && Simple(b)
    ensures Simple(a + b)
    decreases |a|
  {
    if a == [] {
      assert a + b == b;
    } else if a[0] != '%' {
      assert (a + b)[1..] == a[1..] + b;
      SimpleAppend(a[1..], b);
    } else {
      assert (a + b)[2..] == a[2..] + b;
      SimpleAppend(a[2..], b);
    }
  }

  /** One more fragment keeps a non-empty list simple, with one value per
      tag. */
  lemma ListStepShape(q: Query, sep: string, f: (string, seq<Value>))
    requires q.fmt != "" && Simple(q.fmt) && TagCount(Tokenize(q.fmt)) == |q.values|
    requires Bindless(sep) && Exact(f)
    ensures Tokenize(q.fmt + (sep + f.0)) == Tokenize(q.fmt) + Tokenize(sep + f.0)
    ensures Tokenize(sep + f.0) == Tokenize(sep) + Tokenize(f.0)
    ensures var q' := ListAppend(q, sep, f.0, f.1);
            q'.fmt != "" && Simple(q'.fmt) && TagCount(Tokenize(q'.fmt)) == |q'.values|
  {
    var tail := sep + f.0;
    AppendAssoc(q.fmt, sep, f.0);
    SimpleAppend(sep, f.0);
    SimpleAppend(q.fmt, tail);
    SimpleScansApart(q.fmt, tail);
    SimpleScansApart(sep, f.0);
    TagCountAppend(Tokenize(q.fmt), Tokenize(tail));
    TagCountAppend(Tokenize(sep), Tokenize(f.0));
  }

  /** One more fragment on a list renders as the list so far, the
      separator, then the fragment over its own arguments -- when the three
      scan apart and the list's tags use up its values. */
  lemma ListStep(q: Query, sep: string, f: (string, seq<Value>), ctx: Ctx, c: int)
    requires q.fmt != ""
    requires Tokenize(q.fmt + (sep + f.0)) == Tokenize(q.fmt) + Tokenize(sep + f.0)
    requires Tokenize(sep + f.0) == Tokenize(sep) + Tokenize(f.0)
    requires TagCount(Tokenize(q.fmt)) == |q.values| && TagCount(Tokenize(sep)) == 0
    ensures var r := RenderQuery(q, ctx, c);
            RenderQuery(ListAppend(q, sep, f.0, f.1), ctx, c)
            == if r.Err? then Err(r.error) else Follow(r.value, sep, f, ctx)
  {
    var tail := Query(sep + f.0, f.1);
    AppendAssoc(q.fmt, sep, f.0);
    AppendRendersInSequence(q, tail.fmt, tail.values, ctx, c);
    var r := RenderQuery(q, ctx, c);
    if r.Ok? {
      FollowIsTail(r.value, sep, f, ctx);
    }
  }

  /** `Follow` is the render of the separator and the fragment together,
      placed after `a`. */
  lemma FollowIsTail(a: Out, sep: string, f: (string, seq<Value>), ctx: Ctx)
    requires Tokenize(sep + f.0) == Tokenize(sep) + Tokenize(f.0)
    requires TagCount(Tokenize(sep)) == 0
    ensures Follow(a, sep, f, ctx) == Then(a, RenderQuery(Query(sep + f.0, f.1), ctx, a.counter))
  {
    AppendRendersInSequence(Query(sep, []), f.0, f.1, ctx, a.counter);
    assert Query(sep, []).values + f.1 == f.1;
  }

  /** The list's shape after appending the fragments. */
  ghost predicate Built(sep: string, frags: seq<(string, seq<Value>)>) {
    var q := ListAppends(Query("", []), sep, frags);
    && (frags != [] ==> q.fmt != "")
    && Simple(q.fmt) && TagCount(Tokenize(q.fmt)) == |q.values|
  }

  /** A list of exact fragments renders as the fragments' own renders
      joined by the separator's render, numbered on. */
  lemma {:induction false} ListRenders(sep: string, frags: seq<(string, seq<Value>)>, ctx: Ctx, c: int)
    requires Bindless(sep)
    requires forall j :: 0 <= j < |frags| ==> Exact(frags[j])
    ensures Built(sep, frags)
    ensures RenderQuery(ListAppends(Query("", []), sep, frags), ctx, c) == Joined(frags, sep, ctx, c)
    decreases |frags|
  {
    var n := |frags|;
    if n == 1 {
      assert frags[..0] == [];
      assert [] + frags[0].1 == frags[0].1;
    } else if n >= 2 {
      ListRenders(sep, frags[..n - 1], ctx, c);
      ListRendersStep(sep, frags, ctx, c);
    }
  }

  /** The step of `ListRenders` for the last fragment. */
  lemma ListRendersStep(sep: string, frags: seq<(string, seq<Value>)>, ctx: Ctx, c: int)
    requires |frags| >= 2 && Bindless(sep) && Exact(frags[|frags| - 1])
    requires Built(sep, frags[..|frags| - 1])
    requires RenderQuery(ListAppends(Query("", []), sep, frags[..|frags| - 1]), ctx, c)
             == Joined(frags[..|frags| - 1], sep, ctx, c)
    ensures Built(sep, frags)
    ensures RenderQuery(ListAppends(Query("", []), sep, frags), ctx, c) == Joined(frags, sep, ctx, c)
  {
    var n := |frags|;
    var q := ListAppends(Query("", []), sep, frags[..n - 1]);
    ListStepShape(q, sep, frags[n - 1]);
    ListStep(q, sep, frags[n - 1], ctx, c);
  }

  /** `%(tpl)` over a mapping renders as the ObjectFormatter built for it,
      the counter included. */
  lemma TemplateRendersFormatter(tpl: string, ps: seq<(string, Value)>, ctx: Ctx, c: int)
    requires tpl != ""
    ensures Resolve(Template(tpl), Map(ps), ctx, c) == RenderQuery(Formatter(tpl, ps), ctx, c)
  {
    var sub := RenderQuery(Formatter(tpl, ps), ctx, c);
    if sub.Ok? {
      assert sub.value.counter == c + |sub.value.values| by {
        Numbering.QueryNumbering(Formatter(tpl, ps), ctx, c);
      }
    }
  }

  /** `%(tpl)` over a mapping, for a simple template with two tags: the
      template rendered over each key and its value, pair by pair, joined by
      `", "` and numbered on from one pair to the next. */
  lemma TemplateExpands(tpl: string, ps: seq<(string, Value)>, ctx: Ctx, c: int)
    requires tpl != "" && Simple(tpl) && TagCount(Tokenize(tpl)) == 2
    ensures Resolve(Template(tpl), Map(ps), ctx, c) == Joined(PairFragments(tpl, ps), DefaultSeparator, ctx, c)
  {
    var frags := PairFragments(tpl, ps);
    assert RenderQuery(Formatter(tpl, ps), ctx, c) == Joined(frags, DefaultSeparator, ctx, c) by {
      Expansion.TokenizeSeparator();
      assert Simple(DefaultSeparator) by {
        assert DefaultSeparator[1..][1..] == [];
      }
      ExpandPairsIsListAppends(Query("", []), tpl, ps);
      ListRenders(DefaultSeparator, frags, ctx, c);
    }
    TemplateRendersFormatter(tpl, ps, ctx, c);
  }
}
