// Array expansion (query.js:96-115): a tag whose value is an array renders
// like that tag written once per element, separated by `", "`, with the
// elements as the values -- the same text, the same bound values and the
// same counter afterwards.

module Expansion {
  import opened Values
  import opened Scanner
  import opened Render
  import opened Builders
  import Binding
  import Shorthands

  /** What a render shows of itself: its text, its bound values and its
      counter afterwards. */
  function Flat(r: Result<Out>): Result<(string, seq<Value>, int)> {
    match r
    case Ok(o) => Ok((Text(o.pieces), o.values, o.counter))
    case Err(e) => Err(e)
  }

  lemma {:induction false} TextAppend(a: seq<Piece>, b: seq<Piece>)
    ensures Text(a + b) == Text(a) + Text(b)
  {
    if a == [] {
      assert a + b == b;
    } else {
      assert (a + b)[1..] == a[1..] + b;
      TextAppend(a[1..], b);
    }
  }

  /** `Repeated` read from the front: the first copy, then the rest. */
  lemma {:induction false} RepeatedFront(tpl: string, n: nat)
    requires n >= 2
    ensures Repeated(tpl, n) == tpl + DefaultSeparator + Repeated(tpl, n - 1)
  {
    if n > 2 {
      RepeatedFront(tpl, n - 1);
    }
  }

  /** The tokens of `n` copies of a tag joined by `", "`. */
  function TagTokens(k: TagKind, n: nat): seq<Token> {
    if n == 0 then []
    else if n == 1 then [Tag(k)]
    else [Tag(k), Lit(','), Lit(' ')] + TagTokens(k, n - 1)
  }

  lemma TokenizeSeparator()
    ensures Tokenize(DefaultSeparator) == [Lit(','), Lit(' ')]
  {
    NextPlain(", ");
    NextPlain(" ");
    assert ", "[1..] == " " && " "[1..] == [];
  }

  /** A tag and the separator after it scan as the tag and two characters. */
  lemma TokenizeTagThenSeparator(k: TagKind)
    ensures Binding.Simple(['%', KindChar(k)] + DefaultSeparator)
    ensures Tokenize(['%', KindChar(k)] + DefaultSeparator) == [Tag(k), Lit(','), Lit(' ')]
  {
    var tag := ['%', KindChar(k)];
    var head := tag + DefaultSeparator;
    assert head[2..] == ", " && head[2..][1..] == " " && head[2..][1..][1..] == [];
    assert Binding.Simple(tag) by {
      assert tag[2..] == [];
    }
    Shorthands.TokenizeTag(k);
    TokenizeSeparator();
    Binding.SimpleScansApart(tag, DefaultSeparator);
  }

  lemma {:induction false} TokenizeRepeated(k: TagKind, n: nat)
    ensures Tokenize(Repeated(['%', KindChar(k)], n)) == TagTokens(k, n)
  {
    if n <= 1 {
      TokenizeRepeatedBase(k, n);
    } else {
      TokenizeRepeated(k, n - 1);
      TokenizeRepeatedStep(k, n);
    }
  }

  /** No copy scans as nothing, and one copy as the tag alone. */
  lemma TokenizeRepeatedBase(k: TagKind, n: nat)
    requires n <= 1
    ensures Tokenize(Repeated(['%', KindChar(k)], n)) == TagTokens(k, n)
  {
    var tag := ['%', KindChar(k)];
    if n == 0 {
      assert Repeated(tag, n) == [];
    } else {
      assert Repeated(tag, n) == tag;
      Shorthands.TokenizeTag(k);
    }
  }

  /** The first copy and its separator scan apart from the other copies. */
  lemma TokenizeRepeatedStep(k: TagKind, n: nat)
    requires n >= 2
    requires Tokenize(Repeated(['%', KindChar(k)], n - 1)) == TagTokens(k, n - 1)
    ensures Tokenize(Repeated(['%', KindChar(k)], n)) == TagTokens(k, n)
  {
    var tag := ['%', KindChar(k)];
    assert TagTokens(k, n) == [Tag(k), Lit(','), Lit(' ')] + TagTokens(k, n - 1);
    RepeatedFront(tag, n);
    TokenizeTagThenSeparator(k);
    Binding.SimpleScansApart(tag + DefaultSeparator, Repeated(tag, n - 1));
  }

  /** One step of rendering the repeated tag: the first element under the
      tag, the separator as two characters, then the other elements. */
  lemma RepeatedTagStep(k: TagKind, es: seq<Value>, ctx: Ctx, c: int)
    requires |es| >= 2 && !es[0].Arr?
    ensures var head := ResolveSingle(k, es[0], ctx, c);
            RenderTokens(TagTokens(k, |es|), es, 0, ctx, c)
            == if head.Err? then Err(head.error)
               else match RenderTokens(TagTokens(k, |es| - 1), es[1..], 0, ctx, head.value.counter)
                 case Err(e) => Err(e)
                 case Ok(r) => Ok(Out(head.value.pieces + ([Raw(",")] + ([Raw(" ")] + r.pieces)),
                                      head.value.values + r.values, r.counter))
  {
    var head := ResolveSingle(k, es[0], ctx, c);
    assert ValueAt(es, 0) == es[0];
    assert Resolve(Tag(k), es[0], ctx, c) == head;
    if head.Ok? {
      var h := head.value;
      var more := TagTokens(k, |es| - 1);
      var toks := TagTokens(k, |es|);
      assert toks[0] == Tag(k) && toks[1..] == [Lit(','), Lit(' ')] + more;
      assert ([Lit(','), Lit(' ')] + more)[1..] == [Lit(' ')] + more;
      assert ([Lit(' ')] + more)[1..] == more;
      assert es == [es[0]] + es[1..];
      Binding.SuffixValues(more, [es[0]], es[1..], ctx, h.counter);
      var r := RenderTokens(more, es, 1, ctx, h.counter);
      var r2 := RenderTokens([Lit(' ')] + more, es, 1, ctx, h.counter);
      var r1 := RenderTokens([Lit(','), Lit(' ')] + more, es, 1, ctx, h.counter);
      assert RenderTokens(toks, es, 0, ctx, c)
          == if r1.Err? then Err(r1.error) else Ok(Out(h.pieces + r1.value.pieces, h.values + r1.value.values, r1.value.counter));
      if r.Ok? {
        assert r2 == Ok(Out([Raw(" ")] + r.value.pieces, r.value.values, r.value.counter));
        assert r1 == Ok(Out([Raw(",")] + ([Raw(" ")] + r.value.pieces), r.value.values, r.value.counter));
      }
    }
  }

  lemma TextCons(p: Piece, ps: seq<Piece>)
    ensures Text([p] + ps) == PieceText(p) + Text(ps)
  {
    assert ([p] + ps)[1..] == ps;
  }

  lemma TextOfJoin(a: seq<Piece>, b: seq<Piece>)
    ensures Text(a + [Raw(", ")] + b) == Text(a) + (", " + Text(b))
  {
    TextAppend(a + [Raw(", ")], b);
    TextAppend(a, [Raw(", ")]);
    TextCons(Raw(", "), []);
  }

  lemma TextOfSplitSeparator(b: seq<Piece>)
    ensures Text([Raw(",")] + ([Raw(" ")] + b)) == ", " + Text(b)
  {
    TextCons(Raw(" "), b);
    TextCons(Raw(","), [Raw(" ")] + b);
  }

  /** The separator as one piece or as two has the same text. */
  lemma SeparatorText(a: seq<Piece>, b: seq<Piece>, b': seq<Piece>)
    requires Text(b) == Text(b')
    ensures Text(a + [Raw(", ")] + b) == Text(a + ([Raw(",")] + ([Raw(" ")] + b')))
  {
    TextOfJoin(a, b);
    TextOfSplitSeparator(b');
    TextAppend(a, [Raw(",")] + ([Raw(" ")] + b'));
  }

  /** The elements under one tag render as the tag repeated over them. */
  lemma {:induction false} EachAsRepeatedTag(k: TagKind, es: seq<Value>, ctx: Ctx, c: int)
    requires forall j :: 0 <= j < |es| ==> !es[j].Arr?
    ensures Flat(ResolveEach(k, es, ctx, c)) == Flat(RenderTokens(TagTokens(k, |es|), es, 0, ctx, c))
    decreases |es|
  {
    if es != [] {
      var head := ResolveSingle(k, es[0], ctx, c);
      if |es| == 1 {
        assert ValueAt(es, 0) == es[0];
        var toks := TagTokens(k, 1);
        assert toks[1..] == [] && es[1..] == [];
        if head.Ok? {
          assert head.value.pieces + [] + [] == head.value.pieces + [];
        }
      } else {
        RepeatedTagStep(k, es, ctx, c);
        if head.Ok? {
          var h := head.value;
          EachAsRepeatedTag(k, es[1..], ctx, h.counter);
          var rest := ResolveEach(k, es[1..], ctx, h.counter);
          var rest' := RenderTokens(TagTokens(k, |es| - 1), es[1..], 0, ctx, h.counter);
          if rest.Ok? {
            SeparatorText(h.pieces, rest.value.pieces, rest'.value.pieces);
          }
        }
      }
    }
  }

  /** A tag over an array renders as that tag written once per element,
      joined by `", "`, over the elements themselves. */
  lemma ArrayExpands(k: TagKind, es: seq<Value>, ctx: Ctx, c: int)
    requires forall j :: 0 <= j < |es| ==> !es[j].Arr?
    ensures Flat(RenderQuery(Query(['%', KindChar(k)], [Arr(es)]), ctx, c))
         == Flat(RenderQuery(Query(Repeated(['%', KindChar(k)], |es|), es), ctx, c))
  {
    Shorthands.SingleTag(k, Arr(es), ctx, c);
    TokenizeRepeated(k, |es|);
    EachAsRepeatedTag(k, es, ctx, c);
  }
}
