// Building query nodes: the constructor and its single-tag helpers, and the
// three objects whose `append` grows `fmt` and `values` in place (a plain
// query, `Query.List` and `Query.ObjectFormatter`). Each class exposes its
// state as a `Query` value through `View()`; rendering reads only that.

module Builders {
  import opened Values

  /** The separator `Query.List` falls back on, and the one every
      ObjectFormatter uses. */
  const DefaultSeparator: string := ", "

  // Single-tag helpers: each wraps its one argument under one tag.

  function Literal(v: Value): Query {
    Query("%L", [v])
  }

  function Ident(v: Value): Query {
    Query("%I", [v])
  }

  function Subquery(v: Value): Query {
    Query("%Q", [v])
  }

  function StringQuery(v: Value): Query {
    Query("%s", [v])
  }

  /** `List.prototype.append`: the separator goes in only between fragments,
      i.e. when the format built so far is not empty. */
  function ListAppend(q: Query, sep: string, fragment: string, args: seq<Value>): (r: Query)
    ensures r.values == q.values + args
    ensures q.fmt == "" ==> r.fmt == fragment
    ensures q.fmt != "" ==> r.fmt == q.fmt + sep + fragment
  {
    Query(if q.fmt != "" then q.fmt + sep + fragment else q.fmt + fragment, q.values + args)
  }

  /** Successive `List.prototype.append(fragment, ...args)` calls, one per
      entry of `frags`, in order. */
  function ListAppends(q: Query, sep: string, frags: seq<(string, seq<Value>)>): Query
    decreases |frags|
  {
    if frags == [] then q
    else
      var n := |frags|;
      ListAppend(ListAppends(q, sep, frags[..n - 1]), sep, frags[n - 1].0, frags[n - 1].1)
  }

  /** The strings of `fs` with `sep` between each two. */
  function Join(fs: seq<string>, sep: string): string
    decreases |fs|
  {
    if fs == [] then ""
    else if |fs| == 1 then fs[0]
    else Join(fs[..|fs| - 1], sep) + sep + fs[|fs| - 1]
  }

  function Fragments(frags: seq<(string, seq<Value>)>): (fs: seq<string>)
    ensures |fs| == |frags|
    ensures forall j :: 0 <= j < |frags| ==> fs[j] == frags[j].0
  {
    seq(|frags|, j requires 0 <= j < |frags| => frags[j].0)
  }

  /** The arguments of all the calls, in call order. */
  function Arguments(frags: seq<(string, seq<Value>)>): seq<Value>
    decreases |frags|
  {
    if frags == [] then [] else Arguments(frags[..|frags| - 1]) + frags[|frags| - 1].1
  }

  lemma {:induction false} JoinNonEmpty(fs: seq<string>, sep: string)
    requires fs != [] && fs[|fs| - 1] != ""
    ensures Join(fs, sep) != ""
  {
    if |fs| >= 2 {
      assert |Join(fs, sep)| >= |fs[|fs| - 1]|;
    }
  }

  /** A list that starts empty holds, after appending non-empty fragments,
      those fragments joined by the separator, and the arguments of all the
      calls in call order. */
  lemma {:induction false} ListAppendsShape(sep: string, frags: seq<(string, seq<Value>)>)
    requires forall j :: 0 <= j < |frags| ==> frags[j].0 != ""
    ensures ListAppends(Query("", []), sep, frags) == Query(Join(Fragments(frags), sep), Arguments(frags))
    decreases |frags|
  {
    if frags != [] {
      var n := |frags|;
      var init := frags[..n - 1];
      ListAppendsShape(sep, init);
      assert Fragments(init) == Fragments(frags)[..n - 1];
      if n >= 2 {
        JoinNonEmpty(Fragments(init), sep);
      } else {
        assert Arguments(init) == [];
      }
    }
  }

  /** `ObjectFormatter.prototype.append`: one list fragment `(tpl, key,
      value)` per pair, in the mapping's order. */
  function ExpandPairs(q: Query, tpl: string, ps: seq<(string, Value)>): Query
    decreases |ps|
  {
    if ps == [] then q
    else ExpandPairs(ListAppend(q, DefaultSeparator, tpl, [Str(ps[0].0), ps[0].1]), tpl, ps[1..])
  }

  /** The ObjectFormatter that `%(tpl)` builds around a mapping. */
  function Formatter(tpl: string, ps: seq<(string, Value)>): Query {
    ExpandPairs(Query("", []), tpl, ps)
  }

  /** `tpl` written `n` times, separated by `", "`. */
  function Repeated(tpl: string, n: nat): (s: string)
    ensures n == 0 ==> s == ""
  {
    if n == 0 then "" else if n == 1 then tpl else Repeated(tpl, n - 1) + DefaultSeparator + tpl
  }

  /** Expanding pairs binds each key and then its value, after what the
      formatter already held. */
  lemma {:induction false} ExpandPairsValues(q: Query, tpl: string, ps: seq<(string, Value)>)
    ensures ExpandPairs(q, tpl, ps).values == q.values + PairValues(ps)
    decreases |ps|
  {
    if ps != [] {
      var q' := ListAppend(q, DefaultSeparator, tpl, [Str(ps[0].0), ps[0].1]);
      ExpandPairsValues(q', tpl, ps[1..]);
    }
  }

  /** Expanding one more pair appends one more list fragment. */
  lemma {:induction false} ExpandPairsSnoc(q: Query, tpl: string, ps: seq<(string, Value)>, key: string, value: Value)
    ensures ExpandPairs(q, tpl, ps + [(key, value)])
            == ListAppend(ExpandPairs(q, tpl, ps), DefaultSeparator, tpl, [Str(key), value])
    decreases |ps|
  {
    if ps == [] {
      assert ps + [(key, value)] == [(key, value)];
    } else {
      assert (ps + [(key, value)])[1..] == ps[1..] + [(key, value)];
      ExpandPairsSnoc(ListAppend(q, DefaultSeparator, tpl, [Str(ps[0].0), ps[0].1]), tpl, ps[1..], key, value);
    }
  }

  lemma ExpandPairsPrefix(q: Query, tpl: string, ps: seq<(string, Value)>, i: nat)
    requires i < |ps|
    ensures ExpandPairs(q, tpl, ps[..i + 1])
            == ListAppend(ExpandPairs(q, tpl, ps[..i]), DefaultSeparator, tpl, [Str(ps[i].0), ps[i].1])
  {
    assert ps[..i + 1] == ps[..i] + [(ps[i].0, ps[i].1)];
    ExpandPairsSnoc(q, tpl, ps[..i], ps[i].0, ps[i].1);
  }

  /** A non-empty template over `n` pairs gives the template `n` times,
      joined by `", "`. */
  lemma {:induction false} ExpandPairsFormat(tpl: string, ps: seq<(string, Value)>, q: Query, done: nat)
    requires tpl != ""
    requires q.fmt == Repeated(tpl, done)
    ensures ExpandPairs(q, tpl, ps).fmt == Repeated(tpl, done + |ps|)
    decreases |ps|
  {
    if ps != [] {
      var q' := ListAppend(q, DefaultSeparator, tpl, [Str(ps[0].0), ps[0].1]);
      assert done > 0 ==> Repeated(tpl, done) != "" by {
        if done > 1 {
          assert |Repeated(tpl, done)| >= |tpl|;
        }
      }
      ExpandPairsFormat(tpl, ps[1..], q', done + 1);
    }
  }

  /** The list fragments an ObjectFormatter appends for `ps`. */
  function PairFragments(tpl: string, ps: seq<(string, Value)>): (frags: seq<(string, seq<Value>)>)
    ensures |frags| == |ps|
    ensures forall j :: 0 <= j < |ps| ==> frags[j] == (tpl, [Str(ps[j].0), ps[j].1])
  {
    seq(|ps|, j requires 0 <= j < |ps| => (tpl, [Str(ps[j].0), ps[j].1]))
  }

  /** Expanding pairs is a run of list appends, one `(tpl, key, value)`
      fragment per pair, with separator `", "`. */
  lemma {:induction false} ExpandPairsIsListAppends(q: Query, tpl: string, ps: seq<(string, Value)>)
    ensures ExpandPairs(q, tpl, ps) == ListAppends(q, DefaultSeparator, PairFragments(tpl, ps))
    decreases |ps|
  {
    if ps != [] {
      var n := |ps|;
      var frags := PairFragments(tpl, ps);
      ExpandPairsIsListAppends(q, tpl, ps[..n - 1]);
      PairFragmentsPrefix(tpl, ps);
      assert ListAppends(q, DefaultSeparator, frags)
          == ListAppend(ListAppends(q, DefaultSeparator, frags[..n - 1]), DefaultSeparator, frags[n - 1].0, frags[n - 1].1);
      assert ps[..n - 1] + [(ps[n - 1].0, ps[n - 1].1)] == ps;
      ExpandPairsSnoc(q, tpl, ps[..n - 1], ps[n - 1].0, ps[n - 1].1);
    }
  }

  lemma PairFragmentsPrefix(tpl: string, ps: seq<(string, Value)>)
    requires ps != []
    ensures PairFragments(tpl, ps)[..|ps| - 1] == PairFragments(tpl, ps[..|ps| - 1])
  {
  }

  lemma FormatterShape(tpl: string, ps: seq<(string, Value)>)
    requires tpl != ""
    ensures Formatter(tpl, ps) == Query(Repeated(tpl, |ps|), PairValues(ps))
  {
    ExpandPairsValues(Query("", []), tpl, ps);
    ExpandPairsFormat(tpl, ps, Query("", []), 0);
    assert Query("", []).values + PairValues(ps) == PairValues(ps);
  }

  /** A `Query` object: `new Query(fmt, ...values)` and `append`. */
  class QueryNode {
    var fmt: string
    var values: seq<Value>

    function View(): Query
      reads this
    {
      Query(fmt, values)
    }

    constructor (fmt: string, values: seq<Value>)
      ensures View() == Query(fmt, values)
    {
      this.fmt := fmt;
      this.values := values;
    }

    /** Appends the fragment to the format and the arguments to the values. */
    method Append(fragment: string, args: seq<Value>)
      modifies this
      ensures fmt == old(fmt) + fragment
      ensures values == old(values) + args
    {
      fmt := fmt + fragment;
      values := values + args;
    }
  }

  /** `Query.List`: a query built from fragments joined by a separator. An
      empty `separator` stands for every falsy one JavaScript would replace. */
  class QueryList {
    var separator: string
    var fmt: string
    var values: seq<Value>

    function View(): Query
      reads this
    {
      Query(fmt, values)
    }

    constructor (separator: string)
      ensures this.separator == if separator == "" then DefaultSeparator else separator
      ensures View() == Query("", [])
    {
      this.separator := if separator == "" then DefaultSeparator else separator;
      fmt := "";
      values := [];
    }

    method Append(fragment: string, args: seq<Value>)
      modifies this
      ensures separator == old(separator)
      ensures View() == ListAppend(old(View()), separator, fragment, args)
    {
      fmt := fmt + if fmt != "" then separator + fragment else fragment;
      values := values + args;
    }
  }

  /** `Query.ObjectFormatter`: a list, separated by `", "`, of one template
      fragment per key/value pair. A constructor argument JavaScript finds
      falsy is `None`. */
  class ObjectFormatter {
    const template: string
    var fmt: string
    var values: seq<Value>

    function View(): Query
      reads this
    {
      Query(fmt, values)
    }

    constructor (template: string, obj: Option<seq<(string, Value)>>)
      ensures this.template == template
      ensures obj.None? ==> View() == Query("", [])
      ensures obj.Some? ==> View() == Formatter(template, obj.value)
    {
      this.template := template;
      fmt := "";
      values := [];
      new;
      if obj.Some? {
        Append(obj.value);
      }
    }

    /** `List.prototype.append` called on this formatter, whose separator is
        `", "`. */
    method AppendFragment(fragment: string, args: seq<Value>)
      modifies this
      ensures View() == ListAppend(old(View()), DefaultSeparator, fragment, args)
    {
      fmt := fmt + if fmt != "" then DefaultSeparator + fragment else fragment;
      values := values + args;
    }

    /** One template fragment per pair, binding the key and then the value. */
    method Append(pairs: seq<(string, Value)>)
      modifies this
      ensures View() == ExpandPairs(old(View()), template, pairs)
    {
      var i := 0;
      while i < |pairs|
        invariant 0 <= i <= |pairs|
        invariant View() == ExpandPairs(old(View()), template, pairs[..i])
      {
        var (key, value) := pairs[i];
        ExpandPairsPrefix(old(View()), template, pairs, i);
        AppendFragment(template, [Str(key), value]);
        i := i + 1;
      }
      assert pairs[..i] == pairs;
    }
  }
}
