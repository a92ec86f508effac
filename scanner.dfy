// The scan that `toParam` runs over a format string: the global regular
// expression /%([%sILQ])|%\((.*)\)/g at query.js:83, written out as an
// explicit left-to-right tokenizer. At each position the first alternative
// (`%` and one of `%sILQ`) is tried before the second (`%(`, then the longest
// run of non-line-terminators that ends in `)`); where neither matches, the
// character is ordinary text and the scan moves on by one.

module Scanner {
  import opened Values

  datatype TagKind = S | I | L | Q

  datatype Token =
    | Lit(c: char)           // a character of ordinary text
    | Percent                // `%%`
    | Tag(kind: TagKind)     // `%s`, `%I`, `%L`, `%Q`
    | Template(tpl: string)  // `%(tpl)`

  /** JavaScript's `.` matches every character except these. */
  predicate IsLineTerminator(c: char) {
    c == '\n' || c == '\r' || c == '\U{2028}' || c == '\U{2029}'
  }

  predicate IsTagChar(c: char) {
    c == 's' || c == 'I' || c == 'L' || c == 'Q'
  }

  function KindOf(c: char): (k: TagKind)
    requires IsTagChar(c)
    ensures KindChar(k) == c
  {
    match c
    case 's' => S
    case 'I' => I
    case 'L' => L
    case 'Q' => Q
  }

  function KindChar(k: TagKind): char {
    match k
    case S => 's'
    case I => 'I'
    case L => 'L'
    case Q => 'Q'
  }

  /** The text a token was scanned from. */
  function Spell(t: Token): string {
    match t
    case Lit(c) => [c]
    case Percent => "%%"
    case Tag(k) => ['%', KindChar(k)]
    case Template(tpl) => "%(" + tpl + ")"
  }

  function Unscan(toks: seq<Token>): string {
    if toks == [] then "" else Spell(toks[0]) + Unscan(toks[1..])
  }

  /** Length of the longest prefix of `s` without a line terminator. */
  function LineEnd(s: string): (n: nat)
    ensures n <= |s|
    ensures n < |s| ==> IsLineTerminator(s[n])
  {
    if s == [] || IsLineTerminator(s[0]) then 0 else 1 + LineEnd(s[1..])
  }

  /** The line ends at the first line terminator: none comes before. */
  lemma {:induction false} LineEndIsFirst(s: string)
    ensures forall k :: 0 <= k < LineEnd(s) ==> !IsLineTerminator(s[k])
  {
    if s != [] && !IsLineTerminator(s[0]) {
      LineEndIsFirst(s[1..]);
      assert forall k :: 1 <= k < LineEnd(s) ==> s[k] == s[1..][k - 1];
    }
  }

  /** Index of the last `)` in `s`: where the greedy `(.*)\)` stops. */
  function LastClose(s: string): (r: Option<nat>)
    ensures r.Some? ==> r.value < |s| && s[r.value] == ')'
  {
    if s == [] then None
    else if s[|s| - 1] == ')' then Some(|s| - 1)
    else LastClose(s[..|s| - 1])
  }

  /** No `)` follows the one `LastClose` finds, and there is none at all
      when it finds none. */
  lemma {:induction false} LastCloseIsLast(s: string)
    ensures LastClose(s).Some? ==> forall k :: LastClose(s).value < k < |s| ==> s[k] != ')'
    ensures LastClose(s).None? ==> forall k :: 0 <= k < |s| ==> s[k] != ')'
    decreases |s|
  {
    if s != [] && s[|s| - 1] != ')' {
      var init := s[..|s| - 1];
      LastCloseIsLast(init);
      assert forall k :: 0 <= k < |s| - 1 ==> s[k] == init[k];
    }
  }

  /** Is there a `)` on the first line of `s`? */
  ghost predicate Closable(s: string) {
    exists k :: 0 <= k < LineEnd(s) && s[k] == ')'
  }

  /** Does the regular expression match at the start of `s`? */
  ghost predicate Matches(s: string) {
    && |s| >= 2
    && s[0] == '%'
    && (s[1] == '%' || IsTagChar(s[1]) || (s[1] == '(' && Closable(s[2..])))
  }

  /** The second alternative, `%\((.*)\)`, on the text after `%(`: the
      capture up to the last `)` of the first line. */
  function CaptureAt(rest: string): (r: Option<(string, nat)>)
    ensures r.Some? ==> r.value.1 < LineEnd(rest) && |r.value.0| == r.value.1
    ensures r.Some? ==> rest[..r.value.1 + 1] == r.value.0 + ")"
  {
    var line := rest[..LineEnd(rest)];
    match LastClose(line)
    case None => None
    case Some(j) =>
      assert rest[j] == ')';
      assert rest[..j + 1] == line[..j] + ")";
      Some((line[..j], j))
  }

  /** A capture exists exactly when the first line holds a `)`, and it is
      the longest one: no `)` follows it on that line. */
  lemma CaptureAtIsGreedy(rest: string)
    ensures CaptureAt(rest).Some? <==> Closable(rest)
    ensures CaptureAt(rest).Some? ==>
              forall k :: CaptureAt(rest).value.1 < k < LineEnd(rest) ==> rest[k] != ')'
  {
    var line := rest[..LineEnd(rest)];
    LastCloseIsLast(line);
    assert forall k :: 0 <= k < LineEnd(rest) ==> rest[k] == line[k];
  }

  /** The match at the start of `s`, if any, and how many characters it
      spans: the text it spans is the spelling of its token. */
  function MatchAt(s: string): (r: Option<(Token, nat)>)
    ensures r.Some? ==> 2 <= r.value.1 <= |s| && Spell(r.value.0) == s[..r.value.1]
  {
    if |s| < 2 || s[0] != '%' then None
    else if s[1] == '%' then Some((Percent, 2))
    else if IsTagChar(s[1]) then Some((Tag(KindOf(s[1])), 2))
    else if s[1] == '(' then
      match CaptureAt(s[2..])
      case None => None
      case Some((tpl, j)) =>
        assert s[..j + 3] == "%(" + s[2..][..j + 1];
        Some((Template(tpl), j + 3))
    else None
  }

  /** The regular expression matches exactly where `Matches` says, and `%(`
      takes the longest capture: it stays on one line and no `)` follows it
      on that line. */
  lemma MatchAtIsTheRegex(s: string)
    ensures MatchAt(s).Some? <==> Matches(s)
    ensures MatchAt(s).Some? ==> !MatchAt(s).value.0.Lit?
    ensures MatchAt(s).Some? && MatchAt(s).value.0.Template? ==>
              var (t, n) := MatchAt(s).value;
              && n <= 2 + LineEnd(s[2..])
              && (forall k :: 0 <= k < |t.tpl| ==> !IsLineTerminator(t.tpl[k]))
              && (forall k :: n <= k < 2 + LineEnd(s[2..]) ==> s[k] != ')')
  {
    if |s| >= 2 && s[0] == '%' && s[1] == '(' {
      CaptureAtIsGreedy(s[2..]);
      if CaptureAt(s[2..]).Some? {
        var (tpl, j) := CaptureAt(s[2..]).value;
        LineEndIsFirst(s[2..]);
        assert forall k :: 0 <= k < j ==> tpl[k] == s[2..][k];
      }
    }
  }

  /** The next token of a non-empty text and its length: the match there,
      or else the first character as ordinary text. */
  function Next(s: string): (r: (Token, nat))
    requires s != []
    ensures 1 <= r.1 <= |s| && Spell(r.0) == s[..r.1]
  {
    match MatchAt(s)
    case Some(m) => m
    case None => (Lit(s[0]), 1)
  }

  /** Text that does not start with `%` is ordinary text. */
  lemma NextPlain(s: string)
    requires s != [] && s[0] != '%'
    ensures Next(s) == (Lit(s[0]), 1)
  {
  }

  /** `%%` and the four two-character tags. */
  lemma NextShort(s: string)
    requires |s| >= 2 && s[0] == '%' && (s[1] == '%' || IsTagChar(s[1]))
    ensures Next(s) == (if s[1] == '%' then Percent else Tag(KindOf(s[1])), 2)
  {
  }

  /** The tokens of a format string, left to right. */
  function Tokenize(s: string): seq<Token>
    decreases |s|
  {
    if s == [] then [] else [Next(s).0] + Tokenize(s[Next(s).1..])
  }

  /** Number of tokens that bind a value: every tag except `%%`. */
  function TagCount(toks: seq<Token>): nat {
    if toks == [] then 0
    else (if toks[0].Tag? || toks[0].Template? then 1 else 0) + TagCount(toks[1..])
  }

  lemma UnscanCons(t: Token, rest: seq<Token>)
    ensures Unscan([t] + rest) == Spell(t) + Unscan(rest)
  {
    assert ([t] + rest)[1..] == rest;
  }

  /** Scanning loses nothing: the tokens spell the format string back. */
  lemma {:induction false} ScanRoundTrip(s: string)
    ensures Unscan(Tokenize(s)) == s
    decreases |s|
  {
    if s != [] {
      var t, n := Next(s).0, Next(s).1;
      assert Tokenize(s) == [t] + Tokenize(s[n..]);
      ScanRoundTrip(s[n..]);
      UnscanCons(t, Tokenize(s[n..]));
      assert s[..n] + s[n..] == s;
    }
  }
}
