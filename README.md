# pg-query-formatter in Dafny

A model of `query.js`, the query builder of pg-query-formatter. A `Query`
holds a format string and the values its tags bind:

- `%s` is a string passed through pg-escape's string escaper.
- `%I` is an identifier.
- `%L` is a literal.
- `%Q` is a nested query.
- `%(tpl)` is a mapping expanded through a template.
- `%%` is a plain `%`.

`toParam` turns a query tree into SQL text with `$n` (or `?`) placeholders and the list of values those placeholders bind. `toString` then puts the values back into the text. `Query.List` and `Query.ObjectFormatter` build queries fragment by fragment.

## Layout

- `values.dfy` (`Values`): the bound values, the `Query` value, the three pg-escape escapers (passed in as parameters), the `Result` type and the integer text that `toString` prints.
- `scanner.dfy` (`Scanner`): the regular expression `/%([%sILQ])|%\((.*)\)/g` written out as a left-to-right tokenizer. It keeps the alternation order, the greedy `%(...)` capture and JavaScript's line terminators. The tokens spell the format back (`ScanRoundTrip`).
- `builders.dfy` (`Builders`): the constructor and the four single-tag shorthands. The classes `QueryNode`, `QueryList` and `ObjectFormatter` have `fmt`/`values` fields that their `Append` methods update in place. `QueryNode.Append` states both new fields in terms of the old ones; `QueryList.Append` and `ObjectFormatter.Append` are specified by a function on the old state (`ListAppend`, `ExpandPairs`). `ListAppends` is a run of list appends, and `Join` what they build.
- `render.dfy` (`Render`): `toParam` as one recursive pass over the tokens. The pass threads the index of the next value and the running parameter number through arrays and nested queries. Its output is a sequence of pieces (text, `$n`, `?`) whose concatenation is the returned text.
- `numbering.dfy` (`Numbering`): gap-free numbering, and independence from the placeholder mode.
- `binding.dfy` (`Binding`): which value each tag binds, and what `append` does to a render.
- `inline.dfy` (`Inline`): `toString`.
- `shorthands.dfy` (`Shorthands`): what the four single-tag shorthands render to.
- `expansion.dfy` (`Expansion`): array expansion as a repeated tag.
- `lists.dfy` (`Lists`): how a `Query.List` renders, and with it the `%(tpl)` expansion of a mapping.

## Where the code is lax

`toParam` raises no error on a value count that does not match the tags, nor on a `%` followed by an unknown letter. The model follows the code:

- surplus values are ignored (`SurplusValuesIgnored`);
- a missing value reads as `undefined`, so a `%L` without a value renders `NULL` (`MissingValueIsUndefined`, `LiteralRenders`);
- a `%` that starts no match is copied as text (`UnmatchedCopiedVerbatim`).

## Model

| member | source | states |
|---|---|---|
| Values.PairValuesAt | query.js:204-207 | an object expansion binds, for pair j, its key at position 2j and its value right after |
| Values.NatTextIsDecimal | query.js:155 | the printed digits of n are canonical (no leading zero) and denote n |
| Values.DecimalIsNatText | query.js:155 | every canonical digit string is the printed form of its value, so the printed form is the only decimal notation |
| Values.IntTextIsDecimal | query.js:155 | an integer prints with a minus sign exactly when negative, followed by the canonical digits of its magnitude |
| Scanner.MatchAt | query.js:83 | a match spans at least two characters, and the text it spans is exactly its token's spelling |
| Scanner.MatchAtIsTheRegex | query.js:83 | the pattern matches exactly at a `%` followed by `%`, by one of `sILQ`, or by `(` with a `)` later on the same line; a match is never plain text; a `%(` capture stays on one line and no `)` follows it on that line (greedy) |
| Scanner.LineEndIsFirst | query.js:83 | `.` stops at the first line terminator (`\n`, `\r`, U+2028, U+2029) |
| Scanner.LastCloseIsLast | query.js:83 | the capture ends at the last `)` of the line: none follows it, and none exists when no capture is found |
| Scanner.CaptureAtIsGreedy | query.js:83 | `%(` has a capture exactly when its line holds a `)`, and the capture is the longest one |
| Scanner.Next | query.js:83 | each step of the scan consumes at least one character and yields a token spelled by those characters |
| Scanner.NextPlain | query.js:83 | a character other than `%` is ordinary text and advances the scan by one |
| Scanner.NextShort | query.js:83-84 | `%%` scans as the escape, and `%s`, `%I`, `%L`, `%Q` as their tags, two characters each |
| Scanner.ScanRoundTrip | query.js:83 | the scan loses and invents nothing: the tokens spell the format string back exactly |
| Builders.QueryNode.constructor | query.js:35-38 | a new query holds the given format and values |
| Builders.QueryNode.Append | query.js:53-58 | `append` extends the format by the fragment and the values by the arguments, and changes nothing else |
| Builders.QueryList.constructor | query.js:179-183 | a list starts empty; an empty (falsy) separator becomes `", "` |
| Builders.ListAppendsShape | query.js:179-194 | a list that starts empty holds, after appending non-empty fragments, those fragments joined by the separator, and the arguments of all the calls in call order |
| Builders.QueryList.Append | query.js:187-194 | the new state is `ListAppend` of the old state; the separator does not change |
| Builders.ObjectFormatter.constructor | query.js:196-200 | a formatter starts empty and, when given a mapping, expands it at once through its template |
| Builders.ObjectFormatter.AppendFragment | query.js:187-194 | the list append a formatter borrows, with separator `", "` |
| Builders.ObjectFormatter.Append | query.js:204-208 | appending a mapping appends one template fragment per pair, in order, each binding the key and then the value |
| Builders.ExpandPairsValues | query.js:204-208 | expanding pairs binds each key and then its value, after the values already held |
| Builders.ExpandPairsSnoc | query.js:204-208 | expanding one more pair appends one more list fragment to the expansion so far |
| Builders.ExpandPairsFormat | query.js:204-208 | over a non-empty template, n pairs give the template n times joined by `", "` |
| Builders.ExpandPairsIsListAppends | query.js:204-208 | expanding a mapping is a run of list appends with separator `", "`, one fragment `(tpl, key, value)` per pair in order |
| Builders.FormatterShape | query.js:117-122 | the formatter `%(tpl)` builds around a mapping has the template once per pair and binds keys and values alternately |
| Numbering.QueryNumbering | query.js:96-139 | a render starting at k that binds n values emits exactly the placeholders `$k` ... `$(k+n-1)` in order (or n `?`), and hands back the counter k+n |
| Numbering.TokensNumbering | query.js:83-142 | the same for a run of tokens: placeholders are gap-free and in order, and the counter advances by the number of values bound |
| Numbering.ResolveNumbering | query.js:86-139 | one tag, including `%(tpl)` over a mapping, numbers its placeholders gap-free from the running counter |
| Numbering.ResolveEachNumbering | query.js:96-115 | array elements continue the numbering from one to the next |
| Numbering.ResolveSingleNumbering | query.js:124-139 | each single-value rule, `%Q` over a subquery included, numbers its placeholders gap-free from the running counter and advances it by exactly the values it binds |
| Numbering.Concat | query.js:111-113 | two well-numbered renders, the second starting where the first stopped, join into a well-numbered render |
| Numbering.QueryModes | query.js:71-81 | the placeholder style and the start number change only the placeholders: the same text otherwise, the same values, the same failures |
| Numbering.TokensModes | query.js:83-142 | the same for a run of tokens |
| Numbering.ResolveModes | query.js:86-139 | the same for one tag |
| Numbering.ResolveEachModes | query.js:96-115 | the same for the elements of an array |
| Numbering.ResolveSingleModes | query.js:124-139 | the same for one value |
| Numbering.ToParamDefaults | query.js:71-76 | `toParam()` is `toParam(true, 1)` and `toParam(b)` is `toParam(b, 1)` |
| Numbering.ToParamModes | query.js:68-148 | whether `toParam` succeeds, and the values it returns, do not depend on its two arguments |
| Numbering.ToParamNumbering | query.js:68-148 | `toParam(b, k)` returns the text of a render whose placeholders are `$k` ... in order (or `?`s), one per returned value |
| Binding.TagBindsValueAt | query.js:86 | the tag at token m binds the value whose index is the number of tags before it (`undefined` past the last value): the render is the tokens before it, then that tag's rule on that value, then the tokens after it binding from the next index |
| Binding.TokensReadOnlyTheirValues | query.js:86 | a render reads only the values at the positions its tags reach, so value lists that agree there render alike |
| Binding.PrefixValues | query.js:86 | tokens whose tags use at most the values of `a` render the same over `a + b` |
| Binding.SuffixValues | query.js:86 | tokens that start binding after `a` in `a + b` render as over `b` alone |
| Binding.SurplusValuesIgnored | query.js:86 | values beyond those the tags bind do not change the render |
| Binding.MissingValueIsUndefined | query.js:86 | a tag with no value left binds `undefined`: supplying `undefined` explicitly changes nothing |
| Binding.TokensAppend | query.js:83-142 | two runs of tokens render as the first and then the second, which binds from where the first stopped and numbers from where it ended |
| Binding.AppendRendersInSequence | query.js:53-58 | after `append`, when the old format and the fragment scan apart and the old tags use up the old values, the render is the old render followed by the fragment's own render over the appended values, numbered on |
| Binding.PercentBindsNothing | query.js:84 | `%%` renders as one `%` and binds no value |
| Binding.UnmatchedCopiedVerbatim | query.js:83 | where the pattern does not match, the character (a `%` included) is copied and binds no value |
| Binding.SimpleScansApart | query.js:83 | a format in which every `%` starts `%%` or a letter tag scans apart from whatever follows it |
| Inline.InlineNumberIsDecimal | query.js:155 | a number prints as its decimal notation: a minus sign exactly when negative, then digits without a leading zero whose value is its magnitude |
| Inline.ScanPlain | query.js:153-158 | text without `?` passes through the `?` replacement unchanged |
| Inline.FillAgreesWithScan | query.js:153-158 | when no text piece holds a `?`, replacing each `?` left to right by the next value is filling each placeholder with its own value |
| Inline.ToStringFillsPlaceholders | query.js:150-160 | `toString` is the un-numbered `toParam` with each placeholder replaced by the value it bound, when the text holds no other `?` |
| Inline.FillSplit | query.js:153-158 | filling two runs of pieces, when the first run's placeholders use up exactly the first values, is filling the first run over those values and then the second over the rest from their first |
| Inline.PlainRenders | query.js:83 | text without `%` scans as plain characters and renders as itself, binding nothing and leaving the counter alone |
| Inline.UnnumberedFromAnywhere | query.js:71-76 | without numbered placeholders the starting number changes nothing but the counter: the same pieces, the same values, the same failure |
| Inline.SubqueriesRender | query.js:136-139 | `new Query('%Q' + s + '%Q', q1, q2)`, for `s` without `%`, renders without numbers as `q1`'s pieces, the characters of `s`, then `q2`'s pieces, binding `q1`'s values and then `q2`'s |
| Inline.SubqueriesToString | query.js:150-160 | `new Query('%Q UNION ALL %Q', q1, q2).toString()` and the like is `q1.toString()`, the text between, then `q2.toString()`, the first failure being the result |
| Shorthands.TokenizeTag | query.js:83 | a two-character tag scans as that one tag |
| Shorthands.SingleTag | query.js:86-139 | a one-tag format renders as that tag's rule on its one value |
| Shorthands.LiteralRenders | query.js:40-42 | for a value that is not an array, `Query.literal(v)` renders `NULL` for null or undefined, otherwise one placeholder binding `v` (arrays: `Expansion.ArrayExpands`) |
| Shorthands.IdentRenders | query.js:43-45 | for a value that is not an array, `Query.ident(v)` renders the identifier escaper's output for a string, binding nothing (arrays: `Expansion.ArrayExpands`) |
| Shorthands.SubqueryRenders | query.js:46-48 | for a value that is not an array, `Query.subquery(q)` renders exactly as `q`, and a value that is not a query has no `toParam` (arrays: `Expansion.ArrayExpands`) |
| Shorthands.StringRenders | query.js:49-51 | for a value that is not an array, `Query.string(v)` renders the string escaper's output for a string, binding nothing (arrays: `Expansion.ArrayExpands`) |
| Expansion.TokenizeRepeated | query.js:83 | a tag written n times joined by `", "` scans as n tags separated by the separator's characters |
| Expansion.RepeatedTagStep | query.js:96-115 | rendering the repeated tag is rendering the first element, the separator, then the repeated tag over the other elements |
| Expansion.EachAsRepeatedTag | query.js:96-115 | the elements under one tag render as that tag repeated over them |
| Expansion.ArrayExpands | query.js:96-115 | a tag over an array of n non-array values renders the same text, values and counter as the tag written n times, joined by `", "`, over the elements |
| Lists.ListStep | query.js:187-194 | when the list so far, the separator and the fragment scan apart and the list's tags use up its values, one more fragment on a non-empty list renders as the list so far, the separator, then the fragment over its own arguments, numbered on |
| Lists.ListStepShape | query.js:187-194 | one more simple fragment with one argument per tag keeps a non-empty list simple, with as many values as tags, and the three parts scan apart |
| Lists.ListRenders | query.js:179-194 | a list of non-empty simple fragments, each with one argument per tag, renders as the fragments' own renders in order joined by the separator's render, numbered on from one fragment to the next |
| Lists.TemplateRendersFormatter | query.js:117-122 | `%(tpl)` over a mapping renders exactly as the ObjectFormatter built for it, and hands back the counter advanced by the values that formatter bound |
| Lists.TemplateExpands | query.js:117-122 | `%(tpl)` over a mapping, for a simple template with two tags, renders the template over each key and its value, pair by pair, joined by `", "` and numbered on |

## Left out

- pg-escape's `string`, `ident` and `literal` are parameters of the model (`Escapers`). Their quoting rules are not modelled.
- Values are strings, integers, `null`, `undefined`, arrays, queries and key/value mappings. Booleans, floating-point numbers, dates and functions are not modelled.
- A query given as a value is captured as its `Query` value at the time it is bound. JavaScript keeps a reference, so a later `append` to that object would show in the parent's render; the model does not capture this aliasing. Cyclic query graphs cannot be written either.
- Mappings are key/value sequences in lodash's iteration order. lodash's own iteration rules (`_.each`, `_.map`) and `_.extend` are not modelled.
- Inputs that reach a JavaScript coercion give the outcome `OutOfModel` instead of text:
  - `%s` or `%I` on a value that is not a string (pg-escape would stringify it);
  - `%(tpl)` over a string (lodash would iterate its characters);
  - `%(tpl)` over a query value (lodash would iterate the query object's own properties, `fmt` and `values`);
  - `toString` on an array, query or mapping value.
- `%(tpl)` over an array is modelled only as its outcome, a TypeError (`NoSuchMethod`). The formatter the code builds is then iterated by property, and the first property, the separator string, has no `toParam`.
- A `QueryList` separator is a string. JavaScript's other falsy separators all behave like the empty string, which stands for them.
- An `ObjectFormatter` given a falsy object is built with `None`. Falsy values other than a missing object (`0`, `""`, `false`) are not distinguished.
- Inline.InlineNumberIsDecimal: a `Num` prints exactly only as a safe integer (|n| < 2^53), as values.dfy notes. Every JavaScript number is a double: integers of 2^53 or more have no exact counterpart. Above 2^53, JavaScript prints the shortest digits that round-trip (`2**60` prints as `1152921504606847000`), and from 1e21 on it uses exponent notation. Neither is modelled.
- Inline.ToStringFillsPlaceholders: stated only for text whose non-placeholder pieces hold no `?`. With a stray `?`, the code shifts every later value by one place, and the model's `ToString` does the same.
- Inline.SubqueriesToString: stated for text between the two `%Q` that holds neither `%` nor `?`, for subqueries that render, and for renders whose text pieces hold no `?` of their own (as for Inline.ToStringFillsPlaceholders).
- Expansion.ArrayExpands: stated for arrays whose elements are not arrays. Under the array rule `%L` binds an inner array whole, while the same element under its own tag would be expanded again.
- The `$A` and `$C` tags mentioned in the file's header comment (query.js:16-17) are not implemented by the code and are not modelled.
- example.js is a console demonstration. Its printed outputs are not restated as concrete lemmas. Its shapes fall under general laws: a value per tag (`Binding.TagBindsValueAt`), array expansion (`Expansion.ArrayExpands`), subqueries (`Shorthands.SubqueryRenders`, and for `%Q UNION ALL %Q` the `toString` law `Inline.SubqueriesToString`), a `Query.List` (`Lists.ListRenders`) and `%(%I = %L)` over a mapping (`Lists.TemplateExpands`).
- Lists.ListRenders: stated for non-empty fragments in which every `%` starts `%%` or a letter tag, with one argument per tag, and a separator that binds nothing. An empty first fragment leaves the format empty, so the next call adds no separator. An empty fragment after a non-empty one adds the separator and nothing else (`"a"`, `""`, `"b"` gives `a, , b`). Both break the plain join. Fragments that bind more or fewer values than their arguments shift the binding across fragments.
- Lists.TemplateExpands: stated for templates in which every `%` starts `%%` or a letter tag, and with exactly two tags, which bind the key and the value of each pair.
