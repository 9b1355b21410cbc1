# readable-regex: the fluent regex-text builder, in Dafny

readable-regex lets a caller assemble a Java regular expression from named
operations (`digit()`, `literal("a.b")`, `oneOf(...)`, `startGroup("year")`,
`exactlyNTimes(4)`, ...) instead of raw regex syntax. Each operation checks
its arguments, appends one text fragment to a growing buffer and returns the
builder. The finished text is handed to `java.util.regex.Pattern`. This model
covers the builder in both of its packages:

- `io.github.ricoapon.readableregex` (module `ReadableRegex`): the buffer, a
  `multiline` flag that `startOfLine`/`endOfLine` switch on for good, and the
  ordered capture-group list (`None` for an unnamed group, the name for a
  named one). `buildWithFlags` ORs the requested flags and adds MULTILINE
  when a line anchor was used.
- `com.apon.readableregex` (module `LegacyReadableRegex`): the buffer only,
  plus the composite `group(b)` / `group(name, b)`, which run three appends
  in sequence and so are not atomic.

Layout:

- `regex_text.dfy` (module `RegexText`): the pure pieces. Decimal rendering
  of the repetition bounds (with a reader and a round trip). The `|`-join of
  `oneOf` (with a split that inverts it). The body of a range class (with a
  decoder). The group-name check `[a-zA-Z][a-zA-Z0-9]*`, written as a
  three-state matcher and proved equal to a plain predicate. The `{n,m}` /
  `{n,}` fragment (with a decoder). The OR-reduction of flags to a set.
- `operations.dfy` (module `Operations`): one `Op` per successful call. It
  gives `Fragment(op)`, the text the call appends, and `Admissible(op)`, the
  validation the call passed. From a history of calls it gives the buffer
  (`Render`), the group list (`GroupEntries`) and whether a line anchor was
  used. The lemmas here show that the buffer is append-only and that the
  group list follows opening order, has one entry per capturing opening and
  holds only valid names. They also show that MULTILINE, once needed, stays
  needed.
- `readable_regex.dfy`, `legacy_readable_regex.dfy`: the two builders as
  classes whose fields the methods update in place. A ghost `log` records the
  successful calls, and `Valid()` says that the buffer, the group list and
  the multiline flag are exactly what that log produces. Every method states
  its exact append and, on a refused argument, that nothing changed, except
  the older `group(b)` and `group(name, b)` (`LegacyReadableRegex.Builder.Group`
  and `NamedGroup`): on a null pattern they fail with `(` or `(?<name>`
  already appended, and their contracts say so. The
  `range`/`notInRange` loop is a method proved against `RangeFragment`.
- `scenarios.dfy`: call sequences from the tests, with the text, group list
  and flags they leave.

Errors are values: `Outcome = Ok | Fail(Error)`. A Java `NullPointerException`
from `Objects.requireNonNull` is `Fail(NullArgument)`. Each
`IllegalArgumentException` is the `Error` naming its cause. A nullable
`String` argument is `Option<string>`. A sub-builder or sub-pattern argument
is the text it builds. Java `int` arguments have type `Int32`, and
`Integer.MAX_VALUE` is `IntMax`.

`_countRange` treats an upper bound of `Integer.MAX_VALUE` as "no upper
bound". Hence `exactlyNTimes(Integer.MAX_VALUE)` emits `{2147483647,}`,
which reads as "at least" rather than "exactly"
(`Operations.ExactlyMaxReadsAsOpenEnded`). The model keeps this as written.

## Model

| member | source | states |
|---|---|---|
| `RegexText.Decimal` | src/main/java/io/github/ricoapon/readableregex/internal/ReadableRegexBuilder.java:238-241 | the rendering of a bound is non-empty, all digits, and has no leading zero |
| `RegexText.DecimalRoundTrip` | src/main/java/io/github/ricoapon/readableregex/internal/ReadableRegexBuilder.java:238-241 | reading the rendered bound gives the number back, so different bounds render differently |
| `RegexText.Join` | src/main/java/io/github/ricoapon/readableregex/internal/ReadableRegexBuilder.java:100-103 | the joined text starts with the first alternative, followed by the separator when a second one comes |
| `RegexText.JoinLength` | src/main/java/io/github/ricoapon/readableregex/internal/ReadableRegexBuilder.java:100-103 | the joined alternatives hold every alternative plus one separator between each two |
| `RegexText.SplitJoin` | src/main/java/io/github/ricoapon/readableregex/internal/ReadableRegexBuilder.java:100-103 | when no alternative contains the separator, splitting the joined text gives back the alternatives in order |
| `RegexText.RangeBody` | src/main/java/io/github/ricoapon/readableregex/internal/ReadableRegexBuilder.java:116-121 | the class body has three characters per pair of boundaries |
| `RegexText.RangeFragment` | src/main/java/io/github/ricoapon/readableregex/internal/ReadableRegexBuilder.java:116-122 | the range class is bracketed by `[` and `]`, and a negated one opens with `[^` |
| `RegexText.RangeFragmentRoundTrip` | src/main/java/io/github/ricoapon/readableregex/internal/ReadableRegexBuilder.java:109-144 | the emitted class determines whether it is negated and every `lo`/`hi` pair, in order |
| `RegexText.RangeFragmentLength` | src/main/java/io/github/ricoapon/readableregex/internal/ReadableRegexBuilder.java:116-141 | the class is 2 characters (3 when negated) plus 3 per pair long |
| `RegexText.IsValidGroupName` | src/main/java/io/github/ricoapon/readableregex/internal/ReadableRegexBuilder.java:278 | a valid group name never contains `>`, so it cannot close the `(?<name>` opening early |
| `RegexText.MatchesGroupNamePattern` | src/main/java/io/github/ricoapon/readableregex/internal/ReadableRegexBuilder.java:278 | the empty name never matches the group-name pattern |
| `RegexText.GroupNamePatternIsValidName` | src/main/java/io/github/ricoapon/readableregex/internal/ReadableRegexBuilder.java:278 | the matcher for `[a-zA-Z][a-zA-Z0-9]*` accepts exactly the non-empty names that start with an ASCII letter and continue with ASCII letters or digits |
| `RegexText.CountFragment` | src/main/java/io/github/ricoapon/readableregex/internal/ReadableRegexBuilder.java:237-241 | the repetition fragment is bracketed by `{` and `}`, and it ends in `,}` exactly when the upper bound is `Integer.MAX_VALUE` |
| `RegexText.CountFragmentRoundTrip` | src/main/java/io/github/ricoapon/readableregex/internal/ReadableRegexBuilder.java:237-241 | the repetition fragment gives back its lower bound, and its upper bound unless that is `Integer.MAX_VALUE`, which reads as no bound |
| `RegexText.CombineFlags` | src/main/java/io/github/ricoapon/readableregex/internal/ReadableRegexBuilder.java:30-31 | the OR of the requested flags holds exactly the requested flags |
| `Operations.Admissible` | src/main/java/io/github/ricoapon/readableregex/internal/ReadableRegexBuilder.java:276-280 | a named group passes validation exactly when its name matches `[a-zA-Z][a-zA-Z0-9]*`; the other rules it holds (even and non-empty range boundaries, a non-empty character set, `0 < m` and `n <= m` for repetitions) are the ones the builder methods check |
| `Operations.Fragment` | src/main/java/io/github/ricoapon/readableregex/internal/ReadableRegexBuilder.java:55-59 | every call appends some text, except `regexFromString("")`, which appends nothing |
| `Operations.Render` | src/main/java/io/github/ricoapon/readableregex/internal/ReadableRegexBuilder.java:19 | the buffer, `regexBuilder`, is empty exactly when every call so far was `regexFromString("")` |
| `Operations.GroupEntries` | src/main/java/io/github/ricoapon/readableregex/internal/ReadableRegexBuilder.java:25 | the list `groups` gets at most one entry per call |
| `Operations.UsesLineAnchors` | src/main/java/io/github/ricoapon/readableregex/internal/ReadableRegexBuilder.java:22 | `enableMultilineFlag` is set only after some call, and a line anchor as the latest call sets it |
| `Operations.LogSnoc` | src/main/java/io/github/ricoapon/readableregex/internal/ReadableRegexBuilder.java:55-59 | one more call appends its fragment, adds its group entry and notes a line anchor, leaving the rest as it was |
| `Operations.RenderConcat` | src/main/java/io/github/ricoapon/readableregex/internal/ReadableRegexBuilder.java:55-59 | the buffer after two runs of calls is the first run's text followed by the second's |
| `Operations.BufferOnlyGrows` | src/main/java/io/github/ricoapon/readableregex/internal/ReadableRegexBuilder.java:18-19 | the buffer before any further calls is a prefix of the buffer after them |
| `Operations.GroupEntriesConcat` | src/main/java/io/github/ricoapon/readableregex/internal/ReadableRegexBuilder.java:24-25 | group entries are kept in opening order across runs of calls |
| `Operations.GroupCountMatchesOpens` | src/main/java/io/github/ricoapon/readableregex/internal/ReadableRegexBuilder.java:270-285 | the group list has exactly one entry per capturing group opened |
| `Operations.NamedEntriesAreValid` | src/main/java/io/github/ricoapon/readableregex/internal/ReadableRegexBuilder.java:276-284 | every name in the group list is a valid group name |
| `Operations.LineAnchorsPersist` | src/main/java/io/github/ricoapon/readableregex/internal/ReadableRegexBuilder.java:22 | once a line anchor is used, MULTILINE stays needed whatever follows |
| `Operations.OneOfDegenerateCases` | src/test/java/io/github/ricoapon/readableregex/StandaloneBlockTests.java:139-144 | `oneOf()` emits `(?:)` and `oneOf(t)` emits the same as `add(t)` |
| `Operations.ExactlyMaxReadsAsOpenEnded` | src/main/java/io/github/ricoapon/readableregex/internal/ReadableRegexBuilder.java:237-247 | `exactlyNTimes(Integer.MAX_VALUE)` emits a fragment with no upper bound |
| `Operations.RepeatFragmentDecodes` | src/main/java/io/github/ricoapon/readableregex/internal/ReadableRegexBuilder.java:241 | an accepted `{n,m}` below the sentinel gives back both bounds |
| `ReadableRegex.RangeExpression` | src/main/java/io/github/ricoapon/readableregex/internal/ReadableRegexBuilder.java:116-122 | the loop over boundary pairs builds exactly the range class, `[` or `[^` then `lo-hi` per pair then `]` |
| `ReadableRegex.Builder.constructor` | src/main/java/io/github/ricoapon/readableregex/internal/ReadableRegexBuilder.java:19-25 | a new builder has an empty buffer, no multiline flag and no groups |
| `ReadableRegex.Builder.BuildWithFlags` | src/main/java/io/github/ricoapon/readableregex/internal/ReadableRegexBuilder.java:29-39 | the pattern has the buffer's text and the group list; its flags are the requested ones, plus MULTILINE exactly when a line anchor was used |
| `ReadableRegex.Builder.AddRegex` | src/main/java/io/github/ricoapon/readableregex/internal/ReadableRegexBuilder.java:55-59 | appends the fragment and nothing else |
| `ReadableRegex.Builder.RegexFromString` | src/main/java/io/github/ricoapon/readableregex/internal/ReadableRegexBuilder.java:62-64 | null is refused with nothing changed; otherwise the text is appended unchanged |
| `ReadableRegex.Builder.Add` | src/main/java/io/github/ricoapon/readableregex/internal/ReadableRegexBuilder.java:67-73 | null is refused with nothing changed; otherwise appends `(?:` text `)` |
| `ReadableRegex.Builder.Literal` | src/main/java/io/github/ricoapon/readableregex/internal/ReadableRegexBuilder.java:76-81 | null is refused with nothing changed; otherwise appends `(?:\Q` value `\E)` |
| `ReadableRegex.Builder.Digit` | src/main/java/io/github/ricoapon/readableregex/internal/ReadableRegexBuilder.java:84-86 | appends `\d`; groups and flag unchanged |
| `ReadableRegex.Builder.Whitespace` | src/main/java/io/github/ricoapon/readableregex/internal/ReadableRegexBuilder.java:89-91 | appends `\s` |
| `ReadableRegex.Builder.Tab` | src/main/java/io/github/ricoapon/readableregex/internal/ReadableRegexBuilder.java:94-96 | appends `\t` |
| `ReadableRegex.Builder.OneOf` | src/main/java/io/github/ricoapon/readableregex/internal/ReadableRegexBuilder.java:99-106 | appends `(?:` + the alternatives joined by the bar character + `)` |
| `ReadableRegex.Builder.Range` | src/main/java/io/github/ricoapon/readableregex/internal/ReadableRegexBuilder.java:109-125 | an odd count, then an empty list, is refused with nothing changed; otherwise appends the range class |
| `ReadableRegex.Builder.NotInRange` | src/main/java/io/github/ricoapon/readableregex/internal/ReadableRegexBuilder.java:128-144 | as `Range`, with the negated class `[^...]` |
| `ReadableRegex.Builder.AnyCharacterOf` | src/main/java/io/github/ricoapon/readableregex/internal/ReadableRegexBuilder.java:147-154 | null, then empty, is refused with nothing changed; otherwise appends `[` chars `]` |
| `ReadableRegex.Builder.AnyCharacterExcept` | src/main/java/io/github/ricoapon/readableregex/internal/ReadableRegexBuilder.java:157-164 | null, then empty, is refused with nothing changed; otherwise appends `[^` chars `]` |
| `ReadableRegex.Builder.WordCharacter` | src/main/java/io/github/ricoapon/readableregex/internal/ReadableRegexBuilder.java:167-169 | appends `\w` |
| `ReadableRegex.Builder.NonWordCharacter` | src/main/java/io/github/ricoapon/readableregex/internal/ReadableRegexBuilder.java:172-174 | appends `\W` |
| `ReadableRegex.Builder.WordBoundary` | src/main/java/io/github/ricoapon/readableregex/internal/ReadableRegexBuilder.java:177-179 | appends `\b` |
| `ReadableRegex.Builder.NonWordBoundary` | src/main/java/io/github/ricoapon/readableregex/internal/ReadableRegexBuilder.java:182-184 | appends `\B` |
| `ReadableRegex.Builder.AnyCharacter` | src/main/java/io/github/ricoapon/readableregex/internal/ReadableRegexBuilder.java:187-189 | appends `.` |
| `ReadableRegex.Builder.StartOfLine` | src/main/java/io/github/ricoapon/readableregex/internal/ReadableRegexBuilder.java:192-196 | sets the multiline flag and appends `(?:^)` |
| `ReadableRegex.Builder.StartOfInput` | src/main/java/io/github/ricoapon/readableregex/internal/ReadableRegexBuilder.java:199-201 | appends `\A`; flag unchanged |
| `ReadableRegex.Builder.EndOfLine` | src/main/java/io/github/ricoapon/readableregex/internal/ReadableRegexBuilder.java:204-208 | sets the multiline flag and appends `(?:$)` |
| `ReadableRegex.Builder.EndOfInput` | src/main/java/io/github/ricoapon/readableregex/internal/ReadableRegexBuilder.java:211-213 | appends `\z`; flag unchanged |
| `ReadableRegex.Builder.OneOrMore` | src/main/java/io/github/ricoapon/readableregex/internal/ReadableRegexBuilder.java:216-218 | appends `+` |
| `ReadableRegex.Builder.Optional` | src/main/java/io/github/ricoapon/readableregex/internal/ReadableRegexBuilder.java:221-223 | appends `?` |
| `ReadableRegex.Builder.ZeroOrMore` | src/main/java/io/github/ricoapon/readableregex/internal/ReadableRegexBuilder.java:226-228 | appends `*` |
| `ReadableRegex.Builder.CountRange` | src/main/java/io/github/ricoapon/readableregex/internal/ReadableRegexBuilder.java:230-242 | `n < 0` or `m <= 0`, then `n > m`, is refused with nothing changed; otherwise appends `{n,}` when `m` is `Integer.MAX_VALUE`, else `{n,m}` |
| `ReadableRegex.Builder.ExactlyNTimes` | src/main/java/io/github/ricoapon/readableregex/internal/ReadableRegexBuilder.java:245-247 | refused for `n <= 0` (so `exactlyNTimes(0)` fails); otherwise appends the `{n,n}` fragment |
| `ReadableRegex.Builder.AtLeastNTimes` | src/main/java/io/github/ricoapon/readableregex/internal/ReadableRegexBuilder.java:250-252 | refused for `n < 0`; otherwise always appends `{n,}` |
| `ReadableRegex.Builder.BetweenNAndMTimes` | src/main/java/io/github/ricoapon/readableregex/internal/ReadableRegexBuilder.java:255-257 | the checks and fragment of `_countRange` for `(n, m)` |
| `ReadableRegex.Builder.Reluctant` | src/main/java/io/github/ricoapon/readableregex/internal/ReadableRegexBuilder.java:260-262 | appends `?` |
| `ReadableRegex.Builder.Possessive` | src/main/java/io/github/ricoapon/readableregex/internal/ReadableRegexBuilder.java:265-267 | appends `+` |
| `ReadableRegex.Builder.StartGroup` | src/main/java/io/github/ricoapon/readableregex/internal/ReadableRegexBuilder.java:270-273 | adds a `None` group entry and appends `(` |
| `ReadableRegex.Builder.StartNamedGroup` | src/main/java/io/github/ricoapon/readableregex/internal/ReadableRegexBuilder.java:276-285 | a null name, then an invalid name, is refused with groups and buffer unchanged; otherwise adds the name to the groups and appends `(?<name>` |
| `ReadableRegex.Builder.StartUnnamedGroup` | src/main/java/io/github/ricoapon/readableregex/internal/ReadableRegexBuilder.java:288-290 | appends `(?:` and adds no group entry |
| `ReadableRegex.Builder.StartPositiveLookbehind` | src/main/java/io/github/ricoapon/readableregex/internal/ReadableRegexBuilder.java:293-295 | appends `(?<=` and adds no group entry |
| `ReadableRegex.Builder.StartNegativeLookbehind` | src/main/java/io/github/ricoapon/readableregex/internal/ReadableRegexBuilder.java:298-300 | appends `(?<!` and adds no group entry |
| `ReadableRegex.Builder.StartPositiveLookahead` | src/main/java/io/github/ricoapon/readableregex/internal/ReadableRegexBuilder.java:303-305 | appends `(?=` and adds no group entry |
| `ReadableRegex.Builder.StartNegativeLookahead` | src/main/java/io/github/ricoapon/readableregex/internal/ReadableRegexBuilder.java:308-310 | appends `(?!` and adds no group entry |
| `ReadableRegex.Builder.EndGroup` | src/main/java/io/github/ricoapon/readableregex/internal/ReadableRegexBuilder.java:313-315 | appends `)` and leaves the group list alone |
| `LegacyReadableRegex.Builder.constructor` | src/main/java/com/apon/readableregex/internal/ReadableRegexBuilder.java:13 | a new builder has an empty buffer |
| `LegacyReadableRegex.Builder.BuildWithFlags` | src/main/java/com/apon/readableregex/internal/ReadableRegexBuilder.java:17-21 | the pattern has the buffer's text and exactly the requested flags, with no implicit MULTILINE |
| `LegacyReadableRegex.Builder.AddRegex` | src/main/java/com/apon/readableregex/internal/ReadableRegexBuilder.java:29-33 | appends the fragment and nothing else |
| `LegacyReadableRegex.Builder.RegexFromString` | src/main/java/com/apon/readableregex/internal/ReadableRegexBuilder.java:36-38 | null is refused with nothing changed; otherwise the text is appended unchanged |
| `LegacyReadableRegex.Builder.Add` | src/main/java/com/apon/readableregex/internal/ReadableRegexBuilder.java:41-47 | null is refused with nothing changed; otherwise appends `(?:` built text `)` |
| `LegacyReadableRegex.Builder.Literal` | src/main/java/com/apon/readableregex/internal/ReadableRegexBuilder.java:50-55 | null is refused with nothing changed; otherwise appends `(?:\Q` value `\E)` |
| `LegacyReadableRegex.Builder.Digit` | src/main/java/com/apon/readableregex/internal/ReadableRegexBuilder.java:58-60 | appends `\d` |
| `LegacyReadableRegex.Builder.Whitespace` | src/main/java/com/apon/readableregex/internal/ReadableRegexBuilder.java:63-65 | appends `\s` |
| `LegacyReadableRegex.Builder.OneOrMore` | src/main/java/com/apon/readableregex/internal/ReadableRegexBuilder.java:68-70 | appends `+` unconditionally |
| `LegacyReadableRegex.Builder.Optional` | src/main/java/com/apon/readableregex/internal/ReadableRegexBuilder.java:73-75 | appends `?` unconditionally |
| `LegacyReadableRegex.Builder.StartGroup` | src/main/java/com/apon/readableregex/internal/ReadableRegexBuilder.java:78-80 | appends `(` |
| `LegacyReadableRegex.Builder.StartNamedGroup` | src/main/java/com/apon/readableregex/internal/ReadableRegexBuilder.java:83-91 | a null name, then an invalid name, is refused with nothing changed; otherwise appends `(?<name>` |
| `LegacyReadableRegex.Builder.StartPositiveLookbehind` | src/main/java/com/apon/readableregex/internal/ReadableRegexBuilder.java:94-96 | appends `(?<=` |
| `LegacyReadableRegex.Builder.StartNegativeLookbehind` | src/main/java/com/apon/readableregex/internal/ReadableRegexBuilder.java:99-101 | appends `(?<!` |
| `LegacyReadableRegex.Builder.StartPositiveLookahead` | src/main/java/com/apon/readableregex/internal/ReadableRegexBuilder.java:104-106 | appends `(?=` |
| `LegacyReadableRegex.Builder.StartNegativeLookahead` | src/main/java/com/apon/readableregex/internal/ReadableRegexBuilder.java:109-111 | appends `(?!` |
| `LegacyReadableRegex.Builder.EndGroup` | src/main/java/com/apon/readableregex/internal/ReadableRegexBuilder.java:114-116 | appends `)` |
| `LegacyReadableRegex.Builder.Group` | src/main/java/com/apon/readableregex/internal/ReadableRegexBuilder.java:119-121 | appends `((?:` t `))`; a null pattern fails with `(` already appended |
| `LegacyReadableRegex.Builder.NamedGroup` | src/main/java/com/apon/readableregex/internal/ReadableRegexBuilder.java:124-126 | a null or invalid name fails with nothing appended; a null pattern fails with `(?<name>` appended; otherwise appends `(?<name>(?:` t `))` |
| `Scenarios.OneOfWithZeroOrOneAlternatives` | src/test/java/io/github/ricoapon/readableregex/StandaloneBlockTests.java:139-144 | `oneOf().oneOf(literal("b"))` builds `(?:)(?:(?:\Qb\E))` |
| `Scenarios.EmbeddedBuilderIsWrapped` | src/test/java/io/github/ricoapon/readableregex/StandaloneBlockTests.java:44-49 | `digit().add(whitespace()).oneOrMore().digit()` builds `\d(?:\s)+\d`, with the quantifier after the wrapped block |
| `Scenarios.GroupNamesInOpeningOrder` | src/main/java/io/github/ricoapon/readableregex/internal/ReadableRegexBuilder.java:270-285 | two openings give the group list `[first, unnamed]`, and a refused name `2nd` leaves text and list as they were |
| `Scenarios.OneOfNoneThenOne` | src/main/java/io/github/ricoapon/readableregex/internal/ReadableRegexBuilder.java:99-106 | for any alternative text, `oneOf()` then `oneOf(alternative)` builds `(?:)` followed by the alternative wrapped once in `(?:`…`)` |
| `Scenarios.DigitEmbeddedOneOrMoreDigit` | src/main/java/io/github/ricoapon/readableregex/internal/ReadableRegexBuilder.java:67-73 | for any embedded text, `digit().add(embedded).oneOrMore().digit()` builds `\d(?:embedded)+\d` |
| `Scenarios.NamedUnnamedThenRefused` | src/main/java/io/github/ricoapon/readableregex/internal/ReadableRegexBuilder.java:270-285 | for any valid first name and any invalid second name: the text is `(?<first>(`, the group list is `[first, unnamed]` and the third opening is refused |
| `Scenarios.LineAnchorRequestsMultiline` | src/main/java/io/github/ricoapon/readableregex/internal/ReadableRegexBuilder.java:29-36 | after `startOfLine()`, building with no flags gives exactly MULTILINE |
| `Scenarios.LegacyGroupIsNotAtomic` | src/main/java/com/apon/readableregex/internal/ReadableRegexBuilder.java:119-121 | the older `group(null)` fails and leaves `(` in the buffer |

## Left out

- Compiling and matching. `Pattern.compile` and all matching semantics
  belong to `java.util.regex`. The model states the text handed to it, not
  what that text matches. It does not claim that `literal` matches its
  argument verbatim: a value containing `\E` ends the quotation early. It
  also does not claim that `range` matches its spans: boundaries are not
  escaped, so `range('^', 'z')` emits `[^-z]`, which the engine reads as a
  negated class.
- Sub-builders. A sub-builder passed to `add`, `oneOf` or the older `group`
  is its built text. Its own `build()`, which compiles and can fail, is not
  part of this model.
- `ReadableRegexPatternImpl`, the `ReadableRegex` interfaces and
  `PatternFlag` with its JDK codes are not part of this model. Flags are an
  abstract datatype, on the assumption that each stands for a distinct bit,
  so an OR of flag words is a union of flags.
- The quantifier-adjacency rule (no leading quantifier, no quantifier after
  a quantifier). Only the older package's tests assert it. The builder shown
  appends `+` and `?` unconditionally, so the check lives in code that is not
  part of this model.
- Null arrays. A null varargs array or a null element in `range`,
  `notInRange`, `oneOf` or `buildWithFlags` would fail in Java before any
  append. The model takes these arguments as sequences, which cannot be
  null.
- Chaining. The returned `this` and the self-type cast `thisT()` are left
  out. Methods change the builder and return only an `Outcome` where the
  Java code can throw.
- ReadableRegex.Builder.BuildWithFlags: the built pattern gets a copy of the
  group list as it is at that moment. The Java code hands the pattern the
  builder's live `groups` list, so a `startGroup` after `build()` also grows
  the group list of a pattern already built. The model does not capture that
  aliasing.
- Lone UTF-16 surrogates. A Java `char` can be half of a surrogate pair, as in
  `range('\uD800', '\uDBFF')`. A Dafny `char` is a Unicode scalar value, so
  such arguments are outside the model, and lengths of text count scalar
  values, not UTF-16 code units.
- `Pattern.matches` for group names is modelled as a matcher written out
  for `[a-zA-Z][a-zA-Z0-9]*`, not as the general regex engine.
