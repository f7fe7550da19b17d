# Text queries of dom-testing-library, modelled in Dafny

This project models the text query of `src/queries/text.ts`. That file
locates DOM elements by their text and builds the diagnostics shown when
no element, or more than one, matches.

- `queryAllByText(container, text, options)` checks the container type and
  builds the normalizer. Either step may throw. It then forms the candidate
  list: the container itself, when it has `matches` and matches `selector`,
  followed by `querySelectorAll(selector)` in document order. The list goes
  through two chained `.filter` calls. The first drops nodes that match a
  truthy `ignore` selector and, with `excludeHidden`, nodes the
  accessibility oracle calls inaccessible. The second keeps the nodes whose
  text `matches` accepts (with `exact`) or `fuzzyMatches` accepts (without
  it).
- `getMultipleError` and `getMissingError` build the two error messages.
  The missing-match message has an optional "normalized from" clause and an
  optional "which matches selector" clause.

Files:

- `wrappers.dfy` (module `Wrappers`): `Option` for options that may be left
  undefined, and `Result` for operations that may throw.
- `filtering.dfy` (module `Filtering`): `Array.prototype.filter` as a
  function on sequences. Its lemmas cover membership, order preservation
  (an explicit increasing map into the input's positions), fusion of two
  chained filters, commutation, agreement of pointwise-equal predicates,
  concatenation and freedom from duplicates.
- `text_queries.dfy` (module `TextQueries`): options with their defaults,
  the collaborators, `QueryAllByText` and its properties.
- `text_errors.dfy` (module `TextErrors`): `GetMultipleError`,
  `GetMissingError` and their properties.
- `text_query_scenarios.dfy` (module `TextQueryScenarios`): two concrete
  DOM trees over integer nodes that show the ignore stage and the visibility
  stage on specific inputs.

Every collaborator the source imports from a file outside this model is a
parameter:

- `Dom`: `checkContainerType`, `typeof container.matches === 'function'`,
  `node.matches`, `querySelectorAll`, `isInaccessible` and `getNodeText`.
- `Collaborators`: the DOM, `matches`, `fuzzyMatches`, `makeNormalizer` and
  the `getConfig()` defaults.
- Nodes have an abstract type `N`; text criteria have an abstract type `M`.
- JavaScript's string conversion of a criterion is an abstract `toString`.

An option left `undefined` is `None`. `QueryOptions` defaults follow the
destructuring defaults on lines 22-30: `selector` is `'*'`, `exact` is
`true`, and `ignore` and `excludeHidden` come from the configuration.
`ignore` may be a selector string or a boolean (the comment on line 46 and
the cast on line 48): `false` disables the stage, and `true` is matched as
the selector `"true"`. It is `IgnoreOff` for `false`, `IgnoreOn` for `true`
and `IgnoreSelector(s)` for a string. It is truthy for `true` and for
a non-empty string. `node.matches(ignore as string)` receives the value's
string conversion, so `true` is matched as the selector `"true"`.

## Model

| member | source | states |
|---|---|---|
| `TextQueries.QueryAllByText` | src/queries/text.ts:19-62 | an invalid container throws a container-type error; otherwise a normalizer that `makeNormalizer` refuses throws its error; otherwise the result holds only candidates that pass the ignore, visibility and text stages, and holds every candidate that passes all three |
| `TextQueries.PipelineIsOneFilter` | src/queries/text.ts:41-60 | the two chained filters equal one filter on the conjunction "passes ignore, passes visibility, passes text" |
| `TextQueries.QueryResultIsOrderedSubsequence` | src/queries/text.ts:35-45 | the result is an ordered subsequence of `[container if it matches] ++ querySelectorAll(selector)` |
| `TextQueries.ContainerComesFirst` | src/queries/text.ts:35-45 | a container that has `matches`, matches the selector and passes every stage is the first result |
| `TextQueries.TruthyIgnoreExcludesMatches` | src/queries/text.ts:48-50 | with a truthy `ignore`, no result matches the ignore selector |
| `TextQueries.FalsyIgnoreDropsNothing` | src/queries/text.ts:48-54 | with `ignore` set to `false` or `''`, the result is the candidates filtered by the visibility stage and then the text stage only; without `excludeHidden` as well, it is the candidates filtered by the text stage alone |
| `TextQueries.OracleUnusedWithoutExcludeHidden` | src/queries/text.ts:52-54 | without `excludeHidden`, replacing the accessibility oracle by any other leaves the result unchanged, and the result is the candidates filtered by the ignore stage and then the text stage only |
| `TextQueries.ExcludeHiddenKeepsAccessible` | src/queries/text.ts:56-58 | with `excludeHidden`, no result is inaccessible |
| `TextQueries.ResultsMatchText` | src/queries/text.ts:33-60 | every result's node text is accepted by `matches` when `exact` holds and by `fuzzyMatches` otherwise, with the normalizer built from the options |
| `TextQueries.StageOrderIrrelevant` | src/queries/text.ts:41-60 | applying the text filter before the ignore/visibility filter gives the same sequence |
| `TextQueries.ResultDistinct` | src/queries/text.ts:41-45 | when `querySelectorAll` lists distinct nodes and not the container itself, no node is returned twice |
| `TextQueries.DefaultOptions` | src/queries/text.ts:22-30 | the options object `{}` behaves as `selector '*'`, `exact true`, and the configured `ignore` and `excludeHidden` |
| `TextQueryScenarios.IgnoreSkipScenario` | src/queries/text.ts:48-50 | in `<div><p>Hello World</p><p class="skip">Hello World</p></div>` with `ignore: '.skip'`, the query for "Hello World" returns just the first paragraph |
| `TextQueryScenarios.IgnoreOffScenario` | src/queries/text.ts:48-50 | in the same tree with `ignore: false`, both paragraphs are returned, in document order, even when the configured default would skip the second |
| `TextQueryScenarios.HiddenExcludedScenario` | src/queries/text.ts:52-58 | in `<div style="display:none"><span>Hi</span></div>`, with `excludeHidden` defaulting to true, the query for "Hi" returns nothing |
| `TextQueryScenarios.HiddenShownScenario` | src/queries/text.ts:52-54 | in the same tree with `excludeHidden: false`, the query returns the span |
| `TextQueries.Ignore.IsTruthy` | src/queries/text.ts:48 | the `ignore &&` guard: `true` and non-empty selector strings are truthy; `false` and `''` are not |
| `TextQueries.Ignore.AsSelector` | src/queries/text.ts:48 | the selector `node.matches(ignore as string)` receives: the string itself, or `"true"` for `true` |
| `TextQueries.SelectorOf` | src/queries/text.ts:23 | the selector option, `'*'` when undefined |
| `TextQueries.ExactOf` | src/queries/text.ts:24 | the `exact` option, `true` when undefined |
| `TextQueries.IgnoreOf` | src/queries/text.ts:27 | the `ignore` option, the configured `defaultIgnore` when undefined |
| `TextQueries.ExcludeHiddenOf` | src/queries/text.ts:29 | the `excludeHidden` option, the configured `defaultExcludeHiddenText` when undefined |
| `TextQueries.MatcherOf` | src/queries/text.ts:33 | `matches` when `exact` holds, `fuzzyMatches` otherwise |
| `TextQueries.Candidates` | src/queries/text.ts:35-45 | `[container]` when the container has `matches` and matches the selector (else `[]`), followed by `querySelectorAll(selector)` |
| `TextQueries.FirstFilter` | src/queries/text.ts:47-59 | the first filter's callback: false for a node matching a truthy `ignore`; otherwise true unless `excludeHidden` is set, in which case the negated oracle verdict |
| `TextQueries.Pipeline` | src/queries/text.ts:41-60 | the candidates filtered by `FirstFilter`, then by the chosen matcher on the node's text with the built normalizer |
| `TextErrors.IsCustomSelector` | src/queries/text.ts:75 | `(selector ?? '*') !== '*'` |
| `TextErrors.ShownText` | src/queries/text.ts:76-79 | the normalized text followed by ` (normalized from '<raw>')` when normalizing changed the text, else the raw text |
| `TextErrors.SelectorClause` | src/queries/text.ts:80-81 | `, which matches selector '<selector>'` for a custom selector, else the empty string |
| `TextErrors.Tail` | src/queries/text.ts:80-82 | the selector clause followed by the fixed hint; it is never empty, starts with `,` exactly for a custom selector (else with `.`), and ends with the hint |
| `Filtering.Filter` | src/queries/text.ts:47-60 | every element of the filter result is in the input and accepted by the predicate, every accepted input element is in the result, and the result is no longer than the input |
| `TextErrors.GetMultipleError` | src/queries/text.ts:64-65 | the message is "Found multiple elements with the text: " followed by the criterion's string form |
| `TextErrors.MultipleErrorIdentifiesText` | src/queries/text.ts:64-65 | two criteria give the same multiple-match message if and only if their string forms are equal |
| `TextErrors.GetMissingError` | src/queries/text.ts:66-83 | a normalizer that `makeNormalizer` refuses makes the builder throw its error; otherwise the message starts with "Unable to find an element with the text: " and ends with the hint that the text may be split across elements |
| `TextErrors.MissingErrorNormalizedClause` | src/queries/text.ts:72-79 | after the prefix, the message begins with `<normalized> (normalized from '<raw>')` if and only if the normalized text differs from `text.toString()`; otherwise the raw text is followed directly by the selector clause or the hint |
| `TextErrors.MissingErrorSelectorClause` | src/queries/text.ts:75-82 | after the text clause, the message continues with `, which matches selector '<selector>'` if and only if the selector is defined and not `'*'`; otherwise only the hint follows |
| `TextErrors.UndefinedSelectorIsStar` | src/queries/text.ts:75 | an undefined selector and the selector `'*'` produce the same message |

## Left out

- `checkContainerType` (line 32) lives in a file that is not part of this model. It is an abstract predicate `isContainer`, and a refused container yields a `ContainerTypeError` failure. The TypeError message it builds is not modelled.
- `makeNormalizer`, `matches`, `fuzzyMatches` and `getNodeText` are parameters, not reimplementations. Their code is not part of this model. When `makeNormalizer` throws, the model carries its message through as a failure.
- CSS selector semantics, `querySelectorAll` and document order come from the DOM and are abstract functions. That the DOM lists each descendant once, and never the container, is a precondition of `TextQueries.ResultDistinct`, not a proved fact.
- `isInaccessible` and its per-call subtree cache (`getCachedIsSubtreeInaccessible`, line 39) are one pure oracle. The cache only memoizes a pure verdict, so it does not change the result.
- The `getConfig()` defaults (lines 27 and 29) are read from process-wide state. Here they are a `Config` value passed in.
- JavaScript string conversion of a criterion (`${text}` for a string, a regular expression or a function) is an abstract `toString`. `text.toString()` and `${text}` are assumed to agree, which holds for those three kinds of criteria.
- The container argument `c` of the two error builders is unused by the source, so it is not a parameter.
- `wrapAllByQueryWithSuggestion` and `buildQueries` (lines 85-91) produce the `queryBy`, `getAllBy`, `getBy`, `findAllBy` and `findBy` variants and attach query suggestions. They live in files that are not part of this model. The cardinality errors and the asynchronous polling of the `find` variants are not modelled.
- `TextQueries.QueryAllByText`: the collaborators are total, pure functions. Exceptions they throw and side effects they have are not modelled. Examples: an invalid `selector` or `ignore` selector makes `matches` / `querySelectorAll` throw a SyntaxError (lines 36, 44, 48); a function criterion or custom normalizer may throw (line 60). In those cases the source throws while the model returns a result.
- `TextErrors.GetMissingError`: a custom normalizer that throws inside the builder (line 73) is not modelled; only a refusal by `makeNormalizer` itself is.
- `TextQueries.StageOrderIrrelevant`: holds only because the matcher is total and pure. Run first, the text stage would call a user matcher on ignored or hidden nodes, and any exception or side effect of that call would become visible.
- Options set to `null` are not modelled. The destructuring defaults on lines 23-29 apply only to `undefined`, so a `null` there would behave differently from `None` (for example, `exact: null` selects `fuzzyMatches`). Only the `selector ?? '*'` of line 75 treats `null` like `undefined`.
