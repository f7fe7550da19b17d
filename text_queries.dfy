/**
 * The text query `queryAllByText` of src/queries/text.ts: the candidate
 * list (the container when it matches the selector, then its matching
 * descendants in document order) goes through the ignore/visibility filter
 * and then through the text matcher.
 *
 * Everything the query calls into is a parameter: the DOM (selector
 * matching, `querySelectorAll`, accessibility, node text), the two text
 * matchers, the normalizer factory and the process-wide configuration.
 */
module TextQueries {
  import opened Wrappers
  import opened Filtering

  /**
   * The `ignore` option: `false`, `true` or a selector string. The query
   * also accepts a boolean here; `true` is handed to `node.matches` as the
   * selector `"true"`.
   */
  datatype Ignore = IgnoreOff | IgnoreOn | IgnoreSelector(selector: string) {

    /** JavaScript truthiness: `false` and the empty string are falsy, `true` is truthy. */
    predicate IsTruthy() {
      IgnoreOn? || (IgnoreSelector? && selector != "")
    }

    /** The selector `node.matches(ignore as string)` receives: the string conversion of the value. */
    function AsSelector(): string {
      match this
      case IgnoreOff => "false"
      case IgnoreOn => "true"
      case IgnoreSelector(s) => s
    }
  }

  /** The process-wide defaults that `getConfig()` supplies. */
  datatype Config = Config(defaultIgnore: Ignore, defaultExcludeHiddenText: bool)

  /** A normalizer turns raw text into the text that is compared. */
  type Normalizer = string -> string

  /** The options `makeNormalizer` receives. */
  datatype NormalizerOptions = NormalizerOptions(
    collapseWhitespace: Option<bool>,
    trim: Option<bool>,
    normalizer: Option<Normalizer>)

  /** `makeNormalizer`, which throws (a Failure with its message) on conflicting options. */
  type NormalizerFactory = NormalizerOptions -> Result<Normalizer, string>

  /** The query options; `None` is an option left undefined. */
  datatype QueryOptions = QueryOptions(
    selector: Option<string>,
    exact: Option<bool>,
    collapseWhitespace: Option<bool>,
    trim: Option<bool>,
    ignore: Option<Ignore>,
    normalizer: Option<Normalizer>,
    excludeHidden: Option<bool>)
  {
    /** The part of the options that is handed to `makeNormalizer`. */
    function NormalizerPart(): NormalizerOptions {
      NormalizerOptions(collapseWhitespace, trim, normalizer)
    }
  }

  /** The options object `{}`. */
  const NoOptions: QueryOptions := QueryOptions(None, None, None, None, None, None, None)

  /** The DOM as the query sees it, over an abstract node type `N`. */
  datatype Dom<!N> = Dom(
    /** `checkContainerType` accepts the node. */
    isContainer: N -> bool,
    /** `typeof node.matches === 'function'`. */
    hasMatches: N -> bool,
    /** `node.matches(selector)`. */
    matchesSelector: (N, string) -> bool,
    /** `Array.from(node.querySelectorAll(selector))`, in document order. */
    querySelectorAll: (N, string) -> seq<N>,
    /** `isInaccessible(node, cache)`, the cache being a memo of a pure verdict. */
    isInaccessible: N -> bool,
    /** `getNodeText(node)`. */
    getNodeText: N -> string)

  /** `matches` / `fuzzyMatches`: (node text, node, criterion, normalizer). */
  type TextMatcher<!N, !M> = (string, N, M, Normalizer) -> bool

  /** The query's collaborators; `M` is the type of text criteria. */
  datatype Collaborators<!N, !M> = Collaborators(
    dom: Dom<N>,
    matches: TextMatcher<N, M>,
    fuzzyMatches: TextMatcher<N, M>,
    makeNormalizer: NormalizerFactory,
    config: Config)

  /** Why a query throws. */
  datatype QueryError =
    | ContainerTypeError
    | NormalizerError(message: string)

  /* ----- option defaults ----- */

  function SelectorOf(opts: QueryOptions): string {
    opts.selector.GetOr("*")
  }

  function ExactOf(opts: QueryOptions): bool {
    opts.exact.GetOr(true)
  }

  function IgnoreOf(cfg: Config, opts: QueryOptions): Ignore {
    opts.ignore.GetOr(cfg.defaultIgnore)
  }

  function ExcludeHiddenOf(cfg: Config, opts: QueryOptions): bool {
    opts.excludeHidden.GetOr(cfg.defaultExcludeHiddenText)
  }

  /** `exact ? matches : fuzzyMatches`. */
  function MatcherOf<N, M>(c: Collaborators<N, M>, exact: bool): TextMatcher<N, M> {
    if exact then c.matches else c.fuzzyMatches
  }

  /* ----- the three stages ----- */

  /** The candidates: the container when it can and does match, then its matching descendants. */
  function Candidates<N>(dom: Dom<N>, container: N, selector: string): seq<N> {
    var base := if dom.hasMatches(container) && dom.matchesSelector(container, selector) then [container] else [];
    base + dom.querySelectorAll(container, selector)
  }

  /** Stage A: a truthy `ignore` drops the nodes that match it. */
  predicate PassesIgnore<N>(dom: Dom<N>, ignore: Ignore, node: N) {
    !(ignore.IsTruthy() && dom.matchesSelector(node, ignore.AsSelector()))
  }

  /** Stage B: with `excludeHidden`, inaccessible nodes are dropped. */
  predicate PassesHidden<N>(dom: Dom<N>, excludeHidden: bool, node: N) {
    !excludeHidden || !dom.isInaccessible(node)
  }

  /** Stage C: the chosen matcher accepts the node's text. */
  predicate PassesText<N, M>(c: Collaborators<N, M>, exact: bool, text: M, norm: Normalizer, node: N) {
    MatcherOf(c, exact)(c.dom.getNodeText(node), node, text, norm)
  }

  /** The predicate of the first `.filter` call. */
  predicate FirstFilter<N>(dom: Dom<N>, ignore: Ignore, excludeHidden: bool, node: N) {
    if ignore.IsTruthy() && dom.matchesSelector(node, ignore.AsSelector()) then false
    else if !excludeHidden then true
    else !dom.isInaccessible(node)
  }

  /** The two chained `.filter` calls on the candidates, once the normalizer is built. */
  function Pipeline<N, M>(c: Collaborators<N, M>, container: N, text: M, opts: QueryOptions, norm: Normalizer): seq<N> {
    var ignore := IgnoreOf(c.config, opts);
    var excludeHidden := ExcludeHiddenOf(c.config, opts);
    var exact := ExactOf(opts);
    Filter(
      Filter(Candidates(c.dom, container, SelectorOf(opts)), n => FirstFilter(c.dom, ignore, excludeHidden, n)),
      n => PassesText(c, exact, text, norm, n))
  }

  /** The node passes all three stages. */
  predicate Survives<N, M>(c: Collaborators<N, M>, text: M, opts: QueryOptions, norm: Normalizer, node: N) {
    && PassesIgnore(c.dom, IgnoreOf(c.config, opts), node)
    && PassesHidden(c.dom, ExcludeHiddenOf(c.config, opts), node)
    && PassesText(c, ExactOf(opts), text, norm, node)
  }

  /**
   * `queryAllByText(container, text, opts)`. It throws when the container
   * type is refused, or when `makeNormalizer` refuses the options; otherwise
   * it returns exactly the accepted candidates.
   */
  function QueryAllByText<N, M>(c: Collaborators<N, M>, container: N, text: M, opts: QueryOptions): (r: Result<seq<N>, QueryError>)
    ensures !c.dom.isContainer(container) ==> r == Failure(ContainerTypeError)
    ensures c.dom.isContainer(container) && c.makeNormalizer(opts.NormalizerPart()).Failure? ==>
      r == Failure(NormalizerError(c.makeNormalizer(opts.NormalizerPart()).error))
    ensures c.dom.isContainer(container) && c.makeNormalizer(opts.NormalizerPart()).Success? ==>
      var norm := c.makeNormalizer(opts.NormalizerPart()).value;
      var cands := Candidates(c.dom, container, SelectorOf(opts));
      && r.Success?
      && (forall k :: 0 <= k < |r.value| ==> r.value[k] in cands && Survives(c, text, opts, norm, r.value[k]))
      && (forall i :: 0 <= i < |cands| && Survives(c, text, opts, norm, cands[i]) ==> cands[i] in r.value)
  {
    if !c.dom.isContainer(container) then Failure(ContainerTypeError)
    else
      match c.makeNormalizer(opts.NormalizerPart())
      case Failure(e) => Failure(NormalizerError(e))
      case Success(norm) => Success(Pipeline(c, container, text, opts, norm))
  }

  /* ----- properties of the query ----- */

  /** The two chained filters are one filter on "passes all three stages". */
  lemma PipelineIsOneFilter<N, M>(c: Collaborators<N, M>, container: N, text: M, opts: QueryOptions, norm: Normalizer)
    ensures Pipeline(c, container, text, opts, norm)
         == Filter(Candidates(c.dom, container, SelectorOf(opts)), n => Survives(c, text, opts, norm, n))
  {
    var cands := Candidates(c.dom, container, SelectorOf(opts));
    var ignore, excludeHidden, exact := IgnoreOf(c.config, opts), ExcludeHiddenOf(c.config, opts), ExactOf(opts);
    var p := n => FirstFilter(c.dom, ignore, excludeHidden, n);
    var q := n => PassesText(c, exact, text, norm, n);
    FilterFuse(cands, p, q);
    FilterAgree(cands, n => p(n) && q(n), n => Survives(c, text, opts, norm, n));
  }

  /** The result keeps the candidates' relative order (document order, container first). */
  lemma QueryResultIsOrderedSubsequence<N, M>(c: Collaborators<N, M>, container: N, text: M, opts: QueryOptions)
    requires QueryAllByText(c, container, text, opts).Success?
    ensures IsOrderedSubsequence(QueryAllByText(c, container, text, opts).value, Candidates(c.dom, container, SelectorOf(opts)))
  {
    var norm := c.makeNormalizer(opts.NormalizerPart()).value;
    PipelineIsOneFilter(c, container, text, opts, norm);
    FilterIsOrderedSubsequence(Candidates(c.dom, container, SelectorOf(opts)), n => Survives(c, text, opts, norm, n));
  }

  /** A container that matches the selector and survives the filters is the first result. */
  lemma ContainerComesFirst<N, M>(c: Collaborators<N, M>, container: N, text: M, opts: QueryOptions)
    requires QueryAllByText(c, container, text, opts).Success?
    requires c.dom.hasMatches(container) && c.dom.matchesSelector(container, SelectorOf(opts))
    requires Survives(c, text, opts, c.makeNormalizer(opts.NormalizerPart()).value, container)
    ensures |QueryAllByText(c, container, text, opts).value| > 0
    ensures QueryAllByText(c, container, text, opts).value[0] == container
  {
    var norm := c.makeNormalizer(opts.NormalizerPart()).value;
    var keep := n => Survives(c, text, opts, norm, n);
    var descendants := c.dom.querySelectorAll(container, SelectorOf(opts));
    PipelineIsOneFilter(c, container, text, opts, norm);
    FilterConcat([container], descendants, keep);
    assert Filter([container], keep) == [container];
  }

  /** With a truthy `ignore`, no result matches the ignore selector. */
  lemma TruthyIgnoreExcludesMatches<N, M>(c: Collaborators<N, M>, container: N, text: M, opts: QueryOptions)
    requires QueryAllByText(c, container, text, opts).Success?
    requires IgnoreOf(c.config, opts).IsTruthy()
    ensures forall k :: 0 <= k < |QueryAllByText(c, container, text, opts).value| ==>
      !c.dom.matchesSelector(QueryAllByText(c, container, text, opts).value[k], IgnoreOf(c.config, opts).AsSelector())
  {
  }

  /**
   * With `ignore` set to `false` or `''`, the ignore stage drops nothing;
   * without `excludeHidden` as well, the first filter keeps every candidate.
   */
  lemma FalsyIgnoreDropsNothing<N, M>(c: Collaborators<N, M>, container: N, text: M, opts: QueryOptions)
    requires QueryAllByText(c, container, text, opts).Success?
    requires !IgnoreOf(c.config, opts).IsTruthy()
    ensures var norm := c.makeNormalizer(opts.NormalizerPart()).value;
      QueryAllByText(c, container, text, opts).value
      == Filter(
           Filter(Candidates(c.dom, container, SelectorOf(opts)), n => PassesHidden(c.dom, ExcludeHiddenOf(c.config, opts), n)),
           n => PassesText(c, ExactOf(opts), text, norm, n))
    ensures !ExcludeHiddenOf(c.config, opts) ==>
      var norm := c.makeNormalizer(opts.NormalizerPart()).value;
      QueryAllByText(c, container, text, opts).value
      == Filter(Candidates(c.dom, container, SelectorOf(opts)), n => PassesText(c, ExactOf(opts), text, norm, n))
  {
    var cands := Candidates(c.dom, container, SelectorOf(opts));
    var ignore, excludeHidden := IgnoreOf(c.config, opts), ExcludeHiddenOf(c.config, opts);
    FilterAgree(cands, n => FirstFilter(c.dom, ignore, excludeHidden, n), n => PassesHidden(c.dom, excludeHidden, n));
    if !excludeHidden {
      FilterKeepsAll(cands, n => PassesHidden(c.dom, excludeHidden, n));
    }
  }

  /**
   * Without `excludeHidden` the accessibility oracle is never consulted: any
   * other oracle gives the same result, which is the candidates filtered by
   * the ignore stage and the text stage alone.
   */
  lemma OracleUnusedWithoutExcludeHidden<N, M>(c: Collaborators<N, M>, other: N -> bool, container: N, text: M, opts: QueryOptions)
    requires QueryAllByText(c, container, text, opts).Success?
    requires !ExcludeHiddenOf(c.config, opts)
    ensures QueryAllByText(c.(dom := c.dom.(isInaccessible := other)), container, text, opts)
         == QueryAllByText(c, container, text, opts)
    ensures var norm := c.makeNormalizer(opts.NormalizerPart()).value;
      QueryAllByText(c, container, text, opts).value
      == Filter(
           Filter(Candidates(c.dom, container, SelectorOf(opts)), n => PassesIgnore(c.dom, IgnoreOf(c.config, opts), n)),
           n => PassesText(c, ExactOf(opts), text, norm, n))
  {
    var c' := c.(dom := c.dom.(isInaccessible := other));
    var cands := Candidates(c.dom, container, SelectorOf(opts));
    assert Candidates(c'.dom, container, SelectorOf(opts)) == cands;
    var ignore, excludeHidden := IgnoreOf(c.config, opts), ExcludeHiddenOf(c.config, opts);
    var norm := c.makeNormalizer(opts.NormalizerPart()).value;
    FilterAgree(cands, n => FirstFilter(c.dom, ignore, excludeHidden, n), n => FirstFilter(c'.dom, ignore, excludeHidden, n));
    FilterAgree(cands, n => FirstFilter(c.dom, ignore, excludeHidden, n), n => PassesIgnore(c.dom, ignore, n));
    var first := Filter(cands, n => FirstFilter(c.dom, ignore, excludeHidden, n));
    FilterAgree(first, n => PassesText(c, ExactOf(opts), text, norm, n), n => PassesText(c', ExactOf(opts), text, norm, n));
  }

  /** With `excludeHidden`, every result is accessible. */
  lemma ExcludeHiddenKeepsAccessible<N, M>(c: Collaborators<N, M>, container: N, text: M, opts: QueryOptions)
    requires QueryAllByText(c, container, text, opts).Success?
    requires ExcludeHiddenOf(c.config, opts)
    ensures forall k :: 0 <= k < |QueryAllByText(c, container, text, opts).value| ==>
      !c.dom.isInaccessible(QueryAllByText(c, container, text, opts).value[k])
  {
  }

  /** Every result is accepted by `matches` when `exact` holds and by `fuzzyMatches` otherwise. */
  lemma ResultsMatchText<N, M>(c: Collaborators<N, M>, container: N, text: M, opts: QueryOptions)
    requires QueryAllByText(c, container, text, opts).Success?
    ensures var r, norm := QueryAllByText(c, container, text, opts).value, c.makeNormalizer(opts.NormalizerPart()).value;
      forall k :: 0 <= k < |r| ==>
        if ExactOf(opts) then c.matches(c.dom.getNodeText(r[k]), r[k], text, norm)
        else c.fuzzyMatches(c.dom.getNodeText(r[k]), r[k], text, norm)
  {
  }

  /** Running the text stage before the ignore/visibility stage gives the same result. */
  lemma StageOrderIrrelevant<N, M>(c: Collaborators<N, M>, container: N, text: M, opts: QueryOptions, norm: Normalizer)
    ensures Pipeline(c, container, text, opts, norm)
         == Filter(
              Filter(Candidates(c.dom, container, SelectorOf(opts)), n => PassesText(c, ExactOf(opts), text, norm, n)),
              n => FirstFilter(c.dom, IgnoreOf(c.config, opts), ExcludeHiddenOf(c.config, opts), n))
  {
    FilterCommute(Candidates(c.dom, container, SelectorOf(opts)),
      n => FirstFilter(c.dom, IgnoreOf(c.config, opts), ExcludeHiddenOf(c.config, opts), n),
      n => PassesText(c, ExactOf(opts), text, norm, n));
  }

  /** When the DOM lists each strict descendant once, no node is returned twice. */
  lemma ResultDistinct<N, M>(c: Collaborators<N, M>, container: N, text: M, opts: QueryOptions)
    requires QueryAllByText(c, container, text, opts).Success?
    requires Distinct(c.dom.querySelectorAll(container, SelectorOf(opts)))
    requires container !in c.dom.querySelectorAll(container, SelectorOf(opts))
    ensures Distinct(QueryAllByText(c, container, text, opts).value)
  {
    var norm := c.makeNormalizer(opts.NormalizerPart()).value;
    var cands := Candidates(c.dom, container, SelectorOf(opts));
    var descendants := c.dom.querySelectorAll(container, SelectorOf(opts));
    assert Distinct(cands) by {
      forall i, j | 0 <= i < j < |cands| ensures cands[i] != cands[j] {
        if cands != descendants {
          assert cands == [container] + descendants;
          if i == 0 {
            assert cands[j] == descendants[j - 1];
          } else {
            assert cands[i] == descendants[i - 1] && cands[j] == descendants[j - 1];
          }
        }
      }
    }
    PipelineIsOneFilter(c, container, text, opts, norm);
    FilterDistinct(cands, n => Survives(c, text, opts, norm, n));
  }

  /** Leaving options undefined is the same as passing their defaults. */
  lemma DefaultOptions<N, M>(c: Collaborators<N, M>, container: N, text: M)
    ensures QueryAllByText(c, container, text, NoOptions)
         == QueryAllByText(c, container, text,
              QueryOptions(Some("*"), Some(true), None, None, Some(c.config.defaultIgnore), None,
                Some(c.config.defaultExcludeHiddenText)))
  {
  }
}
