/**
 * Two concrete DOM trees with nodes numbered 0, 1, 2. They show the
 * ignore and visibility stages of `queryAllByText` at work. The exact matcher
 * here compares normalized texts; the normalizer is the identity.
 */
module TextQueryScenarios {
  import opened Wrappers
  import opened Filtering
  import opened TextQueries

  /** An exact matcher for string criteria: equal after normalizing both sides. */
  function EqualsMatcher(): TextMatcher<int, string> {
    (t: string, n: int, criterion: string, norm: Normalizer) => norm(t) == norm(criterion)
  }

  /** Collaborators over a DOM, with an identity normalizer and the given configuration. */
  function Over(dom: Dom<int>, config: Config): Collaborators<int, string> {
    Collaborators(dom, EqualsMatcher(), EqualsMatcher(), _ => Success(s => s), config)
  }

  /** `<div><p>Hello World</p><p class="skip">Hello World</p></div>`: 0 is the div, 1 and 2 the paragraphs. */
  function SkipDom(): Dom<int> {
    Dom(
      n => true,
      n => true,
      (n, sel) => sel == "*" || (sel == ".skip" && n == 2),
      (n, sel) => if n == 0 && sel == "*" then [1, 2] else [],
      n => false,
      n => if n == 0 then "" else "Hello World")
  }

  /** With `ignore: '.skip'` only the first paragraph is found. */
  lemma IgnoreSkipScenario()
    ensures QueryAllByText(Over(SkipDom(), Config(IgnoreOff, true)), 0, "Hello World",
              NoOptions.(ignore := Some(IgnoreSelector(".skip")))) == Success([1])
  {
    var c := Over(SkipDom(), Config(IgnoreOff, true));
    var opts := NoOptions.(ignore := Some(IgnoreSelector(".skip")));
    var first := n => FirstFilter(c.dom, IgnoreSelector(".skip"), true, n);
    var text := n => PassesText(c, true, "Hello World", s => s, n);
    assert Candidates(c.dom, 0, "*") == [0, 1, 2];
    assert Filter([2], first) == [];
    assert Filter([1, 2], first) == [1];
    assert Filter([0, 1, 2], first) == [0, 1];
    assert Filter([1], text) == [1];
    assert Filter([0, 1], text) == [1];
  }

  /** With `ignore: false` both paragraphs are found, in document order. */
  lemma IgnoreOffScenario()
    ensures QueryAllByText(Over(SkipDom(), Config(IgnoreSelector(".skip"), true)), 0, "Hello World",
              NoOptions.(ignore := Some(IgnoreOff))) == Success([1, 2])
  {
    var c := Over(SkipDom(), Config(IgnoreSelector(".skip"), true));
    var first := n => FirstFilter(c.dom, IgnoreOff, true, n);
    var text := n => PassesText(c, true, "Hello World", s => s, n);
    assert Candidates(c.dom, 0, "*") == [0, 1, 2];
    assert Filter([2], first) == [2];
    assert Filter([1, 2], first) == [1, 2];
    assert Filter([0, 1, 2], first) == [0, 1, 2];
    assert Filter([2], text) == [2];
    assert Filter([1, 2], text) == [1, 2];
    assert Filter([0, 1, 2], text) == [1, 2];
  }

  /** `<div style="display:none"><span>Hi</span></div>`: 0 is the hidden div, 1 the span. */
  function HiddenDom(): Dom<int> {
    Dom(
      n => true,
      n => true,
      (n, sel) => sel == "*",
      (n, sel) => if n == 0 && sel == "*" then [1] else [],
      n => n == 0 || n == 1,
      n => if n == 1 then "Hi" else "")
  }

  /** With `excludeHidden` (here the configured default) the span is not found. */
  lemma HiddenExcludedScenario()
    ensures QueryAllByText(Over(HiddenDom(), Config(IgnoreOff, true)), 0, "Hi", NoOptions) == Success([])
  {
    var c := Over(HiddenDom(), Config(IgnoreOff, true));
    var first := n => FirstFilter(c.dom, IgnoreOff, true, n);
    assert Candidates(c.dom, 0, "*") == [0, 1];
    assert Filter([1], first) == [];
    assert Filter([0, 1], first) == [];
  }

  /** With `excludeHidden: false` the span is found. */
  lemma HiddenShownScenario()
    ensures QueryAllByText(Over(HiddenDom(), Config(IgnoreOff, true)), 0, "Hi",
              NoOptions.(excludeHidden := Some(false))) == Success([1])
  {
    var c := Over(HiddenDom(), Config(IgnoreOff, true));
    var first := n => FirstFilter(c.dom, IgnoreOff, false, n);
    var text := n => PassesText(c, true, "Hi", s => s, n);
    assert Candidates(c.dom, 0, "*") == [0, 1];
    assert Filter([1], first) == [1];
    assert Filter([0, 1], first) == [0, 1];
    assert Filter([1], text) == [1];
    assert Filter([0, 1], text) == [1];
  }
}
