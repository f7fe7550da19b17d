/**
 * The two diagnostics of src/queries/text.ts: the message for "more than one
 * element matched" and the message for "no element matched".
 *
 * `toString` is JavaScript's string conversion of the text criterion; a
 * template literal `${text}` and `text.toString()` agree on strings,
 * regular expressions and functions, so one parameter serves both.
 */
module TextErrors {
  import opened Wrappers
  import opened TextQueries

  const MultiplePrefix: string := "Found multiple elements with the text: "
  const MissingPrefix: string := "Unable to find an element with the text: "
  const NormalizedFromOpen: string := " (normalized from '"
  const NormalizedFromClose: string := "')"
  const SelectorOpen: string := ", which matches selector '"
  const SelectorClose: string := "'"
  /** The hint that closes every missing-match message (its first character is the sentence's full stop). */
  const BrokenUpHint: string := "." + HintSentences
  const HintSentences: string := " This could be because the text is broken up by multiple elements. In this case, you can provide a function for your text matcher to make your matcher more flexible."

  /** `s` ends with `suffix`. */
  predicate EndsWith(s: string, suffix: string) {
    |suffix| <= |s| && s[|s| - |suffix|..] == suffix
  }

  /** `getMultipleError(c, text)`: the fixed prefix, then the criterion. */
  function GetMultipleError<M>(toString: M -> string, text: M): (r: string)
    ensures MultiplePrefix <= r
    ensures r[|MultiplePrefix|..] == toString(text)
  {
    MultiplePrefix + toString(text)
  }

  /** Two criteria give the same multiple-match message exactly when they print the same. */
  lemma MultipleErrorIdentifiesText<M>(toString: M -> string, a: M, b: M)
    ensures GetMultipleError(toString, a) == GetMultipleError(toString, b) <==> toString(a) == toString(b)
  {
    if GetMultipleError(toString, a) == GetMultipleError(toString, b) {
      assert GetMultipleError(toString, a)[|MultiplePrefix|..] == GetMultipleError(toString, b)[|MultiplePrefix|..];
    }
  }

  /** `(selector ?? '*') !== '*'`: an undefined (or `null`) selector counts as `*`. */
  predicate IsCustomSelector(selector: Option<string>) {
    selector.GetOr("*") != "*"
  }

  /** The text shown: the normalized text with its origin when normalizing changed it, else the raw text. */
  function ShownText(normalized: string, raw: string): string {
    if normalized != raw then normalized + NormalizedFromOpen + raw + NormalizedFromClose else raw
  }

  /** The selector clause, present only for a custom selector. */
  function SelectorClause(selector: Option<string>): string {
    if IsCustomSelector(selector) then SelectorOpen + (selector.value + SelectorClose) else ""
  }

  /** What follows the text clause: the selector clause, if any, then the hint. */
  function Tail(selector: Option<string>): (t: string)
    ensures |t| > 0 && (t[0] == ',' || t[0] == '.')
    ensures t[0] == ',' <==> IsCustomSelector(selector)
    ensures EndsWith(t, BrokenUpHint)
  {
    var clause := SelectorClause(selector);
    assert SelectorOpen[0] == ',' && BrokenUpHint[0] == '.';
    if IsCustomSelector(selector) then
      FirstOfConcat(clause, BrokenUpHint);
      FirstOfConcat(SelectorOpen, selector.value + SelectorClose);
      DropPrefix(clause, BrokenUpHint);
      clause + BrokenUpHint
    else
      assert clause + BrokenUpHint == BrokenUpHint;
      clause + BrokenUpHint
  }

  /**
   * `getMissingError(c, text, options)`. It throws when `makeNormalizer`
   * refuses the options; otherwise the message starts with the fixed prefix
   * and ends with the hint that the text may be split across elements.
   */
  function GetMissingError<M>(toString: M -> string, makeNormalizer: NormalizerFactory, text: M, opts: QueryOptions): (r: Result<string, string>)
    ensures makeNormalizer(opts.NormalizerPart()).Failure? ==>
      r == Failure(makeNormalizer(opts.NormalizerPart()).error)
    ensures makeNormalizer(opts.NormalizerPart()).Success? ==>
      r.Success? && MissingPrefix <= r.value && EndsWith(r.value, BrokenUpHint)
  {
    match makeNormalizer(opts.NormalizerPart())
    case Failure(e) => Failure(e)
    case Success(norm) =>
      var raw := toString(text);
      var shown, tail := ShownText(norm(raw), raw), Tail(opts.selector);
      Framed(MissingPrefix, shown, tail, BrokenUpHint);
      Success(MissingPrefix + (shown + tail))
  }

  /**
   * Right after the prefix, the message gives the normalized text followed
   * by "(normalized from '<raw>')" exactly when normalizing changed the raw
   * text; otherwise it gives the raw text, followed directly by the selector
   * clause or the hint.
   */
  lemma MissingErrorNormalizedClause<M>(toString: M -> string, makeNormalizer: NormalizerFactory, text: M, opts: QueryOptions)
    requires makeNormalizer(opts.NormalizerPart()).Success?
    ensures var r := GetMissingError(toString, makeNormalizer, text, opts).value;
      var norm, raw := makeNormalizer(opts.NormalizerPart()).value, toString(text);
      var body := r[|MissingPrefix|..];
      && (norm(raw) + NormalizedFromOpen + raw + NormalizedFromClose <= body <==> norm(raw) != raw)
      && (norm(raw) == raw ==> body == raw + Tail(opts.selector))
  {
    var norm, raw := makeNormalizer(opts.NormalizerPart()).value, toString(text);
    var shown := ShownText(norm(raw), raw);
    DropPrefix(MissingPrefix, shown + Tail(opts.selector));
    ShownTextClause(norm(raw), raw, Tail(opts.selector));
  }

  /** The "normalized from" clause can be read off the text clause and what follows it. */
  lemma ShownTextClause(normalized: string, raw: string, tail: string)
    requires |tail| > 0 && (tail[0] == ',' || tail[0] == '.')
    ensures normalized + NormalizedFromOpen + raw + NormalizedFromClose <= ShownText(normalized, raw) + tail
        <==> normalized != raw
  {
    var claim := normalized + NormalizedFromOpen + raw + NormalizedFromClose;
    var body := ShownText(normalized, raw) + tail;
    if normalized == raw {
      assert claim[|raw|] == NormalizedFromOpen[0] == ' ';
      assert body[|raw|] == tail[0];
    } else {
      assert ShownText(normalized, raw) == claim;
    }
  }

  /**
   * After the text clause the message continues with
   * ", which matches selector '<selector>'" exactly when the selector is
   * defined and not `*`; otherwise it continues with the hint alone.
   */
  lemma MissingErrorSelectorClause<M>(toString: M -> string, makeNormalizer: NormalizerFactory, text: M, opts: QueryOptions)
    requires makeNormalizer(opts.NormalizerPart()).Success?
    ensures var r := GetMissingError(toString, makeNormalizer, text, opts).value;
      var norm, raw := makeNormalizer(opts.NormalizerPart()).value, toString(text);
      var rest := r[|MissingPrefix| + |ShownText(norm(raw), raw)|..];
      && (SelectorOpen <= rest <==> IsCustomSelector(opts.selector))
      && (IsCustomSelector(opts.selector) ==> rest == SelectorOpen + (opts.selector.value + SelectorClose) + BrokenUpHint)
      && (!IsCustomSelector(opts.selector) ==> rest == BrokenUpHint)
  {
    var norm, raw := makeNormalizer(opts.NormalizerPart()).value, toString(text);
    DropTwo(MissingPrefix, ShownText(norm(raw), raw), Tail(opts.selector));
    TailClause(opts.selector);
  }

  /** The tail opens with the selector clause exactly for a custom selector. */
  lemma TailClause(selector: Option<string>)
    ensures SelectorOpen <= Tail(selector) <==> IsCustomSelector(selector)
    ensures IsCustomSelector(selector) ==> Tail(selector) == SelectorOpen + (selector.value + SelectorClose) + BrokenUpHint
    ensures !IsCustomSelector(selector) ==> Tail(selector) == BrokenUpHint
  {
    if IsCustomSelector(selector) {
      PrefixOfConcat(SelectorOpen, selector.value + SelectorClose, BrokenUpHint);
    } else {
      assert Tail(selector) == "" + BrokenUpHint == BrokenUpHint;
      assert Tail(selector)[0] != SelectorOpen[0];
    }
  }

  /** An undefined selector and the selector `*` give the same message. */
  lemma UndefinedSelectorIsStar<M>(toString: M -> string, makeNormalizer: NormalizerFactory, text: M, opts: QueryOptions)
    ensures GetMissingError(toString, makeNormalizer, text, opts.(selector := None))
         == GetMissingError(toString, makeNormalizer, text, opts.(selector := Some("*")))
  {
  }

  /* ----- facts about concatenation, kept apart from the long message texts ----- */

  lemma FirstOfConcat(a: string, b: string)
    requires |a| > 0
    ensures (a + b)[0] == a[0]
  {
  }

  lemma DropPrefix(p: string, s: string)
    ensures (p + s)[|p|..] == s
    ensures EndsWith(p + s, s)
  {
  }

  lemma DropTwo(p: string, m: string, t: string)
    ensures (p + (m + t))[|p| + |m|..] == t
  {
    assert p + (m + t) == (p + m) + t;
  }

  lemma PrefixOfConcat(a: string, b: string, c: string)
    ensures a <= (a + b) + c
  {
    assert ((a + b) + c)[..|a|] == a;
  }

  /** `p + (m + t)` starts with `p` and ends with whatever `t` ends with. */
  lemma Framed(p: string, m: string, t: string, h: string)
    requires EndsWith(t, h)
    ensures p <= p + (m + t) && EndsWith(p + (m + t), h)
  {
    var s := p + (m + t);
    assert s[|s| - |t|..] == t;
    assert s[|s| - |h|..] == t[|t| - |h|..];
  }
}
