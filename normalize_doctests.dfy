/** A text on which `normalize` is not idempotent: the suffix rule consumes the space after a
    suffix, so a second suffix right behind it is joined only by a second call. */
module NormalizeDoctests {
  import opened Text
  import opened Substitution
  import opened Rules
  import opened Refinement
  import opened Punctuation
  import opened Affix
  import opened Normalizing

  /** The letters of the example: ب ز ر گ ت ه ا, ZWNJ and the space. */
  predicate IsPlain(c: char)
  {
    c == 'ب' || c == 'ز' || c == 'ر' || c == 'گ' || c == 'ت' || c == 'ه' || c == 'ا' || c == Zwnj || c == Space
  }

  /** Such letters are none of the characters refinement rewrites, no punctuation and no
      Persian yeh. */
  lemma PlainFacts(s: String)
    requires forall k :: 0 <= k < |s| ==> IsPlain(s[k])
    ensures forall k :: 0 <= k < |s| ==>
      !IsTranslated(s[k]) && s[k] != Newline && s[k] != CarriageReturn && s[k] != Keshide
    ensures !HasPunctuation(s)
    ensures PersianYeh !in s
  {
  }

  /** On such letters without two spaces in a row, refinement and punctuation spacing change
      nothing, and of the affix rules only the suffix rule can. */
  lemma OnlySuffixRuleApplies(s: String)
    requires forall k :: 0 <= k < |s| ==> IsPlain(s[k])
    requires NoAdjacent(s, Space)
    ensures NormalizeSpec(true, true, true, s) == Apply(ZwnjBeforeSuffix, s)
  {
    PlainFacts(s);
    RefineUnchanged(s);
    SpacePunctuationWithoutPunctuation(s);
    SpaceAffixesWithoutYeh(s);
  }

  /** The first pass normalizes the example to the suffix rule's output. */
  lemma FirstNormalize(s: String)
    requires s == "بزرگ تر ها "
    ensures NormalizeSpec(true, true, true, s) == "بزرگ\U{200C}تر ها "
  {
    assert forall k :: 0 <= k < |s| ==> IsPlain(s[k]);
    assert NoAdjacent(s, Space);
    OnlySuffixRuleApplies(s);
    FirstPass(s);
  }

  /** The second pass joins the remaining suffix. */
  lemma SecondNormalize(s: String)
    requires s == "بزرگ\U{200C}تر ها "
    ensures NormalizeSpec(true, true, true, s) == "بزرگ\U{200C}تر\U{200C}ها "
  {
    assert forall k :: 0 <= k < |s| ==> IsPlain(s[k]);
    assert NoAdjacent(s, Space);
    OnlySuffixRuleApplies(s);
    SecondPass(s);
  }

  /** First call: only the space before تر is joined; the match ends on the space before ها. */
  lemma FirstPass(s: String)
    requires s == "بزرگ تر ها "
    ensures Apply(ZwnjBeforeSuffix, s) == "بزرگ\U{200C}تر ها "
  {
    var f := MatcherOf(ZwnjBeforeSuffix);
    forall k | 0 <= k < 4 ensures f(s, k).None? {
      assert s[k] != ' ';
    }
    assert SuffixAt(s, 5) == 2;
    SubFirstMatch(f, s, 0, 4);
    forall k | 8 <= k < 11 ensures f(s, k).None? {
      assert s[k] != ' ' || SuffixAt(s, k + 1) == 0;
    }
    SubCopies(f, s, 8, 11);
    assert Sub(f, s, 0) == s[..4] + ([Zwnj] + s[5..7] + [' ']) + (s[8..11] + []);
  }

  /** Second call: the space before ها is now joined as well. */
  lemma SecondPass(s: String)
    requires s == "بزرگ\U{200C}تر ها "
    ensures Apply(ZwnjBeforeSuffix, s) == "بزرگ\U{200C}تر\U{200C}ها "
  {
    var f := MatcherOf(ZwnjBeforeSuffix);
    forall k | 0 <= k < 7 ensures f(s, k).None? {
      assert s[k] != ' ';
    }
    assert SuffixAt(s, 8) == 2;
    SubFirstMatch(f, s, 0, 7);
    assert Sub(f, s, 0) == s[..7] + ([Zwnj] + s[8..10] + [' ']) + [];
  }

  /** `normalize("بزرگ تر ها ")` is `"بزرگ‌تر ها "`, and normalizing that again gives
      `"بزرگ‌تر‌ها "`: a second call can still change the text. */
  lemma NormalizeNotIdempotent(s: String)
    requires s == "بزرگ تر ها "
    ensures NormalizeSpec(true, true, true, s) == "بزرگ\U{200C}تر ها "
    ensures NormalizeSpec(true, true, true, NormalizeSpec(true, true, true, s)) == "بزرگ\U{200C}تر\U{200C}ها "
    ensures NormalizeSpec(true, true, true, NormalizeSpec(true, true, true, s)) != NormalizeSpec(true, true, true, s)
  {
    FirstNormalize(s);
    SecondNormalize(NormalizeSpec(true, true, true, s));
    assert NormalizeSpec(true, true, true, s)[7] != Zwnj;
  }
}
