/** The usage examples of `character_refinement`, each proved by evaluating the translation and the rules one at a time. */
module RefinementDoctests {
  import opened Text
  import opened Substitution
  import opened Rules
  import opened Refinement

  lemma KeshideExampleTranslate0(s: String)
    requires s == "رم\U{0640}\U{0640}\U{0640}\U{0640}ان"
    ensures forall k :: 0 <= k < 4 ==> Translate(s)[k] == "رم\U{0640}\U{0640}\U{0640}\U{0640}ان"[k]
  {
    forall k | 0 <= k < 4 ensures Translate(s)[k] == "رم\U{0640}\U{0640}\U{0640}\U{0640}ان"[k] {
      TranslateCharIs(s[k]);
    }
  }

  lemma KeshideExampleTranslate4(s: String)
    requires s == "رم\U{0640}\U{0640}\U{0640}\U{0640}ان"
    ensures forall k :: 4 <= k < 8 ==> Translate(s)[k] == "رم\U{0640}\U{0640}\U{0640}\U{0640}ان"[k]
  {
    forall k | 4 <= k < 8 ensures Translate(s)[k] == "رم\U{0640}\U{0640}\U{0640}\U{0640}ان"[k] {
      TranslateCharIs(s[k]);
    }
  }

  lemma KeshideExampleTranslate(s: String)
    requires s == "رم\U{0640}\U{0640}\U{0640}\U{0640}ان"
    ensures Translate(s) == "رم\U{0640}\U{0640}\U{0640}\U{0640}ان"
  {
    KeshideExampleTranslate0(s);
    KeshideExampleTranslate4(s);
  }

  lemma KeshideExampleExtraSpacesKeep0(s: String)
    requires s == "رم\U{0640}\U{0640}\U{0640}\U{0640}ان"
    ensures forall j :: 0 <= j < 8 && MatcherOf(ExtraSpaces)(s, j).Some? ==>
      MatcherOf(ExtraSpaces)(s, j).value.repl == s[j..j + MatcherOf(ExtraSpaces)(s, j).value.len]
  {
  }

  lemma KeshideExampleExtraSpaces(s: String)
    requires s == "رم\U{0640}\U{0640}\U{0640}\U{0640}ان"
    ensures Apply(ExtraSpaces, s) == s
  {
    KeshideExampleExtraSpacesKeep0(s);
    SubUnchanged(MatcherOf(ExtraSpaces), s, 0);
  }

  lemma KeshideExampleExtraNewlinesKeep0(s: String)
    requires s == "رم\U{0640}\U{0640}\U{0640}\U{0640}ان"
    ensures forall j :: 0 <= j < 8 && MatcherOf(ExtraNewlines)(s, j).Some? ==>
      MatcherOf(ExtraNewlines)(s, j).value.repl == s[j..j + MatcherOf(ExtraNewlines)(s, j).value.len]
  {
  }

  lemma KeshideExampleExtraNewlines(s: String)
    requires s == "رم\U{0640}\U{0640}\U{0640}\U{0640}ان"
    ensures Apply(ExtraNewlines, s) == s
  {
    KeshideExampleExtraNewlinesKeep0(s);
    SubUnchanged(MatcherOf(ExtraNewlines), s, 0);
  }

  lemma KeshideExampleKeshideRunGap0(s: String)
    requires s == "رم\U{0640}\U{0640}\U{0640}\U{0640}ان"
    ensures forall k :: 0 <= k < 2 ==> MatcherOf(KeshideRun)(s, k).None?
  {
    forall k | 0 <= k < 2 ensures MatcherOf(KeshideRun)(s, k).None? {
      assert MatchAt(KeshideRun, s, k).None?;
    }
  }

  lemma KeshideExampleKeshideRunGap6(s: String)
    requires s == "رم\U{0640}\U{0640}\U{0640}\U{0640}ان"
    ensures forall k :: 6 <= k < 8 ==> MatcherOf(KeshideRun)(s, k).None?
  {
    forall k | 6 <= k < 8 ensures MatcherOf(KeshideRun)(s, k).None? {
      assert MatchAt(KeshideRun, s, k).None?;
    }
  }

  lemma KeshideExampleKeshideRunMatch2(s: String)
    requires s == "رم\U{0640}\U{0640}\U{0640}\U{0640}ان"
    ensures MatcherOf(KeshideRun)(s, 2) == Some(Match(4, ""))
  {
    assert s[2] == '\U{0640}';
    assert s[3] == '\U{0640}';
    assert s[4] == '\U{0640}';
    assert s[5] == '\U{0640}';
    assert RunEnd(s, 6, {'\U{0640}'}) == 6;
    assert RunEnd(s, 5, {'\U{0640}'}) == 6;
    assert RunEnd(s, 4, {'\U{0640}'}) == 6;
    assert RunEnd(s, 3, {'\U{0640}'}) == 6;
    assert MatchAt(KeshideRun, s, 2) == Some(Match(4, ""));
  }

  lemma KeshideExampleKeshideRunFrom6(f: Matcher, s: String)
    requires Progresses(f) && |s| == 8
    requires forall k :: 6 <= k < 8 ==> f(s, k).None?
    ensures Sub(f, s, 6) == s[6..8]
  {
    SubCopies(f, s, 6, 8);
  }

  lemma KeshideExampleKeshideRunFrom2(f: Matcher, s: String)
    requires Progresses(f) && |s| == 8
    requires f(s, 2) == Some(Match(4, ""))
    requires forall k :: 6 <= k < 8 ==> f(s, k).None?
    ensures Sub(f, s, 2) == "" + s[6..8]
  {
    SubReplaces(f, s, 2);
    KeshideExampleKeshideRunFrom6(f, s);
  }

  lemma KeshideExampleKeshideRunFrom0(f: Matcher, s: String)
    requires Progresses(f) && |s| == 8
    requires forall k :: 0 <= k < 2 ==> f(s, k).None?
    requires f(s, 2) == Some(Match(4, ""))
    requires forall k :: 6 <= k < 8 ==> f(s, k).None?
    ensures Sub(f, s, 0) == s[0..2] + ("" + s[6..8])
  {
    SubCopies(f, s, 0, 2);
    KeshideExampleKeshideRunFrom2(f, s);
  }

  lemma KeshideExampleKeshideRunText(s: String, r: String)
    requires s == "رم\U{0640}\U{0640}\U{0640}\U{0640}ان"
    requires r == s[0..2] + ("" + s[6..8])
    ensures r == "رمان"
  {
  }

  lemma KeshideExampleKeshideRun(s: String)
    requires s == "رم\U{0640}\U{0640}\U{0640}\U{0640}ان"
    ensures Apply(KeshideRun, s) == "رمان"
  {
    KeshideExampleKeshideRunGap0(s);
    KeshideExampleKeshideRunGap6(s);
    KeshideExampleKeshideRunMatch2(s);
    KeshideExampleKeshideRunFrom0(MatcherOf(KeshideRun), s);
    KeshideExampleKeshideRunText(s, Apply(KeshideRun, s));
  }

  /** `character_refinement('رمــــان')` is 'رمان'. */
  lemma KeshideExample(s: String)
    requires s == "رم\U{0640}\U{0640}\U{0640}\U{0640}ان"
    ensures RefineCharacters(s) == "رمان"
  {
    ApplyAll3(ExtraSpaces, ExtraNewlines, KeshideRun, Translate(s));
    KeshideExampleTranslate(s);
    KeshideExampleExtraSpaces(Translate(s));
    KeshideExampleExtraNewlines(Apply(ExtraSpaces, Translate(s)));
    KeshideExampleKeshideRun(Apply(ExtraNewlines, Apply(ExtraSpaces, Translate(s))));
  }

  lemma ArabicLettersExampleTranslate0(s: String)
    requires s == (("اصلاح " + "كاف ") + ("و " + ("ياي " + "عربي")))
    ensures forall k :: 0 <= k < 4 ==> Translate(s)[k] == (("اصلاح " + "کاف ") + ("و " + ("یای " + "عربی")))[k]
  {
    forall k | 0 <= k < 4 ensures Translate(s)[k] == (("اصلاح " + "کاف ") + ("و " + ("یای " + "عربی")))[k] {
      TranslateCharIs(s[k]);
    }
  }

  lemma ArabicLettersExampleTranslate4(s: String)
    requires s == (("اصلاح " + "كاف ") + ("و " + ("ياي " + "عربي")))
    ensures forall k :: 4 <= k < 8 ==> Translate(s)[k] == (("اصلاح " + "کاف ") + ("و " + ("یای " + "عربی")))[k]
  {
    forall k | 4 <= k < 8 ensures Translate(s)[k] == (("اصلاح " + "کاف ") + ("و " + ("یای " + "عربی")))[k] {
      TranslateCharIs(s[k]);
    }
  }

  lemma ArabicLettersExampleTranslate8(s: String)
    requires s == (("اصلاح " + "كاف ") + ("و " + ("ياي " + "عربي")))
    ensures forall k :: 8 <= k < 12 ==> Translate(s)[k] == (("اصلاح " + "کاف ") + ("و " + ("یای " + "عربی")))[k]
  {
    forall k | 8 <= k < 12 ensures Translate(s)[k] == (("اصلاح " + "کاف ") + ("و " + ("یای " + "عربی")))[k] {
      TranslateCharIs(s[k]);
    }
  }

  lemma ArabicLettersExampleTranslate12(s: String)
    requires s == (("اصلاح " + "كاف ") + ("و " + ("ياي " + "عربي")))
    ensures forall k :: 12 <= k < 16 ==> Translate(s)[k] == (("اصلاح " + "کاف ") + ("و " + ("یای " + "عربی")))[k]
  {
    forall k | 12 <= k < 16 ensures Translate(s)[k] == (("اصلاح " + "کاف ") + ("و " + ("یای " + "عربی")))[k] {
      TranslateCharIs(s[k]);
    }
  }

  lemma ArabicLettersExampleTranslate16(s: String)
    requires s == (("اصلاح " + "كاف ") + ("و " + ("ياي " + "عربي")))
    ensures forall k :: 16 <= k < 20 ==> Translate(s)[k] == (("اصلاح " + "کاف ") + ("و " + ("یای " + "عربی")))[k]
  {
    forall k | 16 <= k < 20 ensures Translate(s)[k] == (("اصلاح " + "کاف ") + ("و " + ("یای " + "عربی")))[k] {
      TranslateCharIs(s[k]);
    }
  }

  lemma ArabicLettersExampleTranslate(s: String)
    requires s == (("اصلاح " + "كاف ") + ("و " + ("ياي " + "عربي")))
    ensures Translate(s) == (("اصلاح " + "کاف ") + ("و " + ("یای " + "عربی")))
  {
    ArabicLettersExampleTranslate0(s);
    ArabicLettersExampleTranslate4(s);
    ArabicLettersExampleTranslate8(s);
    ArabicLettersExampleTranslate12(s);
    ArabicLettersExampleTranslate16(s);
  }

  lemma ArabicLettersExampleExtraSpacesKeep0(s: String)
    requires s == (("اصلاح " + "کاف ") + ("و " + ("یای " + "عربی")))
    ensures forall j :: 0 <= j < 12 && MatcherOf(ExtraSpaces)(s, j).Some? ==>
      MatcherOf(ExtraSpaces)(s, j).value.repl == s[j..j + MatcherOf(ExtraSpaces)(s, j).value.len]
  {
    assert RunEnd(s, 6, {' '}) == 6;
    assert RunEnd(s, 10, {' '}) == 10;
    assert RunEnd(s, 12, {' '}) == 12;
  }

  lemma ArabicLettersExampleExtraSpacesKeep12(s: String)
    requires s == (("اصلاح " + "کاف ") + ("و " + ("یای " + "عربی")))
    ensures forall j :: 12 <= j < 20 && MatcherOf(ExtraSpaces)(s, j).Some? ==>
      MatcherOf(ExtraSpaces)(s, j).value.repl == s[j..j + MatcherOf(ExtraSpaces)(s, j).value.len]
  {
    assert RunEnd(s, 16, {' '}) == 16;
  }

  lemma ArabicLettersExampleExtraSpaces(s: String)
    requires s == (("اصلاح " + "کاف ") + ("و " + ("یای " + "عربی")))
    ensures Apply(ExtraSpaces, s) == s
  {
    ArabicLettersExampleExtraSpacesKeep0(s);
    ArabicLettersExampleExtraSpacesKeep12(s);
    SubUnchanged(MatcherOf(ExtraSpaces), s, 0);
  }

  lemma ArabicLettersExampleExtraNewlinesKeep0(s: String)
    requires s == (("اصلاح " + "کاف ") + ("و " + ("یای " + "عربی")))
    ensures forall j :: 0 <= j < 12 && MatcherOf(ExtraNewlines)(s, j).Some? ==>
      MatcherOf(ExtraNewlines)(s, j).value.repl == s[j..j + MatcherOf(ExtraNewlines)(s, j).value.len]
  {
  }

  lemma ArabicLettersExampleExtraNewlinesKeep12(s: String)
    requires s == (("اصلاح " + "کاف ") + ("و " + ("یای " + "عربی")))
    ensures forall j :: 12 <= j < 20 && MatcherOf(ExtraNewlines)(s, j).Some? ==>
      MatcherOf(ExtraNewlines)(s, j).value.repl == s[j..j + MatcherOf(ExtraNewlines)(s, j).value.len]
  {
  }

  lemma ArabicLettersExampleExtraNewlines(s: String)
    requires s == (("اصلاح " + "کاف ") + ("و " + ("یای " + "عربی")))
    ensures Apply(ExtraNewlines, s) == s
  {
    ArabicLettersExampleExtraNewlinesKeep0(s);
    ArabicLettersExampleExtraNewlinesKeep12(s);
    SubUnchanged(MatcherOf(ExtraNewlines), s, 0);
  }

  lemma ArabicLettersExampleKeshideRunKeep0(s: String)
    requires s == (("اصلاح " + "کاف ") + ("و " + ("یای " + "عربی")))
    ensures forall j :: 0 <= j < 12 && MatcherOf(KeshideRun)(s, j).Some? ==>
      MatcherOf(KeshideRun)(s, j).value.repl == s[j..j + MatcherOf(KeshideRun)(s, j).value.len]
  {
  }

  lemma ArabicLettersExampleKeshideRunKeep12(s: String)
    requires s == (("اصلاح " + "کاف ") + ("و " + ("یای " + "عربی")))
    ensures forall j :: 12 <= j < 20 && MatcherOf(KeshideRun)(s, j).Some? ==>
      MatcherOf(KeshideRun)(s, j).value.repl == s[j..j + MatcherOf(KeshideRun)(s, j).value.len]
  {
  }

  lemma ArabicLettersExampleKeshideRun(s: String)
    requires s == (("اصلاح " + "کاف ") + ("و " + ("یای " + "عربی")))
    ensures Apply(KeshideRun, s) == s
  {
    ArabicLettersExampleKeshideRunKeep0(s);
    ArabicLettersExampleKeshideRunKeep12(s);
    SubUnchanged(MatcherOf(KeshideRun), s, 0);
  }

  lemma ArabicLettersExampleInput(s: String)
    requires s == "اصلاح كاف و ياي عربي"
    ensures s == (("اصلاح " + "كاف ") + ("و " + ("ياي " + "عربي")))
  {
  }

  lemma ArabicLettersExampleOutput(t: String)
    requires t == (("اصلاح " + "کاف ") + ("و " + ("یای " + "عربی")))
    ensures t == "اصلاح کاف و یای عربی"
  {
  }

  /** `character_refinement('اصلاح كاف و ياي عربي')` is 'اصلاح کاف و یای عربی'. */
  lemma ArabicLettersExample(s: String)
    requires s == "اصلاح كاف و ياي عربي"
    ensures RefineCharacters(s) == "اصلاح کاف و یای عربی"
  {
    ArabicLettersExampleInput(s);
    ApplyAll3(ExtraSpaces, ExtraNewlines, KeshideRun, Translate(s));
    ArabicLettersExampleTranslate(s);
    ArabicLettersExampleExtraSpaces(Translate(s));
    ArabicLettersExampleExtraNewlines(Apply(ExtraSpaces, Translate(s)));
    ArabicLettersExampleKeshideRun(Apply(ExtraNewlines, Apply(ExtraSpaces, Translate(s))));
    ArabicLettersExampleOutput(RefineCharacters(s));
  }

  lemma DoubleSpaceExampleTranslate0(s: String)
    requires s == " \U{0640} "
    ensures forall k :: 0 <= k < 3 ==> Translate(s)[k] == " \U{0640} "[k]
  {
    forall k | 0 <= k < 3 ensures Translate(s)[k] == " \U{0640} "[k] {
      TranslateCharIs(s[k]);
    }
  }

  lemma DoubleSpaceExampleTranslate(s: String)
    requires s == " \U{0640} "
    ensures Translate(s) == " \U{0640} "
  {
    DoubleSpaceExampleTranslate0(s);
  }

  lemma DoubleSpaceExampleExtraSpacesKeep0(s: String)
    requires s == " \U{0640} "
    ensures forall j :: 0 <= j < 3 && MatcherOf(ExtraSpaces)(s, j).Some? ==>
      MatcherOf(ExtraSpaces)(s, j).value.repl == s[j..j + MatcherOf(ExtraSpaces)(s, j).value.len]
  {
    assert RunEnd(s, 1, {' '}) == 1;
    assert RunEnd(s, 3, {' '}) == 3;
  }

  lemma DoubleSpaceExampleExtraSpaces(s: String)
    requires s == " \U{0640} "
    ensures Apply(ExtraSpaces, s) == s
  {
    DoubleSpaceExampleExtraSpacesKeep0(s);
    SubUnchanged(MatcherOf(ExtraSpaces), s, 0);
  }

  lemma DoubleSpaceExampleExtraNewlinesKeep0(s: String)
    requires s == " \U{0640} "
    ensures forall j :: 0 <= j < 3 && MatcherOf(ExtraNewlines)(s, j).Some? ==>
      MatcherOf(ExtraNewlines)(s, j).value.repl == s[j..j + MatcherOf(ExtraNewlines)(s, j).value.len]
  {
  }

  lemma DoubleSpaceExampleExtraNewlines(s: String)
    requires s == " \U{0640} "
    ensures Apply(ExtraNewlines, s) == s
  {
    DoubleSpaceExampleExtraNewlinesKeep0(s);
    SubUnchanged(MatcherOf(ExtraNewlines), s, 0);
  }

  lemma DoubleSpaceExampleKeshideRunGap0(s: String)
    requires s == " \U{0640} "
    ensures forall k :: 0 <= k < 1 ==> MatcherOf(KeshideRun)(s, k).None?
  {
    forall k | 0 <= k < 1 ensures MatcherOf(KeshideRun)(s, k).None? {
      assert MatchAt(KeshideRun, s, k).None?;
    }
  }

  lemma DoubleSpaceExampleKeshideRunGap2(s: String)
    requires s == " \U{0640} "
    ensures forall k :: 2 <= k < 3 ==> MatcherOf(KeshideRun)(s, k).None?
  {
    forall k | 2 <= k < 3 ensures MatcherOf(KeshideRun)(s, k).None? {
      assert MatchAt(KeshideRun, s, k).None?;
    }
  }

  lemma DoubleSpaceExampleKeshideRunMatch1(s: String)
    requires s == " \U{0640} "
    ensures MatcherOf(KeshideRun)(s, 1) == Some(Match(1, ""))
  {
    assert s[1] == '\U{0640}';
    assert RunEnd(s, 2, {'\U{0640}'}) == 2;
    assert MatchAt(KeshideRun, s, 1) == Some(Match(1, ""));
  }

  lemma DoubleSpaceExampleKeshideRunFrom2(f: Matcher, s: String)
    requires Progresses(f) && |s| == 3
    requires forall k :: 2 <= k < 3 ==> f(s, k).None?
    ensures Sub(f, s, 2) == s[2..3]
  {
    SubCopies(f, s, 2, 3);
  }

  lemma DoubleSpaceExampleKeshideRunFrom1(f: Matcher, s: String)
    requires Progresses(f) && |s| == 3
    requires f(s, 1) == Some(Match(1, ""))
    requires forall k :: 2 <= k < 3 ==> f(s, k).None?
    ensures Sub(f, s, 1) == "" + s[2..3]
  {
    SubReplaces(f, s, 1);
    DoubleSpaceExampleKeshideRunFrom2(f, s);
  }

  lemma DoubleSpaceExampleKeshideRunFrom0(f: Matcher, s: String)
    requires Progresses(f) && |s| == 3
    requires forall k :: 0 <= k < 1 ==> f(s, k).None?
    requires f(s, 1) == Some(Match(1, ""))
    requires forall k :: 2 <= k < 3 ==> f(s, k).None?
    ensures Sub(f, s, 0) == s[0..1] + ("" + s[2..3])
  {
    SubCopies(f, s, 0, 1);
    DoubleSpaceExampleKeshideRunFrom1(f, s);
  }

  lemma DoubleSpaceExampleKeshideRunText(s: String, r: String)
    requires s == " \U{0640} "
    requires r == s[0..1] + ("" + s[2..3])
    ensures r == "  "
  {
  }

  lemma DoubleSpaceExampleKeshideRun(s: String)
    requires s == " \U{0640} "
    ensures Apply(KeshideRun, s) == "  "
  {
    DoubleSpaceExampleKeshideRunGap0(s);
    DoubleSpaceExampleKeshideRunGap2(s);
    DoubleSpaceExampleKeshideRunMatch1(s);
    DoubleSpaceExampleKeshideRunFrom0(MatcherOf(KeshideRun), s);
    DoubleSpaceExampleKeshideRunText(s, Apply(KeshideRun, s));
  }

  /** Keshide deletion runs after the space collapse, so `' ـ '` comes out as two spaces. */
  lemma DoubleSpaceExample(s: String)
    requires s == " \U{0640} "
    ensures RefineCharacters(s) == "  "
  {
    ApplyAll3(ExtraSpaces, ExtraNewlines, KeshideRun, Translate(s));
    DoubleSpaceExampleTranslate(s);
    DoubleSpaceExampleExtraSpaces(Translate(s));
    DoubleSpaceExampleExtraNewlines(Apply(ExtraSpaces, Translate(s)));
    DoubleSpaceExampleKeshideRun(Apply(ExtraNewlines, Apply(ExtraSpaces, Translate(s))));
  }

  /** So the refined text may hold two spaces in a row. */
  lemma RefinementMayLeaveDoubleSpace()
    ensures !NoAdjacent(RefineCharacters(" \U{0640} "), Space)
  {
    DoubleSpaceExample(" \U{0640} ");
    assert RefineCharacters(" \U{0640} ")[0] == Space && RefineCharacters(" \U{0640} ")[1] == Space;
  }
}
