/** The usage examples of `punctuation_spacing`, each proved by evaluating the rules one at a time. */
module PunctuationDoctests {
  import opened Text
  import opened Substitution
  import opened Rules
  import opened Punctuation

  lemma PunctuationExampleRemoveSpaceBeforeGap0(s: String)
    requires s == ((("اصلاح " + "( ") + ("پرانتز" + "ها ")) + ((") " + "در ") + ("متن " + ".")))
    ensures forall k :: 0 <= k < 12 ==> MatcherOf(RemoveSpaceBefore)(s, k).None?
  {
    forall k | 0 <= k < 12 ensures MatcherOf(RemoveSpaceBefore)(s, k).None? {
      assert MatchAt(RemoveSpaceBefore, s, k).None?;
    }
  }

  lemma PunctuationExampleRemoveSpaceBeforeGap12(s: String)
    requires s == ((("اصلاح " + "( ") + ("پرانتز" + "ها ")) + ((") " + "در ") + ("متن " + ".")))
    ensures forall k :: 12 <= k < 16 ==> MatcherOf(RemoveSpaceBefore)(s, k).None?
  {
    forall k | 12 <= k < 16 ensures MatcherOf(RemoveSpaceBefore)(s, k).None? {
      assert MatchAt(RemoveSpaceBefore, s, k).None?;
    }
  }

  lemma PunctuationExampleRemoveSpaceBeforeGap18(s: String)
    requires s == ((("اصلاح " + "( ") + ("پرانتز" + "ها ")) + ((") " + "در ") + ("متن " + ".")))
    ensures forall k :: 18 <= k < 25 ==> MatcherOf(RemoveSpaceBefore)(s, k).None?
  {
    forall k | 18 <= k < 25 ensures MatcherOf(RemoveSpaceBefore)(s, k).None? {
      assert MatchAt(RemoveSpaceBefore, s, k).None?;
    }
  }

  lemma PunctuationExampleRemoveSpaceBeforeMatch16(s: String)
    requires s == ((("اصلاح " + "( ") + ("پرانتز" + "ها ")) + ((") " + "در ") + ("متن " + ".")))
    ensures MatcherOf(RemoveSpaceBefore)(s, 16) == Some(Match(2, ")"))
  {
    assert s[16] == ' ';
    assert s[17] == ')';
    assert MatchAt(RemoveSpaceBefore, s, 16) == Some(Match(2, ")"));
  }

  lemma PunctuationExampleRemoveSpaceBeforeMatch25(s: String)
    requires s == ((("اصلاح " + "( ") + ("پرانتز" + "ها ")) + ((") " + "در ") + ("متن " + ".")))
    ensures MatcherOf(RemoveSpaceBefore)(s, 25) == Some(Match(2, "."))
  {
    assert s[25] == ' ';
    assert s[26] == '.';
    assert MatchAt(RemoveSpaceBefore, s, 25) == Some(Match(2, "."));
  }

  lemma PunctuationExampleRemoveSpaceBeforeFrom25(f: Matcher, s: String)
    requires Progresses(f) && |s| == 27
    requires f(s, 25) == Some(Match(2, "."))
    ensures Sub(f, s, 25) == "."
  {
    SubReplaces(f, s, 25);
  }

  lemma PunctuationExampleRemoveSpaceBeforeFrom18(f: Matcher, s: String)
    requires Progresses(f) && |s| == 27
    requires forall k :: 18 <= k < 25 ==> f(s, k).None?
    requires f(s, 25) == Some(Match(2, "."))
    ensures Sub(f, s, 18) == s[18..25] + "."
  {
    SubCopies(f, s, 18, 25);
    PunctuationExampleRemoveSpaceBeforeFrom25(f, s);
  }

  lemma PunctuationExampleRemoveSpaceBeforeFrom16(f: Matcher, s: String)
    requires Progresses(f) && |s| == 27
    requires f(s, 16) == Some(Match(2, ")"))
    requires forall k :: 18 <= k < 25 ==> f(s, k).None?
    requires f(s, 25) == Some(Match(2, "."))
    ensures Sub(f, s, 16) == ")" + (s[18..25] + ".")
  {
    SubReplaces(f, s, 16);
    PunctuationExampleRemoveSpaceBeforeFrom18(f, s);
  }

  lemma PunctuationExampleRemoveSpaceBeforeFrom0(f: Matcher, s: String)
    requires Progresses(f) && |s| == 27
    requires forall k :: 0 <= k < 16 ==> f(s, k).None?
    requires f(s, 16) == Some(Match(2, ")"))
    requires forall k :: 18 <= k < 25 ==> f(s, k).None?
    requires f(s, 25) == Some(Match(2, "."))
    ensures Sub(f, s, 0) == s[0..16] + (")" + (s[18..25] + "."))
  {
    SubCopies(f, s, 0, 16);
    PunctuationExampleRemoveSpaceBeforeFrom16(f, s);
  }

  lemma PunctuationExampleRemoveSpaceBeforeText(s: String, r: String)
    requires s == ((("اصلاح " + "( ") + ("پرانتز" + "ها ")) + ((") " + "در ") + ("متن " + ".")))
    requires r == s[0..16] + (")" + (s[18..25] + "."))
    ensures r == (("اصلاح " + ("( " + "پرانتز")) + ("ها) " + ("در " + "متن.")))
  {
  }

  lemma PunctuationExampleRemoveSpaceBefore(s: String)
    requires s == ((("اصلاح " + "( ") + ("پرانتز" + "ها ")) + ((") " + "در ") + ("متن " + ".")))
    ensures Apply(RemoveSpaceBefore, s) == (("اصلاح " + ("( " + "پرانتز")) + ("ها) " + ("در " + "متن.")))
  {
    PunctuationExampleRemoveSpaceBeforeGap0(s);
    PunctuationExampleRemoveSpaceBeforeGap12(s);
    PunctuationExampleRemoveSpaceBeforeGap18(s);
    PunctuationExampleRemoveSpaceBeforeMatch16(s);
    PunctuationExampleRemoveSpaceBeforeMatch25(s);
    PunctuationExampleRemoveSpaceBeforeFrom0(MatcherOf(RemoveSpaceBefore), s);
    PunctuationExampleRemoveSpaceBeforeText(s, Apply(RemoveSpaceBefore, s));
  }

  lemma PunctuationExampleRemoveSpaceAfterGap0(s: String)
    requires s == (("اصلاح " + ("( " + "پرانتز")) + ("ها) " + ("در " + "متن.")))
    ensures forall k :: 0 <= k < 6 ==> MatcherOf(RemoveSpaceAfter)(s, k).None?
  {
    forall k | 0 <= k < 6 ensures MatcherOf(RemoveSpaceAfter)(s, k).None? {
      assert MatchAt(RemoveSpaceAfter, s, k).None?;
    }
  }

  lemma PunctuationExampleRemoveSpaceAfterGap8(s: String)
    requires s == (("اصلاح " + ("( " + "پرانتز")) + ("ها) " + ("در " + "متن.")))
    ensures forall k :: 8 <= k < 20 ==> MatcherOf(RemoveSpaceAfter)(s, k).None?
  {
    forall k | 8 <= k < 20 ensures MatcherOf(RemoveSpaceAfter)(s, k).None? {
      assert MatchAt(RemoveSpaceAfter, s, k).None?;
    }
  }

  lemma PunctuationExampleRemoveSpaceAfterGap20(s: String)
    requires s == (("اصلاح " + ("( " + "پرانتز")) + ("ها) " + ("در " + "متن.")))
    ensures forall k :: 20 <= k < 25 ==> MatcherOf(RemoveSpaceAfter)(s, k).None?
  {
    forall k | 20 <= k < 25 ensures MatcherOf(RemoveSpaceAfter)(s, k).None? {
      assert MatchAt(RemoveSpaceAfter, s, k).None?;
    }
  }

  lemma PunctuationExampleRemoveSpaceAfterMatch6(s: String)
    requires s == (("اصلاح " + ("( " + "پرانتز")) + ("ها) " + ("در " + "متن.")))
    ensures MatcherOf(RemoveSpaceAfter)(s, 6) == Some(Match(2, "("))
  {
    assert s[6] == '(';
    assert s[7] == ' ';
    assert MatchAt(RemoveSpaceAfter, s, 6) == Some(Match(2, "("));
  }

  lemma PunctuationExampleRemoveSpaceAfterFrom8(f: Matcher, s: String)
    requires Progresses(f) && |s| == 25
    requires forall k :: 8 <= k < 25 ==> f(s, k).None?
    ensures Sub(f, s, 8) == s[8..25]
  {
    SubCopies(f, s, 8, 25);
  }

  lemma PunctuationExampleRemoveSpaceAfterFrom6(f: Matcher, s: String)
    requires Progresses(f) && |s| == 25
    requires f(s, 6) == Some(Match(2, "("))
    requires forall k :: 8 <= k < 25 ==> f(s, k).None?
    ensures Sub(f, s, 6) == "(" + s[8..25]
  {
    SubReplaces(f, s, 6);
    PunctuationExampleRemoveSpaceAfterFrom8(f, s);
  }

  lemma PunctuationExampleRemoveSpaceAfterFrom0(f: Matcher, s: String)
    requires Progresses(f) && |s| == 25
    requires forall k :: 0 <= k < 6 ==> f(s, k).None?
    requires f(s, 6) == Some(Match(2, "("))
    requires forall k :: 8 <= k < 25 ==> f(s, k).None?
    ensures Sub(f, s, 0) == s[0..6] + ("(" + s[8..25])
  {
    SubCopies(f, s, 0, 6);
    PunctuationExampleRemoveSpaceAfterFrom6(f, s);
  }

  lemma PunctuationExampleRemoveSpaceAfterText(s: String, r: String)
    requires s == (("اصلاح " + ("( " + "پرانتز")) + ("ها) " + ("در " + "متن.")))
    requires r == s[0..6] + ("(" + s[8..25])
    ensures r == (("اصلاح " + "(پرانت") + ("زها) " + ("در " + "متن.")))
  {
  }

  lemma PunctuationExampleRemoveSpaceAfter(s: String)
    requires s == (("اصلاح " + ("( " + "پرانتز")) + ("ها) " + ("در " + "متن.")))
    ensures Apply(RemoveSpaceAfter, s) == (("اصلاح " + "(پرانت") + ("زها) " + ("در " + "متن.")))
  {
    PunctuationExampleRemoveSpaceAfterGap0(s);
    PunctuationExampleRemoveSpaceAfterGap8(s);
    PunctuationExampleRemoveSpaceAfterGap20(s);
    PunctuationExampleRemoveSpaceAfterMatch6(s);
    PunctuationExampleRemoveSpaceAfterFrom0(MatcherOf(RemoveSpaceAfter), s);
    PunctuationExampleRemoveSpaceAfterText(s, Apply(RemoveSpaceAfter, s));
  }

  lemma PunctuationExamplePutSpaceAfterKeep0(s: String)
    requires s == (("اصلاح " + "(پرانت") + ("زها) " + ("در " + "متن.")))
    ensures forall j :: 0 <= j < 12 && MatcherOf(PutSpaceAfter)(s, j).Some? ==>
      MatcherOf(PutSpaceAfter)(s, j).value.repl == s[j..j + MatcherOf(PutSpaceAfter)(s, j).value.len]
  {
  }

  lemma PunctuationExamplePutSpaceAfterKeep12(s: String)
    requires s == (("اصلاح " + "(پرانت") + ("زها) " + ("در " + "متن.")))
    ensures forall j :: 12 <= j < 24 && MatcherOf(PutSpaceAfter)(s, j).Some? ==>
      MatcherOf(PutSpaceAfter)(s, j).value.repl == s[j..j + MatcherOf(PutSpaceAfter)(s, j).value.len]
  {
  }

  lemma PunctuationExamplePutSpaceAfter(s: String)
    requires s == (("اصلاح " + "(پرانت") + ("زها) " + ("در " + "متن.")))
    ensures Apply(PutSpaceAfter, s) == s
  {
    PunctuationExamplePutSpaceAfterKeep0(s);
    PunctuationExamplePutSpaceAfterKeep12(s);
    SubUnchanged(MatcherOf(PutSpaceAfter), s, 0);
  }

  lemma PunctuationExamplePutSpaceBeforeKeep0(s: String)
    requires s == (("اصلاح " + "(پرانت") + ("زها) " + ("در " + "متن.")))
    ensures forall j :: 0 <= j < 12 && MatcherOf(PutSpaceBefore)(s, j).Some? ==>
      MatcherOf(PutSpaceBefore)(s, j).value.repl == s[j..j + MatcherOf(PutSpaceBefore)(s, j).value.len]
  {
  }

  lemma PunctuationExamplePutSpaceBeforeKeep12(s: String)
    requires s == (("اصلاح " + "(پرانت") + ("زها) " + ("در " + "متن.")))
    ensures forall j :: 12 <= j < 24 && MatcherOf(PutSpaceBefore)(s, j).Some? ==>
      MatcherOf(PutSpaceBefore)(s, j).value.repl == s[j..j + MatcherOf(PutSpaceBefore)(s, j).value.len]
  {
  }

  lemma PunctuationExamplePutSpaceBefore(s: String)
    requires s == (("اصلاح " + "(پرانت") + ("زها) " + ("در " + "متن.")))
    ensures Apply(PutSpaceBefore, s) == s
  {
    PunctuationExamplePutSpaceBeforeKeep0(s);
    PunctuationExamplePutSpaceBeforeKeep12(s);
    SubUnchanged(MatcherOf(PutSpaceBefore), s, 0);
  }

  lemma PunctuationExampleInput(s: String)
    requires s == "اصلاح ( پرانتزها ) در متن ."
    ensures s == ((("اصلاح " + "( ") + ("پرانتز" + "ها ")) + ((") " + "در ") + ("متن " + ".")))
  {
  }

  lemma PunctuationExampleOutput(t: String)
    requires t == (("اصلاح " + "(پرانت") + ("زها) " + ("در " + "متن.")))
    ensures t == "اصلاح (پرانتزها) در متن."
  {
  }

  /** `punctuation_spacing('اصلاح ( پرانتزها ) در متن .')` is 'اصلاح (پرانتزها) در متن.'. */
  lemma PunctuationExample(s: String)
    requires s == "اصلاح ( پرانتزها ) در متن ."
    ensures SpacePunctuation(s) == "اصلاح (پرانتزها) در متن."
  {
    PunctuationExampleInput(s);
    ApplyAll4(RemoveSpaceBefore, RemoveSpaceAfter, PutSpaceAfter, PutSpaceBefore, s);
    PunctuationExampleRemoveSpaceBefore(s);
    PunctuationExampleRemoveSpaceAfter(Apply(RemoveSpaceBefore, s));
    PunctuationExamplePutSpaceAfter(Apply(RemoveSpaceAfter, Apply(RemoveSpaceBefore, s)));
    PunctuationExamplePutSpaceBefore(Apply(PutSpaceAfter, Apply(RemoveSpaceAfter, Apply(RemoveSpaceBefore, s))));
    PunctuationExampleOutput(SpacePunctuation(s));
  }

  lemma SpaceBeforeRemovedOnceGap0(s: String)
    requires s == "a  ."
    ensures forall k :: 0 <= k < 2 ==> MatcherOf(RemoveSpaceBefore)(s, k).None?
  {
    forall k | 0 <= k < 2 ensures MatcherOf(RemoveSpaceBefore)(s, k).None? {
      assert MatchAt(RemoveSpaceBefore, s, k).None?;
    }
  }

  lemma SpaceBeforeRemovedOnceMatch2(s: String)
    requires s == "a  ."
    ensures MatcherOf(RemoveSpaceBefore)(s, 2) == Some(Match(2, "."))
  {
    assert s[2] == ' ';
    assert s[3] == '.';
    assert MatchAt(RemoveSpaceBefore, s, 2) == Some(Match(2, "."));
  }

  lemma SpaceBeforeRemovedOnceFrom2(f: Matcher, s: String)
    requires Progresses(f) && |s| == 4
    requires f(s, 2) == Some(Match(2, "."))
    ensures Sub(f, s, 2) == "."
  {
    SubReplaces(f, s, 2);
  }

  lemma SpaceBeforeRemovedOnceFrom0(f: Matcher, s: String)
    requires Progresses(f) && |s| == 4
    requires forall k :: 0 <= k < 2 ==> f(s, k).None?
    requires f(s, 2) == Some(Match(2, "."))
    ensures Sub(f, s, 0) == s[0..2] + "."
  {
    SubCopies(f, s, 0, 2);
    SpaceBeforeRemovedOnceFrom2(f, s);
  }

  lemma SpaceBeforeRemovedOnceText(s: String, r: String)
    requires s == "a  ."
    requires r == s[0..2] + "."
    ensures r == "a ."
  {
  }

  /** Matches do not overlap: of two spaces before a full stop only the one next to it goes. */
  lemma SpaceBeforeRemovedOnce(s: String)
    requires s == "a  ."
    ensures Apply(RemoveSpaceBefore, s) == "a ."
  {
    SpaceBeforeRemovedOnceGap0(s);
    SpaceBeforeRemovedOnceMatch2(s);
    SpaceBeforeRemovedOnceFrom0(MatcherOf(RemoveSpaceBefore), s);
    SpaceBeforeRemovedOnceText(s, Apply(RemoveSpaceBefore, s));
  }
}
