/** The usage examples of `affix_spacing`, each proved by evaluating the rules one at a time. */
module AffixDoctests {
  import opened Text
  import opened Substitution
  import opened Rules
  import opened Affix

  lemma EzafeExampleFixYehSpaceGap0(s: String)
    requires s == "خانه ی پدری"
    ensures forall k :: 0 <= k < 2 ==> MatcherOf(FixYehSpace)(s, k).None?
  {
    forall k | 0 <= k < 2 ensures MatcherOf(FixYehSpace)(s, k).None? {
      assert MatchAt(FixYehSpace, s, k).None?;
    }
  }

  lemma EzafeExampleFixYehSpaceGap7(s: String)
    requires s == "خانه ی پدری"
    ensures forall k :: 7 <= k < 11 ==> MatcherOf(FixYehSpace)(s, k).None?
  {
    forall k | 7 <= k < 11 ensures MatcherOf(FixYehSpace)(s, k).None? {
      assert MatchAt(FixYehSpace, s, k).None?;
    }
  }

  lemma EzafeExampleFixYehSpaceMatch2(s: String)
    requires s == "خانه ی پدری"
    ensures MatcherOf(FixYehSpace)(s, 2) == Some(Match(5, "نه\U{200C}ی "))
  {
    assert s[2] == 'ن';
    assert s[3] == 'ه';
    assert s[4] == ' ';
    assert s[5] == 'ی';
    assert s[6] == ' ';
    assert MatchAt(FixYehSpace, s, 2) == Some(Match(5, "نه\U{200C}ی "));
  }

  lemma EzafeExampleFixYehSpaceFrom7(f: Matcher, s: String)
    requires Progresses(f) && |s| == 11
    requires forall k :: 7 <= k < 11 ==> f(s, k).None?
    ensures Sub(f, s, 7) == s[7..11]
  {
    SubCopies(f, s, 7, 11);
  }

  lemma EzafeExampleFixYehSpaceFrom2(f: Matcher, s: String)
    requires Progresses(f) && |s| == 11
    requires f(s, 2) == Some(Match(5, "نه\U{200C}ی "))
    requires forall k :: 7 <= k < 11 ==> f(s, k).None?
    ensures Sub(f, s, 2) == "نه\U{200C}ی " + s[7..11]
  {
    SubReplaces(f, s, 2);
    EzafeExampleFixYehSpaceFrom7(f, s);
  }

  lemma EzafeExampleFixYehSpaceFrom0(f: Matcher, s: String)
    requires Progresses(f) && |s| == 11
    requires forall k :: 0 <= k < 2 ==> f(s, k).None?
    requires f(s, 2) == Some(Match(5, "نه\U{200C}ی "))
    requires forall k :: 7 <= k < 11 ==> f(s, k).None?
    ensures Sub(f, s, 0) == s[0..2] + ("نه\U{200C}ی " + s[7..11])
  {
    SubCopies(f, s, 0, 2);
    EzafeExampleFixYehSpaceFrom2(f, s);
  }

  lemma EzafeExampleFixYehSpaceText(s: String, r: String)
    requires s == "خانه ی پدری"
    requires r == s[0..2] + ("نه\U{200C}ی " + s[7..11])
    ensures r == "خانه\U{200C}ی پدری"
  {
  }

  lemma EzafeExampleFixYehSpace(s: String)
    requires s == "خانه ی پدری"
    ensures Apply(FixYehSpace, s) == "خانه\U{200C}ی پدری"
  {
    EzafeExampleFixYehSpaceGap0(s);
    EzafeExampleFixYehSpaceGap7(s);
    EzafeExampleFixYehSpaceMatch2(s);
    EzafeExampleFixYehSpaceFrom0(MatcherOf(FixYehSpace), s);
    EzafeExampleFixYehSpaceText(s, Apply(FixYehSpace, s));
  }

  lemma EzafeExampleJoinMiToVerbKeep0(s: String)
    requires s == "خانه\U{200C}ی پدری"
    ensures forall j :: 0 <= j < 11 && MatcherOf(JoinMiToVerb)(s, j).Some? ==>
      MatcherOf(JoinMiToVerb)(s, j).value.repl == s[j..j + MatcherOf(JoinMiToVerb)(s, j).value.len]
  {
  }

  lemma EzafeExampleJoinMiToVerb(s: String)
    requires s == "خانه\U{200C}ی پدری"
    ensures Apply(JoinMiToVerb, s) == s
  {
    EzafeExampleJoinMiToVerbKeep0(s);
    SubUnchanged(MatcherOf(JoinMiToVerb), s, 0);
  }

  lemma EzafeExampleZwnjAfterMiKeep0(s: String)
    requires s == "خانه\U{200C}ی پدری"
    ensures forall j :: 0 <= j < 11 && MatcherOf(ZwnjAfterMi)(s, j).Some? ==>
      MatcherOf(ZwnjAfterMi)(s, j).value.repl == s[j..j + MatcherOf(ZwnjAfterMi)(s, j).value.len]
  {
  }

  lemma EzafeExampleZwnjAfterMi(s: String)
    requires s == "خانه\U{200C}ی پدری"
    ensures Apply(ZwnjAfterMi, s) == s
  {
    EzafeExampleZwnjAfterMiKeep0(s);
    SubUnchanged(MatcherOf(ZwnjAfterMi), s, 0);
  }

  lemma EzafeExampleZwnjBeforeSuffixKeep0(s: String)
    requires s == "خانه\U{200C}ی پدری"
    ensures forall j :: 0 <= j < 11 && MatcherOf(ZwnjBeforeSuffix)(s, j).Some? ==>
      MatcherOf(ZwnjBeforeSuffix)(s, j).value.repl == s[j..j + MatcherOf(ZwnjBeforeSuffix)(s, j).value.len]
  {
  }

  lemma EzafeExampleZwnjBeforeSuffix(s: String)
    requires s == "خانه\U{200C}ی پدری"
    ensures Apply(ZwnjBeforeSuffix, s) == s
  {
    EzafeExampleZwnjBeforeSuffixKeep0(s);
    SubUnchanged(MatcherOf(ZwnjBeforeSuffix), s, 0);
  }

  /** `affix_spacing('خانه ی پدری')` is 'خانه‌ی پدری'. */
  lemma EzafeExample(s: String)
    requires s == "خانه ی پدری"
    ensures SpaceAffixes(s) == "خانه\U{200C}ی پدری"
  {
    ApplyAll4(FixYehSpace, JoinMiToVerb, ZwnjAfterMi, ZwnjBeforeSuffix, s);
    EzafeExampleFixYehSpace(s);
    EzafeExampleJoinMiToVerb(Apply(FixYehSpace, s));
    EzafeExampleZwnjAfterMi(Apply(JoinMiToVerb, Apply(FixYehSpace, s)));
    EzafeExampleZwnjBeforeSuffix(Apply(ZwnjAfterMi, Apply(JoinMiToVerb, Apply(FixYehSpace, s))));
  }

  lemma MiExampleFixYehSpaceKeep0(s: String)
    requires s == "می روم"
    ensures forall j :: 0 <= j < 6 && MatcherOf(FixYehSpace)(s, j).Some? ==>
      MatcherOf(FixYehSpace)(s, j).value.repl == s[j..j + MatcherOf(FixYehSpace)(s, j).value.len]
  {
  }

  lemma MiExampleFixYehSpace(s: String)
    requires s == "می روم"
    ensures Apply(FixYehSpace, s) == s
  {
    MiExampleFixYehSpaceKeep0(s);
    SubUnchanged(MatcherOf(FixYehSpace), s, 0);
  }

  lemma MiExampleJoinMiToVerbGap4(s: String)
    requires s == "می روم"
    ensures forall k :: 4 <= k < 6 ==> MatcherOf(JoinMiToVerb)(s, k).None?
  {
    forall k | 4 <= k < 6 ensures MatcherOf(JoinMiToVerb)(s, k).None? {
      assert MatchAt(JoinMiToVerb, s, k).None?;
    }
  }

  lemma MiExampleJoinMiToVerbMatch0(s: String)
    requires s == "می روم"
    ensures MatcherOf(JoinMiToVerb)(s, 0) == Some(Match(4, "می\U{200C}ر"))
  {
    assert s[0] == 'م';
    assert s[1] == 'ی';
    assert s[2] == ' ';
    assert s[3] == 'ر';
    assert MatchAt(JoinMiToVerb, s, 0) == Some(Match(4, "می\U{200C}ر"));
  }

  lemma MiExampleJoinMiToVerbFrom4(f: Matcher, s: String)
    requires Progresses(f) && |s| == 6
    requires forall k :: 4 <= k < 6 ==> f(s, k).None?
    ensures Sub(f, s, 4) == s[4..6]
  {
    SubCopies(f, s, 4, 6);
  }

  lemma MiExampleJoinMiToVerbFrom0(f: Matcher, s: String)
    requires Progresses(f) && |s| == 6
    requires f(s, 0) == Some(Match(4, "می\U{200C}ر"))
    requires forall k :: 4 <= k < 6 ==> f(s, k).None?
    ensures Sub(f, s, 0) == "می\U{200C}ر" + s[4..6]
  {
    SubReplaces(f, s, 0);
    MiExampleJoinMiToVerbFrom4(f, s);
  }

  lemma MiExampleJoinMiToVerbText(s: String, r: String)
    requires s == "می روم"
    requires r == "می\U{200C}ر" + s[4..6]
    ensures r == "می\U{200C}روم"
  {
  }

  lemma MiExampleJoinMiToVerb(s: String)
    requires s == "می روم"
    ensures Apply(JoinMiToVerb, s) == "می\U{200C}روم"
  {
    MiExampleJoinMiToVerbGap4(s);
    MiExampleJoinMiToVerbMatch0(s);
    MiExampleJoinMiToVerbFrom0(MatcherOf(JoinMiToVerb), s);
    MiExampleJoinMiToVerbText(s, Apply(JoinMiToVerb, s));
  }

  lemma MiExampleZwnjAfterMiKeep0(s: String)
    requires s == "می\U{200C}روم"
    ensures forall j :: 0 <= j < 6 && MatcherOf(ZwnjAfterMi)(s, j).Some? ==>
      MatcherOf(ZwnjAfterMi)(s, j).value.repl == s[j..j + MatcherOf(ZwnjAfterMi)(s, j).value.len]
  {
  }

  lemma MiExampleZwnjAfterMi(s: String)
    requires s == "می\U{200C}روم"
    ensures Apply(ZwnjAfterMi, s) == s
  {
    MiExampleZwnjAfterMiKeep0(s);
    SubUnchanged(MatcherOf(ZwnjAfterMi), s, 0);
  }

  lemma MiExampleZwnjBeforeSuffixKeep0(s: String)
    requires s == "می\U{200C}روم"
    ensures forall j :: 0 <= j < 6 && MatcherOf(ZwnjBeforeSuffix)(s, j).Some? ==>
      MatcherOf(ZwnjBeforeSuffix)(s, j).value.repl == s[j..j + MatcherOf(ZwnjBeforeSuffix)(s, j).value.len]
  {
  }

  lemma MiExampleZwnjBeforeSuffix(s: String)
    requires s == "می\U{200C}روم"
    ensures Apply(ZwnjBeforeSuffix, s) == s
  {
    MiExampleZwnjBeforeSuffixKeep0(s);
    SubUnchanged(MatcherOf(ZwnjBeforeSuffix), s, 0);
  }

  /** `affix_spacing('می روم')` is 'می‌روم'. */
  lemma MiExample(s: String)
    requires s == "می روم"
    ensures SpaceAffixes(s) == "می\U{200C}روم"
  {
    ApplyAll4(FixYehSpace, JoinMiToVerb, ZwnjAfterMi, ZwnjBeforeSuffix, s);
    MiExampleFixYehSpace(s);
    MiExampleJoinMiToVerb(Apply(FixYehSpace, s));
    MiExampleZwnjAfterMi(Apply(JoinMiToVerb, Apply(FixYehSpace, s)));
    MiExampleZwnjBeforeSuffix(Apply(ZwnjAfterMi, Apply(JoinMiToVerb, Apply(FixYehSpace, s))));
  }

  lemma SuffixExampleFixYehSpaceKeep0(s: String)
    requires s == ((("فاصله " + ("میان " + "پیشوند")) + (" " + ("ها " + "و "))) + (("پسوند " + ("ها " + "را ")) + ("اصلاح " + ("می " + "کند."))))
    ensures forall j :: 0 <= j < 12 && MatcherOf(FixYehSpace)(s, j).Some? ==>
      MatcherOf(FixYehSpace)(s, j).value.repl == s[j..j + MatcherOf(FixYehSpace)(s, j).value.len]
  {
  }

  lemma SuffixExampleFixYehSpaceKeep12(s: String)
    requires s == ((("فاصله " + ("میان " + "پیشوند")) + (" " + ("ها " + "و "))) + (("پسوند " + ("ها " + "را ")) + ("اصلاح " + ("می " + "کند."))))
    ensures forall j :: 12 <= j < 24 && MatcherOf(FixYehSpace)(s, j).Some? ==>
      MatcherOf(FixYehSpace)(s, j).value.repl == s[j..j + MatcherOf(FixYehSpace)(s, j).value.len]
  {
  }

  lemma SuffixExampleFixYehSpaceKeep24(s: String)
    requires s == ((("فاصله " + ("میان " + "پیشوند")) + (" " + ("ها " + "و "))) + (("پسوند " + ("ها " + "را ")) + ("اصلاح " + ("می " + "کند."))))
    ensures forall j :: 24 <= j < 36 && MatcherOf(FixYehSpace)(s, j).Some? ==>
      MatcherOf(FixYehSpace)(s, j).value.repl == s[j..j + MatcherOf(FixYehSpace)(s, j).value.len]
  {
  }

  lemma SuffixExampleFixYehSpaceKeep36(s: String)
    requires s == ((("فاصله " + ("میان " + "پیشوند")) + (" " + ("ها " + "و "))) + (("پسوند " + ("ها " + "را ")) + ("اصلاح " + ("می " + "کند."))))
    ensures forall j :: 36 <= j < 48 && MatcherOf(FixYehSpace)(s, j).Some? ==>
      MatcherOf(FixYehSpace)(s, j).value.repl == s[j..j + MatcherOf(FixYehSpace)(s, j).value.len]
  {
  }

  lemma SuffixExampleFixYehSpace(s: String)
    requires s == ((("فاصله " + ("میان " + "پیشوند")) + (" " + ("ها " + "و "))) + (("پسوند " + ("ها " + "را ")) + ("اصلاح " + ("می " + "کند."))))
    ensures Apply(FixYehSpace, s) == s
  {
    SuffixExampleFixYehSpaceKeep0(s);
    SuffixExampleFixYehSpaceKeep12(s);
    SuffixExampleFixYehSpaceKeep24(s);
    SuffixExampleFixYehSpaceKeep36(s);
    SubUnchanged(MatcherOf(FixYehSpace), s, 0);
  }

  lemma SuffixExampleJoinMiToVerbGap0(s: String)
    requires s == ((("فاصله " + ("میان " + "پیشوند")) + (" " + ("ها " + "و "))) + (("پسوند " + ("ها " + "را ")) + ("اصلاح " + ("می " + "کند."))))
    ensures forall k :: 0 <= k < 12 ==> MatcherOf(JoinMiToVerb)(s, k).None?
  {
    forall k | 0 <= k < 12 ensures MatcherOf(JoinMiToVerb)(s, k).None? {
      assert MatchAt(JoinMiToVerb, s, k).None?;
    }
  }

  lemma SuffixExampleJoinMiToVerbGap12(s: String)
    requires s == ((("فاصله " + ("میان " + "پیشوند")) + (" " + ("ها " + "و "))) + (("پسوند " + ("ها " + "را ")) + ("اصلاح " + ("می " + "کند."))))
    ensures forall k :: 12 <= k < 24 ==> MatcherOf(JoinMiToVerb)(s, k).None?
  {
    forall k | 12 <= k < 24 ensures MatcherOf(JoinMiToVerb)(s, k).None? {
      assert MatchAt(JoinMiToVerb, s, k).None?;
    }
  }

  lemma SuffixExampleJoinMiToVerbGap24(s: String)
    requires s == ((("فاصله " + ("میان " + "پیشوند")) + (" " + ("ها " + "و "))) + (("پسوند " + ("ها " + "را ")) + ("اصلاح " + ("می " + "کند."))))
    ensures forall k :: 24 <= k < 36 ==> MatcherOf(JoinMiToVerb)(s, k).None?
  {
    forall k | 24 <= k < 36 ensures MatcherOf(JoinMiToVerb)(s, k).None? {
      assert MatchAt(JoinMiToVerb, s, k).None?;
    }
  }

  lemma SuffixExampleJoinMiToVerbGap36(s: String)
    requires s == ((("فاصله " + ("میان " + "پیشوند")) + (" " + ("ها " + "و "))) + (("پسوند " + ("ها " + "را ")) + ("اصلاح " + ("می " + "کند."))))
    ensures forall k :: 36 <= k < 40 ==> MatcherOf(JoinMiToVerb)(s, k).None?
  {
    forall k | 36 <= k < 40 ensures MatcherOf(JoinMiToVerb)(s, k).None? {
      assert MatchAt(JoinMiToVerb, s, k).None?;
    }
  }

  lemma SuffixExampleJoinMiToVerbGap45(s: String)
    requires s == ((("فاصله " + ("میان " + "پیشوند")) + (" " + ("ها " + "و "))) + (("پسوند " + ("ها " + "را ")) + ("اصلاح " + ("می " + "کند."))))
    ensures forall k :: 45 <= k < 48 ==> MatcherOf(JoinMiToVerb)(s, k).None?
  {
    forall k | 45 <= k < 48 ensures MatcherOf(JoinMiToVerb)(s, k).None? {
      assert MatchAt(JoinMiToVerb, s, k).None?;
    }
  }

  lemma SuffixExampleJoinMiToVerbMatch40(s: String)
    requires s == ((("فاصله " + ("میان " + "پیشوند")) + (" " + ("ها " + "و "))) + (("پسوند " + ("ها " + "را ")) + ("اصلاح " + ("می " + "کند."))))
    ensures MatcherOf(JoinMiToVerb)(s, 40) == Some(Match(5, " می\U{200C}ک"))
  {
    assert s[40] == ' ';
    assert s[41] == 'م';
    assert s[42] == 'ی';
    assert s[43] == ' ';
    assert s[44] == 'ک';
    assert MatchAt(JoinMiToVerb, s, 40) == Some(Match(5, " می\U{200C}ک"));
  }

  lemma SuffixExampleJoinMiToVerbFrom45(f: Matcher, s: String)
    requires Progresses(f) && |s| == 48
    requires forall k :: 45 <= k < 48 ==> f(s, k).None?
    ensures Sub(f, s, 45) == s[45..48]
  {
    SubCopies(f, s, 45, 48);
  }

  lemma SuffixExampleJoinMiToVerbFrom40(f: Matcher, s: String)
    requires Progresses(f) && |s| == 48
    requires f(s, 40) == Some(Match(5, " می\U{200C}ک"))
    requires forall k :: 45 <= k < 48 ==> f(s, k).None?
    ensures Sub(f, s, 40) == " می\U{200C}ک" + s[45..48]
  {
    SubReplaces(f, s, 40);
    SuffixExampleJoinMiToVerbFrom45(f, s);
  }

  lemma SuffixExampleJoinMiToVerbFrom0(f: Matcher, s: String)
    requires Progresses(f) && |s| == 48
    requires forall k :: 0 <= k < 40 ==> f(s, k).None?
    requires f(s, 40) == Some(Match(5, " می\U{200C}ک"))
    requires forall k :: 45 <= k < 48 ==> f(s, k).None?
    ensures Sub(f, s, 0) == s[0..40] + (" می\U{200C}ک" + s[45..48])
  {
    SubCopies(f, s, 0, 40);
    SuffixExampleJoinMiToVerbFrom40(f, s);
  }

  lemma SuffixExampleJoinMiToVerbText(s: String, r: String)
    requires s == ((("فاصله " + ("میان " + "پیشوند")) + (" " + ("ها " + "و "))) + (("پسوند " + ("ها " + "را ")) + ("اصلاح " + ("می " + "کند."))))
    requires r == s[0..40] + (" می\U{200C}ک" + s[45..48])
    ensures r == ((("فاصله " + ("میان " + "پیشوند")) + (" " + ("ها " + "و "))) + (("پسوند " + ("ها " + "را ")) + ("اصلاح " + ("می\U{200C}کند" + "."))))
  {
  }

  lemma SuffixExampleJoinMiToVerb(s: String)
    requires s == ((("فاصله " + ("میان " + "پیشوند")) + (" " + ("ها " + "و "))) + (("پسوند " + ("ها " + "را ")) + ("اصلاح " + ("می " + "کند."))))
    ensures Apply(JoinMiToVerb, s) == ((("فاصله " + ("میان " + "پیشوند")) + (" " + ("ها " + "و "))) + (("پسوند " + ("ها " + "را ")) + ("اصلاح " + ("می\U{200C}کند" + "."))))
  {
    SuffixExampleJoinMiToVerbGap0(s);
    SuffixExampleJoinMiToVerbGap12(s);
    SuffixExampleJoinMiToVerbGap24(s);
    SuffixExampleJoinMiToVerbGap36(s);
    SuffixExampleJoinMiToVerbGap45(s);
    SuffixExampleJoinMiToVerbMatch40(s);
    SuffixExampleJoinMiToVerbFrom0(MatcherOf(JoinMiToVerb), s);
    SuffixExampleJoinMiToVerbText(s, Apply(JoinMiToVerb, s));
  }

  lemma SuffixExampleZwnjAfterMiKeep0(s: String)
    requires s == ((("فاصله " + ("میان " + "پیشوند")) + (" " + ("ها " + "و "))) + (("پسوند " + ("ها " + "را ")) + ("اصلاح " + ("می\U{200C}کند" + "."))))
    ensures forall j :: 0 <= j < 12 && MatcherOf(ZwnjAfterMi)(s, j).Some? ==>
      MatcherOf(ZwnjAfterMi)(s, j).value.repl == s[j..j + MatcherOf(ZwnjAfterMi)(s, j).value.len]
  {
  }

  lemma SuffixExampleZwnjAfterMiKeep12(s: String)
    requires s == ((("فاصله " + ("میان " + "پیشوند")) + (" " + ("ها " + "و "))) + (("پسوند " + ("ها " + "را ")) + ("اصلاح " + ("می\U{200C}کند" + "."))))
    ensures forall j :: 12 <= j < 24 && MatcherOf(ZwnjAfterMi)(s, j).Some? ==>
      MatcherOf(ZwnjAfterMi)(s, j).value.repl == s[j..j + MatcherOf(ZwnjAfterMi)(s, j).value.len]
  {
  }

  lemma SuffixExampleZwnjAfterMiKeep24(s: String)
    requires s == ((("فاصله " + ("میان " + "پیشوند")) + (" " + ("ها " + "و "))) + (("پسوند " + ("ها " + "را ")) + ("اصلاح " + ("می\U{200C}کند" + "."))))
    ensures forall j :: 24 <= j < 36 && MatcherOf(ZwnjAfterMi)(s, j).Some? ==>
      MatcherOf(ZwnjAfterMi)(s, j).value.repl == s[j..j + MatcherOf(ZwnjAfterMi)(s, j).value.len]
  {
  }

  lemma SuffixExampleZwnjAfterMiKeep36(s: String)
    requires s == ((("فاصله " + ("میان " + "پیشوند")) + (" " + ("ها " + "و "))) + (("پسوند " + ("ها " + "را ")) + ("اصلاح " + ("می\U{200C}کند" + "."))))
    ensures forall j :: 36 <= j < 48 && MatcherOf(ZwnjAfterMi)(s, j).Some? ==>
      MatcherOf(ZwnjAfterMi)(s, j).value.repl == s[j..j + MatcherOf(ZwnjAfterMi)(s, j).value.len]
  {
  }

  lemma SuffixExampleZwnjAfterMi(s: String)
    requires s == ((("فاصله " + ("میان " + "پیشوند")) + (" " + ("ها " + "و "))) + (("پسوند " + ("ها " + "را ")) + ("اصلاح " + ("می\U{200C}کند" + "."))))
    ensures Apply(ZwnjAfterMi, s) == s
  {
    SuffixExampleZwnjAfterMiKeep0(s);
    SuffixExampleZwnjAfterMiKeep12(s);
    SuffixExampleZwnjAfterMiKeep24(s);
    SuffixExampleZwnjAfterMiKeep36(s);
    SubUnchanged(MatcherOf(ZwnjAfterMi), s, 0);
  }

  lemma SuffixExampleZwnjBeforeSuffixGap0(s: String)
    requires s == ((("فاصله " + ("میان " + "پیشوند")) + (" " + ("ها " + "و "))) + (("پسوند " + ("ها " + "را ")) + ("اصلاح " + ("می\U{200C}کند" + "."))))
    ensures forall k :: 0 <= k < 12 ==> MatcherOf(ZwnjBeforeSuffix)(s, k).None?
  {
    forall k | 0 <= k < 12 ensures MatcherOf(ZwnjBeforeSuffix)(s, k).None? {
      assert MatchAt(ZwnjBeforeSuffix, s, k).None?;
    }
  }

  lemma SuffixExampleZwnjBeforeSuffixGap12(s: String)
    requires s == ((("فاصله " + ("میان " + "پیشوند")) + (" " + ("ها " + "و "))) + (("پسوند " + ("ها " + "را ")) + ("اصلاح " + ("می\U{200C}کند" + "."))))
    ensures forall k :: 12 <= k < 17 ==> MatcherOf(ZwnjBeforeSuffix)(s, k).None?
  {
    forall k | 12 <= k < 17 ensures MatcherOf(ZwnjBeforeSuffix)(s, k).None? {
      assert MatchAt(ZwnjBeforeSuffix, s, k).None?;
    }
  }

  lemma SuffixExampleZwnjBeforeSuffixGap21(s: String)
    requires s == ((("فاصله " + ("میان " + "پیشوند")) + (" " + ("ها " + "و "))) + (("پسوند " + ("ها " + "را ")) + ("اصلاح " + ("می\U{200C}کند" + "."))))
    ensures forall k :: 21 <= k < 28 ==> MatcherOf(ZwnjBeforeSuffix)(s, k).None?
  {
    forall k | 21 <= k < 28 ensures MatcherOf(ZwnjBeforeSuffix)(s, k).None? {
      assert MatchAt(ZwnjBeforeSuffix, s, k).None?;
    }
  }

  lemma SuffixExampleZwnjBeforeSuffixGap32(s: String)
    requires s == ((("فاصله " + ("میان " + "پیشوند")) + (" " + ("ها " + "و "))) + (("پسوند " + ("ها " + "را ")) + ("اصلاح " + ("می\U{200C}کند" + "."))))
    ensures forall k :: 32 <= k < 44 ==> MatcherOf(ZwnjBeforeSuffix)(s, k).None?
  {
    forall k | 32 <= k < 44 ensures MatcherOf(ZwnjBeforeSuffix)(s, k).None? {
      assert MatchAt(ZwnjBeforeSuffix, s, k).None?;
    }
  }

  lemma SuffixExampleZwnjBeforeSuffixGap44(s: String)
    requires s == ((("فاصله " + ("میان " + "پیشوند")) + (" " + ("ها " + "و "))) + (("پسوند " + ("ها " + "را ")) + ("اصلاح " + ("می\U{200C}کند" + "."))))
    ensures forall k :: 44 <= k < 48 ==> MatcherOf(ZwnjBeforeSuffix)(s, k).None?
  {
    forall k | 44 <= k < 48 ensures MatcherOf(ZwnjBeforeSuffix)(s, k).None? {
      assert MatchAt(ZwnjBeforeSuffix, s, k).None?;
    }
  }

  lemma SuffixExampleZwnjBeforeSuffixMatch17(s: String)
    requires s == ((("فاصله " + ("میان " + "پیشوند")) + (" " + ("ها " + "و "))) + (("پسوند " + ("ها " + "را ")) + ("اصلاح " + ("می\U{200C}کند" + "."))))
    ensures MatcherOf(ZwnjBeforeSuffix)(s, 17) == Some(Match(4, "\U{200C}ها "))
  {
    assert s[17] == ' ';
    assert s[18] == 'ه';
    assert s[19] == 'ا';
    assert s[20] == ' ';
    assert s[18..20] == "ها";
    assert SuffixAt(s, 18) == 2;
    assert ['\U{200C}'] + s[18..20] + [' '] == "\U{200C}ها ";
    assert MatchAt(ZwnjBeforeSuffix, s, 17) == Some(Match(4, "\U{200C}ها "));
  }

  lemma SuffixExampleZwnjBeforeSuffixMatch28(s: String)
    requires s == ((("فاصله " + ("میان " + "پیشوند")) + (" " + ("ها " + "و "))) + (("پسوند " + ("ها " + "را ")) + ("اصلاح " + ("می\U{200C}کند" + "."))))
    ensures MatcherOf(ZwnjBeforeSuffix)(s, 28) == Some(Match(4, "\U{200C}ها "))
  {
    assert s[28] == ' ';
    assert s[29] == 'ه';
    assert s[30] == 'ا';
    assert s[31] == ' ';
    assert s[29..31] == "ها";
    assert SuffixAt(s, 29) == 2;
    assert ['\U{200C}'] + s[29..31] + [' '] == "\U{200C}ها ";
    assert MatchAt(ZwnjBeforeSuffix, s, 28) == Some(Match(4, "\U{200C}ها "));
  }

  lemma SuffixExampleZwnjBeforeSuffixFrom32(f: Matcher, s: String)
    requires Progresses(f) && |s| == 48
    requires forall k :: 32 <= k < 48 ==> f(s, k).None?
    ensures Sub(f, s, 32) == s[32..48]
  {
    SubCopies(f, s, 32, 48);
  }

  lemma SuffixExampleZwnjBeforeSuffixFrom28(f: Matcher, s: String)
    requires Progresses(f) && |s| == 48
    requires f(s, 28) == Some(Match(4, "\U{200C}ها "))
    requires forall k :: 32 <= k < 48 ==> f(s, k).None?
    ensures Sub(f, s, 28) == "\U{200C}ها " + s[32..48]
  {
    SubReplaces(f, s, 28);
    SuffixExampleZwnjBeforeSuffixFrom32(f, s);
  }

  lemma SuffixExampleZwnjBeforeSuffixFrom21(f: Matcher, s: String)
    requires Progresses(f) && |s| == 48
    requires forall k :: 21 <= k < 28 ==> f(s, k).None?
    requires f(s, 28) == Some(Match(4, "\U{200C}ها "))
    requires forall k :: 32 <= k < 48 ==> f(s, k).None?
    ensures Sub(f, s, 21) == s[21..28] + ("\U{200C}ها " + s[32..48])
  {
    SubCopies(f, s, 21, 28);
    SuffixExampleZwnjBeforeSuffixFrom28(f, s);
  }

  lemma SuffixExampleZwnjBeforeSuffixFrom17(f: Matcher, s: String)
    requires Progresses(f) && |s| == 48
    requires f(s, 17) == Some(Match(4, "\U{200C}ها "))
    requires forall k :: 21 <= k < 28 ==> f(s, k).None?
    requires f(s, 28) == Some(Match(4, "\U{200C}ها "))
    requires forall k :: 32 <= k < 48 ==> f(s, k).None?
    ensures Sub(f, s, 17) == "\U{200C}ها " + (s[21..28] + ("\U{200C}ها " + s[32..48]))
  {
    SubReplaces(f, s, 17);
    SuffixExampleZwnjBeforeSuffixFrom21(f, s);
  }

  lemma SuffixExampleZwnjBeforeSuffixFrom0(f: Matcher, s: String)
    requires Progresses(f) && |s| == 48
    requires forall k :: 0 <= k < 17 ==> f(s, k).None?
    requires f(s, 17) == Some(Match(4, "\U{200C}ها "))
    requires forall k :: 21 <= k < 28 ==> f(s, k).None?
    requires f(s, 28) == Some(Match(4, "\U{200C}ها "))
    requires forall k :: 32 <= k < 48 ==> f(s, k).None?
    ensures Sub(f, s, 0) == s[0..17] + ("\U{200C}ها " + (s[21..28] + ("\U{200C}ها " + s[32..48])))
  {
    SubCopies(f, s, 0, 17);
    SuffixExampleZwnjBeforeSuffixFrom17(f, s);
  }

  lemma SuffixExampleZwnjBeforeSuffixText(s: String, r: String)
    requires s == ((("فاصله " + ("میان " + "پیشوند")) + (" " + ("ها " + "و "))) + (("پسوند " + ("ها " + "را ")) + ("اصلاح " + ("می\U{200C}کند" + "."))))
    requires r == s[0..17] + ("\U{200C}ها " + (s[21..28] + ("\U{200C}ها " + s[32..48])))
    ensures r == ((("فاصله " + "میان ") + ("پیشوند" + ("\U{200C}ها " + "و "))) + (("پسوند\U{200C}" + ("ها " + "را ")) + ("اصلاح " + ("می\U{200C}کند" + "."))))
  {
  }

  lemma SuffixExampleZwnjBeforeSuffix(s: String)
    requires s == ((("فاصله " + ("میان " + "پیشوند")) + (" " + ("ها " + "و "))) + (("پسوند " + ("ها " + "را ")) + ("اصلاح " + ("می\U{200C}کند" + "."))))
    ensures Apply(ZwnjBeforeSuffix, s) == ((("فاصله " + "میان ") + ("پیشوند" + ("\U{200C}ها " + "و "))) + (("پسوند\U{200C}" + ("ها " + "را ")) + ("اصلاح " + ("می\U{200C}کند" + "."))))
  {
    SuffixExampleZwnjBeforeSuffixGap0(s);
    SuffixExampleZwnjBeforeSuffixGap12(s);
    SuffixExampleZwnjBeforeSuffixGap21(s);
    SuffixExampleZwnjBeforeSuffixGap32(s);
    SuffixExampleZwnjBeforeSuffixGap44(s);
    SuffixExampleZwnjBeforeSuffixMatch17(s);
    SuffixExampleZwnjBeforeSuffixMatch28(s);
    SuffixExampleZwnjBeforeSuffixFrom0(MatcherOf(ZwnjBeforeSuffix), s);
    SuffixExampleZwnjBeforeSuffixText(s, Apply(ZwnjBeforeSuffix, s));
  }

  lemma SuffixExampleInput(s: String)
    requires s == "فاصله میان پیشوند ها و پسوند ها را اصلاح می کند."
    ensures s == ((("فاصله " + ("میان " + "پیشوند")) + (" " + ("ها " + "و "))) + (("پسوند " + ("ها " + "را ")) + ("اصلاح " + ("می " + "کند."))))
  {
  }

  lemma SuffixExampleOutput(t: String)
    requires t == ((("فاصله " + "میان ") + ("پیشوند" + ("\U{200C}ها " + "و "))) + (("پسوند\U{200C}" + ("ها " + "را ")) + ("اصلاح " + ("می\U{200C}کند" + "."))))
    ensures t == "فاصله میان پیشوند\U{200C}ها و پسوند\U{200C}ها را اصلاح می\U{200C}کند."
  {
  }

  /** `affix_spacing('فاصله میان پیشوند ها و پسوند ها را اصلاح می کند.')` is
      'فاصله میان پیشوند‌ها و پسوند‌ها را اصلاح می‌کند.'. */
  lemma SuffixExample(s: String)
    requires s == "فاصله میان پیشوند ها و پسوند ها را اصلاح می کند."
    ensures SpaceAffixes(s) == "فاصله میان پیشوند\U{200C}ها و پسوند\U{200C}ها را اصلاح می\U{200C}کند."
  {
    SuffixExampleInput(s);
    ApplyAll4(FixYehSpace, JoinMiToVerb, ZwnjAfterMi, ZwnjBeforeSuffix, s);
    SuffixExampleFixYehSpace(s);
    SuffixExampleJoinMiToVerb(Apply(FixYehSpace, s));
    SuffixExampleZwnjAfterMi(Apply(JoinMiToVerb, Apply(FixYehSpace, s)));
    SuffixExampleZwnjBeforeSuffix(Apply(ZwnjAfterMi, Apply(JoinMiToVerb, Apply(FixYehSpace, s))));
    SuffixExampleOutput(SpaceAffixes(s));
  }

  lemma SuffixJoinedOnceGap4(s: String)
    requires s == " ها ها "
    ensures forall k :: 4 <= k < 7 ==> MatcherOf(ZwnjBeforeSuffix)(s, k).None?
  {
    forall k | 4 <= k < 7 ensures MatcherOf(ZwnjBeforeSuffix)(s, k).None? {
      assert MatchAt(ZwnjBeforeSuffix, s, k).None?;
    }
  }

  lemma SuffixJoinedOnceMatch0(s: String)
    requires s == " ها ها "
    ensures MatcherOf(ZwnjBeforeSuffix)(s, 0) == Some(Match(4, "\U{200C}ها "))
  {
    assert s[0] == ' ';
    assert s[1] == 'ه';
    assert s[2] == 'ا';
    assert s[3] == ' ';
    assert s[1..3] == "ها";
    assert SuffixAt(s, 1) == 2;
    assert ['\U{200C}'] + s[1..3] + [' '] == "\U{200C}ها ";
    assert MatchAt(ZwnjBeforeSuffix, s, 0) == Some(Match(4, "\U{200C}ها "));
  }

  lemma SuffixJoinedOnceFrom4(f: Matcher, s: String)
    requires Progresses(f) && |s| == 7
    requires forall k :: 4 <= k < 7 ==> f(s, k).None?
    ensures Sub(f, s, 4) == s[4..7]
  {
    SubCopies(f, s, 4, 7);
  }

  lemma SuffixJoinedOnceFrom0(f: Matcher, s: String)
    requires Progresses(f) && |s| == 7
    requires f(s, 0) == Some(Match(4, "\U{200C}ها "))
    requires forall k :: 4 <= k < 7 ==> f(s, k).None?
    ensures Sub(f, s, 0) == "\U{200C}ها " + s[4..7]
  {
    SubReplaces(f, s, 0);
    SuffixJoinedOnceFrom4(f, s);
  }

  lemma SuffixJoinedOnceText(s: String, r: String)
    requires s == " ها ها "
    requires r == "\U{200C}ها " + s[4..7]
    ensures r == "\U{200C}ها ها "
  {
  }

  /** The space after the first ها is consumed by its match, so the second ها stays apart. */
  lemma SuffixJoinedOnce(s: String)
    requires s == " ها ها "
    ensures Apply(ZwnjBeforeSuffix, s) == "\U{200C}ها ها "
  {
    SuffixJoinedOnceGap4(s);
    SuffixJoinedOnceMatch0(s);
    SuffixJoinedOnceFrom0(MatcherOf(ZwnjBeforeSuffix), s);
    SuffixJoinedOnceText(s, Apply(ZwnjBeforeSuffix, s));
  }
}
