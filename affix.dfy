/** The affix-spacing stage: four rules that turn the plain space between a word and its affix
    into a ZWNJ (the yeh of the ezafe after heh, the verbal prefixes می and نمی, and the suffixes
    تر, تری, ترین, ها, های). */
module Affix {
  import opened Text
  import opened Substitution
  import opened Rules

  /** The rule table of the stage, in the order it is applied. */
  const AffixRules: seq<Rule> := [FixYehSpace, JoinMiToVerb, ZwnjAfterMi, ZwnjBeforeSuffix]

  /** `affix_spacing(text)`. */
  function SpaceAffixes(s: String): String
  {
    ApplyAll(AffixRules, s)
  }

  lemma ZwnjForTransitive(a: String, b: String, c: String)
    requires ZwnjFor(a, b) && ZwnjFor(b, c)
    ensures ZwnjFor(a, c)
  {
    forall k | 0 <= k < |a| ensures c[k] == a[k] || (a[k] == ' ' && c[k] == Zwnj) {
      assert Zwnj != ' ';
    }
  }

  /** The stage keeps the length of the text and changes a character only by turning a space
      into ZWNJ. */
  lemma SpaceAffixesOnlyJoins(s: String)
    ensures ZwnjFor(s, SpaceAffixes(s))
  {
    ApplyAll4(FixYehSpace, JoinMiToVerb, ZwnjAfterMi, ZwnjBeforeSuffix, s);
    var a := Apply(FixYehSpace, s);
    var b := Apply(JoinMiToVerb, a);
    var c := Apply(ZwnjAfterMi, b);
    ApplyZwnj(FixYehSpace, s);
    ApplyZwnj(JoinMiToVerb, a);
    ApplyZwnj(ZwnjAfterMi, b);
    ApplyZwnj(ZwnjBeforeSuffix, c);
    ZwnjForTransitive(s, a, b);
    ZwnjForTransitive(s, b, c);
    ZwnjForTransitive(s, c, SpaceAffixes(s));
  }

  /** A text without spaces comes back unchanged. */
  lemma SpaceAffixesWithoutSpaces(s: String)
    requires Space !in s
    ensures SpaceAffixes(s) == s
  {
    SpaceAffixesOnlyJoins(s);
  }

  /** The first three rules all need a Persian yeh to match: in a text without one only the
      suffix rule can change anything. */
  lemma SpaceAffixesWithoutYeh(s: String)
    requires PersianYeh !in s
    ensures SpaceAffixes(s) == Apply(ZwnjBeforeSuffix, s)
  {
    ApplyAll4(FixYehSpace, JoinMiToVerb, ZwnjAfterMi, ZwnjBeforeSuffix, s);
    forall j | 0 <= j < |s|
      ensures MatchAt(FixYehSpace, s, j).None? && MatchAt(JoinMiToVerb, s, j).None?
      ensures MatchAt(ZwnjAfterMi, s, j).None?
    {
      if j + 2 < |s| {
        assert s[j + 2] != PersianYeh;
      }
      if j + 3 < |s| {
        assert s[j + 3] != PersianYeh;
      }
      if 1 < |s| {
        assert s[1] != PersianYeh;
      }
    }
    ApplyIdentity(FixYehSpace, s);
    ApplyIdentity(JoinMiToVerb, s);
    ApplyIdentity(ZwnjAfterMi, s);
  }

  /** The rule for می joins it only to a following character that is neither whitespace nor a
      digit: each space it turns into ZWNJ follows a می that starts the text or a word, and
      precedes such a character. */
  lemma JoinMiOnlyBeforeWord(s: String, k: nat)
    requires k < |s| && k < |Apply(JoinMiToVerb, s)| && Apply(JoinMiToVerb, s)[k] != s[k]
    ensures s[k] == Space && Apply(JoinMiToVerb, s)[k] == Zwnj
    ensures 2 <= k && s[k - 2] == Meem && s[k - 1] == PersianYeh && (k == 2 || s[k - 3] == Space)
    ensures k + 1 < |s| && !IsWhitespace(s[k + 1]) && !IsDigit(s[k + 1])
  {
    ApplyZwnj(JoinMiToVerb, s);
  }

  /** The rule for the ezafe yeh turns a space into ZWNJ only between a heh that ends a word of at
      least two letters and a lone yeh followed by a space. */
  lemma FixYehOnlyAfterHeh(s: String, k: nat)
    requires k < |s| && k < |Apply(FixYehSpace, s)| && Apply(FixYehSpace, s)[k] != s[k]
    ensures s[k] == Space && Apply(FixYehSpace, s)[k] == Zwnj
    ensures 2 <= k && s[k - 2] != Space && s[k - 1] == Heh
    ensures k + 2 < |s| && s[k + 1] == PersianYeh && s[k + 2] == Space
  {
    ApplyZwnj(FixYehSpace, s);
  }

  /** The rule for می and نمی turns a space into ZWNJ only right after a می that follows a space,
      directly or through a ن. */
  lemma AfterMiOnlyAfterPrefix(s: String, k: nat)
    requires k < |s| && k < |Apply(ZwnjAfterMi, s)| && Apply(ZwnjAfterMi, s)[k] != s[k]
    ensures s[k] == Space && Apply(ZwnjAfterMi, s)[k] == Zwnj
    ensures 3 <= k && s[k - 2] == Meem && s[k - 1] == PersianYeh
    ensures s[k - 3] == Space || (4 <= k && s[k - 3] == Noon && s[k - 4] == Space)
  {
    ApplyZwnj(ZwnjAfterMi, s);
  }

  /** The rule for the suffixes turns a space into ZWNJ only right before تر, تری, ترین, ها or
      های followed by a space. */
  lemma BeforeSuffixOnlyBeforeSuffix(s: String, k: nat)
    requires k < |s| && k < |Apply(ZwnjBeforeSuffix, s)| && Apply(ZwnjBeforeSuffix, s)[k] != s[k]
    ensures s[k] == Space && Apply(ZwnjBeforeSuffix, s)[k] == Zwnj
    ensures var n := SuffixAt(s, k + 1);
      n != 0 && SpacedAt(s, k + 1, s[k + 1..k + 1 + n]) && s[k + 1..k + 1 + n] in Suffixes
  {
    ApplyZwnj(ZwnjBeforeSuffix, s);
  }
}
