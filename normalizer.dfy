/** The `Normalizer` object: three flags fixed at construction, the translation table, one rule
    table per enabled stage, and `normalize`, which runs the enabled stages in order. */
module Normalizing {
  import opened Text
  import opened Substitution
  import opened Rules
  import opened Refinement
  import opened Punctuation
  import opened Affix

  /** What `normalize` returns for the given flags: character refinement, then punctuation
      spacing, then affix spacing, each only when its flag is set. */
  function NormalizeSpec(refine: bool, punctuate: bool, affixes: bool, s: String): String
  {
    var a := if refine then RefineCharacters(s) else s;
    var b := if punctuate then SpacePunctuation(a) else a;
    if affixes then SpaceAffixes(b) else b
  }

  /** Runs every rule of a table over the text, first rule first. */
  method RunRules(rules: seq<Rule>, text: String) returns (r: String)
    ensures r == ApplyAll(rules, text)
  {
    r := text;
    for k := 0 to |rules|
      invariant ApplyAll(rules[k..], r) == ApplyAll(rules, text)
    {
      assert rules[k..][0] == rules[k] && rules[k..][1..] == rules[k + 1..];
      r := Apply(rules[k], r);
    }
    assert rules[|rules|..] == [];
  }

  class Normalizer {
    const characterRefinement: bool
    const punctuationSpacing: bool
    const affixSpacing: bool
    const translations: map<char, char>
    /** A table is present exactly when its stage was enabled at construction. */
    const characterRefinementPatterns: Option<seq<Rule>>
    const punctuationSpacingPatterns: Option<seq<Rule>>
    const affixSpacingPatterns: Option<seq<Rule>>

    ghost predicate Valid()
    {
      && translations == Translations
      && characterRefinementPatterns == (if characterRefinement then Some(RefinementRules) else None)
      && punctuationSpacingPatterns == (if punctuationSpacing then Some(PunctuationRules) else None)
      && affixSpacingPatterns == (if affixSpacing then Some(AffixRules) else None)
    }

    /** The punctuation classes are bound only while the refinement table is built, so punctuation
        spacing cannot be enabled without character refinement. */
    constructor (characterRefinement: bool := true, punctuationSpacing: bool := true, affixSpacing: bool := true)
      requires punctuationSpacing ==> characterRefinement
      ensures Valid()
      ensures this.characterRefinement == characterRefinement
      ensures this.punctuationSpacing == punctuationSpacing
      ensures this.affixSpacing == affixSpacing
    {
      this.characterRefinement := characterRefinement;
      this.punctuationSpacing := punctuationSpacing;
      this.affixSpacing := affixSpacing;
      translations := Translations;
      characterRefinementPatterns := if characterRefinement then Some(RefinementRules) else None;
      punctuationSpacingPatterns := if punctuationSpacing then Some(PunctuationRules) else None;
      affixSpacingPatterns := if affixSpacing then Some(AffixRules) else None;
    }

    /** `text.translate(self.translations)`. */
    method TranslateText(text: String) returns (r: String)
      requires Valid()
      ensures r == Translate(text)
    {
      r := seq(|text|, k requires 0 <= k < |text| =>
        if text[k] in translations then translations[text[k]] else text[k]);
    }

    method CharacterRefinement(text: String) returns (r: String)
      requires Valid() && characterRefinementPatterns.Some?
      ensures r == RefineCharacters(text)
    {
      r := TranslateText(text);
      r := RunRules(characterRefinementPatterns.value, r);
    }

    method PunctuationSpacing(text: String) returns (r: String)
      requires Valid() && punctuationSpacingPatterns.Some?
      ensures r == SpacePunctuation(text)
    {
      r := RunRules(punctuationSpacingPatterns.value, text);
    }

    method AffixSpacing(text: String) returns (r: String)
      requires Valid() && affixSpacingPatterns.Some?
      ensures r == SpaceAffixes(text)
    {
      r := RunRules(affixSpacingPatterns.value, text);
    }

    method Normalize(text: String) returns (r: String)
      requires Valid()
      ensures r == NormalizeSpec(characterRefinement, punctuationSpacing, affixSpacing, text)
    {
      r := text;
      if characterRefinement {
        r := CharacterRefinement(r);
      }
      if punctuationSpacing {
        r := PunctuationSpacing(r);
      }
      if affixSpacing {
        r := AffixSpacing(r);
      }
    }
  }

  /** `Normalizer().normalize(text)`: a normalizer built with the default flags runs all three
      stages. */
  method DefaultNormalize(text: String) returns (r: String)
    ensures r == NormalizeSpec(true, true, true, text)
  {
    var normalizer := new Normalizer();
    r := normalizer.Normalize(text);
  }

  /** With every stage off the text comes back as it was. */
  lemma NormalizeAllOff(s: String)
    ensures NormalizeSpec(false, false, false, s) == s
  {
  }

  /** After character refinement the later stages bring back none of the characters it removes:
      their templates write only spaces, ZWNJ, Persian yeh and meem. */
  lemma NormalizedIsClean(punctuate: bool, affixes: bool, s: String, c: char)
    requires IsTranslated(c) || c == CarriageReturn || c == Keshide
    ensures c !in NormalizeSpec(true, punctuate, affixes, s)
  {
    var a := RefineCharacters(s);
    RefinedIsClean(s, c);
    var b := if punctuate then SpacePunctuation(a) else a;
    if punctuate {
      ApplyAllAbsent([RemoveSpaceBefore, RemoveSpaceAfter, PutSpaceAfter, PutSpaceBefore], a, c);
    }
    if affixes {
      ApplyAllAbsent([FixYehSpace, JoinMiToVerb, ZwnjAfterMi, ZwnjBeforeSuffix], b, c);
    }
  }

  /** Affix spacing alone keeps the length and only turns spaces into ZWNJ. */
  lemma NormalizeAffixesOnly(s: String)
    ensures ZwnjFor(s, NormalizeSpec(false, false, true, s))
  {
    SpaceAffixesOnlyJoins(s);
  }

  /** Punctuation spacing after refinement keeps every non-space character of the refined text. */
  lemma NormalizeKeepsRefinedLetters(s: String)
    ensures Without(NormalizeSpec(true, true, false, s), Space) == Without(RefineCharacters(s), Space)
  {
    SpacePunctuationKeepsNonSpaces(RefineCharacters(s));
  }

  /** Without affix spacing, the normalized text has a space or another closing mark after every
      closing mark and a space or another opening mark before every opening mark. */
  lemma NormalizePunctuationSpaced(s: String)
    ensures Linked(NormalizeSpec(true, true, false, s), ClosingLink)
    ensures Linked(NormalizeSpec(true, true, false, s), OpeningLink)
  {
    SpacePunctuationSpaces(RefineCharacters(s));
  }
}
