/** The character-refinement stage: the per-character translation table, then the collapse of
    space runs, the collapse of newline/carriage-return runs and the deletion of keshide runs. */
module Refinement {
  import opened Text
  import opened Substitution
  import opened Rules

  /** The two strings the translation table is built from, paired position by position. */
  const TranslateFrom: String := "كي%1234567890"
  const TranslateTo: String := "کی٪۱۲۳۴۵۶۷۸۹۰"

  /** The translation table of the normalizer: Arabic kaf and yeh to their Persian forms, the
      percent sign to the Arabic percent sign and the ASCII digits to the Persian digits. */
  const Translations: map<char, char> := map[
    'ك' := 'ک', 'ي' := 'ی', '%' := '٪', '1' := '۱', '2' := '۲', '3' := '۳', '4' := '۴',
    '5' := '۵', '6' := '۶', '7' := '۷', '8' := '۸', '9' := '۹', '0' := '۰']

  /** The table is `maketrans(TranslateFrom, TranslateTo)`: it maps each character of the first
      string to the character at the same position of the second, and nothing else. */
  lemma TranslationsZip()
    ensures |TranslateFrom| == |TranslateTo| == 13
    ensures forall k :: 0 <= k < |TranslateFrom| ==>
      TranslateFrom[k] in Translations && Translations[TranslateFrom[k]] == TranslateTo[k]
    ensures forall c :: c in Translations <==> c in TranslateFrom
  {
  }

  /** The characters the table maps: ك ي % 1 2 3 4 5 6 7 8 9 0. */
  predicate IsTranslated(c: char)
  {
    c == ArabicKaf || c == ArabicYeh || c == '%' || IsAsciiDigit(c)
  }

  /** The image of one character under `str.translate`: a character without an entry is kept. */
  function TranslateChar(c: char): char
  {
    if c in Translations then Translations[c] else c
  }

  /** An independent statement of the table, with the ASCII digits mapped arithmetically onto the
      Extended Arabic-Indic digits U+06F0..U+06F9. */
  lemma TranslateCharIs(c: char)
    ensures TranslateChar(c) ==
      if c == ArabicKaf then PersianKaf
      else if c == ArabicYeh then PersianYeh
      else if c == '%' then ArabicPercent
      else if IsAsciiDigit(c) then (0x06F0 + (c as int - '0' as int)) as char
      else c
  {
  }

  /** `text.translate(translations)`. */
  function Translate(s: String): (r: String)
    ensures |r| == |s|
    ensures forall k :: 0 <= k < |s| ==> r[k] == TranslateChar(s[k])
  {
    if s == [] then [] else [TranslateChar(s[0])] + Translate(s[1..])
  }

  /** The translated text holds none of the characters the table maps. */
  lemma TranslateClears(s: String, c: char)
    requires IsTranslated(c)
    ensures c !in Translate(s)
  {
    var r := Translate(s);
    forall k | 0 <= k < |r| ensures r[k] != c {
      TranslateCharIs(s[k]);
    }
  }

  /** The rule table of the stage, in the order it is applied. */
  const RefinementRules: seq<Rule> := [ExtraSpaces, ExtraNewlines, KeshideRun]

  /** `character_refinement(text)`. */
  function RefineCharacters(s: String): String
  {
    ApplyAll(RefinementRules, Translate(s))
  }

  /** Collapsing newline runs leaves no carriage return: every one lies in a run that is replaced. */
  lemma NewlinesDropCarriageReturns(s: String)
    ensures CarriageReturn !in Apply(ExtraNewlines, s)
  {
    var f := MatcherOf(ExtraNewlines);
    forall j | 0 <= j < |s| ensures AvoidsAt(f, s, j, CarriageReturn) {
    }
    SubAbsent(f, s, 0, CarriageReturn);
  }

  /** Deleting keshide runs deletes every keshide and keeps everything else in order. */
  lemma KeshideRunDeletes(s: String)
    ensures Apply(KeshideRun, s) == Without(s, Keshide)
  {
    var f := MatcherOf(KeshideRun);
    forall j | 0 <= j < |s| ensures DeletesRunAt(f, s, j, Keshide) {
    }
    SubDeletes(f, s, 0, Keshide);
  }

  /** The character a run rule writes for a whole run. */
  function RunChar(rule: Rule): char
    requires rule.ExtraSpaces? || rule.ExtraNewlines?
  {
    if rule.ExtraSpaces? then Space else Newline
  }

  /** A collapsed run is never followed by a character of the same run class. */
  lemma CollapseMatch(rule: Rule, s: String, j: nat)
    requires rule.ExtraSpaces? || rule.ExtraNewlines?
    requires j < |s|
    ensures MatcherOf(rule)(s, j).None? ==> s[j] != RunChar(rule)
    ensures MatcherOf(rule)(s, j).Some? ==>
      var m := MatcherOf(rule)(s, j).value;
      m.repl == [RunChar(rule)] && (j + m.len == |s| || MatcherOf(rule)(s, j + m.len).None?)
  {
  }

  /** Collapsing a run class leaves no two of its run character in a row. */
  lemma Collapsed(rule: Rule, s: String)
    requires rule.ExtraSpaces? || rule.ExtraNewlines?
    ensures NoAdjacent(Apply(rule, s), RunChar(rule))
  {
    forall j | 0 <= j < |s| ensures MatcherOf(rule)(s, j).None? ==> s[j] != RunChar(rule)
      ensures MatcherOf(rule)(s, j).Some? ==>
        var m := MatcherOf(rule)(s, j).value;
        m.repl == [RunChar(rule)] && (j + m.len == |s| || MatcherOf(rule)(s, j + m.len).None?)
    {
      CollapseMatch(rule, s, j);
    }
    SubCollapses(MatcherOf(rule), s, 0, RunChar(rule));
  }

  /** The refined text holds no Arabic kaf or yeh, no ASCII percent sign or digit, no carriage
      return and no keshide. */
  lemma RefinedIsClean(s: String, c: char)
    requires IsTranslated(c) || c == CarriageReturn || c == Keshide
    ensures c !in RefineCharacters(s)
  {
    var t := Translate(s);
    var a := Apply(ExtraSpaces, t);
    var b := Apply(ExtraNewlines, a);
    ApplyAll3(ExtraSpaces, ExtraNewlines, KeshideRun, t);
    if c == Keshide {
      KeshideRunDeletes(b);
      WithoutRemoves(b, Keshide);
    } else if c == CarriageReturn {
      NewlinesDropCarriageReturns(a);
      ApplyAbsent(KeshideRun, b, c);
    } else {
      TranslateClears(s, c);
      ApplyAbsent(ExtraSpaces, t, c);
      ApplyAbsent(ExtraNewlines, a, c);
      ApplyAbsent(KeshideRun, b, c);
    }
  }

  /** Collapsing space runs leaves a text without two spaces in a row unchanged. */
  lemma SpacesCollapseFixed(s: String)
    requires NoAdjacent(s, Space)
    ensures Apply(ExtraSpaces, s) == s
  {
    var f := MatcherOf(ExtraSpaces);
    forall j | 0 <= j < |s| && f(s, j).Some? ensures f(s, j).value.repl == s[j..j + f(s, j).value.len] {
      assert s[j] == ' ' && (j + 1 == |s| || s[j + 1] != ' ');
      assert RunEnd(s, j + 1, {' '}) == j + 1;
    }
    SubUnchanged(f, s, 0);
  }

  /** Collapsing space runs is idempotent. */
  lemma SpacesCollapseIdempotent(s: String)
    ensures Apply(ExtraSpaces, Apply(ExtraSpaces, s)) == Apply(ExtraSpaces, s)
  {
    Collapsed(ExtraSpaces, s);
    SpacesCollapseFixed(Apply(ExtraSpaces, s));
  }

  /** A text that holds no character of the table, no newline, carriage return or keshide, and
      no two spaces in a row, is already refined. */
  lemma RefineUnchanged(s: String)
    requires forall k :: 0 <= k < |s| ==>
      !IsTranslated(s[k]) && s[k] != Newline && s[k] != CarriageReturn && s[k] != Keshide
    requires NoAdjacent(s, Space)
    ensures RefineCharacters(s) == s
  {
    forall k | 0 <= k < |s| ensures Translate(s)[k] == s[k] {
      TranslateCharIs(s[k]);
    }
    assert Translate(s) == s;
    ApplyAll3(ExtraSpaces, ExtraNewlines, KeshideRun, s);
    SpacesCollapseFixed(s);
    ApplyIdentity(ExtraNewlines, s);
    ApplyIdentity(KeshideRun, s);
  }
}
