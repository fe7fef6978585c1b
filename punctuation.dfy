/** The punctuation-spacing stage: no space before the punctuation that closes (! : . ، ؛ ؟ » ] ) })
    and none after the punctuation that opens (« [ ( {), then one space after a closing mark and
    one before an opening mark. */
module Punctuation {
  import opened Text
  import opened Substitution
  import opened Rules

  /** The rule table of the stage, in the order it is applied. */
  const PunctuationRules: seq<Rule> := [RemoveSpaceBefore, RemoveSpaceAfter, PutSpaceAfter, PutSpaceBefore]

  /** `punctuation_spacing(text)`. */
  function SpacePunctuation(s: String): String
  {
    ApplyAll(PunctuationRules, s)
  }

  /** The text has a character of one of the two punctuation classes. */
  predicate HasPunctuation(s: String)
  {
    exists k :: 0 <= k < |s| && (IsPuncAfter(s[k]) || IsPuncBefore(s[k]))
  }

  /** The stage only inserts or deletes plain spaces: with every space taken out, its output and
      its input are the same text. */
  lemma SpacePunctuationKeepsNonSpaces(s: String)
    ensures Without(SpacePunctuation(s), Space) == Without(s, Space)
  {
    ApplyAll4(RemoveSpaceBefore, RemoveSpaceAfter, PutSpaceAfter, PutSpaceBefore, s);
    var a := Apply(RemoveSpaceBefore, s);
    var b := Apply(RemoveSpaceAfter, a);
    var c := Apply(PutSpaceAfter, b);
    ApplyKeepsNonSpaces(RemoveSpaceBefore, s);
    ApplyKeepsNonSpaces(RemoveSpaceAfter, a);
    ApplyKeepsNonSpaces(PutSpaceAfter, b);
    ApplyKeepsNonSpaces(PutSpaceBefore, c);
  }

  /** Every rule of the stage needs a punctuation character to match. */
  lemma NoPunctuationNoMatch(rule: Rule, s: String, j: nat)
    requires rule in PunctuationRules && j < |s|
    requires !HasPunctuation(s)
    ensures MatchAt(rule, s, j).None?
  {
    if j + 1 < |s| {
      assert !IsPuncAfter(s[j]) && !IsPuncBefore(s[j]);
      assert !IsPuncAfter(s[j + 1]) && !IsPuncBefore(s[j + 1]);
    }
  }

  /** A text without punctuation comes back unchanged. */
  lemma SpacePunctuationWithoutPunctuation(s: String)
    requires !HasPunctuation(s)
    ensures SpacePunctuation(s) == s
  {
    ApplyAll4(RemoveSpaceBefore, RemoveSpaceAfter, PutSpaceAfter, PutSpaceBefore, s);
    forall rule, j | rule in PunctuationRules && 0 <= j < |s| ensures MatchAt(rule, s, j).None? {
      NoPunctuationNoMatch(rule, s, j);
    }
    ApplyIdentity(RemoveSpaceBefore, s);
    ApplyIdentity(RemoveSpaceAfter, s);
    ApplyIdentity(PutSpaceAfter, s);
    ApplyIdentity(PutSpaceBefore, s);
  }

  /** A closing mark is followed by a space or by another closing mark. */
  predicate ClosingLink(a: char, b: char)
  {
    IsPuncAfter(a) ==> b == Space || IsPuncAfter(b)
  }

  /** An opening mark is preceded by a space or by another opening mark. */
  predicate OpeningLink(a: char, b: char)
  {
    IsPuncBefore(b) ==> a == Space || IsPuncBefore(a)
  }

  /** `put space after` leaves no closing mark directly before a character that is neither a
      space nor a closing mark. */
  lemma PutSpaceAfterSpaces(s: String)
    ensures Linked(Apply(PutSpaceAfter, s), ClosingLink)
  {
    var f := MatcherOf(PutSpaceAfter);
    forall j | 0 <= j < |s| ensures LinksAt(f, s, j, ClosingLink) {
      if f(s, j).Some? {
        assert Linked([s[j], ' ', s[j + 1]], ClosingLink);
      }
    }
    SubLinks(f, s, 0, ClosingLink);
  }

  /** `put space before` inserts spaces only between its two characters, so it keeps the
      closing marks spaced, and leaves no opening mark directly after a character that is
      neither a space nor an opening mark. */
  lemma PutSpaceBeforeSpaces(s: String)
    requires Linked(s, ClosingLink)
    ensures Linked(Apply(PutSpaceBefore, s), ClosingLink)
    ensures Linked(Apply(PutSpaceBefore, s), OpeningLink)
  {
    var f := MatcherOf(PutSpaceBefore);
    forall j | 0 <= j < |s| ensures LinksAt(f, s, j, ClosingLink) && LinksAt(f, s, j, OpeningLink) {
      if f(s, j).Some? {
        assert Linked([s[j], ' ', s[j + 1]], ClosingLink);
        assert Linked([s[j], ' ', s[j + 1]], OpeningLink);
      }
    }
    SubLinks(f, s, 0, ClosingLink);
    SubLinks(f, s, 0, OpeningLink);
  }

  /** After the stage every closing mark is followed by a space, another closing mark or the
      end of the text, and every opening mark is preceded by a space, another opening mark or
      the start of the text. */
  lemma SpacePunctuationSpaces(s: String)
    ensures Linked(SpacePunctuation(s), ClosingLink)
    ensures Linked(SpacePunctuation(s), OpeningLink)
  {
    ApplyAll4(RemoveSpaceBefore, RemoveSpaceAfter, PutSpaceAfter, PutSpaceBefore, s);
    var b := Apply(RemoveSpaceAfter, Apply(RemoveSpaceBefore, s));
    PutSpaceAfterSpaces(b);
    PutSpaceBeforeSpaces(Apply(PutSpaceAfter, b));
  }
}
