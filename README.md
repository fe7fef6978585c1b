# hazm text normalizer, modelled in Dafny

This project models the normalizer of hazm, a Persian language toolkit.

`Normalizer` cleans Persian text in up to three stages. Each stage is switched on by a flag given at construction.

1. Character refinement. One table maps Arabic kaf and yeh to their Persian forms, the percent sign to the Arabic percent sign and the ASCII digits to the Persian digits. Then runs of spaces collapse to one space, runs of newlines and carriage returns collapse to one newline, and runs of keshide (tatweel) are deleted.
2. Punctuation spacing. The space before a closing mark (`! : . ، ؛ ؟ » ] ) }`) is removed, and so is the space after an opening mark (`« [ ( {`). Then a space is put after a closing mark and before an opening mark.
3. Affix spacing. The plain space between a word and the ezafe yeh, the prefixes می and نمی, or the suffixes تر, تری, ترین, ها and های becomes a zero-width non-joiner (ZWNJ).

`InformalNormalizer` handles informal Persian on top of this. It builds the 36 informal conjugations of a verb stem and a map from informal verb forms to formal ones. After normalizing, it replaces every token through that map and then through a word map, rejoins the tokens and normalizes again.

Every rule is a regular expression applied with Python's `re.sub`. The model writes each pattern as a hand-written matcher (`Rules.MatchAt`). A generic driver (`Substitution.Sub`) reproduces the scan of `re.sub`:

- the pattern is tried at each index, left to right;
- a match is replaced, and the scan resumes after it, so matches never overlap;
- elsewhere the character is copied.

Further points of Python's regular expressions that the matchers follow:

- `^` matches only at the start of the text.
- `\s` is the set of characters for which `str.isspace()` holds.
- `\d` is the Unicode decimal digits.
- The suffix alternation is tried in the order the engine backtracks through it.

Files:

- `text.dfy`: characters, the punctuation classes, `\s`, `\d`, and removal of a character.
- `substitution.dfy`: the `re.sub` driver and its generic lemmas.
- `rules.dfy`: the eleven patterns and their replacements, and rule tables applied in order.
- `refinement.dfy`: the translation table and the refinement stage.
- `punctuation.dfy`: the punctuation stage.
- `affix.dfy`: the affix stage.
- `normalizer.dfy`: the `Normalizer` class and what `normalize` computes.
- `informal.dfy`: the informal conjugations, the informal-to-formal map, and the `InformalNormalizer` class.
- `refinement_doctests.dfy`, `punctuation_doctests.dfy`, `affix_doctests.dfy`: the docstring examples of hazm/Normalizer.py, proved step by step, plus a few inputs that show the leftmost, non-overlapping scan.
- `normalize_doctests.dfy`: a text on which a second `normalize` changes the result again.

Two facts of the code shape the model:

- The translation table at hazm/Normalizer.py:15 maps `%` to `٪` as well as the letters and digits, and it pairs the ASCII digits `1234567890` with `۱۲۳۴۵۶۷۸۹۰` position by position.
- Punctuation spacing cannot be enabled without character refinement. The punctuation classes are bound only inside the refinement branch (hazm/Normalizer.py:17-18), so both constructors require it.

`normalize` is not idempotent: a second call can still change the text. The suffix rule consumes the space after a suffix, so on `بزرگ تر ها ` the first call joins only تر and the second call joins ها (`NormalizeDoctests.NormalizeNotIdempotent`). The punctuation stage behaves the same way (`PunctuationDoctests.SpaceBeforeRemovedOnce`).

## Model

| member | source | states |
|---|---|---|
| `Text.AsciiDigitIsDigit` | hazm/Normalizer.py:36 | the `\d` of the می rule covers the ASCII digits |
| `Substitution.SubCopies` | hazm/Normalizer.py:60-61 | `re.sub` copies a stretch where the pattern matches nowhere character for character |
| `Substitution.SubFirstMatch` | hazm/Normalizer.py:60-61 | the leftmost match wins: the text before the first index where the pattern matches is copied, that match is replaced, and the scan resumes right after it |
| `Substitution.SubUnchanged` | hazm/Normalizer.py:60-61 | where every match is replaced by the text it matched, `re.sub` returns the text unchanged |
| `Substitution.SubAbsent` | hazm/Normalizer.py:60-61 | a character that is never copied and never written by a replacement is absent from the output |
| `Substitution.SubLinks` | hazm/Normalizer.py:71-72 | a relation between neighbouring characters that holds of every copy, inside every replacement and across every resume point holds of the whole output |
| `Rules.RunEnd` | hazm/Normalizer.py:20-22 | the greedy `+`: the run ends at the first character outside the class |
| `Rules.MatchRun` | hazm/Normalizer.py:20-22 | a run pattern matches exactly where its class starts; it consumes the maximal run and writes its template |
| `Rules.SuffixAt` | hazm/Normalizer.py:38 | a non-zero result is the length of one of ترین, تری, تر, های, ها found at the index, and a space follows it inside the text |
| `Rules.SuffixAtLongest` | hazm/Normalizer.py:38 | a suffix followed by a space is always found, and no such suffix is longer than the one found (ترین before تری and تر, های before ها) |
| `Rules.MatchAt` | hazm/Normalizer.py:19-39 | every one of the eleven patterns consumes at least one character and stays inside the text |
| `Rules.MatcherOf` | hazm/Normalizer.py:6 | a compiled pattern never matches the empty string, so the scan always progresses |
| `Rules.ApplyAbsent` | hazm/Normalizer.py:19-39 | a rule writes no character that is in neither the text nor its template |
| `Rules.ApplyIdentity` | hazm/Normalizer.py:60-61 | a rule that matches nowhere leaves the text unchanged |
| `Rules.ApplyKeepsNonSpaces` | hazm/Normalizer.py:20 | the space-run rule and the four punctuation rules insert or delete plain spaces only |
| `Rules.ApplyZwnj` | hazm/Normalizer.py:35-38 | an affix rule keeps the length; each change turns a space into ZWNJ, only where its pattern's context is present |
| `Rules.ApplyAllAbsent` | hazm/Normalizer.py:60-61 | a rule table writes no character that is in neither the text nor any template |
| `Rules.ApplyAll4` | hazm/Normalizer.py:71-72 | a table of four rules applies the first rule first, each to the output of the one before |
| `Refinement.TranslationsZip` | hazm/Normalizer.py:5 | the table pairs `كي%1234567890` with `کی٪۱۲۳۴۵۶۷۸۹۰` position by position and has no other key |
| `Refinement.TranslateCharIs` | hazm/Normalizer.py:15 | ك→ک, ي→ی, %→٪, each ASCII digit d → U+06F0+d; every other character is kept |
| `Refinement.Translate` | hazm/Normalizer.py:59 | `str.translate` keeps the length and maps each character through the table |
| `Refinement.TranslateClears` | hazm/Normalizer.py:15 | no character the table maps survives the translation |
| `Refinement.NewlinesDropCarriageReturns` | hazm/Normalizer.py:21 | collapsing newline runs leaves no carriage return |
| `Refinement.KeshideRunDeletes` | hazm/Normalizer.py:22 | deleting keshide runs gives the text with every keshide removed, all else in order |
| `Refinement.Collapsed` | hazm/Normalizer.py:20-21 | after the space (newline) collapse no two spaces (newlines) are adjacent |
| `Refinement.RefinedIsClean` | hazm/Normalizer.py:15-22 | the refined text has no ك, ي, %, ASCII digit, carriage return or keshide |
| `Refinement.SpacesCollapseFixed` | hazm/Normalizer.py:20 | the space collapse leaves a text without adjacent spaces unchanged |
| `Refinement.SpacesCollapseIdempotent` | hazm/Normalizer.py:20 | the space collapse is idempotent |
| `Refinement.RefineUnchanged` | hazm/Normalizer.py:15-22 | a text with no character of the table, no newline, carriage return or keshide, and no two adjacent spaces, comes through refinement unchanged |
| `Punctuation.SpacePunctuationKeepsNonSpaces` | hazm/Normalizer.py:26-31 | with all spaces deleted, the stage's output equals its input |
| `Punctuation.NoPunctuationNoMatch` | hazm/Normalizer.py:27-30 | each punctuation pattern needs a character of one of the two classes to match |
| `Punctuation.SpacePunctuationWithoutPunctuation` | hazm/Normalizer.py:64-73 | a text without punctuation comes back unchanged |
| `Punctuation.PutSpaceAfterSpaces` | hazm/Normalizer.py:29 | after `put space after`, every closing mark is followed by a space, a closing mark or the end of the text |
| `Punctuation.PutSpaceBeforeSpaces` | hazm/Normalizer.py:30 | `put space before` keeps that, and also puts a space, an opening mark or the start of the text before every opening mark |
| `Punctuation.SpacePunctuationSpaces` | hazm/Normalizer.py:26-31 | the output of the stage has both of those spacing properties for every input |
| `Affix.SpaceAffixesOnlyJoins` | hazm/Normalizer.py:34-39 | the stage keeps the length and changes characters only by turning spaces into ZWNJ |
| `Affix.SpaceAffixesWithoutSpaces` | hazm/Normalizer.py:75-89 | a text without spaces comes back unchanged |
| `Affix.FixYehOnlyAfterHeh` | hazm/Normalizer.py:35 | the ezafe rule changes only a space preceded by a non-space and ه and followed by `ی ` |
| `Affix.JoinMiOnlyBeforeWord` | hazm/Normalizer.py:36 | the می rule changes only the space of a می that starts the text or follows a space, and only when the next character is neither `\s` nor `\d` |
| `Affix.AfterMiOnlyAfterPrefix` | hazm/Normalizer.py:37 | the prefix rule changes only a space after a می or نمی that follows a space |
| `Affix.BeforeSuffixOnlyBeforeSuffix` | hazm/Normalizer.py:38 | the suffix rule changes only a space directly before one of ترین, تری, تر, های, ها that is followed by a space |
| `Affix.SpaceAffixesWithoutYeh` | hazm/Normalizer.py:35-38 | the first three affix rules need a Persian yeh to match, so on a text without one the stage is the suffix rule alone |
| `Normalizing.RunRules` | hazm/Normalizer.py:60-61 | the loop over a pattern table computes the table applied in order |
| `Normalizing.Normalizer.constructor` | hazm/Normalizer.py:10-39 | stores the flags and the translation table, and sets a stage's table exactly when its flag is set; punctuation spacing requires character refinement |
| `Normalizing.Normalizer.TranslateText` | hazm/Normalizer.py:59 | translating through the stored table is `Translate` |
| `Normalizing.Normalizer.CharacterRefinement` | hazm/Normalizer.py:50-62 | translation and then the refinement table; callable only when the table was set |
| `Normalizing.Normalizer.PunctuationSpacing` | hazm/Normalizer.py:64-73 | the punctuation table; callable only when the table was set |
| `Normalizing.Normalizer.AffixSpacing` | hazm/Normalizer.py:75-89 | the affix table; callable only when the table was set |
| `Normalizing.Normalizer.Normalize` | hazm/Normalizer.py:41-48 | refinement, then punctuation, then affix spacing, each only when its flag is set |
| `Normalizing.DefaultNormalize` | hazm/Normalizer.py:10 | `Normalizer()` with the default arguments enables all three stages, so its `normalize` runs refinement, punctuation and affix spacing |
| `Normalizing.NormalizeAllOff` | hazm/Normalizer.py:41-48 | with every flag off the text is returned unchanged |
| `Normalizing.NormalizedIsClean` | hazm/Normalizer.py:41-48 | with refinement on, the later stages bring back none of the characters refinement removes |
| `Normalizing.NormalizeAffixesOnly` | hazm/Normalizer.py:41-48 | with only affix spacing on, the output is the input with some spaces turned into ZWNJ |
| `Normalizing.NormalizeKeepsRefinedLetters` | hazm/Normalizer.py:41-48 | refinement then punctuation spacing keeps every non-space character of the refined text, in order |
| `Normalizing.NormalizePunctuationSpaced` | hazm/Normalizer.py:41-48 | without affix spacing, every closing mark of the output is followed by a space, a closing mark or the end, and every opening mark is preceded by a space, an opening mark or the start |
| `RefinementDoctests.ArabicLettersExample` | hazm/Normalizer.py:52-53 | `اصلاح كاف و ياي عربي` refines to `اصلاح کاف و یای عربی` |
| `RefinementDoctests.KeshideExample` | hazm/Normalizer.py:55-56 | `رمــــان` refines to `رمان` |
| `RefinementDoctests.DoubleSpaceExample` | hazm/Normalizer.py:20-22 | a space, a keshide and a space refine to two spaces, because keshide deletion runs after the space collapse |
| `RefinementDoctests.RefinementMayLeaveDoubleSpace` | hazm/Normalizer.py:20-22 | so the refinement stage as a whole does not rule out adjacent spaces |
| `PunctuationDoctests.PunctuationExample` | hazm/Normalizer.py:66-67 | `اصلاح ( پرانتزها ) در متن .` becomes `اصلاح (پرانتزها) در متن.` |
| `PunctuationDoctests.SpaceBeforeRemovedOnce` | hazm/Normalizer.py:27 | on `a  .` the `remove space before` rule removes only one of the two spaces |
| `AffixDoctests.EzafeExample` | hazm/Normalizer.py:77-78 | `خانه ی پدری` becomes `خانه‌ی پدری` |
| `AffixDoctests.SuffixExample` | hazm/Normalizer.py:80-81 | `فاصله میان پیشوند ها و پسوند ها را اصلاح می کند.` becomes `فاصله میان پیشوند‌ها و پسوند‌ها را اصلاح می‌کند.` |
| `AffixDoctests.MiExample` | hazm/Normalizer.py:83-84 | `می روم` becomes `می‌روم` |
| `AffixDoctests.SuffixJoinedOnce` | hazm/Normalizer.py:38 | on ` ها ها ` only the first ها is joined, because the match consumed the space between them |
| `NormalizeDoctests.NormalizeNotIdempotent` | hazm/Normalizer.py:41-48 | `normalize` turns `بزرگ تر ها ` into `بزرگ‌تر ها `, and normalizing that again gives `بزرگ‌تر‌ها `, a different text |
| `Informal.PresentSimples` | hazm/InformalNormalizer.py:79-84 | there are six present simple forms |
| `Informal.Prefixed` | hazm/InformalNormalizer.py:85-87 | a prefixed group has as many forms as the group it prefixes |
| `Informal.Conjugations` | hazm/InformalNormalizer.py:78-92 | there are 36 conjugations |
| `Informal.ConjugationGroups` | hazm/InformalNormalizer.py:79-92 | the six groups: stem plus ending, with د after a final ا and ه otherwise in the third person singular; ن before the simples; می‌ before the simples; ن before the imperfects; subjunctives keep an initial ب and otherwise get the prefix; negative subjunctives equal the negative simples |
| `Informal.SubjunctivesStartWithBeh` | hazm/InformalNormalizer.py:88 | with the prefix ب every subjunctive starts with ب |
| `Informal.SubjunctiveAsWrittenCounterexample` | hazm/InformalNormalizer.py:88 | as written, the stem ر gives the subjunctive پرم, which does not start with ب |
| `Informal.Drop` | hazm/InformalNormalizer.py:21 | the slice `fv[48:]`: the elements from the index on, empty when the index is past the end |
| `Informal.Zip` | hazm/InformalNormalizer.py:21 | `zip` pairs elements index by index and stops at the shorter list |
| `Informal.PairsIndex` | hazm/InformalNormalizer.py:20-29 | pair k exists exactly when both lists reach far enough; it pairs `iv[k]` with `fv[48+k]` when the flag is set, and `iv[8+k]` with `fv[56+k]` otherwise |
| `Informal.ReplaceChar` | hazm/InformalNormalizer.py:25 | `str.replace` of one character keeps the length and replaces exactly the occurrences |
| `Informal.InsertEntry` | hazm/InformalNormalizer.py:22-27 | one loop step stores the formal form under the informal form, under its ZWNJ-free and ZWNJ-to-space variants if it has a ZWNJ, and under the form with its final ن made د if it ends in ین; no other key changes |
| `Informal.BuildMapKeys` | hazm/InformalNormalizer.py:19-35 | a key is in the map exactly when it is a key of some paired informal form |
| `Informal.BuildMapLastWins` | hazm/InformalNormalizer.py:19-35 | a key holds the formal form of the last pair that stores under it |
| `Informal.StorePairs` | hazm/InformalNormalizer.py:19-35 | the loop over the pairs computes that map |
| `Informal.InformalToFormalConjugation` | hazm/InformalNormalizer.py:16-39 | the map of the pairs chosen by the flag, where any non-empty flag field counts as set; the informal forms are the conjugations as the code builds them, with پ |
| `Informal.AsWrittenSubjunctiveIsKey` | hazm/InformalNormalizer.py:17-22 | with the flag set and at least 73 formal forms, the map of the stem ر stores under the key پرم the formal form paired with it by `zip(iv, fv[48:])`, `fv[72]` |
| `Informal.LineEntries` | hazm/InformalNormalizer.py:43-46 | one verb-list line `(f, i, flag)` contributes the conjugation map of `i`, as the code builds its conjugations with پ, against the formal conjugations of `f` |
| `Informal.VerbMapKeys` | hazm/InformalNormalizer.py:42-46 | a key is in `iverb_map` exactly when the map of some verb-list line has it |
| `Informal.VerbMapLastWins` | hazm/InformalNormalizer.py:44-46 | `dict.update`: a key holds the value from the last line whose map has it |
| `Informal.WordMap` | hazm/InformalNormalizer.py:49-51 | `dict` of the word-list pairs has exactly their informal words as keys |
| `Informal.WordMapLastWins` | hazm/InformalNormalizer.py:49-51 | a word maps to the formal word of its last line |
| `Informal.InformalNormalizer.constructor` | hazm/InformalNormalizer.py:12-51 | sets up the base normalizer with the flags, all three on by default, and builds `iverb_map` line by line from the conjugations as the code builds them, and `iword_map` |
| `Informal.InformalNormalizer.SubstituteTokens` | hazm/InformalNormalizer.py:67-73 | the nested loop keeps the number of sentences and of tokens per sentence; it replaces each token through `iverb_map` and then through `iword_map` |
| `Informal.SubstituteTokenKeeps` | hazm/InformalNormalizer.py:69-73 | a token that is a key of neither map is kept |
| `Informal.JoinAvoids` | hazm/InformalNormalizer.py:75 | joining adds no character other than the separator |
| `Informal.SplitJoin` | hazm/InformalNormalizer.py:75 | a text joined with a separator that no part holds splits back into the parts |
| `Informal.RejoinSplits` | hazm/InformalNormalizer.py:75 | the rejoined text splits back into its sentences at newlines, and each sentence into its tokens at spaces, when no token holds either and no sentence is empty |
| `Informal.InformalNormalizer.Normalize` | hazm/InformalNormalizer.py:53-76 | normalize, tokenize, substitute every token, rejoin with spaces and newlines, normalize again |

## Left out

- Reading the verb and word lists from files (hazm/InformalNormalizer.py:41-51) is I/O. The constructor takes their lines as already split sequences: `(formal, informal, flag)` and `(informal, formal)`.
- The debug `print` of every map entry (hazm/InformalNormalizer.py:37-38) is output only.
- A verb-list or word-list line with too few fields makes the Python unpacking fail. The model's lines always have all their fields, so this failure is not modelled.
- `Lemmatizer`, `WordTokenizer` and `SentenceTokenizer` are not part of this model. The lemmatizer's conjugations are a parameter of the map builder (`fv`, or the `conjugations` function of the constructor). The two tokenizers together are the parameter `tokenize` of `Informal.InformalNormalizer.Normalize`.
- `InformalLemmatizer` (hazm/InformalNormalizer.py:95-154) uses names that are never defined, and nothing calls it. It is not modelled.
- The docstring example of `InformalNormalizer.normalize` (hazm/InformalNormalizer.py:55-57) depends on the contents of the data files, so it is not modelled.
- comments_normalizer.py is a script that reads and writes files. It is not modelled.
- `u` (imported at hazm/Normalizer.py:4) is not defined in hazm/utils.py. It is taken as the identity on strings.
- Compiling the patterns (hazm/Normalizer.py:6) is replaced by the hand-written matchers of `Rules.MatchAt`. Python's regular-expression engine itself is not modelled.
- The doctest runner (hazm/Normalizer.py:92-94) is not modelled. The examples are proved as lemmas instead.
- `Text.IsDigit` lists the decimal-digit blocks of the Basic Multilingual Plane only. Python's `\d` also matches the digit blocks of the supplementary planes. So for a character from those blocks, the model's می rule may join where Python's does not.
- Constructing a `Normalizer` with punctuation spacing but without character refinement raises `NameError` in Python. The model makes it a precondition of both constructors instead.
- Calling a stage method whose table was never set raises `AttributeError` in Python. The model makes it a precondition of that method instead.
- Informal.InformalNormalizer.constructor: the default verb and word files (hazm/InformalNormalizer.py:12) are data the model does not hold, so the lists have no default and are always passed in.
- The objects' identity and Python's inheritance are not modelled. `InformalNormalizer` holds its `Normalizer` as the field `base` and calls `base.Normalize` where the source calls `super().normalize`.

## Findings

| source | as written | input that shows it | evidently intended | confidence | as-written member | corrected member |
|---|---|---|---|---|---|---|
| hazm/InformalNormalizer.py:88 | a present simple that does not start with ب is prefixed with پ (U+067E) | stem `ر`: the subjunctive is `پرم`, which does not start with ب | prefix ب (U+0628), the subjunctive prefix that the `startswith('ب')` test checks for, giving `برم` | high, not executed | `Informal.SubjunctiveAsWrittenCounterexample` | `Informal.SubjunctivesStartWithBeh` |

`Informal.InformalConjugationsAsWritten` builds the conjugations with پ, as the code does, and the map builder and `iverb_map` use it, so the model's maps have the code's keys. `Informal.AsWrittenSubjunctiveIsKey` shows the پ reaching the map: the stem ر stores a formal form under the key پرم. `Informal.InformalConjugations` is the corrected definition with ب.
