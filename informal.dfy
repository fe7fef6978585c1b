/** The informal (spoken-style) normalizer: informal verb conjugations, the map from informal
    verb forms to formal ones, and token substitution through that map and a word map. */
module Informal {
  import opened Text
  import opened Normalizing

  // ---------------------------------------------------------------------------------------------
  // Informal conjugations

  /** The person endings: first, second and third singular (replaced below), first, second and
      third plural. */
  const Ends: seq<String> := ["م", "ی", "", "یم", "ین", "ن"]

  /** The imperfect prefix می followed by a ZWNJ. */
  const MiPrefix: String := "می\U{200C}"

  predicate StartsWith(s: String, c: char)
  {
    |s| > 0 && s[0] == c
  }

  predicate EndsWith(s: String, c: char)
  {
    |s| > 0 && s[|s| - 1] == c
  }

  /** `present_simples`: the stem with each ending, then the third person singular replaced. */
  function PresentSimples(verb: String): (r: seq<String>)
    ensures |r| == 6
  {
    var simples := seq(6, k requires 0 <= k < 6 => verb + Ends[k]);
    simples[2 := verb + (if EndsWith(verb, Alef) then [Dal] else [Heh])]
  }

  /** Every item of `items` with `prefix` put in front. */
  function Prefixed(prefix: String, items: seq<String>): (r: seq<String>)
    ensures |r| == |items|
  {
    seq(|items|, k requires 0 <= k < |items| => prefix + items[k])
  }

  /** A subjunctive: an item that already starts with ب is kept, any other gets `prefix`. */
  function Subjunctive(prefix: char, item: String): String
  {
    if StartsWith(item, Beh) then item else [prefix] + item
  }

  /** `informal_conjugations`, with the subjunctive prefix as a parameter: the six groups of six
      are simples, negative simples, imperfects, negative imperfects, subjunctives and negative
      subjunctives. */
  function Conjugations(verb: String, subjunctivePrefix: char): (r: seq<String>)
    ensures |r| == 36
  {
    var simples := PresentSimples(verb);
    var notSimples := Prefixed([Noon], simples);
    var imperfects := Prefixed(MiPrefix, simples);
    var notImperfects := Prefixed([Noon], imperfects);
    var subjunctives := seq(6, k requires 0 <= k < 6 => Subjunctive(subjunctivePrefix, simples[k]));
    var notSubjunctives := Prefixed([Noon], simples);
    simples + notSimples + imperfects + notImperfects + subjunctives + notSubjunctives
  }

  /** The conjugations as the code builds them: a subjunctive not starting with ب gets پ. */
  function InformalConjugationsAsWritten(verb: String): seq<String>
  {
    Conjugations(verb, Peh)
  }

  /** The conjugations with the subjunctive prefix ب that the startswith test is written for; the
      map builder below keeps to the code and uses the ones with پ. */
  function InformalConjugations(verb: String): seq<String>
  {
    Conjugations(verb, Beh)
  }

  /** How the 36 forms relate: simples are stem plus ending (د or ه in the third person
      singular), the negatives and imperfects prefix ن and می‌, and the negative subjunctives are
      the negative simples again. */
  lemma ConjugationGroups(verb: String, p: char, k: nat)
    requires k < 6
    ensures var r := Conjugations(verb, p);
      && (k != 2 ==> r[k] == verb + Ends[k])
      && r[2] == verb + (if EndsWith(verb, Alef) then [Dal] else [Heh])
      && r[6 + k] == [Noon] + r[k]
      && r[12 + k] == MiPrefix + r[k]
      && r[18 + k] == [Noon] + r[12 + k]
      && r[24 + k] == (if StartsWith(r[k], Beh) then r[k] else [p] + r[k])
      && r[30 + k] == r[6 + k]
  {
    var simples := PresentSimples(verb);
    var r := Conjugations(verb, p);
    var notSimples := Prefixed([Noon], simples);
    var imperfects := Prefixed(MiPrefix, simples);
    var notImperfects := Prefixed([Noon], imperfects);
    var subjunctives := seq(6, k requires 0 <= k < 6 => Subjunctive(p, simples[k]));
    assert r == simples + notSimples + imperfects + notImperfects + subjunctives + notSimples;
    assert r[k] == simples[k] && r[6 + k] == notSimples[k] && r[12 + k] == imperfects[k];
    assert r[18 + k] == notImperfects[k] && r[24 + k] == subjunctives[k] && r[30 + k] == notSimples[k];
    assert r[2] == simples[2];
  }

  /** With the prefix ب every subjunctive starts with ب. */
  lemma SubjunctivesStartWithBeh(verb: String, k: nat)
    requires 24 <= k < 30
    ensures StartsWith(InformalConjugations(verb)[k], Beh)
  {
    ConjugationGroups(verb, Beh, k - 24);
  }

  /** As written, the stem ر gives the subjunctive پرم, which does not start with ب. */
  lemma SubjunctiveAsWrittenCounterexample()
    ensures InformalConjugationsAsWritten([Reh])[24] == [Peh, Reh, Meem]
    ensures !StartsWith(InformalConjugationsAsWritten([Reh])[24], Beh)
  {
    ConjugationGroups([Reh], Peh, 0);
    assert [Reh] + Ends[0] == [Reh, Meem];
  }

  // ---------------------------------------------------------------------------------------------
  // The map from informal to formal verb forms

  /** `s[n:]` in Python: empty when `n` is past the end. */
  function Drop<T>(s: seq<T>, n: nat): (r: seq<T>)
    ensures |r| == if n <= |s| then |s| - n else 0
    ensures forall k :: 0 <= k < |r| ==> r[k] == s[n + k]
  {
    if n == 0 || s == [] then s else Drop(s[1..], n - 1)
  }

  /** `zip(a, b)`: pairs up to the end of the shorter list. */
  function Zip<A, B>(a: seq<A>, b: seq<B>): (r: seq<(A, B)>)
    ensures |r| == if |a| <= |b| then |a| else |b|
    ensures forall k :: 0 <= k < |r| ==> r[k] == (a[k], b[k])
  {
    if a == [] || b == [] then [] else [(a[0], b[0])] + Zip(a[1..], b[1..])
  }

  /** The (informal, formal) pairs: with the flag set, the informal forms against the formal
      forms from index 48 on; without it, from index 8 on against those from index 56 on. */
  function Pairs(iv: seq<String>, fv: seq<String>, flag: bool): seq<(String, String)>
  {
    if flag then Zip(iv, Drop(fv, 48)) else Zip(Drop(iv, 8), Drop(fv, 56))
  }

  /** Pair `k` exists exactly when both lists reach that far, and pairs the informal form at
      `skip + k` with the formal form at `48 + skip + k`, where `skip` is 0 with the flag and 8
      without it. */
  lemma PairsIndex(iv: seq<String>, fv: seq<String>, flag: bool, k: nat)
    ensures var skip := if flag then 0 else 8;
      && (k < |Pairs(iv, fv, flag)| <==> skip + k < |iv| && 48 + skip + k < |fv|)
      && (k < |Pairs(iv, fv, flag)| ==> Pairs(iv, fv, flag)[k] == (iv[skip + k], fv[48 + skip + k]))
  {
  }

  /** `s.replace(a, b)` for single characters. */
  function ReplaceChar(s: String, a: char, b: char): (r: String)
    ensures |r| == |s|
    ensures forall k :: 0 <= k < |s| ==> r[k] == if s[k] == a then b else s[k]
  {
    if s == [] then [] else [if s[0] == a then b else s[0]] + ReplaceChar(s[1..], a, b)
  }

  /** `s.endswith('ین')`. */
  predicate EndsWithYehNoon(s: String)
  {
    |s| >= 2 && s[|s| - 2] == PersianYeh && s[|s| - 1] == Noon
  }

  /** The keys one informal form is stored under: the form itself; without its ZWNJ and with
      its ZWNJ made a space, when it has one; and with its final ن made د, when it ends in ین. */
  function EntryKeys(i: String): set<String>
  {
    {i}
    + (if Zwnj in i then {Without(i, Zwnj), ReplaceChar(i, Zwnj, Space)} else {})
    + (if EndsWithYehNoon(i) then {i[..|i| - 1] + [Dal]} else {})
  }

  /** The body of the loop of `informal_to_formal_conjucation`: store `j` under `i`, then under
      its variants. */
  function InsertEntry(res: map<String, String>, i: String, j: String): (r: map<String, String>)
    ensures forall k :: k in r <==> k in res || k in EntryKeys(i)
    ensures forall k :: k in r ==> r[k] == if k in EntryKeys(i) then j else res[k]
  {
    var r1 := res[i := j];
    var r2 := if Zwnj in i then r1[Without(i, Zwnj) := j][ReplaceChar(i, Zwnj, Space) := j] else r1;
    if EndsWithYehNoon(i) then r2[i[..|i| - 1] + [Dal] := j] else r2
  }

  /** The dictionary the loop leaves after inserting every pair in order. */
  function BuildMap(pairs: seq<(String, String)>): map<String, String>
  {
    if pairs == [] then map[]
    else InsertEntry(BuildMap(pairs[..|pairs| - 1]), pairs[|pairs| - 1].0, pairs[|pairs| - 1].1)
  }

  /** A key is in the map exactly when some pair's informal form has it among its keys. */
  lemma {:induction false} BuildMapKeys(pairs: seq<(String, String)>, key: String)
    ensures key in BuildMap(pairs) <==> exists m :: 0 <= m < |pairs| && key in EntryKeys(pairs[m].0)
  {
    if pairs != [] {
      var init := pairs[..|pairs| - 1];
      BuildMapKeys(init, key);
      if key in BuildMap(init) {
        var m :| 0 <= m < |init| && key in EntryKeys(init[m].0);
        assert pairs[m] == init[m];
      }
      if exists m :: 0 <= m < |pairs| && key in EntryKeys(pairs[m].0) {
        var m :| 0 <= m < |pairs| && key in EntryKeys(pairs[m].0);
        if m < |init| {
          assert init[m] == pairs[m];
        }
      }
    }
  }

  /** A key holds the formal form of the last pair that stores under it: later insertions
      overwrite earlier ones. */
  lemma {:induction false} BuildMapLastWins(pairs: seq<(String, String)>, key: String, m: nat)
    requires m < |pairs| && key in EntryKeys(pairs[m].0)
    requires forall n :: m < n < |pairs| ==> key !in EntryKeys(pairs[n].0)
    ensures key in BuildMap(pairs) && BuildMap(pairs)[key] == pairs[m].1
  {
    var init := pairs[..|pairs| - 1];
    if m < |pairs| - 1 {
      forall n | m < n < |init| ensures key !in EntryKeys(init[n].0) {
        assert init[n] == pairs[n];
      }
      assert init[m] == pairs[m];
      BuildMapLastWins(init, key, m);
    }
  }

  /** The loop of `informal_to_formal_conjucation`: every pair stored in order into a fresh
      dictionary. */
  method StorePairs(pairs: seq<(String, String)>) returns (res: map<String, String>)
    ensures res == BuildMap(pairs)
  {
    res := map[];
    for k := 0 to |pairs|
      invariant res == BuildMap(pairs[..k])
    {
      assert pairs[..k + 1][..k] == pairs[..k];
      res := InsertEntry(res, pairs[k].0, pairs[k].1);
    }
    assert pairs[..|pairs|] == pairs;
  }

  /** `informal_to_formal_conjucation(i, f, flag)`, with `lemmatizer.conjugations(f)` given as
      `fv`; `flag` is the third field of the verb-list line and counts as set when non-empty. */
  method InformalToFormalConjugation(verb: String, fv: seq<String>, flag: String)
    returns (res: map<String, String>)
    ensures res == BuildMap(Pairs(InformalConjugationsAsWritten(verb), fv, |flag| > 0))
  {
    var iv := InformalConjugationsAsWritten(verb);
    if |flag| > 0 {
      res := StorePairs(Zip(iv, Drop(fv, 48)));
    } else {
      res := StorePairs(Zip(Drop(iv, 8), Drop(fv, 56)));
    }
  }

  /** The conjugation map of one verb-list line `(f, i, flag)`. */
  function LineMap(line: (String, String, String), conjugations: String -> seq<String>): map<String, String>
  {
    BuildMap(Pairs(InformalConjugationsAsWritten(line.1), conjugations(line.0), |line.2| > 0))
  }

  /** The call `informal_to_formal_conjucation(i, f, flag)` for one verb-list line `(f, i, flag)`. */
  method LineEntries(line: (String, String, String), conjugations: String -> seq<String>)
    returns (res: map<String, String>)
    ensures res == LineMap(line, conjugations)
  {
    res := InformalToFormalConjugation(line.1, conjugations(line.0), line.2);
  }

  /** A form without ZWNJ that is not پرم, and whose last character is not the third, is not
      stored under the key پرم. */
  lemma FormAvoidsKey(i: String)
    requires |i| > 0 && Zwnj !in i && (i[0] != Peh || |i| != 3 || i[2] != Meem)
    ensures [Peh, Reh, Meem] !in EntryKeys(i)
  {
    if EndsWithYehNoon(i) {
      var v := i[..|i| - 1] + [Dal];
      assert v[0] == i[0] && v[|v| - 1] == Dal;
    }
  }

  /** The later subjunctives of the stem ر are پری, پره, پریم, پرین and پرن. */
  lemma LaterSubjunctivesAvoidKey(verb: String, k: nat)
    requires verb == [Reh] && 0 < k < 6
    ensures [Peh, Reh, Meem] !in EntryKeys(Conjugations(verb, Peh)[24 + k])
  {
    ConjugationGroups(verb, Peh, k);
    var end := if k == 2 then [Heh] else Ends[k];
    var form := [Peh, Reh] + end;
    assert Conjugations(verb, Peh)[24 + k] == form;
    assert Zwnj !in end && (|end| != 1 || end[0] != Meem);
    FormAvoidsKey(form);
  }

  /** The negative subjunctives of the stem ر all start with ن. */
  lemma NegativeSubjunctivesAvoidKey(verb: String, k: nat)
    requires verb == [Reh] && k < 6
    ensures [Peh, Reh, Meem] !in EntryKeys(Conjugations(verb, Peh)[30 + k])
  {
    ConjugationGroups(verb, Peh, k);
    var end := if k == 2 then [Heh] else Ends[k];
    var form := [Noon, Reh] + end;
    assert Conjugations(verb, Peh)[30 + k] == form;
    assert Zwnj !in end;
    FormAvoidsKey(form);
  }

  /** The پ of the conjugations reaches the map: with the flag set and enough formal forms, the
      stem ر stores its subjunctive under the key پرم. */
  lemma AsWrittenSubjunctiveIsKey(fv: seq<String>)
    requires |fv| > 72
    ensures [Peh, Reh, Meem] in BuildMap(Pairs(InformalConjugationsAsWritten([Reh]), fv, true))
    ensures BuildMap(Pairs(InformalConjugationsAsWritten([Reh]), fv, true))[[Peh, Reh, Meem]] == fv[72]
  {
    var iv := InformalConjugationsAsWritten([Reh]);
    var pairs := Pairs(iv, fv, true);
    SubjunctiveAsWrittenCounterexample();
    PairsIndex(iv, fv, true, 24);
    forall n | 24 < n < |pairs| ensures [Peh, Reh, Meem] !in EntryKeys(pairs[n].0) {
      PairsIndex(iv, fv, true, n);
      if n < 30 {
        LaterSubjunctivesAvoidKey([Reh], n - 24);
      } else {
        NegativeSubjunctivesAvoidKey([Reh], n - 30);
      }
    }
    BuildMapLastWins(pairs, [Peh, Reh, Meem], 24);
  }

  /** `iverb_map`: each verb-list line adds its conjugation map, later lines overwriting
      earlier ones as `dict.update` does. */
  function VerbMap(verbs: seq<(String, String, String)>, conjugations: String -> seq<String>)
    : map<String, String>
  {
    if verbs == [] then map[]
    else VerbMap(verbs[..|verbs| - 1], conjugations) + LineMap(verbs[|verbs| - 1], conjugations)
  }

  /** `dict(pairs)`: the last pair with a key decides its value. */
  function WordMap(words: seq<(String, String)>): (r: map<String, String>)
    ensures forall k :: k in r <==> exists m :: 0 <= m < |words| && words[m].0 == k
  {
    if words == [] then map[]
    else
      var init := WordMap(words[..|words| - 1]);
      var r := init[words[|words| - 1].0 := words[|words| - 1].1];
      assert forall m :: 0 <= m < |words| - 1 ==> words[..|words| - 1][m] == words[m];
      r
  }

  /** A key of the verb map comes from the conjugation map of some verb-list line. */
  lemma {:induction false} VerbMapKeys(verbs: seq<(String, String, String)>, conjugations: String -> seq<String>,
                                       key: String)
    ensures key in VerbMap(verbs, conjugations) <==>
      exists m :: 0 <= m < |verbs| && key in LineMap(verbs[m], conjugations)
  {
    if verbs != [] {
      var init := verbs[..|verbs| - 1];
      VerbMapKeys(init, conjugations, key);
      if key in VerbMap(init, conjugations) {
        var m :| 0 <= m < |init| && key in LineMap(init[m], conjugations);
        assert verbs[m] == init[m];
      }
      if exists m :: 0 <= m < |verbs| && key in LineMap(verbs[m], conjugations) {
        var m :| 0 <= m < |verbs| && key in LineMap(verbs[m], conjugations);
        if m < |init| {
          assert init[m] == verbs[m];
        }
      }
    }
  }

  /** A key holds what the last verb-list line that maps it gives: `dict.update` overwrites. */
  lemma {:induction false} VerbMapLastWins(verbs: seq<(String, String, String)>,
                                           conjugations: String -> seq<String>, key: String, m: nat)
    requires m < |verbs| && key in LineMap(verbs[m], conjugations)
    requires forall n :: m < n < |verbs| ==> key !in LineMap(verbs[n], conjugations)
    ensures key in VerbMap(verbs, conjugations)
    ensures VerbMap(verbs, conjugations)[key] == LineMap(verbs[m], conjugations)[key]
  {
    var init := verbs[..|verbs| - 1];
    if m < |verbs| - 1 {
      forall n | m < n < |init| ensures key !in LineMap(init[n], conjugations) {
        assert init[n] == verbs[n];
      }
      assert init[m] == verbs[m];
      VerbMapLastWins(init, conjugations, key, m);
    }
  }

  /** A word-list key holds the formal word of its last line. */
  lemma {:induction false} WordMapLastWins(words: seq<(String, String)>, m: nat)
    requires m < |words|
    requires forall n :: m < n < |words| ==> words[n].0 != words[m].0
    ensures words[m].0 in WordMap(words) && WordMap(words)[words[m].0] == words[m].1
  {
    var init := words[..|words| - 1];
    if m < |words| - 1 {
      forall n | m < n < |init| ensures init[n].0 != init[m].0 {
        assert init[n] == words[n] && init[m] == words[m];
      }
      WordMapLastWins(init, m);
      assert init[m] == words[m];
    }
  }

  // ---------------------------------------------------------------------------------------------
  // Token substitution and rejoining

  /** A token is first looked up in the verb map, and what results in the word map. */
  function SubstituteToken(t: String, verbMap: map<String, String>, wordMap: map<String, String>): String
  {
    var a := if t in verbMap then verbMap[t] else t;
    if a in wordMap then wordMap[a] else a
  }

  /** Every token of every sentence substituted. */
  function SubstituteAll(sents: seq<seq<String>>, verbMap: map<String, String>, wordMap: map<String, String>)
    : seq<seq<String>>
  {
    seq(|sents|, i requires 0 <= i < |sents| =>
      seq(|sents[i]|, j requires 0 <= j < |sents[i]| => SubstituteToken(sents[i][j], verbMap, wordMap)))
  }

  /** `sep.join(parts)`. */
  function JoinWith(sep: char, parts: seq<String>): String
  {
    if |parts| == 0 then []
    else if |parts| == 1 then parts[0]
    else parts[0] + [sep] + JoinWith(sep, parts[1..])
  }

  /** `'\n'.join([' '.join(sentence) for sentence in sents])`. */
  function Rejoin(sents: seq<seq<String>>): String
  {
    JoinWith(Newline, seq(|sents|, i requires 0 <= i < |sents| => JoinWith(Space, sents[i])))
  }

  /** `s.split(sep)`: the pieces between separators, one more than there are separators. */
  function Split(s: String, sep: char): (r: seq<String>)
    ensures |r| > 0
  {
    if s == [] then [[]]
    else
      var rest := Split(s[1..], sep);
      if s[0] == sep then [[]] + rest else [[s[0]] + rest[0]] + rest[1..]
  }

  lemma {:induction false} SplitPrefix(a: String, rest: String, sep: char)
    requires sep !in a
    ensures Split(a + rest, sep) == [a + Split(rest, sep)[0]] + Split(rest, sep)[1..]
  {
    if a != [] {
      SplitPrefix(a[1..], rest, sep);
      var r := Split(rest, sep);
      assert (a + rest)[0] == a[0] != sep;
      assert (a + rest)[1..] == a[1..] + rest;
      assert Split(a + rest, sep) == [[a[0]] + (a[1..] + r[0])] + r[1..];
      assert [a[0]] + (a[1..] + r[0]) == a + r[0];
    } else {
      var r := Split(rest, sep);
      assert a + rest == rest && a + r[0] == r[0];
      assert r == [r[0]] + r[1..];
    }
  }

  /** The separator does not occur in the joined text when it occurs in no part. */
  lemma {:induction false} JoinAvoids(sep: char, parts: seq<String>, c: char)
    requires c != sep && forall k :: 0 <= k < |parts| ==> c !in parts[k]
    ensures c !in JoinWith(sep, parts)
  {
    if |parts| > 1 {
      JoinAvoids(sep, parts[1..], c);
    }
  }

  /** Splitting a joined text at the separator gives the parts back, when no part holds the
      separator and there is at least one part. */
  lemma {:induction false} SplitJoin(sep: char, parts: seq<String>)
    requires |parts| > 0 && forall k :: 0 <= k < |parts| ==> sep !in parts[k]
    ensures Split(JoinWith(sep, parts), sep) == parts
  {
    if |parts| == 1 {
      SplitPrefix(parts[0], [], sep);
      assert Split([], sep) == [[]];
      assert parts[0] + [] == parts[0];
    } else {
      var tail := JoinWith(sep, parts[1..]);
      SplitJoin(sep, parts[1..]);
      SplitPrefix(parts[0], [sep] + tail, sep);
      assert parts[0] + [sep] + tail == parts[0] + ([sep] + tail);
      assert ([sep] + tail)[0] == sep && ([sep] + tail)[1..] == tail;
      var after := Split([sep] + tail, sep);
      assert after == [[]] + parts[1..];
      assert after[0] == [] && after[1..] == parts[1..];
      assert JoinWith(sep, parts) == parts[0] + ([sep] + tail);
      assert Split(JoinWith(sep, parts), sep) == [parts[0] + []] + parts[1..];
      assert parts[0] + [] == parts[0];
      assert parts == [parts[0]] + parts[1..];
    }
  }

  /** The joined text splits back into its sentences at newlines and each sentence into its
      tokens at spaces, when there is a sentence, no sentence is empty and no token holds a space
      or a newline. */
  lemma RejoinSplits(sents: seq<seq<String>>)
    requires |sents| > 0
    requires forall i :: 0 <= i < |sents| ==> |sents[i]| > 0
    requires forall i, j :: 0 <= i < |sents| && 0 <= j < |sents[i]| ==>
      Space !in sents[i][j] && Newline !in sents[i][j]
    ensures var lines := Split(Rejoin(sents), Newline);
      |lines| == |sents| && forall i :: 0 <= i < |sents| ==> Split(lines[i], Space) == sents[i]
  {
    var lines := seq(|sents|, i requires 0 <= i < |sents| => JoinWith(Space, sents[i]));
    forall i | 0 <= i < |sents| ensures Newline !in lines[i] && Split(lines[i], Space) == sents[i] {
      JoinAvoids(Space, sents[i], Newline);
      SplitJoin(Space, sents[i]);
    }
    SplitJoin(Newline, lines);
  }

  // ---------------------------------------------------------------------------------------------
  // The informal normalizer object

  class InformalNormalizer {
    /** The `Normalizer` this object extends, holding the flags and rule tables. */
    const base: Normalizer
    const iverbMap: map<String, String>
    const iwordMap: map<String, String>

    /** `verbs` are the verb-list lines split into (formal, informal, flag), `conjugations` is
        the lemmatizer's conjugation function and `words` are the word-list lines split into
        (informal, formal). */
    constructor (verbs: seq<(String, String, String)>, conjugations: String -> seq<String>,
                 words: seq<(String, String)>, characterRefinement: bool := true,
                 punctuationSpacing: bool := true, affixSpacing: bool := true)
      requires punctuationSpacing ==> characterRefinement
      ensures base.Valid()
      ensures base.characterRefinement == characterRefinement
      ensures base.punctuationSpacing == punctuationSpacing
      ensures base.affixSpacing == affixSpacing
      ensures iverbMap == VerbMap(verbs, conjugations)
      ensures iwordMap == WordMap(words)
    {
      base := new Normalizer(characterRefinement, punctuationSpacing, affixSpacing);
      var m := map[];
      for k := 0 to |verbs|
        invariant m == VerbMap(verbs[..k], conjugations)
      {
        assert verbs[..k + 1][..k] == verbs[..k];
        var entries := LineEntries(verbs[k], conjugations);
        m := m + entries;
      }
      assert verbs[..|verbs|] == verbs;
      iverbMap := m;
      iwordMap := WordMap(words);
    }

    /** The nested loop of `normalize` that overwrites each token in place. */
    method SubstituteTokens(sents: seq<seq<String>>) returns (r: seq<seq<String>>)
      ensures |r| == |sents|
      ensures forall i :: 0 <= i < |r| ==> |r[i]| == |sents[i]|
      ensures forall i, j :: 0 <= i < |r| && 0 <= j < |r[i]| ==>
        r[i][j] == SubstituteToken(sents[i][j], iverbMap, iwordMap)
    {
      r := sents;
      for i := 0 to |r|
        invariant |r| == |sents|
        invariant forall a :: 0 <= a < |r| ==> |r[a]| == |sents[a]|
        invariant forall a, b :: 0 <= a < i && 0 <= b < |r[a]| ==>
          r[a][b] == SubstituteToken(sents[a][b], iverbMap, iwordMap)
        invariant forall a :: i <= a < |r| ==> r[a] == sents[a]
      {
        for j := 0 to |r[i]|
          invariant |r| == |sents|
          invariant forall a :: 0 <= a < |r| ==> |r[a]| == |sents[a]|
          invariant forall a, b :: 0 <= a < i && 0 <= b < |r[a]| ==>
            r[a][b] == SubstituteToken(sents[a][b], iverbMap, iwordMap)
          invariant forall b :: 0 <= b < j ==> r[i][b] == SubstituteToken(sents[i][b], iverbMap, iwordMap)
          invariant forall b :: j <= b < |r[i]| ==> r[i][b] == sents[i][b]
          invariant forall a :: i < a < |r| ==> r[a] == sents[a]
        {
          if r[i][j] in iverbMap {
            r := r[i := r[i][j := iverbMap[r[i][j]]]];
          }
          if r[i][j] in iwordMap {
            r := r[i := r[i][j := iwordMap[r[i][j]]]];
          }
        }
      }
    }

    /** `normalize(text)`, with the sentence and word tokenizers given as `tokenize`: normalize,
        tokenize, substitute every token, rejoin, and normalize again. */
    method Normalize(text: String, tokenize: String -> seq<seq<String>>) returns (r: String)
      requires base.Valid()
      ensures var refine, punctuate, affixes :=
          base.characterRefinement, base.punctuationSpacing, base.affixSpacing;
        var sents := tokenize(NormalizeSpec(refine, punctuate, affixes, text));
        r == NormalizeSpec(refine, punctuate, affixes, Rejoin(SubstituteAll(sents, iverbMap, iwordMap)))
    {
      var t := base.Normalize(text);
      var sents := tokenize(t);
      var substituted := SubstituteTokens(sents);
      forall i | 0 <= i < |sents| ensures substituted[i] == SubstituteAll(sents, iverbMap, iwordMap)[i] {
      }
      assert substituted == SubstituteAll(sents, iverbMap, iwordMap);
      t := Rejoin(substituted);
      r := base.Normalize(t);
    }
  }

  /** Tokens that are keys of neither map come through the substitution unchanged. */
  lemma SubstituteTokenKeeps(t: String, verbMap: map<String, String>, wordMap: map<String, String>)
    requires t !in verbMap && t !in wordMap
    ensures SubstituteToken(t, verbMap, wordMap) == t
  {
  }
}
