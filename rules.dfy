/** The eleven fixed rewrite patterns of the normalizer, each written as a matcher that says what
    its regular expression matches at an index and what the replacement template makes of it. */
module Rules {
  import opened Text
  import opened Substitution

  /** One (pattern, replacement) pair of a rule table. */
  datatype Rule =
    | ExtraSpaces        // `[ ]+` -> ` `
    | ExtraNewlines      // `[\n\r]+` -> `\n`
    | KeshideRun         // `ـ+` -> ``
    | RemoveSpaceBefore  // ` ([after])` -> `\1`
    | RemoveSpaceAfter   // `([before]) ` -> `\1`
    | PutSpaceAfter      // `([after])([^ after])` -> `\1 \2`
    | PutSpaceBefore     // `([^ before])([before])` -> `\1 \2`
    | FixYehSpace        // `([^ ]ه) ی ` -> `\1‌ی `
    | JoinMiToVerb       // `(^| )می ([^\s\d])` -> `\1می‌\2`
    | ZwnjAfterMi        // ` (ن?می) ` -> ` \1‌`
    | ZwnjBeforeSuffix   // ` (تر(ی(ن)?)?|ها(ی)?) ` -> `‌\1 `

  /** The characters a rule's replacement template writes on its own (not copied from the match). */
  function Literals(rule: Rule): set<char>
  {
    match rule
    case ExtraSpaces => {Space}
    case ExtraNewlines => {Newline}
    case KeshideRun => {}
    case RemoveSpaceBefore => {}
    case RemoveSpaceAfter => {}
    case PutSpaceAfter => {Space}
    case PutSpaceBefore => {Space}
    case FixYehSpace => {Zwnj, PersianYeh, Space}
    case JoinMiToVerb => {Meem, PersianYeh, Zwnj}
    case ZwnjAfterMi => {Space, Zwnj}
    case ZwnjBeforeSuffix => {Zwnj, Space}
  }

  /** The end of the maximal run of `cls` characters that starts at `i` (greedy `+`). */
  function RunEnd(s: String, i: nat, cls: set<char>): (j: nat)
    requires i <= |s|
    ensures i <= j <= |s|
    ensures forall k :: i <= k < j ==> s[k] in cls
    ensures j == |s| || s[j] !in cls
    decreases |s| - i
  {
    if i < |s| && s[i] in cls then RunEnd(s, i + 1, cls) else i
  }

  /** The match of a run rule `[cls]+` at `i`: the maximal run, replaced by `repl`. */
  function MatchRun(s: String, i: nat, cls: set<char>, repl: String): (m: Option<Match>)
    requires i < |s|
    ensures m.Some? <==> s[i] in cls
    ensures m.Some? ==> m.value.repl == repl && 0 < m.value.len <= |s| - i
    ensures m.Some? ==> forall k :: i <= k < i + m.value.len ==> s[k] in cls
    ensures m.Some? ==> i + m.value.len == |s| || s[i + m.value.len] !in cls
  {
    var j := RunEnd(s, i, cls);
    if j == i then None else Some(Match(j - i, repl))
  }

  /** `می ` at `j` followed by a character that is neither `\s` nor `\d`. */
  predicate MiBeforeWord(s: String, j: nat)
  {
    j + 3 < |s| && s[j] == 'م' && s[j + 1] == 'ی' && s[j + 2] == ' '
    && !IsWhitespace(s[j + 3]) && !IsDigit(s[j + 3])
  }

  /** The five suffixes of the group `(تر(ی(ن)?)?|ها(ی)?)`. */
  const Suffixes: set<String> := {"ترین", "تری", "تر", "های", "ها"}

  /** `t` occurs at `j` and a space follows it. */
  predicate SpacedAt(s: String, j: nat, t: String)
  {
    j + |t| < |s| && s[j..j + |t|] == t && s[j + |t|] == ' '
  }

  /** The length of the text the group `(تر(ی(ن)?)?|ها(ی)?)` matches at `j` when a space follows
      it, or 0 when no alternative does; the optional parts are greedy and the engine backtracks
      through ترین, تری, تر and then های, ها. So the result is the longest suffix that is
      followed by a space, and 0 only when there is none. */
  function SuffixAt(s: String, j: nat): (n: nat)
    ensures n == 0 || (2 <= n <= 4 && j + n < |s| && s[j + n] == ' ')
    ensures n != 0 ==> s[j..j + n] in Suffixes
  {
    if j + 1 < |s| && s[j] == 'ت' && s[j + 1] == 'ر' then
      if j + 4 < |s| && s[j + 2] == 'ی' && s[j + 3] == 'ن' && s[j + 4] == ' ' then
        assert s[j..j + 4] == "ترین";
        4
      else if j + 3 < |s| && s[j + 2] == 'ی' && s[j + 3] == ' ' then
        assert s[j..j + 3] == "تری";
        3
      else if j + 2 < |s| && s[j + 2] == ' ' then
        assert s[j..j + 2] == "تر";
        2
      else 0
    else if j + 1 < |s| && s[j] == 'ه' && s[j + 1] == 'ا' then
      if j + 3 < |s| && s[j + 2] == 'ی' && s[j + 3] == ' ' then
        assert s[j..j + 3] == "های";
        3
      else if j + 2 < |s| && s[j + 2] == ' ' then
        assert s[j..j + 2] == "ها";
        2
      else 0
    else 0
  }

  /** No suffix followed by a space is longer than the one `SuffixAt` finds: a suffix followed by
      a space at `j` is always found, and ترین wins over تری and تر, های over ها. */
  lemma SuffixAtLongest(s: String, j: nat, t: String)
    requires t in Suffixes && SpacedAt(s, j, t)
    ensures |t| <= SuffixAt(s, j)
  {
    var w := s[j..j + |t|];
    assert w == t && s[j + |t|] == ' ';
    assert w[0] == s[j] && w[1] == s[j + 1];
    if t == "ترین" {
      assert w[2] == s[j + 2] && w[3] == s[j + 3];
    } else if t == "تری" || t == "های" {
      assert w[2] == s[j + 2];
    } else {
      assert t == "تر" || t == "ها";
    }
  }

  function MatchRemoveSpaceBefore(s: String, i: nat): Option<Match>
    requires i < |s|
  {
    if i + 1 < |s| && s[i] == ' ' && IsPuncAfter(s[i + 1]) then Some(Match(2, [s[i + 1]])) else None
  }

  function MatchRemoveSpaceAfter(s: String, i: nat): Option<Match>
    requires i < |s|
  {
    if i + 1 < |s| && IsPuncBefore(s[i]) && s[i + 1] == ' ' then Some(Match(2, [s[i]])) else None
  }

  function MatchPutSpaceAfter(s: String, i: nat): Option<Match>
    requires i < |s|
  {
    if i + 1 < |s| && IsPuncAfter(s[i]) && s[i + 1] != ' ' && !IsPuncAfter(s[i + 1])
    then Some(Match(2, [s[i], ' ', s[i + 1]])) else None
  }

  function MatchPutSpaceBefore(s: String, i: nat): Option<Match>
    requires i < |s|
  {
    if i + 1 < |s| && s[i] != ' ' && !IsPuncBefore(s[i]) && IsPuncBefore(s[i + 1])
    then Some(Match(2, [s[i], ' ', s[i + 1]])) else None
  }

  function MatchFixYehSpace(s: String, i: nat): Option<Match>
    requires i < |s|
  {
    if i + 4 < |s| && s[i] != ' ' && s[i + 1] == 'ه' && s[i + 2] == ' ' && s[i + 3] == 'ی' && s[i + 4] == ' '
    then Some(Match(5, [s[i], s[i + 1], '\U{200C}', 'ی', ' '])) else None
  }

  function MatchJoinMiToVerb(s: String, i: nat): Option<Match>
    requires i < |s|
  {
    // the alternative `^` is tried first and succeeds only at the start of the text
    if i == 0 && MiBeforeWord(s, 0) then Some(Match(4, ['م', 'ی', '\U{200C}', s[3]]))
    else if s[i] == ' ' && MiBeforeWord(s, i + 1) then Some(Match(5, [s[i], 'م', 'ی', '\U{200C}', s[i + 4]]))
    else None
  }

  function MatchZwnjAfterMi(s: String, i: nat): Option<Match>
    requires i < |s|
  {
    // `ن?` is greedy; with a ن after the space the only way on is ` نمی `
    if i + 4 < |s| && s[i] == ' ' && s[i + 1] == 'ن' && s[i + 2] == 'م' && s[i + 3] == 'ی' && s[i + 4] == ' '
    then Some(Match(5, [' ', s[i + 1], s[i + 2], s[i + 3], '\U{200C}']))
    else if i + 3 < |s| && s[i] == ' ' && s[i + 1] == 'م' && s[i + 2] == 'ی' && s[i + 3] == ' '
    then Some(Match(4, [' ', s[i + 1], s[i + 2], '\U{200C}']))
    else None
  }

  function MatchZwnjBeforeSuffix(s: String, i: nat): Option<Match>
    requires i < |s|
  {
    var n := SuffixAt(s, i + 1);
    if s[i] == ' ' && n != 0 then Some(Match(n + 2, ['\U{200C}'] + s[i + 1..i + 1 + n] + [' '])) else None
  }

  /** The match of `rule`'s pattern that starts exactly at index `i`, if any. */
  function MatchAt(rule: Rule, s: String, i: nat): (m: Option<Match>)
    requires i < |s|
    ensures m.Some? ==> 0 < m.value.len <= |s| - i
  {
    match rule
    case ExtraSpaces => MatchRun(s, i, {' '}, " ")
    case ExtraNewlines => MatchRun(s, i, {'\n', '\r'}, "\n")
    case KeshideRun => MatchRun(s, i, {'\U{0640}'}, "")
    case RemoveSpaceBefore => MatchRemoveSpaceBefore(s, i)
    case RemoveSpaceAfter => MatchRemoveSpaceAfter(s, i)
    case PutSpaceAfter => MatchPutSpaceAfter(s, i)
    case PutSpaceBefore => MatchPutSpaceBefore(s, i)
    case FixYehSpace => MatchFixYehSpace(s, i)
    case JoinMiToVerb => MatchJoinMiToVerb(s, i)
    case ZwnjAfterMi => MatchZwnjAfterMi(s, i)
    case ZwnjBeforeSuffix => MatchZwnjBeforeSuffix(s, i)
  }

  /** The matcher of a rule, defined at every index (past the end nothing matches). */
  function MatcherOf(rule: Rule): (f: Matcher)
    ensures Progresses(f)
  {
    (s: String, i: nat) => if i < |s| then MatchAt(rule, s, i) else None
  }

  /** `pattern.sub(repl, text)` for one rule. */
  function Apply(rule: Rule, s: String): String
  {
    Sub(MatcherOf(rule), s, 0)
  }

  /** A rule table applied in order, each rule to the output of the one before. */
  function ApplyAll(rules: seq<Rule>, s: String): String
  {
    if rules == [] then s else ApplyAll(rules[1..], Apply(rules[0], s))
  }

  /** The rules of the affix stage, which only turn spaces into ZWNJ. */
  predicate IsAffixRule(rule: Rule)
  {
    rule.FixYehSpace? || rule.JoinMiToVerb? || rule.ZwnjAfterMi? || rule.ZwnjBeforeSuffix?
  }

  /** The rules that only insert or delete plain spaces. */
  predicate IsSpacingRule(rule: Rule)
  {
    rule.ExtraSpaces? || rule.RemoveSpaceBefore? || rule.RemoveSpaceAfter?
    || rule.PutSpaceAfter? || rule.PutSpaceBefore?
  }

  /** `b` is `a` with some spaces turned into ZWNJ and nothing else changed. */
  predicate ZwnjFor(a: String, b: String)
  {
    |a| == |b| && forall k :: 0 <= k < |a| ==> b[k] == a[k] || (a[k] == ' ' && b[k] == Zwnj)
  }

  /** The context the pattern of an affix rule demands around the space at `k` that it turns
      into ZWNJ. */
  predicate Guard(rule: Rule, s: String, k: nat)
  {
    k < |s| && s[k] == ' ' &&
    match rule
    case FixYehSpace => 2 <= k && k + 2 < |s| && s[k - 2] != ' ' && s[k - 1] == 'ه' && s[k + 1] == 'ی' && s[k + 2] == ' '
    case JoinMiToVerb => 2 <= k && MiBeforeWord(s, k - 2) && (k == 2 || s[k - 3] == ' ')
    case ZwnjAfterMi =>
      3 <= k && s[k - 2] == 'م' && s[k - 1] == 'ی'
      && (s[k - 3] == ' ' || (4 <= k && s[k - 3] == 'ن' && s[k - 4] == ' '))
    case ZwnjBeforeSuffix => SuffixAt(s, k + 1) != 0
    case _ => false
  }

  /** A replacement holds no character that is neither in the text it replaces nor among the
      literals of the rule's template. */
  lemma MatchAbsent(rule: Rule, s: String, i: nat, c: char)
    requires i < |s| && MatchAt(rule, s, i).Some?
    requires c !in Literals(rule)
    requires forall k :: i <= k < i + MatchAt(rule, s, i).value.len ==> s[k] != c
    ensures c !in MatchAt(rule, s, i).value.repl
  {
    if rule.ZwnjBeforeSuffix? {
      var m := MatchAt(rule, s, i).value;
      assert m.repl == [Zwnj] + s[i + 1..i + m.len - 1] + [' '];
    }
  }

  /** A rule writes no character that is neither in the text nor among its template's literals. */
  lemma ApplyAbsent(rule: Rule, s: String, c: char)
    requires c !in s && c !in Literals(rule)
    ensures c !in Apply(rule, s)
  {
    var f := MatcherOf(rule);
    forall j | 0 <= j < |s| ensures AvoidsAt(f, s, j, c) {
      if f(s, j).Some? {
        MatchAbsent(rule, s, j, c);
      }
    }
    SubAbsent(f, s, 0, c);
  }

  /** A rule that matches nowhere in the text leaves it unchanged. */
  lemma ApplyIdentity(rule: Rule, s: String)
    requires forall j :: 0 <= j < |s| ==> MatchAt(rule, s, j).None?
    ensures Apply(rule, s) == s
  {
    SubUnchanged(MatcherOf(rule), s, 0);
  }

  lemma MatchKeepsNonSpaces(rule: Rule, s: String, i: nat)
    requires IsSpacingRule(rule) && i < |s| && MatchAt(rule, s, i).Some?
    ensures var m := MatchAt(rule, s, i).value;
      Without(m.repl, ' ') == Without(s[i..i + m.len], ' ')
  {
    var m := MatchAt(rule, s, i).value;
    var seg := s[i..i + m.len];
    if rule.ExtraSpaces? {
      AllSpaces(seg);
      assert Without(m.repl, ' ') == [];
    } else {
      assert seg == [s[i]] + [s[i + 1]];
      WithoutConcat([s[i]], [s[i + 1]], ' ');
      if rule.PutSpaceAfter? || rule.PutSpaceBefore? {
        assert m.repl == [s[i]] + ([' '] + [s[i + 1]]);
        WithoutConcat([s[i]], [' '] + [s[i + 1]], ' ');
        WithoutConcat([' '], [s[i + 1]], ' ');
      }
    }
  }

  lemma {:induction false} AllSpaces(s: String)
    requires forall k :: 0 <= k < |s| ==> s[k] == ' '
    ensures Without(s, ' ') == []
  {
    if s != [] {
      AllSpaces(s[1..]);
    }
  }

  /** A spacing rule changes nothing but plain spaces: with the spaces taken out, its output and
      its input are the same text. */
  lemma ApplyKeepsNonSpaces(rule: Rule, s: String)
    requires IsSpacingRule(rule)
    ensures Without(Apply(rule, s), ' ') == Without(s, ' ')
  {
    var f := MatcherOf(rule);
    forall j | 0 <= j < |s| && f(s, j).Some?
      ensures Without(f(s, j).value.repl, ' ') == Without(s[j..j + f(s, j).value.len], ' ')
    {
      MatchKeepsNonSpaces(rule, s, j);
    }
    SubKeepsNonSpaces(f, s, 0);
  }

  /** The positions where `rule` may turn a space of `s` into ZWNJ. */
  function GuardOf(rule: Rule, s: String): nat -> bool
  {
    (k: nat) => Guard(rule, s, k)
  }

  lemma MatchZwnj(rule: Rule, s: String, i: nat)
    requires IsAffixRule(rule) && i < |s| && MatchAt(rule, s, i).Some?
    ensures ZwnjOnly(s, i, MatchAt(rule, s, i).value, GuardOf(rule, s))
  {
    match rule
    case FixYehSpace => FixYehZwnj(s, i);
    case JoinMiToVerb => JoinMiZwnj(s, i);
    case ZwnjAfterMi => AfterMiZwnj(s, i);
    case ZwnjBeforeSuffix => BeforeSuffixZwnj(s, i);
  }

  lemma FixYehZwnj(s: String, i: nat)
    requires i < |s| && MatchFixYehSpace(s, i).Some?
    ensures ZwnjOnly(s, i, MatchFixYehSpace(s, i).value, GuardOf(FixYehSpace, s))
  {
    assert Guard(FixYehSpace, s, i + 2);
  }

  lemma JoinMiZwnj(s: String, i: nat)
    requires i < |s| && MatchJoinMiToVerb(s, i).Some?
    ensures ZwnjOnly(s, i, MatchJoinMiToVerb(s, i).value, GuardOf(JoinMiToVerb, s))
  {
    if i == 0 && MiBeforeWord(s, 0) {
      assert Guard(JoinMiToVerb, s, 2);
    } else {
      assert Guard(JoinMiToVerb, s, i + 3);
    }
  }

  lemma AfterMiZwnj(s: String, i: nat)
    requires i < |s| && MatchZwnjAfterMi(s, i).Some?
    ensures ZwnjOnly(s, i, MatchZwnjAfterMi(s, i).value, GuardOf(ZwnjAfterMi, s))
  {
    if MatchZwnjAfterMi(s, i).value.len == 5 {
      assert Guard(ZwnjAfterMi, s, i + 4);
    } else {
      assert Guard(ZwnjAfterMi, s, i + 3);
    }
  }

  lemma BeforeSuffixZwnj(s: String, i: nat)
    requires i < |s| && MatchZwnjBeforeSuffix(s, i).Some?
    ensures ZwnjOnly(s, i, MatchZwnjBeforeSuffix(s, i).value, GuardOf(ZwnjBeforeSuffix, s))
  {
    var m := MatchZwnjBeforeSuffix(s, i).value;
    var n := m.len - 2;
    assert Guard(ZwnjBeforeSuffix, s, i);
    forall t | 0 < t < m.len ensures m.repl[t] == s[i + t] {
      if t <= n {
        assert m.repl[t] == s[i + 1..i + 1 + n][t - 1];
      }
    }
  }

  /** An affix rule keeps the length of the text, changes no character except spaces it turns into
      ZWNJ, and turns a space into ZWNJ only where its pattern's context holds around it. */
  lemma ApplyZwnj(rule: Rule, s: String)
    requires IsAffixRule(rule)
    ensures ZwnjFor(s, Apply(rule, s))
    ensures forall k :: 0 <= k < |s| && Apply(rule, s)[k] != s[k] ==> Guard(rule, s, k)
  {
    var ok := GuardOf(rule, s);
    ApplyZwnjGuarded(rule, s);
    var r := Apply(rule, s);
    forall k | 0 <= k < |s| && r[k] != s[k] ensures Guard(rule, s, k) {
      assert ok(k);
    }
  }

  lemma ApplyZwnjGuarded(rule: Rule, s: String)
    requires IsAffixRule(rule)
    ensures |Apply(rule, s)| == |s|
    ensures forall k :: 0 <= k < |s| ==>
      Apply(rule, s)[k] == s[k] || (s[k] == ' ' && Apply(rule, s)[k] == Zwnj && GuardOf(rule, s)(k))
  {
    var f := MatcherOf(rule);
    var ok := GuardOf(rule, s);
    forall j | 0 <= j < |s| && f(s, j).Some? ensures ZwnjOnly(s, j, f(s, j).value, ok) {
      MatchZwnj(rule, s, j);
    }
    SubZwnj(f, s, 0, ok);
  }

  /** A rule table writes no character that is neither in the text nor among the literals of one
      of its templates. */
  lemma {:induction false} ApplyAllAbsent(rules: seq<Rule>, s: String, c: char)
    requires c !in s
    requires forall k :: 0 <= k < |rules| ==> c !in Literals(rules[k])
    ensures c !in ApplyAll(rules, s)
  {
    if rules != [] {
      ApplyAbsent(rules[0], s, c);
      ApplyAllAbsent(rules[1..], Apply(rules[0], s), c);
    }
  }

  lemma ApplyAll3(a: Rule, b: Rule, c: Rule, s: String)
    ensures ApplyAll([a, b, c], s) == Apply(c, Apply(b, Apply(a, s)))
  {
    assert [a, b, c][1..] == [b, c] && [b, c][1..] == [c] && [c][1..] == [];
    var x := Apply(a, s);
    var y := Apply(b, x);
    assert ApplyAll([a, b, c], s) == ApplyAll([b, c], x);
    assert ApplyAll([b, c], x) == ApplyAll([c], y);
    assert ApplyAll([c], y) == ApplyAll([], Apply(c, y));
  }

  lemma ApplyAll4(a: Rule, b: Rule, c: Rule, d: Rule, s: String)
    ensures ApplyAll([a, b, c, d], s) == Apply(d, Apply(c, Apply(b, Apply(a, s))))
  {
    assert [a, b, c, d][1..] == [b, c, d];
    ApplyAll3(b, c, d, Apply(a, s));
  }
}
