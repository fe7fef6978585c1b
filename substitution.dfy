/** Python's `re.sub` for a pattern that never matches the empty string: the pattern is tried at
    each index from left to right; where it matches, the match is replaced and the scan resumes at
    the first character the match did not consume (matches never overlap); elsewhere the character
    is copied. A pattern is given as a matcher, the function that tells what it matches at an index. */
module Substitution {
  import opened Text

  datatype Option<T> = None | Some(value: T)

  /** A successful match: how many characters it consumes and what replaces them. */
  datatype Match = Match(len: nat, repl: String)

  /** The match of a pattern that starts exactly at index `i` of the text, if any. */
  type Matcher = (String, nat) -> Option<Match>

  /** A match consumes at least one character and stays inside the text. */
  ghost predicate Progresses(f: Matcher)
  {
    forall s: String, i: nat {:trigger f(s, i)} ::
      f(s, i).Some? ==> 0 < f(s, i).value.len && i + f(s, i).value.len <= |s|
  }

  /** `pattern.sub(repl, s[i..])`, with the pattern's anchors still seeing the whole of `s`. */
  function Sub(f: Matcher, s: String, i: nat): String
    requires i <= |s| && Progresses(f)
    decreases |s| - i
  {
    if i == |s| then []
    else match f(s, i)
      case None => [s[i]] + Sub(f, s, i + 1)
      case Some(m) => m.repl + Sub(f, s, i + m.len)
  }

  /** Where every match is replaced by the very text it matched, the text comes back unchanged. */
  lemma {:induction false} SubUnchanged(f: Matcher, s: String, i: nat)
    requires Progresses(f) && i <= |s|
    requires forall j :: i <= j < |s| && f(s, j).Some? ==> f(s, j).value.repl == s[j..j + f(s, j).value.len]
    ensures Sub(f, s, i) == s[i..]
    decreases |s| - i
  {
    if i < |s| {
      var j := if f(s, i).None? then i + 1 else i + f(s, i).value.len;
      SubUnchanged(f, s, j);
      assert s[i..] == s[i..j] + s[j..];
    }
  }

  /** At `j`, either nothing matches and the character there is not `c`, or the replacement of
      the match holds no `c`. */
  ghost predicate AvoidsAt(f: Matcher, s: String, j: nat, c: char)
    requires j < |s|
  {
    match f(s, j)
    case None => s[j] != c
    case Some(m) => c !in m.repl
  }

  /** A character that no replacement writes and that the scan never copies is not in the output. */
  lemma {:induction false} SubAbsent(f: Matcher, s: String, i: nat, c: char)
    requires Progresses(f) && i <= |s|
    requires forall j :: i <= j < |s| ==> AvoidsAt(f, s, j, c)
    ensures c !in Sub(f, s, i)
    decreases |s| - i
  {
    if i < |s| {
      assert AvoidsAt(f, s, i, c);
      var j := if f(s, i).None? then i + 1 else i + f(s, i).value.len;
      var head := if f(s, i).None? then [s[i]] else f(s, i).value.repl;
      SubAbsent(f, s, j, c);
      assert Sub(f, s, i) == head + Sub(f, s, j);
    }
  }

  /** When every replacement has the same non-space characters as the text it replaces, so has
      the whole output. */
  lemma {:induction false} SubKeepsNonSpaces(f: Matcher, s: String, i: nat)
    requires Progresses(f) && i <= |s|
    requires forall j :: i <= j < |s| && f(s, j).Some? ==>
      Without(f(s, j).value.repl, ' ') == Without(s[j..j + f(s, j).value.len], ' ')
    ensures Without(Sub(f, s, i), ' ') == Without(s[i..], ' ')
    decreases |s| - i
  {
    if i < |s| {
      var j := if f(s, i).None? then i + 1 else i + f(s, i).value.len;
      var head := if f(s, i).None? then [s[i]] else f(s, i).value.repl;
      SubKeepsNonSpaces(f, s, j);
      assert Sub(f, s, i) == head + Sub(f, s, j);
      WithoutConcat(head, Sub(f, s, j), ' ');
      assert s[i..] == s[i..j] + s[j..];
      WithoutConcat(s[i..j], s[j..], ' ');
    }
  }

  /** The replacement `m` of a match at `j` has the matched length and differs from the matched text
      only in spaces turned into ZWNJ at positions `ok` allows. */
  predicate ZwnjOnly(s: String, j: nat, m: Match, ok: nat -> bool)
  {
    && j + m.len <= |s| && |m.repl| == m.len
    && forall t :: 0 <= t < m.len ==>
         m.repl[t] == s[j + t] || (s[j + t] == ' ' && m.repl[t] == Zwnj && ok(j + t))
  }

  /** When every replacement only turns spaces into ZWNJ at positions `ok` allows, the output has
      the length of the text and differs from it only in such spaces. */
  lemma {:induction false} SubZwnj(f: Matcher, s: String, i: nat, ok: nat -> bool)
    requires Progresses(f) && i <= |s|
    requires forall j :: i <= j < |s| && f(s, j).Some? ==> ZwnjOnly(s, j, f(s, j).value, ok)
    ensures |Sub(f, s, i)| == |s| - i
    ensures forall k :: i <= k < |s| ==>
      Sub(f, s, i)[k - i] == s[k] || (s[k] == ' ' && Sub(f, s, i)[k - i] == Zwnj && ok(k))
    decreases |s| - i
  {
    if i < |s| {
      var j := if f(s, i).None? then i + 1 else i + f(s, i).value.len;
      var head := if f(s, i).None? then [s[i]] else f(s, i).value.repl;
      SubZwnj(f, s, j, ok);
      assert Sub(f, s, i) == head + Sub(f, s, j);
      ZwnjConcat(s, i, j, head, Sub(f, s, j), ok);
    }
  }

  /** Joining a piece that covers `s[i..j]` and one that covers `s[j..]`, each differing from the
      text only in spaces turned into ZWNJ where `ok` allows, gives a piece covering `s[i..]`. */
  lemma ZwnjConcat(s: String, i: nat, j: nat, head: String, rest: String, ok: nat -> bool)
    requires i < j <= |s| && |head| == j - i && |rest| == |s| - j
    requires forall t :: 0 <= t < j - i ==>
      head[t] == s[i + t] || (s[i + t] == ' ' && head[t] == Zwnj && ok(i + t))
    requires forall k :: j <= k < |s| ==>
      rest[k - j] == s[k] || (s[k] == ' ' && rest[k - j] == Zwnj && ok(k))
    ensures forall k :: i <= k < |s| ==>
      (head + rest)[k - i] == s[k] || (s[k] == ' ' && (head + rest)[k - i] == Zwnj && ok(k))
  {
    var r := head + rest;
    forall k | i <= k < |s|
      ensures r[k - i] == s[k] || (s[k] == ' ' && r[k - i] == Zwnj && ok(k))
    {
      if k < j {
        assert r[k - i] == head[k - i] && k == i + (k - i);
      } else {
        assert r[k - i] == rest[k - j];
      }
    }
  }

  /** At `j`, either nothing matches and the character there is not `c`, or a run made only of
      `c` matches and is replaced by nothing. */
  ghost predicate DeletesRunAt(f: Matcher, s: String, j: nat, c: char)
    requires Progresses(f) && j < |s|
  {
    match f(s, j)
    case None => s[j] != c
    case Some(m) => m.repl == [] && forall k :: j <= k < j + m.len ==> s[k] == c
  }

  /** When each copied character differs from `c` and each match is a run of `c` replaced by
      nothing, the output is the text with every `c` deleted. */
  lemma {:induction false} SubDeletes(f: Matcher, s: String, i: nat, c: char)
    requires Progresses(f) && i <= |s|
    requires forall j :: i <= j < |s| ==> DeletesRunAt(f, s, j, c)
    ensures Sub(f, s, i) == Without(s[i..], c)
    decreases |s| - i
  {
    if i < |s| {
      assert DeletesRunAt(f, s, i, c);
      var j := if f(s, i).None? then i + 1 else i + f(s, i).value.len;
      SubDeletes(f, s, j, c);
      if f(s, i).None? {
        SubCopiesOne(f, s, i);
        WithoutKeeps(s, i, c);
      } else {
        SubReplaces(f, s, i);
        WithoutSkip(s, i, j - i, c);
      }
    }
  }

  /** No two neighbours of `r` are both `c`. */
  predicate NoAdjacent(r: String, c: char)
  {
    forall k :: 0 <= k < |r| - 1 ==> !(r[k] == c && r[k + 1] == c)
  }

  /** When each copied character differs from `c`, each replacement is the single character `c`
      and no match is directly followed by another, the output never holds `c` twice in a row;
      it starts with `c` only where the pattern matches. */
  lemma {:induction false} SubCollapses(f: Matcher, s: String, i: nat, c: char)
    requires Progresses(f) && i <= |s|
    requires forall j :: i <= j < |s| && f(s, j).None? ==> s[j] != c
    requires forall j :: i <= j < |s| && f(s, j).Some? ==>
      f(s, j).value.repl == [c] && (j + f(s, j).value.len == |s| || f(s, j + f(s, j).value.len).None?)
    ensures var r := Sub(f, s, i);
      (r != [] && r[0] == c ==> i < |s| && f(s, i).Some?) && NoAdjacent(r, c)
    decreases |s| - i
  {
    if i < |s| {
      var r := Sub(f, s, i);
      var j := if f(s, i).None? then i + 1 else i + f(s, i).value.len;
      SubCollapses(f, s, j, c);
      var rest := Sub(f, s, j);
      assert r == [r[0]] + rest;
      forall k | 0 <= k < |r| - 1 ensures !(r[k] == c && r[k + 1] == c) {
        if k > 0 {
          assert r[k] == rest[k - 1] && r[k + 1] == rest[k];
        }
      }
    }
  }

  /** Every two neighbours of `r` are related by `link`. */
  predicate Linked(r: String, link: (char, char) -> bool)
  {
    forall k :: 0 <= k < |r| - 1 ==> link(r[k], r[k + 1])
  }

  /** At `j`, a copied character is linked to the next character of the text; a replacement
      starts with the character at `j`, is linked inside, and ends with a character linked to
      the one the scan resumes at. */
  ghost predicate LinksAt(f: Matcher, s: String, j: nat, link: (char, char) -> bool)
    requires Progresses(f) && j < |s|
  {
    match f(s, j)
    case None => j + 1 < |s| ==> link(s[j], s[j + 1])
    case Some(m) =>
      && m.repl != [] && m.repl[0] == s[j] && Linked(m.repl, link)
      && (j + m.len < |s| ==> link(m.repl[|m.repl| - 1], s[j + m.len]))
  }

  lemma LinkedConcat(a: String, b: String, link: (char, char) -> bool)
    requires a != [] && Linked(a, link) && Linked(b, link)
    requires b != [] ==> link(a[|a| - 1], b[0])
    ensures Linked(a + b, link)
  {
    var r := a + b;
    forall k | 0 <= k < |r| - 1 ensures link(r[k], r[k + 1]) {
      if k >= |a| {
        assert r[k] == b[k - |a|] && r[k + 1] == b[k - |a| + 1];
      }
    }
  }

  /** When the condition of `LinksAt` holds everywhere, all neighbours of the output are linked,
      and the output starts with the text's first character. */
  lemma {:induction false} SubLinks(f: Matcher, s: String, i: nat, link: (char, char) -> bool)
    requires Progresses(f) && i <= |s|
    requires forall j :: i <= j < |s| ==> LinksAt(f, s, j, link)
    ensures Linked(Sub(f, s, i), link)
    ensures i < |s| ==> Sub(f, s, i) != [] && Sub(f, s, i)[0] == s[i]
    decreases |s| - i
  {
    if i < |s| {
      assert LinksAt(f, s, i, link);
      var j := if f(s, i).None? then i + 1 else i + f(s, i).value.len;
      var head := if f(s, i).None? then [s[i]] else f(s, i).value.repl;
      SubLinks(f, s, j, link);
      assert Sub(f, s, i) == head + Sub(f, s, j);
      LinkedConcat(head, Sub(f, s, j), link);
    }
  }

  /** A stretch where the pattern matches nowhere is copied as it is. */
  lemma {:induction false} SubCopies(f: Matcher, s: String, i: nat, j: nat)
    requires Progresses(f) && i <= j <= |s|
    requires forall k :: i <= k < j ==> f(s, k).None?
    ensures Sub(f, s, i) == s[i..j] + Sub(f, s, j)
    decreases j - i
  {
    if i < j {
      SubCopies(f, s, i, j - 1);
      SubCopiesOne(f, s, j - 1);
      assert s[i..j] == s[i..j - 1] + [s[j - 1]];
    }
  }

  lemma SubCopiesOne(f: Matcher, s: String, i: nat)
    requires Progresses(f) && i < |s| && f(s, i).None?
    ensures Sub(f, s, i) == [s[i]] + Sub(f, s, i + 1)
  {
  }

  /** A match is replaced and the scan resumes right after it. */
  lemma SubReplaces(f: Matcher, s: String, i: nat)
    requires Progresses(f) && i < |s| && f(s, i).Some?
    ensures Sub(f, s, i) == f(s, i).value.repl + Sub(f, s, i + f(s, i).value.len)
  {
  }

  /** The leftmost match wins: the text up to the first index where the pattern matches is
      copied, that match is replaced, and the scan resumes right after it. */
  lemma SubFirstMatch(f: Matcher, s: String, i: nat, j: nat)
    requires Progresses(f) && i <= j < |s|
    requires forall k :: i <= k < j ==> f(s, k).None?
    requires f(s, j).Some?
    ensures Sub(f, s, i) == s[i..j] + f(s, j).value.repl + Sub(f, s, j + f(s, j).value.len)
  {
    SubCopies(f, s, i, j);
    SubReplaces(f, s, j);
  }

  /** The output starts with the text's first character when the pattern either does not match
      there or copies that character first. */
  lemma SubHead(f: Matcher, s: String, i: nat)
    requires Progresses(f) && i < |s|
    requires f(s, i).Some? ==> f(s, i).value.repl != [] && f(s, i).value.repl[0] == s[i]
    ensures Sub(f, s, i) != [] && Sub(f, s, i)[0] == s[i]
  {
  }
}
