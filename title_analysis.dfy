/** The title analyser `analyze_title`: word tokens of the lower-cased title, the five
    most frequent of them, three independent pattern checks on the raw title and a fixed
    length-based score. Pure string processing. */
module TitleAnalysis {
  import opened Common
  import opened Ordering

  /** The character classes the regular expressions rely on: `\w`, `\d` and the
      per-character effect of `str.lower`. They are parameters of the model. */
  datatype CharClasses = CharClasses(isWord: char -> bool, isDigit: char -> bool, lower: char -> char)

  /** The record the analyser returns (and `get_title_analysis_report` persists). */
  datatype Analysis = Analysis(
    keywords: seq<string>,
    keywordScores: map<string, real>,
    patternType: string,
    effectivenessScore: int)

  const MaxKeywords: nat := 5

  function Lower(s: string, cc: CharClasses): (r: string)
    ensures |r| == |s| && forall i :: 0 <= i < |s| ==> r[i] == cc.lower(s[i])
  {
    if s == [] then [] else [cc.lower(s[0])] + Lower(s[1..], cc)
  }

  // ---------------------------------------------------------------- tokens

  /** `re.findall(r'\w+', s)`: the maximal runs of word characters; `run` is the part of
      the current run already scanned. */
  function Runs(s: string, isWord: char -> bool, run: string): seq<string>
    decreases |s|
  {
    if s == [] then (if run == [] then [] else [run])
    else if isWord(s[0]) then Runs(s[1..], isWord, run + [s[0]])
    else (if run == [] then [] else [run]) + Runs(s[1..], isWord, [])
  }

  function Words(s: string, isWord: char -> bool): seq<string>
  {
    Runs(s, isWord, [])
  }

  /** The word characters of `s`, in order. */
  function WordChars(s: string, isWord: char -> bool): string
  {
    if s == [] then [] else (if isWord(s[0]) then [s[0]] else []) + WordChars(s[1..], isWord)
  }

  function Concat(ws: seq<string>): string
  {
    if ws == [] then [] else ws[0] + Concat(ws[1..])
  }

  ghost predicate IsToken(t: string, isWord: char -> bool)
  {
    t != [] && forall i :: 0 <= i < |t| ==> isWord(t[i])
  }

  lemma ConcatAppend(a: seq<string>, b: seq<string>)
    ensures Concat(a + b) == Concat(a) + Concat(b)
  {
    if a != [] {
      assert (a + b)[0] == a[0];
      assert (a + b)[1..] == a[1..] + b;
      ConcatAppend(a[1..], b);
      assert Concat(a) == a[0] + Concat(a[1..]);
      calc {
        Concat(a + b);
        a[0] + Concat(a[1..] + b);
        a[0] + (Concat(a[1..]) + Concat(b));
        (a[0] + Concat(a[1..])) + Concat(b);
      }
    } else {
      assert a + b == b;
    }
  }

  /** Every token is a non-empty run of word characters. */
  lemma {:induction false} RunsTokens(s: string, isWord: char -> bool, run: string)
    requires forall i :: 0 <= i < |run| ==> isWord(run[i])
    ensures forall t :: t in Runs(s, isWord, run) ==> IsToken(t, isWord)
    decreases |s|
  {
    if s != [] {
      if isWord(s[0]) {
        RunsTokens(s[1..], isWord, run + [s[0]]);
      } else {
        RunsTokens(s[1..], isWord, []);
      }
    }
  }

  /** Together the tokens are exactly the word characters of the text, in order: nothing
      is lost or invented. */
  lemma {:induction false} RunsConcat(s: string, isWord: char -> bool, run: string)
    ensures Concat(Runs(s, isWord, run)) == run + WordChars(s, isWord)
    decreases |s|
  {
    if s == [] {
      assert Concat([run]) == run + Concat([]);
    } else if isWord(s[0]) {
      RunsConcat(s[1..], isWord, run + [s[0]]);
      assert WordChars(s, isWord) == [s[0]] + WordChars(s[1..], isWord);
      assert (run + [s[0]]) + WordChars(s[1..], isWord) == run + ([s[0]] + WordChars(s[1..], isWord));
    } else {
      RunsConcat(s[1..], isWord, []);
      var head: seq<string> := if run == [] then [] else [run];
      var rest := Runs(s[1..], isWord, []);
      assert Runs(s, isWord, run) == head + rest;
      ConcatAppend(head, rest);
      assert Concat(head) == run by {
        if run != [] { assert Concat([run]) == run + Concat([]); }
      }
      assert WordChars(s, isWord) == WordChars(s[1..], isWord);
      assert [] + WordChars(s[1..], isWord) == WordChars(s[1..], isWord);
    }
  }

  lemma WordsSpec(s: string, isWord: char -> bool)
    ensures forall t :: t in Words(s, isWord) ==> IsToken(t, isWord)
    ensures Concat(Words(s, isWord)) == WordChars(s, isWord)
  {
    RunsTokens(s, isWord, []);
    RunsConcat(s, isWord, []);
  }

  /** With `run` open, a text made only of word characters extends that run to the end. */
  lemma {:induction false} RunsOfToken(t: string, isWord: char -> bool, run: string)
    requires forall i :: 0 <= i < |t| ==> isWord(t[i])
    ensures Runs(t, isWord, run) == if run + t == [] then [] else [run + t]
    decreases |t|
  {
    if t == [] {
      assert run + t == run;
    } else {
      RunsOfToken(t[1..], isWord, run + [t[0]]);
      assert (run + [t[0]]) + t[1..] == run + t;
    }
  }

  /** A non-word character closes the open run: what follows it is split on its own. */
  lemma {:induction false} RunsSplit(a: string, c: char, b: string, isWord: char -> bool, run: string)
    requires !isWord(c)
    ensures Runs(a + [c] + b, isWord, run) == Runs(a, isWord, run) + Runs(b, isWord, [])
    decreases |a|
  {
    var s := a + [c] + b;
    if a == [] {
      assert s[0] == c && s[1..] == b;
    } else {
      assert s[0] == a[0] && s[1..] == a[1..] + [c] + b;
      if isWord(a[0]) {
        RunsSplit(a[1..], c, b, isWord, run + [a[0]]);
      } else {
        RunsSplit(a[1..], c, b, isWord, []);
        var head: seq<string> := if run == [] then [] else [run];
        assert Runs(s, isWord, run) == head + (Runs(a[1..], isWord, []) + Runs(b, isWord, []));
        assert Runs(a, isWord, run) == head + Runs(a[1..], isWord, []);
      }
    }
  }

  /** The tokens are the maximal runs: the empty text has none, a text that is one run is
      one token, and a non-word character splits the text into two independent halves.
      These three equations determine the split of every text. */
  lemma WordsMaximal(t: string, a: string, c: char, b: string, isWord: char -> bool)
    ensures Words([], isWord) == []
    ensures IsToken(t, isWord) ==> Words(t, isWord) == [t]
    ensures !isWord(c) ==> Words(a + [c] + b, isWord) == Words(a, isWord) + Words(b, isWord)
  {
    if IsToken(t, isWord) {
      RunsOfToken(t, isWord, []);
      assert [] + t == t;
    }
    if !isWord(c) {
      RunsSplit(a, c, b, isWord, []);
    }
  }

  // ---------------------------------------------------------------- counting

  /** Position of the first occurrence of `x`, or `|s|` when there is none. */
  function FirstIndex(s: seq<string>, x: string): (r: nat)
    ensures r <= |s|
    ensures r < |s| <==> x in s
    ensures r < |s| ==> s[r] == x
    ensures forall j :: 0 <= j < r ==> s[j] != x
  {
    if s == [] then 0 else if s[0] == x then 0 else 1 + FirstIndex(s[1..], x)
  }

  /** The distinct elements of `s` in first-occurrence order: the key order of a
      `Counter` built from `s`. */
  function Dedup(s: seq<string>): (d: seq<string>)
    ensures forall x :: x in d <==> x in s
    ensures forall i, j :: 0 <= i < j < |d| ==> d[i] != d[j]
  {
    if s == [] then []
    else
      var d := Dedup(s[..|s| - 1]);
      var last := s[|s| - 1];
      assert s == s[..|s| - 1] + [last];
      if last in d then d else d + [last]
  }

  function CountKey(words: seq<string>): string -> int
  {
    w => multiset(words)[w]
  }

  function FirstSeen(words: seq<string>): string -> int
  {
    w => FirstIndex(words, w)
  }

  lemma {:induction false} DedupOrder(s: seq<string>)
    ensures StrictlyIncreasing(Dedup(s), FirstSeen(s))
  {
    if s != [] {
      var init := s[..|s| - 1];
      var last := s[|s| - 1];
      DedupOrder(init);
      var d := Dedup(init);
      assert s == init + [last];
      forall x | x in init ensures FirstIndex(s, x) == FirstIndex(init, x) {
        var a, b := FirstIndex(s, x), FirstIndex(init, x);
        assert s[b] == x;
        assert a <= b;
        assert init[a] == x;
      }
      if last !in d {
        assert FirstIndex(s, last) == |s| - 1;
        forall i, j | 0 <= i < j < |d + [last]|
          ensures FirstSeen(s)((d + [last])[i]) < FirstSeen(s)((d + [last])[j])
        {
          assert d[i] in init;
          if j < |d| { assert d[j] in init; }
        }
      } else {
        forall i, j | 0 <= i < j < |d|
          ensures FirstSeen(s)(d[i]) < FirstSeen(s)(d[j])
        {
          assert d[i] in init && d[j] in init;
        }
      }
    }
  }

  /** `[w for w, _ in Counter(words).most_common(5)]`: a stable sort of the distinct
      words by descending count, cut to five. */
  function TopKeywords(words: seq<string>): seq<string>
  {
    var ranked := SortByKeyDesc(Dedup(words), CountKey(words));
    ranked[..Min(MaxKeywords, |ranked|)]
  }

  /** `a` comes before `b` in `most_common` order: more occurrences, or as many and
      an earlier first occurrence. */
  ghost predicate RanksBefore(words: seq<string>, a: string, b: string)
  {
    multiset(words)[a] > multiset(words)[b] ||
    (multiset(words)[a] == multiset(words)[b] && FirstIndex(words, a) < FirstIndex(words, b))
  }

  lemma TopKeywordsRanked(words: seq<string>)
    ensures var ranked := SortByKeyDesc(Dedup(words), CountKey(words));
      && (forall x :: x in ranked <==> x in words)
      && forall i, j :: 0 <= i < j < |ranked| ==> RanksBefore(words, ranked[i], ranked[j])
  {
    var d := Dedup(words);
    var ranked := SortByKeyDesc(d, CountKey(words));
    DedupOrder(words);
    SortLex(d, CountKey(words), FirstSeen(words));
    forall x ensures x in ranked <==> x in words {
      assert x in ranked <==> x in multiset(ranked);
      assert x in d <==> x in multiset(d);
    }
  }

  /** The keywords are distinct words of the input, at most five (fewer only when the
      title has fewer distinct words), ordered by count with ties in first-occurrence
      order. */
  lemma TopKeywordsSpec(words: seq<string>)
    ensures var kw := TopKeywords(words);
      && |kw| == Min(MaxKeywords, |Dedup(words)|)
      && (forall i :: 0 <= i < |kw| ==> kw[i] in words)
      && (forall i, j :: 0 <= i < j < |kw| ==> kw[i] != kw[j])
      && (forall i, j :: 0 <= i < j < |kw| ==> RanksBefore(words, kw[i], kw[j]))
  {
    var ranked := SortByKeyDesc(Dedup(words), CountKey(words));
    TopKeywordsRanked(words);
    var kw := TopKeywords(words);
    assert kw == ranked[..Min(MaxKeywords, |ranked|)];
    forall i | 0 <= i < |kw| ensures kw[i] in words {
      assert kw[i] in ranked;
    }
  }

  /** Every word that is not a keyword comes after each keyword in `most_common` order,
      and words are left out only when all five places are taken. */
  lemma TopKeywordsMaximal(words: seq<string>)
    ensures var kw := TopKeywords(words);
      forall w :: w in words && w !in kw ==>
        |kw| == MaxKeywords && forall i :: 0 <= i < |kw| ==> RanksBefore(words, kw[i], w)
  {
    var ranked := SortByKeyDesc(Dedup(words), CountKey(words));
    TopKeywordsRanked(words);
    var kw := TopKeywords(words);
    assert kw == ranked[..Min(MaxKeywords, |ranked|)];
    forall w | w in words && w !in kw
      ensures |kw| == MaxKeywords && forall i :: 0 <= i < |kw| ==> RanksBefore(words, kw[i], w)
    {
      var j :| 0 <= j < |ranked| && ranked[j] == w;
      assert forall k :: 0 <= k < |kw| ==> ranked[k] in kw;
      assert j >= |kw|;
      forall i | 0 <= i < |kw| ensures RanksBefore(words, kw[i], w) {
        assert kw[i] == ranked[i];
      }
    }
  }

  // ---------------------------------------------------------------- patterns

  /** `re.search(r'#\d+', t)`: a '#' immediately followed by a digit. */
  function HasNumberedMarker(t: string, cc: CharClasses): (r: bool)
    ensures r <==> exists i :: 0 <= i < |t| - 1 && t[i] == '#' && cc.isDigit(t[i + 1])
  {
    if |t| < 2 then false
    else if t[0] == '#' && cc.isDigit(t[1]) then true
    else
      var r := HasNumberedMarker(t[1..], cc);
      assert r ==> (exists i :: 0 <= i < |t| - 1 && t[i] == '#' && cc.isDigit(t[i + 1])) by {
        if r {
          var k :| 0 <= k < |t[1..]| - 1 && t[1..][k] == '#' && cc.isDigit(t[1..][k + 1]);
          assert t[k + 1] == '#' && cc.isDigit(t[k + 2]);
        }
      }
      assert (exists i :: 0 <= i < |t| - 1 && t[i] == '#' && cc.isDigit(t[i + 1])) ==> r by {
        if exists i :: 0 <= i < |t| - 1 && t[i] == '#' && cc.isDigit(t[i + 1]) {
          var k :| 0 <= k < |t| - 1 && t[k] == '#' && cc.isDigit(t[k + 1]);
          assert k > 0;
          assert t[1..][k - 1] == '#' && cc.isDigit(t[1..][k]);
        }
      }
      r
  }

  /** `re.search(r'\d+分|分間', t)`: a digit immediately followed by '分', or "分間". */
  function HasDurationMention(t: string, cc: CharClasses): (r: bool)
    ensures r <==> (exists i :: (0 <= i < |t| - 1 &&
      ((cc.isDigit(t[i]) && t[i + 1] == '分') || (t[i] == '分' && t[i + 1] == '間'))))
  {
    if |t| < 2 then false
    else if (cc.isDigit(t[0]) && t[1] == '分') || (t[0] == '分' && t[1] == '間') then true
    else
      var r := HasDurationMention(t[1..], cc);
      assert r ==> (exists i :: (0 <= i < |t| - 1 &&
          ((cc.isDigit(t[i]) && t[i + 1] == '分') || (t[i] == '分' && t[i + 1] == '間')))) by {
        if r {
          var k :| 0 <= k < |t[1..]| - 1 &&
            ((cc.isDigit(t[1..][k]) && t[1..][k + 1] == '分') || (t[1..][k] == '分' && t[1..][k + 1] == '間'));
          assert t[k + 1] == t[1..][k] && t[k + 2] == t[1..][k + 1];
        }
      }
      assert (exists i :: (0 <= i < |t| - 1 &&
          ((cc.isDigit(t[i]) && t[i + 1] == '分') || (t[i] == '分' && t[i + 1] == '間')))) ==> r by {
        if exists i :: 0 <= i < |t| - 1 &&
            ((cc.isDigit(t[i]) && t[i + 1] == '分') || (t[i] == '分' && t[i + 1] == '間')) {
          var k :| 0 <= k < |t| - 1 &&
            ((cc.isDigit(t[k]) && t[k + 1] == '分') || (t[k] == '分' && t[k + 1] == '間'));
          assert k > 0;
          assert t[1..][k - 1] == t[k] && t[1..][k] == t[k + 1];
        }
      }
      r
  }

  /** A '【' at `i` and a '】' at `j > i` with no line break between them: what
      `re.search(r'【.*】', t)` looks for ('.' does not match '\n'). */
  ghost predicate BracketAt(t: string, i: int, j: int)
  {
    0 <= i < j < |t| && t[i] == '【' && t[j] == '】' &&
    forall k :: i < k < j ==> t[k] != '\n'
  }

  /** A '】' at `j` reached from the start of `t` without a line break. */
  ghost predicate ClosesOpen(t: string, j: int)
  {
    0 <= j < |t| && t[j] == '】' && forall k :: 0 <= k < j ==> t[k] != '\n'
  }

  /** Left-to-right scan; `open` says a '【' was seen with no line break since. */
  function ScanBrackets(t: string, open: bool): bool
  {
    if t == [] then false
    else if open && t[0] == '】' then true
    else ScanBrackets(t[1..], if t[0] == '【' then true else if t[0] == '\n' then false else open)
  }

  lemma {:induction false} ScanBracketsSpec(t: string, open: bool)
    ensures ScanBrackets(t, open) <==>
      (open && exists j :: ClosesOpen(t, j)) || exists i, j :: BracketAt(t, i, j)
  {
    if t == [] {
    } else if open && t[0] == '】' {
      assert ClosesOpen(t, 0);
    } else {
      var t' := t[1..];
      var open' := if t[0] == '【' then true else if t[0] == '\n' then false else open;
      ScanBracketsSpec(t', open');
      // From a match in the tail to one in t.
      if open' && exists j :: ClosesOpen(t', j) {
        var j :| ClosesOpen(t', j);
        if t[0] == '【' {
          assert BracketAt(t, 0, j + 1);
        } else {
          assert ClosesOpen(t, j + 1);
        }
      }
      if exists i, j :: BracketAt(t', i, j) {
        var i, j :| BracketAt(t', i, j);
        assert BracketAt(t, i + 1, j + 1);
      }
      // From a match in t to one in the tail.
      if open && exists j :: ClosesOpen(t, j) {
        var j :| ClosesOpen(t, j);
        assert j > 0;
        assert ClosesOpen(t', j - 1);
      }
      if exists i, j :: BracketAt(t, i, j) {
        var i, j :| BracketAt(t, i, j);
        if i == 0 {
          assert ClosesOpen(t', j - 1);
        } else {
          assert BracketAt(t', i - 1, j - 1);
        }
      }
    }
  }

  /** `re.search(r'【.*】', t)`. */
  function HasBracketedSegment(t: string): (r: bool)
    ensures r <==> exists i, j :: BracketAt(t, i, j)
  {
    ScanBracketsSpec(t, false);
    ScanBrackets(t, false)
  }

  /** `','.join(patterns) if patterns else 'standard'`, the names in check order. */
  function PatternType(numbered: bool, bracketed: bool, duration: bool): string
  {
    var names := (if numbered then ["numbered_series"] else [])
               + (if bracketed then ["bracketed"] else [])
               + (if duration then ["duration_mentioned"] else []);
    if names == [] then "standard" else Join(names)
  }

  function Join(names: seq<string>): string
    requires names != []
  {
    if |names| == 1 then names[0] else names[0] + "," + Join(names[1..])
  }

  /** The pattern type is "standard" exactly when no check fires, and it tells which
      checks fired: different outcomes give different strings. */
  lemma PatternTypeSpec(a: bool, b: bool, c: bool, a': bool, b': bool, c': bool)
    ensures PatternType(a, b, c) == "standard" <==> !a && !b && !c
    ensures PatternType(a, b, c) == PatternType(a', b', c') ==> a == a' && b == b' && c == c'
  {
    PatternTypeLength(a, b, c);
    PatternTypeLength(a', b', c');
  }

  /** `patterns` is filled in check order, so each outcome names the checks that fired,
      numbered series first and duration last. */
  lemma PatternTypeNames(a: bool, b: bool, c: bool)
    ensures a && b && c ==> PatternType(a, b, c) == "numbered_series" + "," + "bracketed" + "," + "duration_mentioned"
    ensures a && b && !c ==> PatternType(a, b, c) == "numbered_series" + "," + "bracketed"
    ensures a && !b && c ==> PatternType(a, b, c) == "numbered_series" + "," + "duration_mentioned"
    ensures !a && b && c ==> PatternType(a, b, c) == "bracketed" + "," + "duration_mentioned"
    ensures a && !b && !c ==> PatternType(a, b, c) == "numbered_series"
    ensures !a && b && !c ==> PatternType(a, b, c) == "bracketed"
    ensures !a && !b && c ==> PatternType(a, b, c) == "duration_mentioned"
    ensures !a && !b && !c ==> PatternType(a, b, c) == "standard"
  {
    var n: seq<string> := if a then ["numbered_series"] else [];
    var br: seq<string> := if b then ["bracketed"] else [];
    var d: seq<string> := if c then ["duration_mentioned"] else [];
    if a && b && c {
      assert n + br + d == ["numbered_series", "bracketed", "duration_mentioned"];
      JoinThree("numbered_series", "bracketed", "duration_mentioned");
    } else if a && b {
      assert n + br + d == ["numbered_series", "bracketed"];
      JoinTwo("numbered_series", "bracketed");
    } else if a && c {
      assert n + br + d == ["numbered_series", "duration_mentioned"];
      JoinTwo("numbered_series", "duration_mentioned");
    } else if b && c {
      assert n + br + d == ["bracketed", "duration_mentioned"];
      JoinTwo("bracketed", "duration_mentioned");
    }
  }

  lemma JoinTwo(x: string, y: string)
    ensures Join([x, y]) == x + "," + y
  {
    assert [x, y][1..] == [y];
  }

  lemma JoinThree(x: string, y: string, z: string)
    ensures Join([x, y, z]) == x + "," + y + "," + z
  {
    assert [x, y, z][1..] == [y, z];
    JoinTwo(y, z);
  }

  /** The eight outcomes have eight different lengths. */
  lemma PatternTypeLength(a: bool, b: bool, c: bool)
    ensures |PatternType(a, b, c)| ==
      if !a && !b && !c then 8
      else (if a then 16 else 0) + (if b then 10 else 0) + (if c then 19 else 0) - 1
    ensures !a && !b && !c ==> PatternType(a, b, c) == "standard"
  {
    var n: seq<string> := if a then ["numbered_series"] else [];
    var br: seq<string> := if b then ["bracketed"] else [];
    var d: seq<string> := if c then ["duration_mentioned"] else [];
    var names := n + br + d;
    if names != [] {
      if |names| == 2 {
        assert Join(names) == names[0] + "," + names[1] by {
          assert Join(names[1..]) == names[1];
        }
      } else if |names| == 3 {
        assert Join(names) == names[0] + "," + names[1] + "," + names[2] by {
          assert Join(names[2..]) == names[2];
          assert names[1..][1..] == names[2..];
        }
      }
    }
  }

  // ---------------------------------------------------------------- the analyser

  function EffectivenessScore(title: string): (r: int)
  {
    Min(100, |title| * 2)
  }

  function AnalyzeTitle(title: string, cc: CharClasses): Analysis
  {
    var words := Words(Lower(title, cc), cc.isWord);
    var keywords := TopKeywords(words);
    Analysis(
      keywords,
      map w | w in keywords :: 1.0,
      PatternType(HasNumberedMarker(title, cc), HasBracketedSegment(title), HasDurationMention(title, cc)),
      EffectivenessScore(title))
  }

  /** What one analysis promises: its keywords are distinct lower-cased word tokens of
      the title, at most five, the most frequent ones in count-then-first-occurrence
      order; every keyword scores 1.0; the pattern type names exactly the checks that
      fire; the score is twice the length, capped at 100. */
  lemma AnalyzeTitleSpec(title: string, cc: CharClasses)
    ensures var a := AnalyzeTitle(title, cc);
      var words := Words(Lower(title, cc), cc.isWord);
      && |a.keywords| <= MaxKeywords
      && (forall i :: 0 <= i < |a.keywords| ==> a.keywords[i] in words && IsToken(a.keywords[i], cc.isWord))
      && (forall i, j :: 0 <= i < j < |a.keywords| ==> a.keywords[i] != a.keywords[j])
      && (forall i, j :: 0 <= i < j < |a.keywords| ==> RanksBefore(words, a.keywords[i], a.keywords[j]))
      && a.keywordScores.Keys == set w | w in a.keywords
      && (forall w :: w in a.keywordScores ==> a.keywordScores[w] == 1.0)
      && (a.patternType == "standard" <==>
            !HasNumberedMarker(title, cc) && !HasBracketedSegment(title) && !HasDurationMention(title, cc))
      && a.effectivenessScore <= 100
      && (|title| <= 50 ==> a.effectivenessScore == 2 * |title|)
      && (|title| >= 50 ==> a.effectivenessScore == 100)
  {
    var words := Words(Lower(title, cc), cc.isWord);
    TopKeywordsSpec(words);
    WordsSpec(Lower(title, cc), cc.isWord);
    PatternTypeSpec(HasNumberedMarker(title, cc), HasBracketedSegment(title), HasDurationMention(title, cc),
      false, false, false);
  }

  /** Any title that contains "【#12】" and mentions no duration is a bracketed numbered
      series. */
  lemma NumberedBracketExample(t: string, i: int, cc: CharClasses)
    requires 0 <= i && i + 5 <= |t| && t[i..i + 5] == "【#12】"
    requires cc.isDigit('1') && !HasDurationMention(t, cc)
    ensures PatternType(HasNumberedMarker(t, cc), HasBracketedSegment(t), HasDurationMention(t, cc))
      == "numbered_series" + "," + "bracketed"
  {
    assert t[i + 1] == t[i..i + 5][1] == '#' && t[i + 2] == t[i..i + 5][2] == '1';
    assert t[i] == t[i..i + 5][0] && t[i + 4] == t[i..i + 5][4];
    assert HasNumberedMarker(t, cc);
    assert BracketAt(t, i, i + 4);
    PatternTypeNames(true, true, false);
  }
}
