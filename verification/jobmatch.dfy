/** The keyword logic of the job-match endpoint: the words of the job
    description longer than three letters are its keywords, the score is the
    rounded percentage of them that the resume text contains, and the
    keywords the description repeats but the resume lacks are reported as
    missing. */
module JobMatch {
  import opened Wrappers
  import opened Text
  import opened Seqs

  // The words of a text: the matches of /\b[a-z]+\b/g

  /** The regex class `\w`. */
  predicate IsWordChar(c: char) {
    IsLetter(c) || IsDigit(c) || c == '_'
  }

  /** The end of the run of letters `a`-`z` that starts at `i`. */
  function RunEnd(t: string, i: nat): (j: nat)
    requires i <= |t|
    ensures i <= j <= |t|
    ensures forall k :: i <= k < j ==> IsLower(t[k])
    ensures j == |t| || !IsLower(t[j])
    decreases |t| - i
  {
    if i < |t| && IsLower(t[i]) then RunEnd(t, i + 1) else i
  }

  /** There is a word boundary `\b` before index `i`, given that `t[i]` is a word character. */
  predicate BoundaryBefore(t: string, i: nat)
    requires i <= |t|
  {
    i == 0 || !IsWordChar(t[i - 1])
  }

  /** There is a word boundary `\b` at index `j`, given that `t[j - 1]` is a word character. */
  predicate BoundaryAt(t: string, j: nat)
    requires j <= |t|
  {
    j == |t| || !IsWordChar(t[j])
  }

  /** The matches of the global search from index `i` on. A match starts at a
      boundary, takes the whole run of lower-case letters, and needs a
      boundary after it; a shorter run would end before a letter, where there
      is no boundary. After a match the search resumes at its end. */
  function WordsFrom(t: string, i: nat): seq<string>
    requires i <= |t|
    decreases |t| - i
  {
    if i == |t| then []
    else if IsLower(t[i]) && BoundaryBefore(t, i) && BoundaryAt(t, RunEnd(t, i)) then
      [t[i..RunEnd(t, i)]] + WordsFrom(t, RunEnd(t, i))
    else WordsFrom(t, i + 1)
  }

  /** `t.match(/\b[a-z]+\b/g) || []`. */
  function Words(t: string): seq<string> {
    WordsFrom(t, 0)
  }

  /** `w` is a match of `\b[a-z]+\b` at index `p` of `t`. */
  ghost predicate IsWordAt(t: string, w: string, p: nat) {
    && w != []
    && OccursAt(t, w, p)
    && (forall k :: 0 <= k < |w| ==> IsLower(w[k]))
    && BoundaryBefore(t, p)
    && BoundaryAt(t, p + |w|)
  }

  /** `w` is a match of `\b[a-z]+\b` somewhere in `t`. */
  ghost predicate IsWordOf(t: string, w: string) {
    exists p: nat :: IsWordAt(t, w, p)
  }

  /** The run of letters starting at a word is the word. */
  lemma RunEndOfWord(t: string, w: string, p: nat)
    requires IsWordAt(t, w, p)
    ensures RunEnd(t, p) == p + |w|
  {
    RunEndAtLeast(t, p, p + |w|);
  }

  /** A run of letters from `i` to `j` ends at `j` or later. */
  lemma {:induction false} RunEndAtLeast(t: string, i: nat, j: nat)
    requires i <= j <= |t|
    requires forall k :: i <= k < j ==> IsLower(t[k])
    ensures j <= RunEnd(t, i)
    decreases j - i
  {
    if i < j {
      RunEndAtLeast(t, i + 1, j);
    }
  }

  /** Every match found from `i` on is a word of `t`. */
  lemma {:induction false} WordsFromSound(t: string, i: nat)
    requires i <= |t|
    ensures forall n :: 0 <= n < |WordsFrom(t, i)| ==> IsWordOf(t, WordsFrom(t, i)[n])
    decreases |t| - i
  {
    if i < |t| {
      var j := RunEnd(t, i);
      if IsLower(t[i]) && BoundaryBefore(t, i) && BoundaryAt(t, j) {
        WordsFromSound(t, j);
        RunIsWord(t, i);
        AllWordsCons(t, t[i..j], WordsFrom(t, j));
      } else {
        WordsFromSound(t, i + 1);
      }
    }
  }

  /** A run of letters between two boundaries is a word. */
  lemma RunIsWord(t: string, i: nat)
    requires i < |t| && IsLower(t[i]) && BoundaryBefore(t, i) && BoundaryAt(t, RunEnd(t, i))
    ensures IsWordOf(t, t[i..RunEnd(t, i)])
  {
    assert IsWordAt(t, t[i..RunEnd(t, i)], i);
  }

  lemma AllWordsCons(t: string, w: string, rest: seq<string>)
    requires IsWordOf(t, w)
    requires forall n :: 0 <= n < |rest| ==> IsWordOf(t, rest[n])
    ensures forall n :: 0 <= n < |[w] + rest| ==> IsWordOf(t, ([w] + rest)[n])
  {
    forall n | 0 <= n < |[w] + rest| ensures IsWordOf(t, ([w] + rest)[n]) {
      if n > 0 {
        assert ([w] + rest)[n] == rest[n - 1];
      }
    }
  }

  /** Every word of `t` starting at or after `i` is found by the search from `i`. */
  lemma {:induction false} WordsFromComplete(t: string, i: nat, w: string, p: nat)
    requires i <= p && IsWordAt(t, w, p)
    ensures w in WordsFrom(t, i)
    decreases |t| - i
  {
    var j := RunEnd(t, i);
    if i == p {
      RunEndOfWord(t, w, p);
      assert t[i..j] == w;
    } else if IsLower(t[i]) && BoundaryBefore(t, i) && BoundaryAt(t, j) {
      WordsFromComplete(t, j, w, p);
    } else {
      WordsFromComplete(t, i + 1, w, p);
    }
  }

  /** The words are exactly the matches of `\b[a-z]+\b` in `t`. */
  lemma WordsCorrect(t: string)
    ensures forall n :: 0 <= n < |Words(t)| ==> IsWordOf(t, Words(t)[n])
    ensures forall w: string, p: nat :: IsWordAt(t, w, p) ==> w in Words(t)
  {
    WordsFromSound(t, 0);
    forall w: string, p: nat | IsWordAt(t, w, p) ensures w in Words(t) {
      WordsFromComplete(t, 0, w, p);
    }
  }

  /** Where the matches found from `i` on start. */
  ghost function WordStartsFrom(t: string, i: nat): seq<nat>
    requires i <= |t|
    decreases |t| - i
  {
    if i == |t| then []
    else if IsLower(t[i]) && BoundaryBefore(t, i) && BoundaryAt(t, RunEnd(t, i)) then
      [i] + WordStartsFrom(t, RunEnd(t, i))
    else WordStartsFrom(t, i + 1)
  }

  /** Where the matches of `t.match(/\b[a-z]+\b/g)` start. */
  ghost function WordStarts(t: string): seq<nat> {
    WordStartsFrom(t, 0)
  }

  /** The positions in `starts` increase strictly. */
  ghost predicate Increasing(starts: seq<nat>) {
    forall m, n :: 0 <= m < n < |starts| ==> starts[m] < starts[n]
  }

  /** `words[n]` is a word of `t` at `starts[n]`, at or after `i`, and the
      starts increase strictly. */
  ghost predicate ListedInOrder(t: string, i: nat, words: seq<string>, starts: seq<nat>) {
    && |words| == |starts|
    && (forall n :: 0 <= n < |starts| ==> i <= starts[n] && IsWordAt(t, words[n], starts[n]))
    && Increasing(starts)
  }

  lemma {:induction false} WordsFromInOrder(t: string, i: nat)
    requires i <= |t|
    ensures ListedInOrder(t, i, WordsFrom(t, i), WordStartsFrom(t, i))
    decreases |t| - i
  {
    if i < |t| {
      var j := RunEnd(t, i);
      if IsLower(t[i]) && BoundaryBefore(t, i) && BoundaryAt(t, j) {
        WordsFromInOrder(t, j);
        assert IsWordAt(t, t[i..j], i);
        ListedCons(t, i, j, WordsFrom(t, j), WordStartsFrom(t, j));
      } else {
        WordsFromInOrder(t, i + 1);
      }
    }
  }

  lemma ListedCons(t: string, i: nat, j: nat, words: seq<string>, starts: seq<nat>)
    requires i < j <= |t| && IsWordAt(t, t[i..j], i)
    requires ListedInOrder(t, j, words, starts)
    ensures ListedInOrder(t, i, [t[i..j]] + words, [i] + starts)
  {
    var ws, ss := [t[i..j]] + words, [i] + starts;
    forall n | 0 <= n < |ss| ensures i <= ss[n] && IsWordAt(t, ws[n], ss[n]) {
      if n > 0 {
        assert ws[n] == words[n - 1] && ss[n] == starts[n - 1];
      }
    }
    IncreasingCons(i, starts);
  }

  lemma IncreasingCons(i: nat, starts: seq<nat>)
    requires Increasing(starts) && forall n :: 0 <= n < |starts| ==> i < starts[n]
    ensures Increasing([i] + starts)
  {
    var ss := [i] + starts;
    forall m, n | 0 <= m < n < |ss| ensures ss[m] < ss[n] {
      assert ss[n] == starts[n - 1];
      if m > 0 {
        assert ss[m] == starts[m - 1];
      }
    }
  }

  /** Every word of `t` at or after `i` starts where the search from `i` finds a match. */
  lemma {:induction false} WordStartsFromComplete(t: string, i: nat, w: string, p: nat)
    requires i <= p && IsWordAt(t, w, p)
    ensures p in WordStartsFrom(t, i)
    decreases |t| - i
  {
    var j := RunEnd(t, i);
    if i == p {
      RunEndOfWord(t, w, p);
    } else if IsLower(t[i]) && BoundaryBefore(t, i) && BoundaryAt(t, j) {
      WordStartsFromComplete(t, j, w, p);
    } else {
      WordStartsFromComplete(t, i + 1, w, p);
    }
  }

  /** The global search lists the words of `t` left to right: the n-th match
      is a word starting at the n-th start, the starts increase, and every
      position where a word starts is among them. */
  lemma WordsInOrder(t: string)
    ensures |WordStarts(t)| == |Words(t)|
    ensures forall n :: 0 <= n < |Words(t)| ==> IsWordAt(t, Words(t)[n], WordStarts(t)[n])
    ensures forall m, n :: 0 <= m < n < |Words(t)| ==> WordStarts(t)[m] < WordStarts(t)[n]
    ensures forall w: string, p: nat :: IsWordAt(t, w, p) ==> p in WordStarts(t)
  {
    WordsFromInOrder(t, 0);
    forall w: string, p: nat | IsWordAt(t, w, p) ensures p in WordStarts(t) {
      WordStartsFromComplete(t, 0, w, p);
    }
  }

  // Keywords and the score

  function LongerThanThree(): string -> bool {
    w => |w| > 3
  }

  /** `[...new Set(words.filter(word => word.length > 3))]`. */
  function Keywords(jobText: string): seq<string> {
    Dedup(Filter(Words(jobText), LongerThanThree()))
  }

  /** The keywords are, once each, exactly the words longer than three
      letters, in the order of their first occurrence among those words. */
  lemma KeywordsCorrect(jobText: string)
    ensures NoDuplicates(Keywords(jobText))
    ensures var long := Filter(Words(jobText), LongerThanThree());
            forall m, n :: 0 <= m < n < |Keywords(jobText)| ==>
              FirstIndex(long, Keywords(jobText)[m]) < FirstIndex(long, Keywords(jobText)[n])
    ensures forall n :: 0 <= n < |Keywords(jobText)| ==>
              |Keywords(jobText)[n]| > 3 && IsWordOf(jobText, Keywords(jobText)[n])
    ensures forall w: string, p: nat :: IsWordAt(jobText, w, p) && |w| > 3 ==> w in Keywords(jobText)
  {
    var words := Words(jobText);
    var ks := Keywords(jobText);
    DedupOrder(Filter(words, LongerThanThree()));
    WordsCorrect(jobText);
    DedupFilterMembers(words, LongerThanThree());
    SubseqMembers(ks, words);
    forall n | 0 <= n < |ks|
      ensures |ks[n]| > 3 && IsWordOf(jobText, ks[n])
    {
      var k :| 0 <= k < |words| && words[k] == ks[n];
      assert LongerThanThree()(words[k]);
    }
    forall w: string, p: nat | IsWordAt(jobText, w, p) && |w| > 3 ensures w in ks {
      var k :| 0 <= k < |words| && words[k] == w;
      assert LongerThanThree()(words[k]);
    }
  }

  function IncludedIn(text: string): string -> bool {
    k => Includes(text, k)
  }

  function MissingFrom(text: string): string -> bool {
    k => !Includes(text, k)
  }

  /** The non-overlapping occurrences of `k` in `s` from index `i` on, as
      `split` finds them: after an occurrence the scan resumes past its end. */
  function OccurrencesFrom(s: string, k: string, i: nat): (n: nat)
    requires k != [] && i <= |s|
    decreases |s| - i
  {
    if i + |k| > |s| then 0
    else if OccursAt(s, k, i) then 1 + OccurrencesFrom(s, k, i + |k|)
    else OccurrencesFrom(s, k, i + 1)
  }

  /** `s.split(k).length` for a non-empty separator. */
  function SplitCount(s: string, k: string): (n: nat)
    requires k != []
  {
    OccurrencesFrom(s, k, 0) + 1
  }

  /** A separator that occurs splits the text into at least two pieces, one
      that does not leaves it whole. */
  lemma {:induction false} OccurrencesFromIncludes(s: string, k: string, i: nat)
    requires k != [] && i <= |s|
    ensures OccurrencesFrom(s, k, i) > 0 <==> IncludesFrom(s, k, i)
    decreases |s| - i
  {
    if i + |k| <= |s| {
      if OccursAt(s, k, i) {
      } else {
        OccurrencesFromIncludes(s, k, i + 1);
      }
    }
  }

  /** The scan counts at least two occurrences from `i` on exactly when two
      occurrences that do not overlap start at or after `i`. */
  lemma {:induction false} TwoOccurrencesFrom(s: string, k: string, i: nat)
    requires k != [] && i <= |s|
    ensures OccurrencesFrom(s, k, i) >= 2 <==>
            exists a: nat, b: nat :: i <= a && a + |k| <= b && OccursAt(s, k, a) && OccursAt(s, k, b)
    decreases |s| - i
  {
    if i + |k| <= |s| {
      if OccursAt(s, k, i) {
        OccurrencesFromIncludes(s, k, i + |k|);
        if OccurrencesFrom(s, k, i) >= 2 {
          var b: nat :| i + |k| <= b <= |s| && OccursAt(s, k, b);
          assert i <= i && i + |k| <= b && OccursAt(s, k, i) && OccursAt(s, k, b);
        }
      } else {
        TwoOccurrencesFrom(s, k, i + 1);
        if exists a: nat, b: nat :: i <= a && a + |k| <= b && OccursAt(s, k, a) && OccursAt(s, k, b) {
          var a: nat, b: nat :| i <= a && a + |k| <= b && OccursAt(s, k, a) && OccursAt(s, k, b);
          assert a != i;
          assert i + 1 <= a && a + |k| <= b && OccursAt(s, k, a) && OccursAt(s, k, b);
        }
      }
    }
  }

  /** `jobText.split(keyword).length > 2` holds exactly when the keyword
      occurs twice without overlap: `"thathat".split("that")` has only two
      pieces. */
  lemma SplitCountTwice(s: string, k: string)
    requires k != []
    ensures SplitCount(s, k) > 2 <==>
            exists a: nat, b: nat :: a + |k| <= b && OccursAt(s, k, a) && OccursAt(s, k, b)
  {
    TwoOccurrencesFrom(s, k, 0);
  }

  /** The keyword occurs at least twice without overlap:
      `jobText.split(keyword).length > 2` (see `SplitCountTwice`). */
  function Repeated(jobText: string): string -> bool {
    k => k != [] && SplitCount(jobText, k) > 2
  }

  /** `Math.round(matched / total * 100)` in exact arithmetic: half-way values round up. */
  function RoundedPercent(matched: nat, total: nat): (p: nat)
    requires 0 < total
  {
    (200 * matched + total) / (2 * total)
  }

  /** The rounded percentage is the nearest whole percentage, ties going up. */
  lemma RoundedPercentNearest(matched: nat, total: nat)
    requires 0 < total
    ensures 2 * total * RoundedPercent(matched, total) <= 200 * matched + total
    ensures 200 * matched + total < 2 * total * (RoundedPercent(matched, total) + 1)
  {
  }

  /** A share of at most all keywords scores at most 100, and all of them score 100. */
  lemma RoundedPercentBounds(matched: nat, total: nat)
    requires 0 < total && matched <= total
    ensures RoundedPercent(matched, total) <= 100
    ensures matched == total ==> RoundedPercent(matched, total) == 100
    ensures matched == 0 ==> RoundedPercent(matched, total) == 0
  {
    var d := 2 * total;
    QuotientBelow(200 * matched + total, d, 101);
    if matched == total {
      QuotientAtLeast(200 * matched + total, d, 100);
    }
    if matched == 0 {
      QuotientBelow(200 * matched + total, d, 1);
    }
  }

  lemma MulMonotone(d: nat, x: nat, y: nat)
    requires x <= y
    ensures d * x <= d * y
  {
  }

  lemma QuotientBelow(a: nat, d: nat, c: nat)
    requires 0 < d && a < d * c
    ensures a / d < c
  {
    var q := a / d;
    assert d * q <= a;
    if q >= c {
      MulMonotone(d, c, q);
      assert false;
    }
  }

  lemma QuotientAtLeast(a: nat, d: nat, c: nat)
    requires 0 < d && d * c <= a
    ensures c <= a / d
  {
    var q := a / d;
    assert a < d * (q + 1);
    if q < c {
      MulMonotone(d, q + 1, c);
      assert false;
    }
  }

  /** The response of the endpoint. */
  datatype MatchResult = MatchResult(
    matchScore: nat,
    matchedKeywords: seq<string>,
    missingKeywords: seq<string>,
    totalKeywords: nat)

  /** The score as the endpoint computes it: with no keywords the ratio is
      0 / 0, which is NaN (`None`); `Math.min(NaN, 100)` stays NaN. */
  function ScoreAsWritten(matched: nat, total: nat): (score: Option<nat>)
    ensures score.None? <==> total == 0
  {
    if total == 0 then None else Some(Min(RoundedPercent(matched, total), 100))
  }

  /** The score with the empty keyword list scoring 0. */
  function Score(matched: nat, total: nat): (score: nat)
    requires matched <= total
    ensures score <= 100
    ensures total > 0 ==> ScoreAsWritten(matched, total) == Some(score)
    ensures matched == 0 ==> score == 0
    ensures 0 < total && matched == total ==> score == 100
  {
    if total == 0 then 0
    else
      RoundedPercentBounds(matched, total);
      RoundedPercent(matched, total)
  }

  /** `keywords.filter(keyword => resumeText.includes(keyword))`. */
  function MatchedKeywords(keywords: seq<string>, text: string): seq<string> {
    Filter(keywords, IncludedIn(text))
  }

  /** The keywords the description repeats, less those the resume contains. */
  function MissingKeywords(keywords: seq<string>, text: string, jobText: string): seq<string> {
    Filter(Filter(keywords, Repeated(jobText)), MissingFrom(text))
  }

  /** The matched keywords are, in order, exactly the keywords the text
      contains; the missing ones are, in order, exactly the keywords repeated
      in the description and absent from the text, so no keyword is both. */
  lemma {:induction false} ReportedKeywords(keywords: seq<string>, text: string, jobText: string)
    ensures var matched := MatchedKeywords(keywords, text);
            && IsSubseq(matched, keywords)
            && (forall n :: 0 <= n < |matched| ==> Includes(text, matched[n]))
            && (forall k :: 0 <= k < |keywords| ==> (keywords[k] in matched <==> Includes(text, keywords[k])))
    ensures var missing := MissingKeywords(keywords, text, jobText);
            forall n :: 0 <= n < |missing| ==>
              && missing[n] in keywords && !Includes(text, missing[n])
              && missing[n] != [] && SplitCount(jobText, missing[n]) > 2
              && missing[n] !in MatchedKeywords(keywords, text)
    ensures var missing := MissingKeywords(keywords, text, jobText);
            && IsSubseq(missing, keywords)
            && forall k :: 0 <= k < |keywords| ==>
                 (keywords[k] in missing <==>
                    keywords[k] != [] && SplitCount(jobText, keywords[k]) > 2 && !Includes(text, keywords[k]))
  {
    var matched := MatchedKeywords(keywords, text);
    var important := Filter(keywords, Repeated(jobText));
    var missing := MissingKeywords(keywords, text, jobText);
    FilterMembers(keywords, IncludedIn(text));
    FilterMembers(keywords, Repeated(jobText));
    FilterMembers(important, MissingFrom(text));
    forall n | 0 <= n < |matched| ensures Includes(text, matched[n]) {
      assert IncludedIn(text)(matched[n]);
    }
    forall n | 0 <= n < |missing|
      ensures && missing[n] in keywords && !Includes(text, missing[n])
              && missing[n] != [] && SplitCount(jobText, missing[n]) > 2
              && missing[n] !in matched
    {
      var x := missing[n];
      assert MissingFrom(text)(x);
      var k :| 0 <= k < |important| && important[k] == x;
      assert Repeated(jobText)(important[k]);
      forall m | 0 <= m < |matched| ensures matched[m] != x {
        assert IncludedIn(text)(matched[m]);
      }
    }
    SubseqTransitive(missing, important, keywords);
    forall k | 0 <= k < |keywords|
      ensures keywords[k] in missing <==>
                keywords[k] != [] && SplitCount(jobText, keywords[k]) > 2 && !Includes(text, keywords[k])
    {
      var x := keywords[k];
      if x in missing {
        var n :| 0 <= n < |missing| && missing[n] == x;
      }
      if Repeated(jobText)(x) && MissingFrom(text)(x) {
        var j :| 0 <= j < |important| && important[j] == x;
        assert MissingFrom(text)(important[j]);
      }
    }
  }

  /** The handler's response, or `None` for the 400 reply when the resume or
      the job description is missing (an empty description counts as
      missing). `resumeText` is the resume's `rawText`, `''` when absent. */
  function MatchJob(resumeText: Option<string>, jobDescription: string): (r: Option<MatchResult>)
    ensures r.None? <==> resumeText.None? || jobDescription == ""
    ensures r.Some? ==> |r.value.matchedKeywords| <= 20 && |r.value.missingKeywords| <= 10
    ensures r.Some? ==> r.value.matchScore <= 100
    ensures r.Some? ==> r.value.totalKeywords == |Keywords(Lower(jobDescription))|
    ensures r.Some? ==> r.value.matchScore == 0 || r.value.matchedKeywords != []
  {
    if resumeText.None? || jobDescription == "" then None
    else
      var jobText := Lower(jobDescription);
      Some(MatchReport(Keywords(jobText), Lower(resumeText.value), jobText))
  }

  /** The response for the given keywords, lower-cased resume text and
      lower-cased job text. */
  function MatchReport(keywords: seq<string>, text: string, jobText: string): MatchResult {
    var matched := MatchedKeywords(keywords, text);
    MatchResult(Score(|matched|, |keywords|), Prefix(matched, 20),
                Prefix(MissingKeywords(keywords, text, jobText), 10), |keywords|)
  }

  /** The response for any keyword list: the reported lists are the first
      twenty matched and the first ten missing keywords, disjoint, and the
      score is that of the matched count. */
  lemma MatchReportCorrect(keywords: seq<string>, text: string, jobText: string)
    ensures var r := MatchReport(keywords, text, jobText);
            && r.matchedKeywords == Prefix(MatchedKeywords(keywords, text), 20)
            && r.missingKeywords == Prefix(MissingKeywords(keywords, text, jobText), 10)
            && r.matchScore == Score(|MatchedKeywords(keywords, text)|, |keywords|)
            && (forall n :: 0 <= n < |r.missingKeywords| ==> r.missingKeywords[n] !in r.matchedKeywords)
  {
    var matched := MatchedKeywords(keywords, text);
    var missing := MissingKeywords(keywords, text, jobText);
    ReportedKeywords(keywords, text, jobText);
    var r := MatchReport(keywords, text, jobText);
    forall n | 0 <= n < |r.missingKeywords|
      ensures r.missingKeywords[n] !in r.matchedKeywords
    {
      assert r.missingKeywords[n] == missing[n];
      forall m | 0 <= m < |r.matchedKeywords| ensures r.matchedKeywords[m] != missing[n] {
        assert r.matchedKeywords[m] == matched[m];
      }
    }
  }

  /** The reported keywords: the matched ones are the first twenty keywords
      the resume contains, in the description's order; the missing ones are
      the first ten keywords the description repeats and the resume lacks,
      so no keyword is both. The score is the rounded percentage of keywords
      matched, the written formula whenever there are keywords, and 0 when
      there are none. */
  lemma MatchJobCorrect(resumeText: string, jobDescription: string)
    requires jobDescription != ""
    ensures var r := MatchJob(Some(resumeText), jobDescription).value;
            var text := Lower(resumeText);
            var jobText := Lower(jobDescription);
            var keywords := Keywords(jobText);
            && r.matchedKeywords == Prefix(MatchedKeywords(keywords, text), 20)
            && IsSubseq(MatchedKeywords(keywords, text), keywords)
            && (forall k :: 0 <= k < |keywords| ==>
                  (keywords[k] in MatchedKeywords(keywords, text) <==> Includes(text, keywords[k])))
            && (forall n :: 0 <= n < |r.missingKeywords| ==>
                  r.missingKeywords[n] in keywords && !Includes(text, r.missingKeywords[n])
                  && SplitCount(jobText, r.missingKeywords[n]) > 2
                  && r.missingKeywords[n] !in r.matchedKeywords)
    ensures var r := MatchJob(Some(resumeText), jobDescription).value;
            var text := Lower(resumeText);
            var jobText := Lower(jobDescription);
            var keywords := Keywords(jobText);
            var missing := MissingKeywords(keywords, text, jobText);
            && r.missingKeywords == Prefix(missing, 10)
            && (forall k :: 0 <= k < |keywords| ==>
                  (keywords[k] in missing <==>
                     keywords[k] != [] && SplitCount(jobText, keywords[k]) > 2 && !Includes(text, keywords[k])))
            && r.matchScore == Score(|MatchedKeywords(keywords, text)|, |keywords|)
            && (|keywords| > 0 ==> ScoreAsWritten(|MatchedKeywords(keywords, text)|, |keywords|) == Some(r.matchScore))
            && (|keywords| == 0 ==> r.matchScore == 0)
  {
    var text := Lower(resumeText);
    var jobText := Lower(jobDescription);
    var keywords := Keywords(jobText);
    assert MatchJob(Some(resumeText), jobDescription).value == MatchReport(keywords, text, jobText);
    MatchReportCorrect(keywords, text, jobText);
    ReportedKeywords(keywords, text, jobText);
  }

  /** A description without a word longer than three letters has no keywords:
      "C++ dev" yields the words "c" and "dev". */
  lemma ShortWordsOnly()
    ensures Words("c++ dev") == ["c", "dev"]
    ensures Keywords(Lower("C++ Dev")) == []
    ensures ScoreAsWritten(0, |Keywords(Lower("C++ Dev"))|).None?
  {
    var t := "c++ dev";
    assert Lower("C++ Dev") == t;
    assert RunEnd(t, 0) == 1;
    assert RunEnd(t, 4) == 7;
    assert WordsFrom(t, 7) == [];
    assert t[4..7] == "dev";
    assert WordsFrom(t, 4) == ["dev"];
    assert WordsFrom(t, 3) == ["dev"];
    assert WordsFrom(t, 2) == ["dev"];
    assert WordsFrom(t, 1) == ["dev"];
    assert t[0..1] == "c";
    assert Words(t) == ["c", "dev"];
    assert Filter(["c", "dev"], LongerThanThree()) == [];
  }
}
