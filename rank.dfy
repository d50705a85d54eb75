/**
 * The relevance ranker (`rank_paragraphs`). The sentence embedding and the
 * cosine similarity are not modelled: each paragraph comes with an opaque
 * integer score, higher meaning more relevant. What is modelled is what the
 * ranker does with the scores: a stable sort by descending score, the cut to
 * the first K, the 1-based ranks and the shortened section titles.
 */
module Rank {
  import opened Extract

  /** A paragraph paired with its score: one tuple of `zip(texts, pages, scores)`. */
  datatype Candidate = Candidate(text: string, page: int, score: int)

  /** One entry of `extracted_sections`. */
  datatype RankedResult = RankedResult(
    document: string,
    pageNumber: int,
    sectionTitle: string,
    importanceRank: int,
    refinedText: string)

  /** `top_k`'s default, the value every caller uses. */
  const DEFAULT_TOP_K := 5

  /** Titles longer than this are cut and marked with the ellipsis. */
  const TITLE_LENGTH := 60
  const ELLIPSIS := "..."

  /** `zip(texts, pages, scores)`: stops at the shorter input. */
  function Zip(paragraphs: seq<Paragraph>, scores: seq<int>): seq<Candidate> {
    var n := if |paragraphs| <= |scores| then |paragraphs| else |scores|;
    seq(n, i requires 0 <= i < n => Candidate(paragraphs[i].text, paragraphs[i].page, scores[i]))
  }

  /** Scores never increase along `s`. */
  predicate Descending(s: seq<Candidate>) {
    forall i, j :: 0 <= i < j < |s| ==> s[i].score >= s[j].score
  }

  /** The candidates of `s` whose score is `v`, in their order in `s`. */
  function WithScore(s: seq<Candidate>, v: int): seq<Candidate> {
    if s == [] then [] else (if s[0].score == v then [s[0]] else []) + WithScore(s[1..], v)
  }

  /**
   * Inserts `x` in front of the first candidate that does not outscore it:
   * `x` goes after everything with a strictly higher score and before
   * everything else.
   */
  function Insert(x: Candidate, t: seq<Candidate>): seq<Candidate> {
    if t == [] || x.score >= t[0].score then [x] + t
    else [t[0]] + Insert(x, t[1..])
  }

  lemma {:induction false} InsertMultiset(x: Candidate, t: seq<Candidate>)
    ensures multiset(Insert(x, t)) == multiset(t) + multiset{x}
  {
    if !(t == [] || x.score >= t[0].score) {
      InsertMultiset(x, t[1..]);
      assert t == [t[0]] + t[1..];
    }
  }

  lemma {:induction false} InsertDescending(x: Candidate, t: seq<Candidate>)
    requires Descending(t)
    ensures Descending(Insert(x, t))
  {
    if !(t == [] || x.score >= t[0].score) {
      var rest := Insert(x, t[1..]);
      InsertDescending(x, t[1..]);
      InsertMultiset(x, t[1..]);
      forall j | 0 <= j < |rest|
        ensures t[0].score >= rest[j].score
      {
        assert rest[j] in multiset(rest);
        if rest[j] != x {
          assert rest[j] in multiset(t[1..]);
          var k :| 0 <= k < |t[1..]| && t[1..][k] == rest[j];
          assert t[k + 1] == rest[j];
        }
      }
      var r := [t[0]] + rest;
      assert forall i :: 0 < i < |r| ==> r[i] == rest[i - 1];
    }
  }

  /** Insertion is stable: `x` lands in front of the candidates that share its score. */
  lemma {:induction false} InsertWithScore(x: Candidate, t: seq<Candidate>, v: int)
    requires Descending(t)
    ensures WithScore(Insert(x, t), v) == if x.score == v then [x] + WithScore(t, v) else WithScore(t, v)
  {
    if t == [] || x.score >= t[0].score {
      assert ([x] + t)[1..] == t;
    } else {
      var rest := Insert(x, t[1..]);
      InsertWithScore(x, t[1..], v);
      assert ([t[0]] + rest)[1..] == rest;
    }
  }

  /**
   * Python's `sorted(..., key=score, reverse=True)`: scores in descending
   * order, the same candidates, and candidates with equal scores in their
   * original order (the sort is stable).
   */
  function SortByScore(s: seq<Candidate>): (r: seq<Candidate>)
    ensures Descending(r)
    ensures multiset(r) == multiset(s)
    ensures forall v :: WithScore(r, v) == WithScore(s, v)
  {
    if s == [] then []
    else
      var t := SortByScore(s[1..]);
      InsertDescending(s[0], t);
      InsertMultiset(s[0], t);
      assert s == [s[0]] + s[1..];
      assert forall v :: WithScore(Insert(s[0], t), v) == WithScore(s, v) by {
        forall v
          ensures WithScore(Insert(s[0], t), v) == WithScore(s, v)
        {
          InsertWithScore(s[0], t, v);
        }
      }
      Insert(s[0], t)
  }

  /** Python's slice `s[:k]`, for any integer `k`. */
  function Prefix<T>(s: seq<T>, k: int): (r: seq<T>)
    ensures r <= s
    ensures |r| == if 0 <= k then (if k <= |s| then k else |s|) else (if 0 <= |s| + k then |s| + k else 0)
  {
    if 0 <= k then (if k <= |s| then s[..k] else s)
    else (if 0 <= |s| + k then s[..|s| + k] else [])
  }

  /** `ranked[:top_k]`: the candidates that make the cut, best first. */
  function TopCandidates(paragraphs: seq<Paragraph>, scores: seq<int>, topK: int): seq<Candidate> {
    Prefix(SortByScore(Zip(paragraphs, scores)), topK)
  }

  /**
   * `text[:60] + "..." if len(text) > 60 else text`: short texts are their
   * own title; longer ones keep their first 60 characters, marked with "...".
   */
  function SectionTitle(text: string): (r: string)
    ensures |r| <= TITLE_LENGTH + |ELLIPSIS|
    ensures |text| <= TITLE_LENGTH ==> r == text
    ensures |text| > TITLE_LENGTH ==> |r| == TITLE_LENGTH + |ELLIPSIS| && r[..TITLE_LENGTH] == text[..TITLE_LENGTH] && r[TITLE_LENGTH..] == ELLIPSIS
  {
    if |text| > TITLE_LENGTH then text[..TITLE_LENGTH] + ELLIPSIS else text
  }

  /** The result dictionary for the candidate ranked `rank`; the document is filled in by the caller. */
  function ResultFor(c: Candidate, rank: int): RankedResult {
    RankedResult("", c.page, SectionTitle(c.text), rank, c.text)
  }

  /** The result list for the candidates that made the cut, ranked 1, 2, ... in order. */
  function Results(top: seq<Candidate>): seq<RankedResult> {
    seq(|top|, i requires 0 <= i < |top| => ResultFor(top[i], i + 1))
  }

  /** `rank_paragraphs`: sort, cut, and build one result per surviving candidate. */
  method RankParagraphs(paragraphs: seq<Paragraph>, scores: seq<int>, topK: int) returns (results: seq<RankedResult>)
    ensures results == Results(TopCandidates(paragraphs, scores, topK))
  {
    var ranked := SortByScore(Zip(paragraphs, scores));
    var top := Prefix(ranked, topK);
    results := [];
    for i := 0 to |top|
      invariant |results| == i
      invariant forall j :: 0 <= j < i ==> results[j] == ResultFor(top[j], j + 1)
    {
      results := results + [ResultFor(top[i], i + 1)];
    }
  }

  lemma {:induction false} WithScoreAppend(a: seq<Candidate>, b: seq<Candidate>, v: int)
    ensures WithScore(a + b, v) == WithScore(a, v) + WithScore(b, v)
  {
    if a != [] {
      WithScoreAppend(a[1..], b, v);
      assert (a + b)[1..] == a[1..] + b;
    } else {
      assert a + b == b;
    }
  }

  /** `WithScore` keeps exactly the candidates of `s` that carry score `v`. */
  lemma {:induction false} WithScoreMembers(s: seq<Candidate>, v: int)
    ensures forall e :: e in WithScore(s, v) <==> e in s && e.score == v
  {
    if s != [] {
      WithScoreMembers(s[1..], v);
      assert s == [s[0]] + s[1..];
    }
  }

  lemma HeadScoreIsMax(s: seq<Candidate>, e: Candidate)
    requires Descending(s) && e in s
    ensures e.score <= s[0].score
  {
    var k :| 0 <= k < |s| && s[k] == e;
    if k > 0 {
      assert s[0].score >= s[k].score;
    }
  }

  lemma DescendingTail(s: seq<Candidate>)
    requires Descending(s) && s != []
    ensures Descending(s[1..])
  {
    forall i, j | 0 <= i < j < |s| - 1
      ensures s[1..][i].score >= s[1..][j].score
    {
      assert s[1..][i] == s[i + 1] && s[1..][j] == s[j + 1];
    }
  }

  lemma HeadScoresAgree(a: seq<Candidate>, b: seq<Candidate>)
    requires Descending(a) && Descending(b) && a != [] && b != []
    requires forall v :: WithScore(a, v) == WithScore(b, v)
    ensures a[0].score == b[0].score
  {
    WithScoreMembers(a, a[0].score);
    WithScoreMembers(b, a[0].score);
    WithScoreMembers(a, b[0].score);
    WithScoreMembers(b, b[0].score);
    assert WithScore(a, a[0].score) == WithScore(b, a[0].score);
    assert WithScore(a, b[0].score) == WithScore(b, b[0].score);
    HeadScoreIsMax(b, a[0]);
    HeadScoreIsMax(a, b[0]);
  }

  lemma TailsAgree(a: seq<Candidate>, b: seq<Candidate>)
    requires a != [] && b != [] && a[0].score == b[0].score
    requires forall v :: WithScore(a, v) == WithScore(b, v)
    ensures a[0] == b[0]
    ensures forall v :: WithScore(a[1..], v) == WithScore(b[1..], v)
  {
    var m := a[0].score;
    var restA, restB := WithScore(a[1..], m), WithScore(b[1..], m);
    assert WithScore(a, m) == [a[0]] + restA;
    assert WithScore(b, m) == [b[0]] + restB;
    assert ([a[0]] + restA)[0] == a[0] && ([a[0]] + restA)[1..] == restA;
    assert ([b[0]] + restB)[0] == b[0] && ([b[0]] + restB)[1..] == restB;
    forall v
      ensures WithScore(a[1..], v) == WithScore(b[1..], v)
    {
      if v != m {
        assert WithScore(a, v) == WithScore(a[1..], v);
        assert WithScore(b, v) == WithScore(b[1..], v);
      }
    }
  }

  /**
   * A descending sequence is determined by its per-score subsequences: two
   * descending sequences that agree on `WithScore` for every score are equal.
   */
  lemma {:induction false} DescendingDeterminedByScores(a: seq<Candidate>, b: seq<Candidate>)
    requires Descending(a) && Descending(b)
    requires forall v :: WithScore(a, v) == WithScore(b, v)
    ensures a == b
    decreases |a|
  {
    if b != [] {
      WithScoreMembers(b, b[0].score);
      assert b[0] in WithScore(a, b[0].score);
    }
    if a != [] {
      WithScoreMembers(a, a[0].score);
      assert a[0] in WithScore(b, a[0].score);
      HeadScoresAgree(a, b);
      TailsAgree(a, b);
      DescendingTail(a);
      DescendingTail(b);
      DescendingDeterminedByScores(a[1..], b[1..]);
      assert a == [a[0]] + a[1..] && b == [b[0]] + b[1..];
    }
  }

  /**
   * The stable sort is unique: any ordering of the candidates that is
   * descending by score and keeps equal-score candidates in input order is
   * the one `SortByScore` returns.
   */
  lemma SortByScoreUnique(s: seq<Candidate>, t: seq<Candidate>)
    requires Descending(t)
    requires forall v :: WithScore(t, v) == WithScore(s, v)
    ensures t == SortByScore(s)
  {
    DescendingDeterminedByScores(t, SortByScore(s));
  }

  /** Ranking an already ranked list changes nothing, so ranking twice is ranking once. */
  lemma SortByScoreIdempotent(s: seq<Candidate>)
    ensures Descending(s) ==> SortByScore(s) == s
    ensures SortByScore(SortByScore(s)) == SortByScore(s)
  {
    if Descending(s) {
      SortByScoreUnique(s, s);
    }
    SortByScoreUnique(SortByScore(s), SortByScore(s));
  }

  /** The ranked list is as long as the input allows and `top_k` asks for: min(K, number of paragraphs) for K >= 0. */
  lemma TopCandidatesLength(paragraphs: seq<Paragraph>, scores: seq<int>, topK: int)
    ensures var n := if |paragraphs| <= |scores| then |paragraphs| else |scores|;
      |TopCandidates(paragraphs, scores, topK)|
        == if 0 <= topK then (if topK <= n then topK else n) else (if 0 <= n + topK then n + topK else 0)
  {
    var z := Zip(paragraphs, scores);
    assert |SortByScore(z)| == |multiset(SortByScore(z))| == |multiset(z)| == |z|;
  }

  /** No paragraphs, no results. */
  lemma NoParagraphsNoResults(scores: seq<int>, topK: int)
    ensures Results(TopCandidates([], scores, topK)) == []
  {
    TopCandidatesLength([], scores, topK);
  }

  /**
   * The ranked list is best first, keeps equal-score paragraphs in extraction
   * order (for each score, the kept paragraphs with that score are the first
   * ones of the input with that score), and draws each entry from a distinct
   * input paragraph.
   */
  lemma TopCandidatesRanked(paragraphs: seq<Paragraph>, scores: seq<int>, topK: int)
    ensures var top, z := TopCandidates(paragraphs, scores, topK), Zip(paragraphs, scores);
      && Descending(top)
      && (forall v :: WithScore(top, v) <= WithScore(z, v))
      && multiset(top) <= multiset(z)
  {
    var z := Zip(paragraphs, scores);
    var sorted := SortByScore(z);
    var top := TopCandidates(paragraphs, scores, topK);
    var rest := sorted[|top|..];
    assert sorted == top + rest;
    forall v
      ensures WithScore(top, v) <= WithScore(z, v)
    {
      WithScoreAppend(top, rest, v);
    }
    assert multiset(sorted) == multiset(top) + multiset(rest);
  }

  /** In a descending list, nothing after position `k` outscores anything before it. */
  lemma CutSeparates(sorted: seq<Candidate>, k: int, x: Candidate, y: Candidate)
    requires Descending(sorted) && 0 <= k <= |sorted|
    requires x in sorted[..k] && y in sorted[k..]
    ensures y.score <= x.score
  {
    var i :| 0 <= i < k && sorted[..k][i] == x;
    var j :| 0 <= j < |sorted| - k && sorted[k..][j] == y;
    assert sorted[i] == x && sorted[k + j] == y;
  }

  /** Top-K: no paragraph left out of the cut outscores one that made it. */
  lemma TopCandidatesCutoff(paragraphs: seq<Paragraph>, scores: seq<int>, topK: int)
    ensures var top, z := TopCandidates(paragraphs, scores, topK), Zip(paragraphs, scores);
      forall x: Candidate, y: Candidate :: x in top && y in multiset(z) - multiset(top) ==> y.score <= x.score
  {
    var z := Zip(paragraphs, scores);
    var sorted := SortByScore(z);
    var top := TopCandidates(paragraphs, scores, topK);
    var k := |top|;
    assert top == sorted[..k];
    assert sorted == sorted[..k] + sorted[k..];
    assert multiset(sorted) == multiset(top) + multiset(sorted[k..]);
    forall x: Candidate, y: Candidate | x in top && y in multiset(z) - multiset(top)
      ensures y.score <= x.score
    {
      assert y in multiset(sorted[k..]);
      CutSeparates(sorted, k, x, y);
    }
  }

  /** The results are numbered 1, 2, ..., n in order and carry their paragraph's page, title and full text. */
  lemma ResultsNumbered(top: seq<Candidate>)
    ensures |Results(top)| == |top|
    ensures forall i :: 0 <= i < |top| ==>
      && Results(top)[i].importanceRank == i + 1
      && Results(top)[i].pageNumber == top[i].page
      && Results(top)[i].refinedText == top[i].text
      && Results(top)[i].sectionTitle == SectionTitle(top[i].text)
      && Results(top)[i].document == ""
  {
  }

  /**
   * A title equals its text for every text of at most 60 characters, but the
   * converse fails: a 63-character text that ends in "..." is its own title.
   */
  lemma LongTextCanBeItsOwnTitle()
    ensures var text := seq(TITLE_LENGTH, _ => 'a' as char) + ELLIPSIS;
      |text| > TITLE_LENGTH && SectionTitle(text) == text
  {
    var text := seq(TITLE_LENGTH, _ => 'a' as char) + ELLIPSIS;
    assert text[..TITLE_LENGTH] + ELLIPSIS == text;
  }

  /** Every candidate that makes the cut is one of the input paragraphs, with its score. */
  lemma TopCandidatesFromParagraphs(paragraphs: seq<Paragraph>, scores: seq<int>, topK: int)
    ensures forall c :: c in TopCandidates(paragraphs, scores, topK) ==> Paragraph(c.text, c.page) in paragraphs
  {
    var z := Zip(paragraphs, scores);
    TopCandidatesRanked(paragraphs, scores, topK);
    forall c | c in TopCandidates(paragraphs, scores, topK)
      ensures Paragraph(c.text, c.page) in paragraphs
    {
      assert c in multiset(z);
      var i :| 0 <= i < |z| && z[i] == c;
      assert paragraphs[i] == Paragraph(c.text, c.page);
    }
  }
}
