/**
 * The paragraph extractor (`extract_paragraphs_from_pdf`). Opening the PDF
 * and splitting its pages into text blocks belongs to the PDF library and is
 * not modelled: a document is given as its pages, each the sequence of its
 * block strings in the order the library emits them.
 */
module Extract {

  /** A qualifying text block, tagged with the 1-based number of its page. */
  datatype Paragraph = Paragraph(text: string, page: int)

  /** A block must be longer than this, once trimmed, to be kept. */
  const MIN_LENGTH := 50

  /** The prefix, compared after lower-casing, that marks a page footer. */
  const FOOTER_PREFIX := "page "

  /**
   * The characters Python's `str.strip()` removes (those for which
   * `str.isspace()` holds): \t \n \v \f \r, \x1c-\x1f, space, and the
   * Unicode spaces and separators.
   */
  predicate IsSpace(c: char) {
    || ('\t' <= c <= '\r') || ('\U{1C}' <= c <= ' ')
    || c == '\U{85}' || c == '\U{A0}' || c == '\U{1680}'
    || ('\U{2000}' <= c <= '\U{200A}') || c == '\U{2028}' || c == '\U{2029}'
    || c == '\U{202F}' || c == '\U{205F}' || c == '\U{3000}'
  }

  function TrimStart(s: string): string {
    if s != [] && IsSpace(s[0]) then TrimStart(s[1..]) else s
  }

  function TrimEnd(s: string): string {
    if s != [] && IsSpace(s[|s| - 1]) then TrimEnd(s[..|s| - 1]) else s
  }

  /** `str.strip()`. */
  function Trim(s: string): string {
    TrimEnd(TrimStart(s))
  }

  /** `TrimStart` drops exactly the leading whitespace. */
  lemma {:induction false} TrimStartSpec(s: string)
    ensures var r := TrimStart(s);
      && |r| <= |s| && r == s[|s| - |r|..]
      && (forall k :: 0 <= k < |s| - |r| ==> IsSpace(s[k]))
      && (r == [] || !IsSpace(r[0]))
  {
    if s != [] && IsSpace(s[0]) {
      var t := s[1..];
      TrimStartSpec(t);
      var r := TrimStart(t);
      assert r == TrimStart(s);
      assert t[|t| - |r|..] == s[|s| - |r|..];
      forall k | 0 < k < |s| - |r|
        ensures IsSpace(s[k])
      {
        assert s[k] == t[k - 1];
      }
    }
  }

  /** `TrimEnd` drops exactly the trailing whitespace. */
  lemma {:induction false} TrimEndSpec(s: string)
    ensures var r := TrimEnd(s);
      && |r| <= |s| && r == s[..|r|]
      && (forall k :: |r| <= k < |s| ==> IsSpace(s[k]))
      && (r == [] || !IsSpace(r[|r| - 1]))
  {
    if s != [] && IsSpace(s[|s| - 1]) {
      var t := s[..|s| - 1];
      TrimEndSpec(t);
      var r := TrimEnd(t);
      assert r == TrimEnd(s);
      assert t[..|r|] == s[..|r|];
      forall k | |r| <= k < |s| - 1
        ensures IsSpace(s[k])
      {
        assert s[k] == t[k];
      }
    }
  }

  /** The number of leading whitespace characters `Trim` removes. */
  function Leading(s: string): int {
    |s| - |TrimStart(s)|
  }

  /**
   * What `str.strip()` returns: the slice of `s` that starts after its
   * leading whitespace; everything cut away on either side is whitespace, and
   * the result neither starts nor ends with whitespace.
   */
  lemma TrimSpec(s: string)
    ensures var r := Trim(s);
      && 0 <= Leading(s) && Leading(s) + |r| <= |s| && r == s[Leading(s)..Leading(s) + |r|]
      && (forall k :: 0 <= k < Leading(s) ==> IsSpace(s[k]))
      && (forall k :: Leading(s) + |r| <= k < |s| ==> IsSpace(s[k]))
      && (r == [] || (!IsSpace(r[0]) && !IsSpace(r[|r| - 1])))
  {
    var t := TrimStart(s);
    TrimStartSpec(s);
    TrimEndSpec(t);
    var r := TrimEnd(t);
    forall k | Leading(s) + |r| <= k < |s|
      ensures IsSpace(s[k])
    {
      assert s[k] == t[k - Leading(s)];
    }
  }

  /** Stripping twice is stripping once. */
  lemma TrimIdempotent(s: string)
    ensures Trim(Trim(s)) == Trim(s)
  {
    var t := Trim(s);
    TrimSpec(s);
    if t != [] {
      assert TrimStart(t) == t;
      assert TrimEnd(t) == t;
    }
  }

  function LowerChar(c: char): char {
    if 'A' <= c <= 'Z' then (c as int + 32) as char else c
  }

  /** `str.lower()` on ASCII letters. */
  function Lower(s: string): (r: string)
    ensures |r| == |s|
  {
    seq(|s|, i requires 0 <= i < |s| => LowerChar(s[i]))
  }

  /** `s.lower().startswith(prefix)`, compared character by character. */
  predicate LowerStartsWith(s: string, prefix: string) {
    |prefix| <= |s| && forall i :: 0 <= i < |prefix| ==> LowerChar(s[i]) == prefix[i]
  }

  lemma LowerStartsWithIsPrefix(s: string, prefix: string)
    ensures LowerStartsWith(s, prefix) <==> prefix <= Lower(s)
  {
  }

  /** `text.lower().startswith("page ")`. */
  predicate IsFooter(text: string) {
    LowerStartsWith(text, FOOTER_PREFIX)
  }

  /** A footer is recognised letter by letter, in either case. */
  lemma IsFooterByLetters(text: string)
    ensures IsFooter(text) <==>
      && |text| >= 5
      && text[0] in "pP" && text[1] in "aA" && text[2] in "gG" && text[3] in "eE" && text[4] == ' '
  {
    if |text| >= 5 {
      LowerCharIs(text[0], 'p', 'P');
      LowerCharIs(text[1], 'a', 'A');
      LowerCharIs(text[2], 'g', 'G');
      LowerCharIs(text[3], 'e', 'E');
    }
  }

  lemma LowerCharIs(c: char, lower: char, upper: char)
    requires 'a' <= lower <= 'z' && upper as int == lower as int - 32
    ensures LowerChar(c) == lower <==> c == lower || c == upper
  {
  }

  /** The filter rule: long enough, and not a page footer. */
  predicate Qualifies(text: string) {
    |text| > MIN_LENGTH && !IsFooter(text)
  }

  /** `text` is one of `blocks`, trimmed. */
  predicate IsTrimmedBlock(text: string, blocks: seq<string>) {
    exists j :: 0 <= j < |blocks| && text == Trim(blocks[j])
  }

  /** The paragraphs one page contributes, in block order. */
  function PageParagraphs(blocks: seq<string>, page: int): seq<Paragraph> {
    if blocks == [] then []
    else
      var text := Trim(blocks[|blocks| - 1]);
      PageParagraphs(blocks[..|blocks| - 1], page) + (if Qualifies(text) then [Paragraph(text, page)] else [])
  }

  /** The paragraphs of a whole document: page after page, pages numbered from 1. */
  function Paragraphs(pages: seq<seq<string>>): seq<Paragraph> {
    if pages == [] then []
    else Paragraphs(pages[..|pages| - 1]) + PageParagraphs(pages[|pages| - 1], |pages|)
  }

  /** The paragraphs of `ps` tagged with page `page`, in order. */
  function OnPage(ps: seq<Paragraph>, page: int): seq<Paragraph> {
    if ps == [] then []
    else OnPage(ps[..|ps| - 1], page) + (if ps[|ps| - 1].page == page then [ps[|ps| - 1]] else [])
  }

  /** `extract_paragraphs_from_pdf`: the nested loop over pages and blocks. */
  method ExtractParagraphs(pages: seq<seq<string>>) returns (paragraphs: seq<Paragraph>)
    ensures paragraphs == Paragraphs(pages)
  {
    paragraphs := [];
    var p := 0;
    while p < |pages|
      invariant 0 <= p <= |pages|
      invariant paragraphs == Paragraphs(pages[..p])
    {
      var blocks := pages[p];
      var b := 0;
      while b < |blocks|
        invariant 0 <= b <= |blocks|
        invariant paragraphs == Paragraphs(pages[..p]) + PageParagraphs(blocks[..b], p + 1)
      {
        var text := Trim(blocks[b]);
        if Qualifies(text) {
          paragraphs := paragraphs + [Paragraph(text, p + 1)];
        }
        PageParagraphsStep(blocks, b, p + 1);
        b := b + 1;
      }
      assert blocks[..b] == blocks;
      ParagraphsStep(pages, p);
      p := p + 1;
    }
    assert pages[..p] == pages;
  }

  lemma PageParagraphsStep(blocks: seq<string>, b: int, page: int)
    requires 0 <= b < |blocks|
    ensures var text := Trim(blocks[b]);
      PageParagraphs(blocks[..b + 1], page)
        == PageParagraphs(blocks[..b], page) + (if Qualifies(text) then [Paragraph(text, page)] else [])
  {
    assert blocks[..b + 1][..b] == blocks[..b];
  }

  lemma ParagraphsStep(pages: seq<seq<string>>, p: int)
    requires 0 <= p < |pages|
    ensures Paragraphs(pages[..p + 1]) == Paragraphs(pages[..p]) + PageParagraphs(pages[p], p + 1)
  {
    assert pages[..p + 1][..p] == pages[..p];
  }

  /** Filtering blocks commutes with splitting them: block order is kept. */
  lemma {:induction false} PageParagraphsAppend(a: seq<string>, b: seq<string>, page: int)
    ensures PageParagraphs(a + b, page) == PageParagraphs(a, page) + PageParagraphs(b, page)
    decreases |b|
  {
    if b == [] {
      assert a + b == a;
    } else {
      var b' := b[..|b| - 1];
      assert (a + b)[..|a + b| - 1] == a + b';
      PageParagraphsAppend(a, b', page);
    }
  }

  /** Every paragraph of a page is a trimmed block of that page that passes the filter. */
  lemma {:induction false} PageParagraphsSound(blocks: seq<string>, page: int)
    ensures forall q :: q in PageParagraphs(blocks, page) ==>
      q.page == page && Qualifies(q.text) && IsTrimmedBlock(q.text, blocks)
  {
    if blocks != [] {
      var init := blocks[..|blocks| - 1];
      PageParagraphsSound(init, page);
      forall q | q in PageParagraphs(init, page)
        ensures IsTrimmedBlock(q.text, blocks)
      {
        var j :| 0 <= j < |init| && q.text == Trim(init[j]);
        assert blocks[j] == init[j];
      }
    }
  }

  /** Every block of a page that passes the filter once trimmed is one of the page's paragraphs. */
  lemma {:induction false} PageParagraphsComplete(blocks: seq<string>, page: int)
    ensures forall j :: 0 <= j < |blocks| && Qualifies(Trim(blocks[j])) ==>
      Paragraph(Trim(blocks[j]), page) in PageParagraphs(blocks, page)
  {
    if blocks != [] {
      var init := blocks[..|blocks| - 1];
      PageParagraphsComplete(init, page);
      forall j | 0 <= j < |init|
        ensures Trim(blocks[j]) == Trim(init[j])
      {
      }
    }
  }

  /**
   * Filter soundness: every extracted paragraph is a trimmed block of its own
   * page, longer than 50 characters and not a footer; its page is at least 1.
   */
  lemma {:induction false} ParagraphsSound(pages: seq<seq<string>>)
    ensures forall q :: q in Paragraphs(pages) ==>
      1 <= q.page <= |pages| && Qualifies(q.text) && IsTrimmedBlock(q.text, pages[q.page - 1])
  {
    if pages != [] {
      var n := |pages|;
      var init := pages[..n - 1];
      ParagraphsSound(init);
      PageParagraphsSound(pages[n - 1], n);
      assert Paragraphs(pages) == Paragraphs(init) + PageParagraphs(pages[n - 1], n);
      forall q | q in Paragraphs(init)
        ensures IsTrimmedBlock(q.text, pages[q.page - 1])
      {
        assert init[q.page - 1] == pages[q.page - 1];
      }
    }
  }

  /** The page numbers never decrease along `ps`. */
  predicate InPageOrder(ps: seq<Paragraph>) {
    forall i, j :: 0 <= i <= j < |ps| ==> ps[i].page <= ps[j].page
  }

  /** Paragraphs come in page order. */
  lemma {:induction false} ParagraphsInPageOrder(pages: seq<seq<string>>)
    ensures InPageOrder(Paragraphs(pages))
  {
    if pages != [] {
      var init := pages[..|pages| - 1];
      var front, back := Paragraphs(init), PageParagraphs(pages[|pages| - 1], |pages|);
      ParagraphsInPageOrder(init);
      ParagraphsSound(init);
      PageParagraphsSound(pages[|pages| - 1], |pages|);
      var ps := front + back;
      assert Paragraphs(pages) == ps;
      forall i, j | 0 <= i <= j < |ps|
        ensures ps[i].page <= ps[j].page
      {
        if j >= |front| {
          assert ps[j] == back[j - |front|] && back[j - |front|] in back;
          assert back[j - |front|].page == |pages|;
          if i < |front| {
            assert ps[i] == front[i] && front[i] in front;
            assert front[i].page <= |init|;
          } else {
            assert ps[i] == back[i - |front|] && back[i - |front|] in back;
          }
        } else {
          assert ps[i] == front[i] && ps[j] == front[j];
        }
      }
    }
  }

  lemma {:induction false} OnPageAppend(a: seq<Paragraph>, b: seq<Paragraph>, page: int)
    ensures OnPage(a + b, page) == OnPage(a, page) + OnPage(b, page)
    decreases |b|
  {
    if b == [] {
      assert a + b == a;
    } else {
      var b' := b[..|b| - 1];
      assert (a + b)[..|a + b| - 1] == a + b';
      OnPageAppend(a, b', page);
    }
  }

  lemma {:induction false} OnPageAll(ps: seq<Paragraph>, page: int)
    requires forall q :: q in ps ==> q.page == page
    ensures OnPage(ps, page) == ps
  {
    if ps != [] {
      OnPageAll(ps[..|ps| - 1], page);
    }
  }

  lemma {:induction false} OnPageNone(ps: seq<Paragraph>, page: int)
    requires forall q :: q in ps ==> q.page != page
    ensures OnPage(ps, page) == []
  {
    if ps != [] {
      OnPageNone(ps[..|ps| - 1], page);
    }
  }

  /**
   * The paragraphs tagged with page p are exactly the filtered blocks of the
   * p-th page, in block order: nothing is lost, invented or moved between pages.
   */
  lemma {:induction false} ParagraphsOfPage(pages: seq<seq<string>>, p: int)
    requires 1 <= p <= |pages|
    ensures OnPage(Paragraphs(pages), p) == PageParagraphs(pages[p - 1], p)
  {
    var n := |pages|;
    var init := pages[..n - 1];
    var back := PageParagraphs(pages[n - 1], n);
    assert Paragraphs(pages) == Paragraphs(init) + back;
    OnPageAppend(Paragraphs(init), back, p);
    PageParagraphsSound(pages[n - 1], n);
    if p == n {
      ParagraphsSound(init);
      OnPageNone(Paragraphs(init), p);
      OnPageAll(back, p);
    } else {
      ParagraphsOfPage(init, p);
      assert init[p - 1] == pages[p - 1];
      OnPageNone(back, p);
    }
  }

  /** Filter completeness: every block that qualifies once trimmed is extracted, tagged with its page. */
  lemma ParagraphsComplete(pages: seq<seq<string>>)
    ensures forall p, j :: 0 <= p < |pages| && 0 <= j < |pages[p]| && Qualifies(Trim(pages[p][j])) ==>
      Paragraph(Trim(pages[p][j]), p + 1) in Paragraphs(pages)
  {
    forall p, j | 0 <= p < |pages| && 0 <= j < |pages[p]| && Qualifies(Trim(pages[p][j]))
      ensures Paragraph(Trim(pages[p][j]), p + 1) in Paragraphs(pages)
    {
      PageParagraphsComplete(pages[p], p + 1);
      ParagraphsOfPage(pages, p + 1);
      OnPageSub(Paragraphs(pages), p + 1);
    }
  }

  lemma {:induction false} OnPageOf(ps: seq<Paragraph>, i: int)
    requires 0 <= i < |ps|
    ensures ps[i] in OnPage(ps, ps[i].page)
  {
    if i < |ps| - 1 {
      OnPageOf(ps[..|ps| - 1], i);
    }
  }

  lemma {:induction false} OnPageSub(ps: seq<Paragraph>, page: int)
    ensures forall q :: q in OnPage(ps, page) ==> q in ps
  {
    if ps != [] {
      OnPageSub(ps[..|ps| - 1], page);
    }
  }
}
