/**
 * generateHomePage's ordering and assembly: articles sorted newest first
 * and one preview block per article, concatenated in that order.
 */
module HomePage {
  import opened Dates

  /** article: a registered page with its release date, banner-prefixed content and canonical URL. */
  datatype Article = Article(date: Date, content: string, url: string)

  /** Release dates never increase from front to back. */
  predicate DescendingByDate(s: seq<Article>)
  {
    forall i, j :: 0 <= i < j < |s| ==> !After(s[j].date, s[i].date)
  }

  /** Placing `x` at `k`, after every article at least as recent and before an older one, keeps the order. */
  lemma InsertKeepsOrder(s: seq<Article>, x: Article, k: nat)
    requires DescendingByDate(s) && k <= |s|
    requires forall j :: 0 <= j < k ==> !After(x.date, s[j].date)
    requires k < |s| ==> After(x.date, s[k].date)
    ensures DescendingByDate(s[..k] + [x] + s[k..])
  {
    var r := s[..k] + [x] + s[k..];
    assert forall m :: 0 <= m < k ==> r[m] == s[m];
    assert r[k] == x;
    assert forall m :: k < m < |r| ==> r[m] == s[m - 1];
    forall i, j | 0 <= i < j < |r|
      ensures !After(r[j].date, r[i].date)
    {
      if i == k && j > k {
        assert !After(s[j - 1].date, s[k].date);
      }
    }
  }

  /** Inserts `x` after every article at least as recent and before every older one. */
  method InsertByDate(s: seq<Article>, x: Article) returns (r: seq<Article>)
    requires DescendingByDate(s)
    ensures DescendingByDate(r)
    ensures multiset(r) == multiset(s) + multiset{x}
  {
    var k := 0;
    while k < |s| && !After(x.date, s[k].date)
      invariant 0 <= k <= |s|
      invariant forall j :: 0 <= j < k ==> !After(x.date, s[j].date)
    {
      k := k + 1;
    }
    InsertKeepsOrder(s, x, k);
    r := s[..k] + [x] + s[k..];
    assert s[..k] + s[k..] == s;
  }

  /**
   * The reordering of `sort.Slice(articles, ... After ...)`: the result is a
   * permutation of the input and its dates never increase. The order among
   * articles with equal dates is not promised.
   */
  method SortByDateDescending(arts: seq<Article>) returns (r: seq<Article>)
    ensures multiset(r) == multiset(arts)
    ensures DescendingByDate(r)
  {
    r := [];
    var i := 0;
    while i < |arts|
      invariant 0 <= i <= |arts|
      invariant multiset(r) == multiset(arts[..i])
      invariant DescendingByDate(r)
    {
      assert arts[..i + 1] == arts[..i] + [arts[i]];
      r := InsertByDate(r, arts[i]);
      i := i + 1;
    }
    assert arts[..i] == arts;
  }

  const PreviewOpen := "<div class=\"article-preview\">"
  const PreviewClose := "</div>"

  /** One article's preview: its rewritten page in the preview container, then a newline. */
  function PreviewBlock(html: string): string
  {
    PreviewOpen + html + PreviewClose + "\n"
  }

  /**
   * The preview blocks of `arts` in order. `rewrite` stands for the
   * re-parse of the stored content with every h1 turned into a link to the
   * URL, serialised back to HTML.
   */
  function Previews(arts: seq<Article>, rewrite: (string, string) -> string): string
  {
    if arts == [] then ""
    else
      var a := arts[|arts| - 1];
      Previews(arts[..|arts| - 1], rewrite) + PreviewBlock(rewrite(a.content, a.url))
  }

  /** The loop over `articles` writing into a strings.Builder. */
  method BuildPreviews(arts: seq<Article>, rewrite: (string, string) -> string) returns (out: string)
    ensures out == Previews(arts, rewrite)
  {
    out := "";
    for i := 0 to |arts|
      invariant out == Previews(arts[..i], rewrite)
    {
      assert arts[..i + 1][..i] == arts[..i];
      out := out + PreviewBlock(rewrite(arts[i].content, arts[i].url));
    }
    assert arts[..|arts|] == arts;
  }

  /** The previews of two runs of articles are the previews of the first followed by those of the second. */
  lemma {:induction false} PreviewsAppend(a: seq<Article>, b: seq<Article>, rewrite: (string, string) -> string)
    ensures Previews(a + b, rewrite) == Previews(a, rewrite) + Previews(b, rewrite)
    decreases |b|
  {
    if b == [] {
      assert a + b == a;
    } else {
      var b', last := b[..|b| - 1], b[|b| - 1];
      var ab := a + b;
      assert ab[..|ab| - 1] == a + b' && ab[|ab| - 1] == last;
      assert Previews(ab, rewrite) == Previews(a + b', rewrite) + PreviewBlock(rewrite(last.content, last.url));
      assert Previews(b, rewrite) == Previews(b', rewrite) + PreviewBlock(rewrite(last.content, last.url));
      PreviewsAppend(a, b', rewrite);
    }
  }

  lemma SplitAt(s: seq<Article>, i: nat)
    requires i < |s|
    ensures s == s[..i] + [s[i]] + s[i + 1..]
  {
    assert s[..i + 1] == s[..i] + [s[i]];
    assert s == s[..i + 1] + s[i + 1..];
  }

  /** An article between two runs contributes its one block between theirs. */
  lemma PreviewsAround(pre: seq<Article>, a: Article, post: seq<Article>, rewrite: (string, string) -> string)
    ensures Previews(pre + [a] + post, rewrite) ==
              Previews(pre, rewrite) + PreviewBlock(rewrite(a.content, a.url)) + Previews(post, rewrite)
  {
    PreviewsAppend(pre + [a], post, rewrite);
    assert (pre + [a])[..|pre + [a]| - 1] == pre;
  }

  /**
   * Each article contributes exactly one block, at its own place: the
   * blocks of the articles before it, its block, then the blocks of the
   * articles after it.
   */
  lemma PreviewsAt(arts: seq<Article>, rewrite: (string, string) -> string, i: nat)
    requires i < |arts|
    ensures Previews(arts, rewrite) ==
              Previews(arts[..i], rewrite) + PreviewBlock(rewrite(arts[i].content, arts[i].url)) + Previews(arts[i + 1..], rewrite)
  {
    SplitAt(arts, i);
    PreviewsAround(arts[..i], arts[i], arts[i + 1..], rewrite);
  }

  /** The homepage example: of two articles, the later-dated one comes out first. */
  method SortExample(older: Article, newer: Article) returns (r: seq<Article>)
    requires After(newer.date, older.date)
    ensures r == [newer, older]
  {
    r := SortByDateDescending([older, newer]);
    assert multiset(r) == multiset{older, newer};
    assert |r| == 2;
    assert r[0] in multiset(r) && r[1] in multiset(r);
    assert !After(r[1].date, r[0].date);
  }
}
