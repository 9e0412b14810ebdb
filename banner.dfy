/**
 * The article-info banner that addMetadataToArticle puts in front of an
 * article's fragment, and the `%d` formatting of Go's fmt package it uses.
 */
module Banner {
  import opened Results
  import opened Strings

  /** articleInfo, as decoded from an article's metadata.json. */
  datatype ArticleInfo = ArticleInfo(releaseDate: string, wordCount: int, estimatedTime: int)

  /** Decimal digits of `n`, most significant first, with no leading zero. */
  function NatToString(n: nat): (s: string)
    ensures |s| >= 1 && AllDigits(s)
    ensures s[0] == '0' ==> n == 0
    decreases n
  {
    if n < 10 then [DigitChar(n)] else NatToString(n / 10) + [DigitChar(n % 10)]
  }

  /** `%d` of a Go int: a leading '-' for negative values, then the digits of the magnitude. */
  function IntToString(n: int): (s: string)
    ensures ' ' !in s
  {
    if n < 0 then "-" + NatToString(-n) else NatToString(n)
  }

  /** Reads back what IntToString writes. */
  function ParseInt(s: string): Option<int>
  {
    if s != [] && s[0] == '-' && s[1..] != [] && AllDigits(s[1..]) then Some(0 - DecimalValue(s[1..]) as int)
    else if s != [] && AllDigits(s) then Some(DecimalValue(s))
    else None
  }

  lemma {:induction false} NatToStringValue(n: nat)
    ensures DecimalValue(NatToString(n)) == n
    decreases n
  {
    if n >= 10 {
      var s := NatToString(n);
      assert s[..|s| - 1] == NatToString(n / 10);
      NatToStringValue(n / 10);
    }
  }

  /** `%d` output determines the number: formatting then reading back gives the number. */
  lemma IntToStringRoundTrip(n: int)
    ensures ParseInt(IntToString(n)) == Some(n)
  {
    var s := IntToString(n);
    if n < 0 {
      var t := NatToString(-n);
      NatToStringValue(-n);
      assert s[0] == '-' && s[1..] == t;
      assert ParseInt(s) == Some(0 - DecimalValue(t) as int);
    } else {
      NatToStringValue(n);
      assert s[0] != '-';
      assert ParseInt(s) == Some(DecimalValue(s) as int);
    }
  }

  lemma IntToStringInjective(a: int, b: int)
    requires IntToString(a) == IntToString(b)
    ensures a == b
  {
    IntToStringRoundTrip(a);
    IntToStringRoundTrip(b);
  }

  const InfoOpen := "<div class=\"article-info\"><p>"
  const InfoClose := "</p></div>"

  /** "<date> • <n> words • <m> minutes" */
  function BannerText(m: ArticleInfo): string
  {
    m.releaseDate + " • " + IntToString(m.wordCount) + " words • " + IntToString(m.estimatedTime) + " minutes"
  }

  /** The banner paragraph wrapped in its article-info container. */
  function BannerTag(m: ArticleInfo): string
  {
    InfoOpen + BannerText(m) + InfoClose
  }

  /**
   * addMetadataToArticle: the banner tag followed by the untouched fragment.
   */
  function AddMetadataToArticle(m: ArticleInfo, html: string): (r: string)
    ensures |r| == |BannerTag(m)| + |html|
    ensures HasPrefix(r, BannerTag(m)) && HasSuffix(r, html)
  {
    BannerTag(m) + html
  }

  lemma Assoc(a: string, b: string, c: string)
    ensures a + b + c == a + (b + c)
  {
  }

  /** The banner-prefixed page as a right-nested concatenation, one field at a time. */
  lemma PageShape(m: ArticleInfo, h: string)
    ensures AddMetadataToArticle(m, h) ==
              InfoOpen + (m.releaseDate + (" • " + (IntToString(m.wordCount) + (" words • " +
                (IntToString(m.estimatedTime) + (" minutes" + InfoClose + h))))))
  {
    var d, w, e := m.releaseDate, IntToString(m.wordCount), IntToString(m.estimatedTime);
    var tail := " minutes" + InfoClose + h;
    calc {
      AddMetadataToArticle(m, h);
      InfoOpen + BannerText(m) + InfoClose + h;
      { Assoc(InfoOpen + BannerText(m), InfoClose, h); }
      InfoOpen + BannerText(m) + (InfoClose + h);
      { Assoc(InfoOpen, BannerText(m), InfoClose + h); }
      InfoOpen + (BannerText(m) + (InfoClose + h));
      { Assoc(d + " • " + w + " words • " + e, " minutes", InfoClose + h);
        Assoc(" minutes", InfoClose, h); }
      InfoOpen + (d + " • " + w + " words • " + e + tail);
      { Assoc(d + " • " + w + " words • ", e, tail); }
      InfoOpen + (d + " • " + w + " words • " + (e + tail));
      { Assoc(d + " • " + w, " words • ", e + tail); }
      InfoOpen + (d + " • " + w + (" words • " + (e + tail)));
      { Assoc(d + " • ", w, " words • " + (e + tail)); }
      InfoOpen + (d + " • " + (w + (" words • " + (e + tail))));
      { Assoc(d, " • ", w + (" words • " + (e + tail))); }
      InfoOpen + (d + (" • " + (w + (" words • " + (e + tail)))));
    }
  }

  /**
   * The banner is unambiguous: when release dates contain no space, the
   * banner-prefixed page determines the metadata and the original fragment.
   */
  lemma {:induction false} BannerUnambiguous(m1: ArticleInfo, h1: string, m2: ArticleInfo, h2: string)
    requires ' ' !in m1.releaseDate && ' ' !in m2.releaseDate
    requires AddMetadataToArticle(m1, h1) == AddMetadataToArticle(m2, h2)
    ensures m1 == m2 && h1 == h2
  {
    var w1, e1 := IntToString(m1.wordCount), IntToString(m1.estimatedTime);
    var w2, e2 := IntToString(m2.wordCount), IntToString(m2.estimatedTime);
    var tail1 := " minutes" + InfoClose + h1;
    var tail2 := " minutes" + InfoClose + h2;
    var rest1 := " words • " + (e1 + tail1);
    var rest2 := " words • " + (e2 + tail2);
    var after1 := " • " + (w1 + rest1);
    var after2 := " • " + (w2 + rest2);
    PageShape(m1, h1);
    PageShape(m2, h2);
    DropPrefix(InfoOpen, m1.releaseDate + after1, m2.releaseDate + after2);
    SplitAtSpace(m1.releaseDate, after1, m2.releaseDate, after2);
    DropPrefix(" • ", w1 + rest1, w2 + rest2);
    SplitAtSpace(w1, rest1, w2, rest2);
    DropPrefix(" words • ", e1 + tail1, e2 + tail2);
    SplitAtSpace(e1, tail1, e2, tail2);
    DropPrefix(" minutes" + InfoClose, h1, h2);
    IntToStringInjective(m1.wordCount, m2.wordCount);
    IntToStringInjective(m1.estimatedTime, m2.estimatedTime);
  }

  lemma FormatExampleCounts()
    ensures IntToString(500) == "500" && IntToString(3) == "3"
  {
    assert NatToString(5) == "5";
    assert NatToString(50) == "50";
  }

  /** The metadata {2024-01-10, 500 words, 3 minutes} gives exactly this banner before the content. */
  lemma BannerExample(html: string)
    ensures AddMetadataToArticle(ArticleInfo("2024-01-10", 500, 3), html) ==
              "<div class=\"article-info\"><p>" + "2024-01-10 • 500 words • 3 minutes" + "</p></div>" + html
  {
    FormatExampleCounts();
    assert BannerText(ArticleInfo("2024-01-10", 500, 3)) == "2024-01-10 • 500 words • 3 minutes";
  }
}
