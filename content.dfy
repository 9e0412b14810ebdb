/**
 * The per-entry decisions of the walk: which handler an entry goes to,
 * whether an HTML file is an article, and which serialisation of a parsed
 * page becomes its fragment.
 */
module Content {
  import opened Results
  import opened Strings
  import opened Paths

  /** The three handlers contentFileHandler chooses between. */
  datatype Handler = MirrorDirectory | TransformHtml | CopyRaw

  const HtmlExt := ".html"

  /**
   * contentFileHandler's dispatch: directories are mirrored, files whose
   * extension is exactly ".html" are transformed, every other file is
   * copied byte for byte.
   */
  function Dispatch(isDir: bool, path: string): (h: Handler)
    ensures h == MirrorDirectory <==> isDir
    ensures h == TransformHtml <==> !isDir && HasSuffix(path, ".html")
    ensures h == CopyRaw <==> !isDir && !HasSuffix(path, ".html")
  {
    ExtIsHtmlIff(path);
    if isDir then MirrorDirectory
    else if Ext(path) == HtmlExt then TransformHtml
    else CopyRaw
  }

  /** An upper-case extension is not the HTML extension. */
  lemma UpperCaseHtmlIsCopied()
    ensures Dispatch(false, "content/page.HTML") == CopyRaw
    ensures Dispatch(false, "content/page.html") == TransformHtml
  {
    assert "content/page.HTML"[12..] != ".html" by {
      assert "content/page.HTML"[13] == 'H';
    }
    assert "content/page.html"[12..] == ".html";
  }

  const ArticlesWord := "articles"
  const IndexName := "index.html"

  /**
   * The article test of handleHtmlFile: the content path contains
   * "articles" anywhere, and its base name is "index.html".
   */
  function IsArticle(path: string): (b: bool)
    ensures b <==> (exists j :: OccursAt(path, ArticlesWord, j)) &&
                   (var t := TrimTrailingSlashes(path); t == IndexName || HasSuffix(t, "/" + IndexName))
  {
    BaseIsIff(path, IndexName);
    Contains(path, ArticlesWord) && Base(path) == IndexName
  }

  /** The substring test also accepts a directory name that merely contains the word. */
  lemma SubstringDetection()
    ensures IsArticle("myarticles/index.html")
  {
    var p := "myarticles/index.html";
    assert OccursAt(p, ArticlesWord, 2) by {
      assert p[2..10] == [p[2], p[3], p[4], p[5], p[6], p[7], p[8], p[9]];
    }
    assert TrimTrailingSlashes(p) == p by { assert p[|p| - 1] == 'l'; }
    assert HasSuffix(p, "/" + IndexName) by { assert p[|p| - 11..] == "/index.html"; }
  }

  /** A page under an articles directory whose name is not index.html is not an article. */
  lemma OtherPageNotArticle()
    ensures !IsArticle("content/articles/post/about.html")
  {
    var q := "content/articles/post/about.html";
    assert TrimTrailingSlashes(q) == q by { assert q[|q| - 1] == 'l'; }
    assert !HasSuffix(q, "/" + IndexName) by { assert q[|q| - 10] == 'a'; }
    assert q != IndexName;
  }

  /**
   * The fragment of a parsed source page: the inner HTML of its body when
   * that serialises without error and is non-empty, otherwise the whole
   * document's serialisation (or the error serialising it gives).
   */
  function ExtractFragment(body: Result<string, string>, document: Result<string, string>): (r: Result<string, string>)
    ensures r == body || r == document
    ensures body.Ok? && body.value != "" ==> r == body
    ensures r.Err? ==> document.Err? && r == document
    ensures r.Ok? && r.value == "" ==> r == document
    ensures document.Ok? && document.value != "" ==> r.Ok? && r.value != ""
  {
    if body.Ok? && body.value != "" then body else document
  }
}
