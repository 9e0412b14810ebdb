/**
 * The generator's run-time state: the content and target roots (read once
 * from the environment by the original) and the `articles` registry that
 * HTML handling appends to and the homepage phase sorts and reads.
 */
module Site {
  import opened Results
  import opened Paths
  import opened Dates
  import opened Banner
  import opened Content
  import opened HomePage

  /** The failures of the modelled handlers, with the text the original reports. */
  datatype Error =
    | ExtractFailed(cause: string)            // "Failed to extract HTML: ..."
    | MetadataFailed(cause: string)           // "Cannot add metadata: ..."
    | InvalidDate(path: string, date: string) // "Invalid date found in <path>: <date>"

  /** The file-system effect a handler asks for. */
  datatype Action =
    | MakeDir(dir: string)                    // os.MkdirAll of the mapped directory
    | WritePage(target: string, slot: string) // the template with `slot` in #content, written to `target`
    | CopyFile(source: string, target: string)

  class Generator {
    const contentDir: string
    const targetDir: string
    var articles: seq<Article>

    constructor (contentDir: string, targetDir: string)
      ensures this.contentDir == contentDir && this.targetDir == targetDir
      ensures articles == []
    {
      this.contentDir := contentDir;
      this.targetDir := targetDir;
      articles := [];
    }

    /** targetPathFromContentPath with this run's roots. */
    function TargetPath(path: string): string
    {
      TargetPathFromContentPath(contentDir, targetDir, path)
    }

    /**
     * handleHtmlFile after the template and the source page are parsed:
     * `body` and `document` are the two serialisations it may take the
     * fragment from, `metadata` what the article's metadata.json decodes to.
     * A non-article page is written with its fragment and the registry is
     * left alone; an article page with missing metadata or an invalid
     * release date fails with nothing registered and nothing written;
     * otherwise exactly one article is appended and the banner-prefixed
     * fragment is written.
     */
    method HandleHtmlFile(path: string, body: Result<string, string>, document: Result<string, string>,
                          metadata: Result<ArticleInfo, string>) returns (r: Result<Action, Error>)
      modifies this
      ensures ExtractFragment(body, document).Err? ==>
                r == Err(ExtractFailed(ExtractFragment(body, document).error)) && articles == old(articles)
      ensures ExtractFragment(body, document).Ok? && !IsArticle(path) ==>
                r == Ok(WritePage(TargetPath(path), ExtractFragment(body, document).value)) &&
                articles == old(articles)
      ensures ExtractFragment(body, document).Ok? && IsArticle(path) && metadata.Err? ==>
                r == Err(MetadataFailed(metadata.error)) && articles == old(articles)
      ensures ExtractFragment(body, document).Ok? && IsArticle(path) && metadata.Ok? &&
              ParseDate(metadata.value.releaseDate).None? ==>
                r == Err(InvalidDate(path, metadata.value.releaseDate)) && articles == old(articles)
      ensures ExtractFragment(body, document).Ok? && IsArticle(path) && metadata.Ok? &&
              ParseDate(metadata.value.releaseDate).Some? ==>
                var page := AddMetadataToArticle(metadata.value, ExtractFragment(body, document).value);
                r == Ok(WritePage(TargetPath(path), page)) &&
                articles == old(articles) + [Article(ParseDate(metadata.value.releaseDate).value, page,
                                                     ConvertArticlePathToUrl(path))]
    {
      var fragment := ExtractFragment(body, document);
      if fragment.Err? {
        return Err(ExtractFailed(fragment.error));
      }
      var html := fragment.value;
      if IsArticle(path) {
        if metadata.Err? {
          return Err(MetadataFailed(metadata.error));
        }
        html := AddMetadataToArticle(metadata.value, html);
        var releaseDate := ParseDate(metadata.value.releaseDate);
        if releaseDate.None? {
          return Err(InvalidDate(path, metadata.value.releaseDate));
        }
        var art := Article(releaseDate.value, html, ConvertArticlePathToUrl(path));
        articles := articles + [art];
      }
      r := Ok(WritePage(TargetPath(path), html));
    }

    /**
     * contentFileHandler for one walk entry: a directory becomes a mirrored
     * directory, an ".html" file goes through HandleHtmlFile, any other
     * file is copied to its mapped path. Only the HTML case can touch the
     * registry, exactly as HandleHtmlFile does.
     */
    method HandleEntry(path: string, isDir: bool, body: Result<string, string>, document: Result<string, string>,
                       metadata: Result<ArticleInfo, string>) returns (r: Result<Action, Error>)
      modifies this
      ensures Dispatch(isDir, path) == MirrorDirectory ==> r == Ok(MakeDir(TargetPath(path))) && articles == old(articles)
      ensures Dispatch(isDir, path) == CopyRaw ==> r == Ok(CopyFile(path, TargetPath(path))) && articles == old(articles)
      ensures Dispatch(isDir, path) == TransformHtml && ExtractFragment(body, document).Err? ==>
                r == Err(ExtractFailed(ExtractFragment(body, document).error)) && articles == old(articles)
      ensures Dispatch(isDir, path) == TransformHtml && ExtractFragment(body, document).Ok? && !IsArticle(path) ==>
                r == Ok(WritePage(TargetPath(path), ExtractFragment(body, document).value)) &&
                articles == old(articles)
      ensures Dispatch(isDir, path) == TransformHtml && ExtractFragment(body, document).Ok? && IsArticle(path) &&
              metadata.Err? ==>
                r == Err(MetadataFailed(metadata.error)) && articles == old(articles)
      ensures Dispatch(isDir, path) == TransformHtml && ExtractFragment(body, document).Ok? && IsArticle(path) &&
              metadata.Ok? && ParseDate(metadata.value.releaseDate).None? ==>
                r == Err(InvalidDate(path, metadata.value.releaseDate)) && articles == old(articles)
      ensures Dispatch(isDir, path) == TransformHtml && ExtractFragment(body, document).Ok? && IsArticle(path) &&
              metadata.Ok? && ParseDate(metadata.value.releaseDate).Some? ==>
                var page := AddMetadataToArticle(metadata.value, ExtractFragment(body, document).value);
                r == Ok(WritePage(TargetPath(path), page)) &&
                articles == old(articles) + [Article(ParseDate(metadata.value.releaseDate).value, page,
                                                     ConvertArticlePathToUrl(path))]
    {
      match Dispatch(isDir, path)
      case MirrorDirectory =>
        r := Ok(MakeDir(TargetPath(path)));
      case TransformHtml =>
        r := HandleHtmlFile(path, body, document, metadata);
      case CopyRaw =>
        r := Ok(CopyFile(path, TargetPath(path)));
    }

    /**
     * generateHomePage up to the template: sorts the registry in place,
     * newest first, then concatenates one preview block per article in the
     * sorted order.
     */
    method GenerateHomePage(rewrite: (string, string) -> string) returns (previews: string)
      modifies this
      ensures multiset(articles) == multiset(old(articles))
      ensures DescendingByDate(articles)
      ensures previews == Previews(articles, rewrite)
    {
      articles := SortByDateDescending(articles);
      previews := BuildPreviews(articles, rewrite);
    }
  }
}
