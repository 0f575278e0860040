/**
 `ArticleHistory` of article_history.go: one stored revision of an article.
 Its only logic is the search key, rendered from the article identifier and
 the revision's version exactly as the article renders its own.
 */
module History {
  import opened Wrappers
  import Format
  import Articles

  /** A revision; `createdAt` stands for the creation time, which no operation here reads. */
  datatype ArticleHistory = ArticleHistory(articleID: nat, version: nat, desc: string, content: string, createdAt: int)
  {
    /** The search key `"%d.%d"` of article identifier and version. */
    function GetIndexID(): (key: string)
      ensures Format.ParseIndexID(key) == Some((articleID, version))
      ensures multiset(key)['.'] == 1
      ensures forall i :: 0 <= i < |key| && key[i] != '.' ==> Format.IsDigit(key[i])
    {
      Format.IndexIDRoundTrip(articleID, version);
      Format.IndexIDShape(articleID, version);
      Format.IndexID(articleID, version)
    }
  }

  /** Revisions with different (article, version) pairs never share a key. */
  lemma HistoryKeysDistinct(h1: ArticleHistory, h2: ArticleHistory)
    requires h1.GetIndexID() == h2.GetIndexID()
    ensures h1.articleID == h2.articleID && h1.version == h2.version
  {
    Format.IndexIDInjective(h1.articleID, h1.version, h2.articleID, h2.version);
  }

  /** The key reads only the article identifier and the version: description, content and time play no part. */
  lemma HistoryKeyIgnoresText(h: ArticleHistory, desc: string, content: string, createdAt: int)
    ensures h.(desc := desc, content := content, createdAt := createdAt).GetIndexID() == h.GetIndexID()
  {
  }

  /** A revision shares its search key with the article at the same identifier and version. */
  lemma HistorySharesArticleKey(h: ArticleHistory, a: Articles.Article)
    ensures h.GetIndexID() == a.GetIndexID() <==> h.articleID == a.id && h.version == a.version
  {
    if h.GetIndexID() == a.GetIndexID() {
      Format.IndexIDInjective(h.articleID, h.version, a.id, a.version);
    }
  }
}
