/**
 * The knowledge-base tables of internal/models/kb.go: articles, their
 * drafts and sections. An article is edited through an unpublished draft,
 * which publishing copies into the article; the store is an object whose
 * article and draft tables the statements update in place.
 */
module KbStore {
  import opened Common

  /** The visibility values the site offers (util/variables.js). */
  const Public: string := "Public"
  const EvaluatorsOnly: string := "Evaluators Only"
  const AdminsOnly: string := "Admins Only"

  /** One row of `kb_section`. */
  datatype Section = Section(id: int, name: string, description: string, visibility: string)

  /** One row of `kb_article`; `updated` is article_last_updated. */
  datatype Article = Article(id: int, sectionId: int, title: string, content: string, authorId: int,
                             updated: int, visibility: string, published: bool)

  /** One row of `kb_article_draft`. */
  datatype Draft = Draft(id: int, articleId: int, title: string, content: string, authorId: int,
                         updated: int, published: bool)

  /**
   * The article and draft tables, keyed by their serial ids, with the next
   * value of each serial. The clock (time.Now) is a parameter of the
   * statements that stamp a row.
   */
  class KnowledgeBase {
    var articles: map<int, Article>
    var drafts: map<int, Draft>
    var nextArticleId: int
    var nextDraftId: int

    /** Keys are the rows' ids, issued by serials that start at 1 and are past every id they issued. */
    predicate Valid()
      reads this
    {
      1 <= nextArticleId && 1 <= nextDraftId
      && (forall k :: k in articles ==> articles[k].id == k && 1 <= k < nextArticleId)
      && (forall k :: k in drafts ==> drafts[k].id == k && 1 <= k < nextDraftId)
    }

    /** Draft `k` is an unpublished draft of article `articleId`. */
    predicate PendingFor(articleId: int, k: int)
      reads this
    {
      k in drafts && !drafts[k].published && drafts[k].articleId == articleId
    }

    /** CheckKBArticleHasDraft: some unpublished draft of the article exists (COUNT(*) > 0). */
    predicate HasDraft(articleId: int)
      reads this
    {
      exists k :: k in drafts && PendingFor(articleId, k)
    }

    /** The article has at most one unpublished draft. */
    ghost predicate AtMostOneDraft(articleId: int)
      reads this
    {
      forall k1, k2 :: PendingFor(articleId, k1) && PendingFor(articleId, k2) ==> k1 == k2
    }

    /** Every article has at most one unpublished draft. */
    ghost predicate SingleDrafts()
      reads this
    {
      forall k1, k2 :: (k1 in drafts && k2 in drafts && !drafts[k1].published && !drafts[k2].published
                        && drafts[k1].articleId == drafts[k2].articleId) ==> k1 == k2
    }

    /** Empty tables; both serials start at 1. */
    constructor ()
      ensures Valid() && SingleDrafts()
      ensures articles == map[] && drafts == map[] && nextArticleId == 1 && nextDraftId == 1
    {
      articles := map[];
      drafts := map[];
      nextArticleId := 1;
      nextDraftId := 1;
    }

    /**
     * CreateKBArticle: an unpublished article with empty content, plus one
     * unpublished draft that holds the title and content.
     */
    method CreateArticle(sectionId: int, title: string, content: string, visibility: string,
                         authorId: int, now: int) returns (id: int)
      requires Valid()
      modifies this
      ensures Valid()
      ensures id == old(nextArticleId) && id !in old(articles)
      ensures articles == old(articles)[id := Article(id, sectionId, title, "", authorId, now, visibility, false)]
      ensures drafts == old(drafts)[old(nextDraftId) := Draft(old(nextDraftId), id, title, content, authorId, now, false)]
      ensures nextArticleId == old(nextArticleId) + 1 && nextDraftId == old(nextDraftId) + 1
      ensures HasDraft(id)
      ensures !old(HasDraft(nextArticleId)) ==> AtMostOneDraft(id)
      ensures old(SingleDrafts()) && !old(HasDraft(nextArticleId)) ==> SingleDrafts()
    {
      id := nextArticleId;
      var d := nextDraftId;
      articles := articles[id := Article(id, sectionId, title, "", authorId, now, visibility, false)];
      drafts := drafts[d := Draft(d, id, title, content, authorId, now, false)];
      nextArticleId := nextArticleId + 1;
      nextDraftId := nextDraftId + 1;
      assert PendingFor(id, d);
    }

    /**
     * EditKBArticle: the edit goes to the article's unpublished draft,
     * which is updated when there is one and inserted otherwise. The
     * article row itself does not change.
     */
    method EditArticle(articleId: int, title: string, content: string, authorId: int, now: int)
      requires Valid()
      modifies this
      ensures Valid()
      ensures articles == old(articles) && nextArticleId == old(nextArticleId)
      ensures old(HasDraft(articleId)) ==>
                nextDraftId == old(nextDraftId)
                && exists k :: old(PendingFor(articleId, k))
                               && drafts == old(drafts)[k := old(drafts)[k].(title := title, content := content,
                                                                             authorId := authorId, updated := now)]
      ensures !old(HasDraft(articleId)) ==>
                nextDraftId == old(nextDraftId) + 1
                && drafts == old(drafts)[old(nextDraftId) := Draft(old(nextDraftId), articleId, title, content,
                                                                   authorId, now, false)]
      ensures exists k :: PendingFor(articleId, k) && drafts[k].title == title && drafts[k].content == content
                          && drafts[k].authorId == authorId
      ensures old(AtMostOneDraft(articleId)) ==> AtMostOneDraft(articleId)
      ensures old(SingleDrafts()) ==> SingleDrafts()
    {
      if k :| k in drafts && PendingFor(articleId, k) {
        drafts := drafts[k := drafts[k].(title := title, content := content, authorId := authorId, updated := now)];
        assert forall j :: PendingFor(articleId, j) <==> old(PendingFor(articleId, j));
        assert PendingFor(articleId, k);
      } else {
        var d := nextDraftId;
        drafts := drafts[d := Draft(d, articleId, title, content, authorId, now, false)];
        nextDraftId := nextDraftId + 1;
        assert PendingFor(articleId, d);
      }
    }

    /**
     * PublishKBArticle: NotFound, changing nothing, when the article has no
     * unpublished draft; otherwise the draft's title, content and author
     * are copied into the article, which is stamped and published, and the
     * draft is marked published.
     */
    method PublishArticle(articleId: int, now: int) returns (err: Option<ErrorKind>)
      requires Valid()
      modifies this
      ensures Valid()
      ensures nextArticleId == old(nextArticleId) && nextDraftId == old(nextDraftId)
      ensures err.Some? <==> !old(HasDraft(articleId))
      ensures err.Some? ==> err.value == NotFound && articles == old(articles) && drafts == old(drafts)
      ensures err.None? ==>
                exists k :: old(PendingFor(articleId, k))
                  && drafts == old(drafts)[k := old(drafts)[k].(published := true)]
                  && articles == (if articleId in old(articles)
                                  then old(articles)[articleId := old(articles)[articleId].(
                                         title := old(drafts)[k].title, content := old(drafts)[k].content,
                                         authorId := old(drafts)[k].authorId, updated := now, published := true)]
                                  else old(articles))
      ensures old(AtMostOneDraft(articleId)) ==> !HasDraft(articleId)
      ensures old(SingleDrafts()) ==> SingleDrafts()
    {
      if k :| k in drafts && PendingFor(articleId, k) {
        var d := drafts[k];
        if articleId in articles {
          articles := articles[articleId := articles[articleId].(
            title := d.title, content := d.content, authorId := d.authorId, updated := now, published := true)];
        }
        drafts := drafts[k := d.(published := true)];
        assert forall j :: PendingFor(articleId, j) ==> j != k && old(PendingFor(articleId, j));
        err := None;
      } else {
        err := Some(NotFound);
      }
    }

    /** UnpublishKBArticle: only is_published changes, and only on that article. */
    method UnpublishArticle(articleId: int)
      requires Valid()
      modifies this
      ensures Valid()
      ensures drafts == old(drafts) && nextArticleId == old(nextArticleId) && nextDraftId == old(nextDraftId)
      ensures articles.Keys == old(articles).Keys
      ensures forall k :: k in articles ==>
                articles[k] == if k == articleId then old(articles)[k].(published := false) else old(articles)[k]
    {
      if articleId in articles {
        articles := articles[articleId := articles[articleId].(published := false)];
      }
    }

    /** EditKBArticleProperties: only the visibility and the section change, and only on that article. */
    method EditArticleProperties(articleId: int, visibility: string, sectionId: int)
      requires Valid()
      modifies this
      ensures Valid()
      ensures drafts == old(drafts) && nextArticleId == old(nextArticleId) && nextDraftId == old(nextDraftId)
      ensures articles.Keys == old(articles).Keys
      ensures forall k :: k in articles ==>
                articles[k] == if k == articleId
                               then old(articles)[k].(visibility := visibility, sectionId := sectionId)
                               else old(articles)[k]
    {
      if articleId in articles {
        articles := articles[articleId := articles[articleId].(visibility := visibility, sectionId := sectionId)];
      }
    }

    /**
     * GetKBArticleDraftByArticleId: the unpublished draft of the article
     * with the highest draft id, none when it has no unpublished draft.
     */
    method LatestDraft(articleId: int) returns (d: Option<Draft>)
      requires Valid()
      ensures d.None? <==> !HasDraft(articleId)
      ensures d.Some? ==> PendingFor(articleId, d.value.id) && drafts[d.value.id] == d.value
      ensures d.Some? ==> forall k :: PendingFor(articleId, k) ==> k <= d.value.id
    {
      var id := nextDraftId - 1;
      while id >= 1
        invariant id < nextDraftId
        invariant forall k :: id < k && PendingFor(articleId, k) ==> false
      {
        if id in drafts && PendingFor(articleId, id) {
          return Some(drafts[id]);
        }
        id := id - 1;
      }
      return None;
    }
  }

  /** Whether article `a` of section `sectionId` passes the public list's WHERE clause. */
  predicate PublicListed(a: Article, sectionId: int) {
    a.sectionId == sectionId && a.visibility == Public && a.published
  }

  /** Whether article `a` of section `sectionId` passes the evaluator list's WHERE clause. */
  predicate EvaluatorListed(a: Article, sectionId: int) {
    a.sectionId == sectionId && (a.visibility == Public || a.visibility == EvaluatorsOnly) && a.published
  }

  /** GetPublicKBArticlesBySection, as the set of rows it returns. */
  function PublicArticlesBySection(articles: map<int, Article>, sectionId: int): set<Article> {
    set k | k in articles && PublicListed(articles[k], sectionId) :: articles[k]
  }

  /** GetEvaluatorKBArticlesBySection, as the set of rows it returns. */
  function EvaluatorArticlesBySection(articles: map<int, Article>, sectionId: int): set<Article> {
    set k | k in articles && EvaluatorListed(articles[k], sectionId) :: articles[k]
  }

  /** GetAdminKBArticlesBySection as intended: every article of the section, published or not. */
  function AdminArticlesBySection(articles: map<int, Article>, sectionId: int): set<Article> {
    set k | k in articles && articles[k].sectionId == sectionId :: articles[k]
  }

  /**
   * GetAdminKBArticlesBySection as written: the section id is bound to the
   * placeholder that also carries the date format, so one parameter would
   * have to be both text and an integer and the query fails.
   */
  function AdminArticlesBySectionAsWritten(articles: map<int, Article>, sectionId: int): Result<set<Article>> {
    Err(Internal)
  }

  /** The public list holds exactly the section's Public, published articles. */
  lemma PublicListIsPublished(articles: map<int, Article>, sectionId: int)
    ensures forall a :: a in PublicArticlesBySection(articles, sectionId) ==> a in articles.Values && PublicListed(a, sectionId)
    ensures forall k :: k in articles && PublicListed(articles[k], sectionId) ==> articles[k] in PublicArticlesBySection(articles, sectionId)
    ensures forall a :: a in PublicArticlesBySection(articles, sectionId) ==> a.visibility == Public && a.published
  {
  }

  /** The evaluator list holds exactly the section's published Public or Evaluators Only articles. */
  lemma EvaluatorListIsPublished(articles: map<int, Article>, sectionId: int)
    ensures forall a :: a in EvaluatorArticlesBySection(articles, sectionId) ==> a in articles.Values && EvaluatorListed(a, sectionId)
    ensures forall k :: k in articles && EvaluatorListed(articles[k], sectionId) ==> articles[k] in EvaluatorArticlesBySection(articles, sectionId)
    ensures forall a :: a in EvaluatorArticlesBySection(articles, sectionId) ==>
              a.published && (a.visibility == Public || a.visibility == EvaluatorsOnly)
  {
  }

  /** The three lists are nested: public within evaluator within admin; no Admins Only article reaches the first two. */
  lemma ArticleListsNested(articles: map<int, Article>, sectionId: int)
    ensures PublicArticlesBySection(articles, sectionId) <= EvaluatorArticlesBySection(articles, sectionId)
    ensures EvaluatorArticlesBySection(articles, sectionId) <= AdminArticlesBySection(articles, sectionId)
    ensures forall a :: a in EvaluatorArticlesBySection(articles, sectionId) ==> a.visibility != AdminsOnly && a.published
  {
  }

  /** As written, an admin's list of a section's articles is an error even when the section has articles. */
  lemma AdminListFails(articles: map<int, Article>, sectionId: int, k: int)
    requires k in articles && articles[k].sectionId == sectionId
    ensures AdminArticlesBySectionAsWritten(articles, sectionId).Err?
    ensures articles[k] in AdminArticlesBySection(articles, sectionId)
  {
  }

  /**
   * Publishing an article's pending draft and then editing the article
   * again stores the edit as a new draft under the next draft id, and every
   * article still has at most one pending draft.
   */
  method PublishThenEdit(kb: KnowledgeBase, articleId: int, title: string, content: string, authorId: int, now: int)
    requires kb.Valid() && kb.SingleDrafts() && kb.HasDraft(articleId)
    modifies kb
    ensures kb.Valid() && kb.SingleDrafts()
    ensures kb.drafts.Keys == old(kb.drafts.Keys) + {old(kb.nextDraftId)}
    ensures kb.PendingFor(articleId, old(kb.nextDraftId))
  {
    var err := kb.PublishArticle(articleId, now);
    assert !kb.HasDraft(articleId);
    kb.EditArticle(articleId, title, content, authorId, now);
    assert kb.PendingFor(articleId, old(kb.nextDraftId));
  }
}
