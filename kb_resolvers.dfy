/**
 * The knowledge-base resolvers of graph/resolvers/kb.resolvers.go: who may
 * see a section or an article, which list query each role gets, and the
 * article fields reserved for KB editors.
 */
module KbResolvers {
  import opened Common
  import opened Auth
  import opened KbStore

  /** May the caller see content of visibility `v` (the article test of Query.article)? */
  predicate ArticleVisibleTo(user: Option<User>, v: string) {
    v == Public || (v == EvaluatorsOnly && user.Some?) || (v == AdminsOnly && HasPermission(user, EditKbContent))
  }

  /**
   * Query.article: the lookup's error, else nil for an unpublished article
   * unless the caller edits KB content, else the article when its
   * visibility admits the caller, nil otherwise.
   */
  function ArticleQuery(user: Option<User>, lookup: Result<Article>): (r: Result<Option<Article>>)
    ensures lookup.Err? ==> r == Err(lookup.error)
  {
    match lookup
    case Err(e) => Err(e)
    case Ok(a) =>
      if !a.published && !HasPermission(user, EditKbContent) then Ok(None)
      else if ArticleVisibleTo(user, a.visibility) then Ok(Some(a))
      else Ok(None)
  }

  /**
   * An article reaches the caller exactly when it is published or the
   * caller edits KB content, and its visibility admits the caller.
   */
  lemma ArticleQueryGate(user: Option<User>, a: Article)
    ensures ArticleQuery(user, Ok(a)).Ok?
    ensures ArticleQuery(user, Ok(a)).value.Some? <==>
              (a.published || HasPermission(user, EditKbContent)) && ArticleVisibleTo(user, a.visibility)
    ensures ArticleQuery(user, Ok(a)).value.Some? ==> ArticleQuery(user, Ok(a)).value.value == a
  {
  }

  /** A visibility outside the three known values hides the article from everyone, admins included. */
  lemma UnknownVisibilityHidesArticle(user: Option<User>, a: Article)
    requires a.visibility != Public && a.visibility != EvaluatorsOnly && a.visibility != AdminsOnly
    ensures ArticleQuery(user, Ok(a)) == Ok(None)
  {
  }

  /** Anonymous callers get only published Public articles. */
  lemma AnonymousArticle(a: Article)
    ensures ArticleQuery(None, Ok(a)).value.Some? <==> a.published && a.visibility == Public
  {
  }

  /**
   * Query.section: the lookup's error, else the section for KB editors,
   * for anyone when Public, for any signed-in caller when Evaluators Only,
   * and nil otherwise.
   */
  function SectionQuery(user: Option<User>, lookup: Result<Section>): (r: Result<Option<Section>>)
    ensures lookup.Err? ==> r == Err(lookup.error)
  {
    match lookup
    case Err(e) => Err(e)
    case Ok(s) =>
      if HasPermission(user, EditKbContent) then Ok(Some(s))
      else if s.visibility == Public then Ok(Some(s))
      else if s.visibility == EvaluatorsOnly && user.Some? then Ok(Some(s))
      else Ok(None)
  }

  /** A KB editor sees every section; others see Public ones, and Evaluators Only ones once signed in. */
  lemma SectionQueryGate(user: Option<User>, s: Section)
    ensures SectionQuery(user, Ok(s)).Ok?
    ensures SectionQuery(user, Ok(s)).value.Some? <==>
              HasPermission(user, EditKbContent) || s.visibility == Public
              || (s.visibility == EvaluatorsOnly && user.Some?)
    ensures SectionQuery(user, Ok(s)).value.Some? ==> SectionQuery(user, Ok(s)).value.value == s
  {
  }

  /** Signing in or gaining permissions never hides a section or an article. */
  lemma QueriesMonotone(user: Option<User>, more: User, s: Section, a: Article)
    requires user.Some? ==> (user.value.isAdmin ==> more.isAdmin) && user.value.perms <= more.perms
    ensures SectionQuery(user, Ok(s)).value.Some? ==> SectionQuery(Some(more), Ok(s)).value.Some?
    ensures ArticleQuery(user, Ok(a)).value.Some? ==> ArticleQuery(Some(more), Ok(a)).value.Some?
  {
  }

  /** The rows of `kb_section` (kept in section_id order) whose visibility passes `keep`. */
  function SectionsWhere(sections: seq<Section>, keep: string -> bool): (r: seq<Section>)
    ensures |r| <= |sections|
    ensures forall x :: x in r ==> x in sections && keep(x.visibility)
  {
    if |sections| == 0 then []
    else SectionsWhere(sections[..|sections| - 1], keep)
         + (if keep(sections[|sections| - 1].visibility) then [sections[|sections| - 1]] else [])
  }

  /** Every row that passes the filter is listed. */
  lemma {:induction false} SectionsWhereComplete(sections: seq<Section>, keep: string -> bool)
    ensures forall i :: 0 <= i < |sections| && keep(sections[i].visibility) ==> sections[i] in SectionsWhere(sections, keep)
  {
    if |sections| > 0 {
      var p := sections[..|sections| - 1];
      SectionsWhereComplete(p, keep);
      assert forall i :: 0 <= i < |p| ==> p[i] == sections[i];
    }
  }

  /** GetPublicKBSections. */
  function PublicSections(sections: seq<Section>): seq<Section> {
    SectionsWhere(sections, v => v == Public)
  }

  /** GetEvaluatorKBSections. */
  function EvaluatorSections(sections: seq<Section>): seq<Section> {
    SectionsWhere(sections, v => v == EvaluatorsOnly || v == Public)
  }

  /**
   * Query.sections: the public list for anonymous callers, every section
   * for admins, the evaluator list for other signed-in callers. A failed
   * query gives an empty list and no error.
   */
  function SectionsQuery(user: Option<User>, table: Result<seq<Section>>): (r: seq<Section>)
    ensures table.Err? ==> r == []
  {
    match table
    case Err(_) => []
    case Ok(sections) =>
      if user.None? then PublicSections(sections)
      else if user.value.isAdmin then sections
      else EvaluatorSections(sections)
  }

  /**
   * Which sections each role is listed: anonymous callers only Public ones,
   * signed-in non-admins Public and Evaluators Only ones, admins all; and
   * every section of its role's visibility is listed.
   */
  lemma SectionsByRole(user: Option<User>, sections: seq<Section>)
    ensures forall s :: s in SectionsQuery(user, Ok(sections)) ==> s in sections
    ensures user.None? ==> forall s :: s in SectionsQuery(user, Ok(sections)) ==> s.visibility == Public
    ensures user.Some? && !user.value.isAdmin ==>
              forall s :: s in SectionsQuery(user, Ok(sections)) ==> s.visibility == Public || s.visibility == EvaluatorsOnly
    ensures user.Some? && user.value.isAdmin ==> SectionsQuery(user, Ok(sections)) == sections
    ensures forall i :: 0 <= i < |sections| && (sections[i].visibility == Public
                                                || (user.Some? && sections[i].visibility == EvaluatorsOnly))
                        ==> sections[i] in SectionsQuery(user, Ok(sections))
  {
    SectionsWhereComplete(sections, v => v == Public);
    SectionsWhereComplete(sections, v => v == EvaluatorsOnly || v == Public);
  }

  /**
   * KBSection.articles, given the outcome of the admin list query: the
   * public list for anonymous callers, the admin list for admins, the
   * evaluator list otherwise. A failed query gives an empty list together
   * with its error.
   */
  function SectionArticlesFrom(user: Option<User>, articles: map<int, Article>, sectionId: int,
                               adminList: Result<set<Article>>): (r: (set<Article>, Option<ErrorKind>))
  {
    if user.None? then (PublicArticlesBySection(articles, sectionId), None)
    else if user.value.isAdmin then
      match adminList
      case Err(e) => ({}, Some(e))
      case Ok(list) => (list, None)
    else (EvaluatorArticlesBySection(articles, sectionId), None)
  }

  /** KBSection.articles as written, over the admin query of kb.go as it stands. */
  function SectionArticles(user: Option<User>, articles: map<int, Article>, sectionId: int): (r: (set<Article>, Option<ErrorKind>))
    ensures user.Some? && user.value.isAdmin ==> r == ({}, Some(Internal))
    ensures user.None? || !user.value.isAdmin ==> r.1.None?
  {
    SectionArticlesFrom(user, articles, sectionId, AdminArticlesBySectionAsWritten(articles, sectionId))
  }

  /**
   * As written, an anonymous caller gets the public list and a signed-in
   * non-admin the evaluator list, which contains it and holds only
   * published articles that are not Admins Only; every admin gets an empty
   * list and an internal error. With the admin query corrected, an admin
   * sees every article of the section, a superset of the evaluator list.
   */
  lemma SectionArticlesByRole(evaluator: User, admin: User, articles: map<int, Article>, sectionId: int)
    requires !evaluator.isAdmin && admin.isAdmin
    ensures SectionArticles(None, articles, sectionId) == (PublicArticlesBySection(articles, sectionId), None)
    ensures SectionArticles(Some(evaluator), articles, sectionId) == (EvaluatorArticlesBySection(articles, sectionId), None)
    ensures SectionArticles(None, articles, sectionId).0 <= SectionArticles(Some(evaluator), articles, sectionId).0
    ensures forall a :: a in SectionArticles(Some(evaluator), articles, sectionId).0 ==> a.published && a.visibility != AdminsOnly
    ensures SectionArticles(Some(admin), articles, sectionId) == ({}, Some(Internal))
    ensures var fixed := SectionArticlesFrom(Some(admin), articles, sectionId, Ok(AdminArticlesBySection(articles, sectionId)));
            fixed.1.None?
            && SectionArticles(Some(evaluator), articles, sectionId).0 <= fixed.0
            && forall k :: k in articles && articles[k].sectionId == sectionId ==> articles[k] in fixed.0
  {
    ArticleListsNested(articles, sectionId);
  }

  /** The editor-only fields of a KB article as one caller sees them. */
  datatype ArticleFields = ArticleFields(visibility: Option<string>, isPublished: Option<bool>,
                                         hasDraft: Option<bool>, draft: Option<Draft>, authorShown: bool)

  /**
   * KBArticle.visibility, .isPublished, .hasDraft and .draft: nil without
   * EditKbContent; the author is resolved only for signed-in callers.
   */
  function Fields(user: Option<User>, a: Article, hasDraft: bool, latestDraft: Option<Draft>): (f: ArticleFields)
  {
    var editor := HasPermission(user, EditKbContent);
    ArticleFields(if editor then Some(a.visibility) else None,
                  if editor then Some(a.published) else None,
                  if editor then Some(hasDraft) else None,
                  if editor then latestDraft else None,
                  user.Some?)
  }

  /** A caller without EditKbContent sees none of the editor fields; an editor sees them as stored. */
  lemma FieldsGate(user: Option<User>, a: Article, hasDraft: bool, latestDraft: Option<Draft>)
    ensures var f := Fields(user, a, hasDraft, latestDraft);
            !HasPermission(user, EditKbContent) ==>
              f.visibility.None? && f.isPublished.None? && f.hasDraft.None? && f.draft.None?
    ensures var f := Fields(user, a, hasDraft, latestDraft);
            HasPermission(user, EditKbContent) ==>
              f.visibility == Some(a.visibility) && f.isPublished == Some(a.published)
              && f.hasDraft == Some(hasDraft) && f.draft == latestDraft
    ensures Fields(user, a, hasDraft, latestDraft).authorShown <==> user.Some?
  {
  }

  /** KBSection.visibility: nil without EditKbContent. */
  function SectionVisibilityField(user: Option<User>, s: Section): (r: Option<string>)
    ensures r.Some? <==> HasPermission(user, EditKbContent)
    ensures r.Some? ==> r.value == s.visibility
  {
    if HasPermission(user, EditKbContent) then Some(s.visibility) else None
  }
}
