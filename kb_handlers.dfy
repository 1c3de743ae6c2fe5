/**
 * The REST handlers of handlers/api/knowledge-base.js: which sections and
 * articles each kind of caller receives, the 401/403 gates on the write
 * handlers, and what editArticle stores. The caller is the decoded session
 * token (None when logged out); a row the handler reads is passed in.
 */
module KbHandlers {
  import opened Common
  import opened Auth
  import opened KbStore
  import KbResolvers

  /** What a handler does with the request. */
  datatype Reply<T> =
    | Sent(body: T)          // response.json(...)
    | Refused(status: int)   // handleNext(next, status, ...)
    | Crashed                // a TypeError inside the query callback, outside the try block
    | Silent                 // no response at all

  /** The visibility string the handlers compare against for admin-only content. */
  const AdminOnlyAsWritten: string := "Admin Only"

  /** The is_admin flag of the token, false when logged out. */
  predicate TokenAdmin(token: Option<User>) {
    token.Some? && token.value.isAdmin
  }

  /** `permissions.p || is_admin` on a present token. */
  predicate TokenMay(token: Option<User>, p: Perm) {
    token.Some? && (p in token.value.perms || token.value.isAdmin)
  }

  // ---------------------------------------------------------------------
  // Sections
  // ---------------------------------------------------------------------

  /**
   * getAllSections: every section for admins, Public and Evaluators Only
   * sections for other logged-in callers, Public sections for anonymous
   * callers.
   */
  function GetAllSections(token: Option<User>, sections: seq<Section>): (r: seq<Section>)
  {
    if token.Some? && token.value.isAdmin then sections
    else if token.Some? then KbResolvers.SectionsWhere(sections, v => v == EvaluatorsOnly || v == Public)
    else KbResolvers.SectionsWhere(sections, v => v == Public)
  }

  /** Which sections getAllSections returns to each kind of caller, both ways. */
  lemma GetAllSectionsByRole(token: Option<User>, sections: seq<Section>)
    ensures forall s :: s in GetAllSections(token, sections) ==> s in sections
    ensures TokenAdmin(token) ==> GetAllSections(token, sections) == sections
    ensures !TokenAdmin(token) && token.Some? ==>
              forall i :: 0 <= i < |sections| ==>
                (sections[i] in GetAllSections(token, sections) <==>
                 sections[i].visibility == Public || sections[i].visibility == EvaluatorsOnly)
    ensures token.None? ==>
              forall i :: 0 <= i < |sections| ==>
                (sections[i] in GetAllSections(token, sections) <==> sections[i].visibility == Public)
  {
    KbResolvers.SectionsWhereComplete(sections, v => v == EvaluatorsOnly || v == Public);
    KbResolvers.SectionsWhereComplete(sections, v => v == Public);
  }

  /**
   * The visibility test of getSection and of the single-article fetch, as
   * written: the admin-only value it looks for is "Admin Only", which the
   * site never stores (it stores "Admins Only").
   */
  predicate DeniedAsWritten(token: Option<User>, visibility: string) {
    (visibility == AdminOnlyAsWritten && !TokenAdmin(token)) || (visibility == EvaluatorsOnly && token.None?)
  }

  /** The visibility test as intended, with the value the site stores. */
  predicate Denied(token: Option<User>, visibility: string) {
    (visibility == AdminsOnly && !TokenAdmin(token)) || (visibility == EvaluatorsOnly && token.None?)
  }

  /** getSection as written. */
  function GetSectionAsWritten(token: Option<User>, sectionId: int, row: Option<Section>): Reply<Section> {
    if sectionId <= 0 then Refused(400)
    else match row
      case None => Crashed
      case Some(s) => if DeniedAsWritten(token, s.visibility) then Refused(403) else Sent(s)
  }

  /**
   * getSection: 400 without a positive section id; otherwise the row, or
   * 403 for an Admins Only section and a non-admin caller, or an Evaluators
   * Only section and an anonymous caller. A missing row is not handled.
   */
  function GetSection(token: Option<User>, sectionId: int, row: Option<Section>): Reply<Section> {
    if sectionId <= 0 then Refused(400)
    else match row
      case None => Crashed
      case Some(s) => if Denied(token, s.visibility) then Refused(403) else Sent(s)
  }

  /** getSection refuses exactly the two intended cases, and sends the row otherwise. */
  lemma GetSectionGate(token: Option<User>, sectionId: int, s: Section)
    requires sectionId > 0
    ensures GetSection(token, sectionId, Some(s)) == Refused(403) <==>
              (s.visibility == AdminsOnly && !TokenAdmin(token)) || (s.visibility == EvaluatorsOnly && token.None?)
    ensures GetSection(token, sectionId, Some(s)) != Refused(403) ==> GetSection(token, sectionId, Some(s)) == Sent(s)
  {
  }

  /** As written, an Admins Only section goes to anyone, even a logged-out caller; the intended test refuses it. */
  lemma AdminsOnlySectionLeaks(s: Section, sectionId: int)
    requires sectionId > 0 && s.visibility == AdminsOnly
    ensures GetSectionAsWritten(None, sectionId, Some(s)) == Sent(s)
    ensures GetSection(None, sectionId, Some(s)) == Refused(403)
  {
  }

  /** The two tests differ only on the admin-only spellings. */
  lemma DeniedAgreesElsewhere(token: Option<User>, visibility: string)
    requires visibility != AdminsOnly && visibility != AdminOnlyAsWritten
    ensures DeniedAsWritten(token, visibility) == Denied(token, visibility)
  {
  }

  /** Whether a write handler lets the caller through (200), or answers 401 or 403. */
  function WriteGate(token: Option<User>, p: Perm): (s: Status)
    ensures s == Ok200 <==> TokenMay(token, p)
    ensures s == Unauthorized401 <==> token.None?
    ensures s != BadRequest400
  {
    if token.None? then Unauthorized401
    else if p in token.value.perms || token.value.isAdmin then Ok200
    else Forbidden403
  }

  /** addSection: needs edit_kb_content or admin; inserts a section with the next serial id. */
  function AddSection(token: Option<User>, sections: seq<Section>, nextId: int,
                      name: string, description: string, visibility: string): (seq<Section>, Status) {
    var gate := WriteGate(token, EditKbContent);
    if gate != Ok200 then (sections, gate)
    else (sections + [Section(nextId, name, description, visibility)], Ok200)
  }

  /** editSection: needs edit_kb_content or admin; rewrites the row with the id. */
  function EditSection(token: Option<User>, sections: seq<Section>, id: int,
                       name: string, description: string, visibility: string): (seq<Section>, Status) {
    var gate := WriteGate(token, EditKbContent);
    if gate != Ok200 then (sections, gate)
    else (seq(|sections|, i requires 0 <= i < |sections| =>
            if sections[i].id == id then Section(id, name, description, visibility) else sections[i]),
          Ok200)
  }

  /** deleteSection: needs delete_kb_content or admin; removes the rows with the id. */
  function DeleteSection(token: Option<User>, sections: seq<Section>, id: int): (seq<Section>, Status) {
    var gate := WriteGate(token, DeleteKbContent);
    if gate != Ok200 then (sections, gate)
    else (WithoutSection(sections, id), Ok200)
  }

  /** The table without the rows of section `id`. */
  function WithoutSection(sections: seq<Section>, id: int): seq<Section> {
    if |sections| == 0 then []
    else WithoutSection(sections[..|sections| - 1], id)
         + (if sections[|sections| - 1].id == id then [] else [sections[|sections| - 1]])
  }

  /** WithoutSection keeps exactly the other sections. */
  lemma {:induction false} WithoutSectionMembers(sections: seq<Section>, id: int)
    ensures forall s :: s in WithoutSection(sections, id) <==> s in sections && s.id != id
  {
    if |sections| > 0 {
      var p := sections[..|sections| - 1];
      WithoutSectionMembers(p, id);
      assert sections == p + [sections[|sections| - 1]];
    }
  }

  /**
   * The section writes: a logged-out caller gets 401 and a caller without
   * the permission 403, both leaving the table alone; otherwise the
   * insert, the rewrite or the delete happens.
   */
  lemma SectionWritesGated(token: Option<User>, sections: seq<Section>, id: int,
                           name: string, description: string, visibility: string)
    ensures var (t, st) := AddSection(token, sections, id, name, description, visibility);
            (st == Ok200 <==> TokenMay(token, EditKbContent))
            && (st != Ok200 ==> t == sections)
            && (st == Ok200 ==> t == sections + [Section(id, name, description, visibility)])
    ensures var (t, st) := EditSection(token, sections, id, name, description, visibility);
            (st == Ok200 <==> TokenMay(token, EditKbContent))
            && (st != Ok200 ==> t == sections)
            && (st == Ok200 ==> |t| == |sections|
                                && forall i :: 0 <= i < |t| ==>
                                     t[i] == if sections[i].id == id then Section(id, name, description, visibility)
                                             else sections[i])
    ensures var (t, st) := DeleteSection(token, sections, id);
            (st == Ok200 <==> TokenMay(token, DeleteKbContent))
            && (st == Unauthorized401 <==> token.None?)
            && (st != Ok200 ==> t == sections)
            && (st == Ok200 ==> forall s :: s in t <==> s in sections && s.id != id)
  {
    WithoutSectionMembers(sections, id);
  }

  // ---------------------------------------------------------------------
  // Articles
  // ---------------------------------------------------------------------

  /** The four tiers of getArticles for a section. */
  datatype Tier = AnonymousTier | ReaderTier | EditorTier | AdminTier

  /** Which tier a caller falls in: admins, then KB editors, then other logged-in callers, then everyone else. */
  function TierOf(token: Option<User>): Tier {
    if TokenAdmin(token) then AdminTier
    else if token.Some? && EditKbContent in token.value.perms then EditorTier
    else if token.Some? then ReaderTier
    else AnonymousTier
  }

  /** The WHERE clause of each tier's query. */
  predicate TierShows(t: Tier, a: Article, sectionId: int) {
    a.sectionId == sectionId
    && match t
       case AdminTier => true
       case EditorTier => a.visibility == Public || a.visibility == EvaluatorsOnly
       case ReaderTier => (a.visibility == Public || a.visibility == EvaluatorsOnly) && a.published
       case AnonymousTier => a.visibility == Public && a.published
  }

  /** getArticles for a section: the rows of the caller's tier (ordered by name in the source). */
  function SectionArticles(token: Option<User>, articles: map<int, Article>, sectionId: int): set<Article> {
    set k | k in articles && TierShows(TierOf(token), articles[k], sectionId) :: articles[k]
  }

  /**
   * The tiers: admins get every article of the section; editors the Public
   * and Evaluators Only ones, drafts included; other logged-in callers the
   * published Public and Evaluators Only ones; anonymous callers the
   * published Public ones.
   */
  lemma SectionArticleTiers(token: Option<User>, articles: map<int, Article>, sectionId: int)
    ensures forall k :: k in articles && articles[k].sectionId == sectionId ==>
              (articles[k] in SectionArticles(token, articles, sectionId) <==>
               match TierOf(token)
               case AdminTier => true
               case EditorTier => articles[k].visibility == Public || articles[k].visibility == EvaluatorsOnly
               case ReaderTier => (articles[k].visibility == Public || articles[k].visibility == EvaluatorsOnly)
                                  && articles[k].published
               case AnonymousTier => articles[k].visibility == Public && articles[k].published)
    ensures forall a :: a in SectionArticles(token, articles, sectionId) ==> a in articles.Values && a.sectionId == sectionId
    ensures !TokenAdmin(token) ==>
              forall a :: a in SectionArticles(token, articles, sectionId) ==> a.visibility != AdminsOnly
  {
  }

  /** Each tier sees at least what the tier below it sees. */
  lemma TiersNested(a: Article, sectionId: int)
    ensures TierShows(AnonymousTier, a, sectionId) ==> TierShows(ReaderTier, a, sectionId)
    ensures TierShows(ReaderTier, a, sectionId) ==> TierShows(EditorTier, a, sectionId)
    ensures TierShows(EditorTier, a, sectionId) ==> TierShows(AdminTier, a, sectionId)
  {
  }

  /**
   * getArticles with a section id takes precedence; with only an article id
   * it fetches that article; with neither it answers 400.
   */
  function GetArticle(token: Option<User>, articleId: int, row: Option<Article>): (r: Reply<Article>)
    ensures articleId <= 0 <==> r == Refused(400)
    ensures articleId > 0 && row.Some? ==>
              (r == Refused(403) <==> (row.value.visibility == AdminsOnly && !TokenAdmin(token))
                                      || (row.value.visibility == EvaluatorsOnly && token.None?))
    ensures articleId > 0 && row.Some? && r != Refused(403) ==> r == Sent(row.value)
  {
    if articleId <= 0 then Refused(400)
    else match row
      case None => Crashed
      case Some(a) => if Denied(token, a.visibility) then Refused(403) else Sent(a)
  }

  /** getArticles for one article as written, with the misspelt admin-only test. */
  function GetArticleAsWritten(token: Option<User>, articleId: int, row: Option<Article>): Reply<Article> {
    if articleId <= 0 then Refused(400)
    else match row
      case None => Crashed
      case Some(a) => if DeniedAsWritten(token, a.visibility) then Refused(403) else Sent(a)
  }

  /** The single-article fetch never looks at publication: an unpublished Public article goes to anyone. */
  lemma GetArticleIgnoresPublication(token: Option<User>, articleId: int, a: Article)
    requires articleId > 0
    ensures GetArticle(token, articleId, Some(a)).Sent? <==> GetArticle(token, articleId, Some(a.(published := !a.published))).Sent?
    ensures a.visibility == Public ==> GetArticle(token, articleId, Some(a)) == Sent(a)
  {
  }

  /** As written, an Admins Only article goes to a logged-out caller; the intended test refuses it. */
  lemma AdminsOnlyArticleLeaks(a: Article, articleId: int)
    requires articleId > 0 && a.visibility == AdminsOnly
    ensures GetArticleAsWritten(None, articleId, Some(a)) == Sent(a)
    ensures GetArticle(None, articleId, Some(a)) == Refused(403)
  {
  }

  /** The body of editArticle. */
  datatype ArticleEdit = ArticleEdit(name: string, content: string, visibility: string, sectionId: int, published: bool)

  /**
   * editArticle: 401 logged out, 403 without edit_kb_content or admin. The
   * current row must exist; it is rewritten only when it is Public or
   * Evaluators Only or the caller is admin, with the caller as author and
   * the requested is_published kept only for callers with
   * publish_kb_content or admin (false otherwise). When the row is not
   * rewritten the handler never answers.
   */
  function EditArticle(token: Option<User>, articles: map<int, Article>, articleId: int,
                       edit: ArticleEdit, now: int): (Reply<()>, map<int, Article>) {
    if token.None? then (Refused(401), articles)
    else if !(EditKbContent in token.value.perms || token.value.isAdmin) then (Refused(403), articles)
    else if articleId !in articles then (Crashed, articles)
    else
      var current := articles[articleId];
      if current.visibility == Public || current.visibility == EvaluatorsOnly || token.value.isAdmin then
        var published := if PublishKbContent in token.value.perms || token.value.isAdmin then edit.published else false;
        (Sent(()), articles[articleId := Article(articleId, edit.sectionId, edit.name, edit.content, token.value.id,
                                                 now, edit.visibility, published)])
      else (Silent, articles)
  }

  /**
   * What editArticle stores: the article is published only when asked by a
   * caller allowed to publish; an Admins Only article is changed by admins
   * alone; and nothing else in the table changes.
   */
  lemma EditArticleRules(token: Option<User>, articles: map<int, Article>, articleId: int, edit: ArticleEdit, now: int)
    ensures var (reply, after) := EditArticle(token, articles, articleId, edit, now);
            (reply.Sent? <==> TokenMay(token, EditKbContent) && articleId in articles
                              && (articles[articleId].visibility == Public
                                  || articles[articleId].visibility == EvaluatorsOnly || TokenAdmin(token)))
            && (!reply.Sent? ==> after == articles)
            && (reply.Sent? ==>
                  after.Keys == articles.Keys
                  && (forall k :: k in articles && k != articleId ==> after[k] == articles[k])
                  && after[articleId].published == (edit.published && TokenMay(token, PublishKbContent))
                  && after[articleId].authorId == token.value.id && after[articleId].visibility == edit.visibility)
    ensures var (reply, after) := EditArticle(token, articles, articleId, edit, now);
            (TokenMay(token, EditKbContent) && !TokenAdmin(token) && articleId in articles
             && articles[articleId].visibility == AdminsOnly) ==> reply == Silent && after == articles
  {
  }

  /**
   * addArticle: needs edit_kb_content or admin; inserts an article with the
   * next serial id, the caller as author and is_published at its column
   * default (false). An id already taken is the failed INSERT, answered
   * with 400.
   */
  function AddArticle(token: Option<User>, articles: map<int, Article>, nextId: int, name: string, content: string,
                      visibility: string, sectionId: int, now: int): (map<int, Article>, Status) {
    var gate := WriteGate(token, EditKbContent);
    if gate != Ok200 then (articles, gate)
    else if nextId in articles then (articles, BadRequest400)
    else (articles[nextId := Article(nextId, sectionId, name, content, token.value.id, now, visibility, false)], Ok200)
  }

  /** deleteArticle: needs delete_kb_content or admin; removes the row with the id. */
  function DeleteArticle(token: Option<User>, articles: map<int, Article>, id: int): (map<int, Article>, Status) {
    var gate := WriteGate(token, DeleteKbContent);
    if gate != Ok200 then (articles, gate)
    else (map k | k in articles && k != id :: articles[k], Ok200)
  }

  /**
   * addArticleDraft: needs edit_kb_content or admin; inserts an
   * unpublished draft of the article with the next serial id and the
   * caller as author; an id already taken is answered with 400.
   */
  function AddArticleDraft(token: Option<User>, drafts: map<int, Draft>, nextId: int, articleId: int,
                           name: string, content: string, now: int): (map<int, Draft>, Status) {
    var gate := WriteGate(token, EditKbContent);
    if gate != Ok200 then (drafts, gate)
    else if nextId in drafts then (drafts, BadRequest400)
    else (drafts[nextId := Draft(nextId, articleId, name, content, token.value.id, now, false)], Ok200)
  }

  /**
   * The article writes: a logged-out caller gets 401 and a caller without
   * edit_kb_content (delete_kb_content to delete) or admin 403, both
   * leaving the tables alone; otherwise the new article or draft is stored
   * unpublished with the caller as author, or the article's row goes and
   * every other row stays.
   */
  lemma ArticleWritesGated(token: Option<User>, articles: map<int, Article>, drafts: map<int, Draft>, nextId: int,
                           id: int, name: string, content: string, visibility: string, sectionId: int, now: int)
    ensures var (t, st) := AddArticle(token, articles, nextId, name, content, visibility, sectionId, now);
            (st == Ok200 <==> TokenMay(token, EditKbContent) && nextId !in articles)
            && (st == Unauthorized401 <==> token.None?)
            && (st != Ok200 ==> t == articles)
            && (st == Ok200 ==> t.Keys == articles.Keys + {nextId}
                                && (forall k :: k in articles ==> t[k] == articles[k])
                                && !t[nextId].published && t[nextId].authorId == token.value.id
                                && t[nextId].sectionId == sectionId && t[nextId].visibility == visibility)
    ensures var (t, st) := DeleteArticle(token, articles, id);
            (st == Ok200 <==> TokenMay(token, DeleteKbContent))
            && (st == Unauthorized401 <==> token.None?)
            && (st != Ok200 ==> t == articles)
            && (st == Ok200 ==> t.Keys == articles.Keys - {id} && forall k :: k in t ==> t[k] == articles[k])
    ensures var (t, st) := AddArticleDraft(token, drafts, nextId, id, name, content, now);
            (st == Ok200 <==> TokenMay(token, EditKbContent) && nextId !in drafts)
            && (st == Unauthorized401 <==> token.None?)
            && (st != Ok200 ==> t == drafts)
            && (st == Ok200 ==> t.Keys == drafts.Keys + {nextId}
                                && (forall k :: k in drafts ==> t[k] == drafts[k])
                                && t[nextId].articleId == id && !t[nextId].published
                                && t[nextId].authorId == token.value.id)
  {
  }

  /**
   * getArticleDraft as written: a caller without edit_kb_content,
   * publish_kb_content or admin gets 403; for everyone else reading the
   * article id from `document`, which does not exist on the server, throws
   * and the handler answers 500.
   */
  function GetArticleDraftAsWritten(token: Option<User>): (status: int)
    ensures status == 403 <==> !(TokenMay(token, EditKbContent) || TokenMay(token, PublishKbContent))
    ensures status != 403 ==> status == 500
  {
    if token.Some? && (EditKbContent in token.value.perms || PublishKbContent in token.value.perms || token.value.isAdmin)
    then 500
    else 403
  }

  /**
   * The draft `ORDER BY draft_last_updated DESC LIMIT 1` returns among the
   * table's rows for an article: one with the latest update time, or none
   * when the article has no draft. The order of rows with equal times is
   * left open by the query; this one takes the first of them.
   */
  function LatestDraftOf(rows: seq<Draft>, articleId: int): (r: Option<Draft>)
    ensures r.None? <==> forall i :: 0 <= i < |rows| ==> rows[i].articleId != articleId
    ensures r.Some? ==> r.value in rows && r.value.articleId == articleId
    ensures r.Some? ==> forall i :: 0 <= i < |rows| && rows[i].articleId == articleId ==> rows[i].updated <= r.value.updated
  {
    if |rows| == 0 then None
    else
      assert forall i :: 1 <= i < |rows| ==> rows[i] == rows[1..][i - 1];
      var rest := LatestDraftOf(rows[1..], articleId);
      if rows[0].articleId != articleId then rest
      else if rest.Some? && rest.value.updated > rows[0].updated then rest
      else Some(rows[0])
  }

  /** The JSON getArticleDraft sends. */
  datatype DraftReply = DraftReply(isAdmin: bool, loggedIn: bool, draft: Option<Draft>)

  /**
   * getArticleDraft as intended, reading the id from the request's query:
   * 403 without edit_kb_content, publish_kb_content or admin; 400 when the
   * parsed id (None for NaN) is not positive or the query fails; otherwise
   * the article's latest draft, or no draft when it has none.
   */
  function GetArticleDraft(token: Option<User>, articleId: Option<int>, rows: Result<seq<Draft>>): (r: Reply<DraftReply>)
    ensures r == Refused(403) <==> !(TokenMay(token, EditKbContent) || TokenMay(token, PublishKbContent))
    ensures r == Refused(400) <==> (TokenMay(token, EditKbContent) || TokenMay(token, PublishKbContent))
                                   && (articleId.None? || articleId.value <= 0 || rows.Err?)
    ensures r.Refused? || r.Sent?
    ensures r.Sent? ==> r.body.loggedIn && r.body.isAdmin == TokenAdmin(token)
    ensures r.Sent? ==> (r.body.draft.None? <==> forall i :: 0 <= i < |rows.value| ==> rows.value[i].articleId != articleId.value)
    ensures r.Sent? && r.body.draft.Some? ==>
              var d := r.body.draft.value;
              d in rows.value && d.articleId == articleId.value
              && forall i :: 0 <= i < |rows.value| && rows.value[i].articleId == articleId.value ==> rows.value[i].updated <= d.updated
  {
    if token.Some? && (EditKbContent in token.value.perms || PublishKbContent in token.value.perms || token.value.isAdmin) then
      if articleId.None? || articleId.value <= 0 then Refused(400)
      else match rows
        case Err(_) => Refused(400)
        case Ok(table) => Sent(DraftReply(token.value.isAdmin, true, LatestDraftOf(table, articleId.value)))
    else Refused(403)
  }

  /**
   * The written handler and the intended one refuse the same callers with
   * 403; every caller the written one answers with 500 gets a 400 or the
   * draft from the intended one.
   */
  lemma GetArticleDraftCorrectionAgrees(token: Option<User>, articleId: Option<int>, rows: Result<seq<Draft>>)
    ensures GetArticleDraftAsWritten(token) == 403 <==> GetArticleDraft(token, articleId, rows) == Refused(403)
    ensures GetArticleDraftAsWritten(token) == 500 <==>
              GetArticleDraft(token, articleId, rows) == Refused(400) || GetArticleDraft(token, articleId, rows).Sent?
  {
  }

  /** A permitted caller asking for an article with a draft is answered with 500 as written, and gets the draft as intended. */
  lemma PermittedDraftRequestFails(token: Option<User>, d: Draft)
    requires TokenMay(token, EditKbContent) && d.articleId > 0
    ensures GetArticleDraftAsWritten(token) == 500
    ensures GetArticleDraft(token, Some(d.articleId), Ok([d])) == Sent(DraftReply(TokenAdmin(token), true, Some(d)))
  {
  }
}
