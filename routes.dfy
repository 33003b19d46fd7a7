/**
 * The request handling in front of the services: the guard and lookup of the public article
 * route, the parsing and error mapping of the article-creation endpoint (with the author join
 * it applies before storing), and the template update endpoint. The JSON body arrives already
 * decoded; the HTTP layer itself is not modelled.
 */
module Routes {
  import opened Wrappers
  import opened Values
  import opened Digits
  import opened Slug
  import opened Dom
  import opened Articles
  import opened Render
  import opened Generation
  import Timestamp
  import Templates

  const PromptRequired: string := "El prompt es obligatorio"
  const TemplateMissing: string := "Falta el template"
  const DefaultSatireLevel: int := 50

  /** The error responses: a 400 with its message, or a 500. */
  datatype ApiError = BadRequest(message: string) | ServerError

  /** `slug_timestamp[-14:]`. */
  function LastFourteen(p: string): (r: string)
    ensures |r| == if |p| < 14 then |p| else 14
    ensures r == p[|p| - |r|..]
  {
    if |p| <= 14 then p else p[|p| - 14..]
  }

  /** The guards of `serve_article`: not an API or editor path, not empty, ending in digits. */
  predicate ArticlePathAllowed(p: string) {
    && !("api/" <= p)
    && p != "editor"
    && p != []
    && AllDigits(LastFourteen(p))
  }

  /** Any non-empty string of digits passes the guard, however long. */
  lemma DigitsAllowed(p: string)
    requires p != [] && AllDigits(p)
    ensures ArticlePathAllowed(p)
  {
    assert IsDigit(p[0]);
    assert forall i :: 0 <= i < |LastFourteen(p)| ==> LastFourteen(p)[i] == p[|p| - |LastFourteen(p)| + i];
  }

  /** The numeric path in the route's tests passes the guard, so only the lookup can refuse it. */
  lemma NumericTestPath(p: string)
    requires p == "12345"
    ensures ArticlePathAllowed(p)
  {
    DigitsAllowed(p);
  }

  /**
   * The well-formed path in the route's tests passes the guard; with no article under that
   * slug the answer is still a 404.
   */
  lemma WellFormedTestPath(p: string)
    requires p == "test-article-20231225120000"
    ensures ArticlePathAllowed(p)
  {
    var ts := "20231225120000";
    assert p == "test-article" + "-" + ts;
    assert IsTimestamp(ts);
    assert p[3] == 't';
    NotApiPath(p);
    assert LastFourteen(p) == ts;
  }

  /** A path whose last fourteen characters hold a non-digit is refused. */
  lemma NonDigitRefused(p: string, i: nat)
    requires |p| - 14 <= i < |p| && !IsDigit(p[i])
    ensures !ArticlePathAllowed(p)
  {
    var t := LastFourteen(p);
    assert t[i - (|p| - |t|)] == p[i];
  }

  /** The slug in the route's tests has no digits at its end and is refused. */
  lemma InvalidSlugRefused(p: string)
    requires p == "invalid-slug"
    ensures !ArticlePathAllowed(p)
  {
    assert p == "invalid" + "-" + "slug";
    assert p[11] == 'g';
    NonDigitRefused(p, 11);
  }

  /** A path whose fourth character is not a slash is not an API path. */
  lemma NotApiPath(p: string)
    requires |p| >= 4 && p[3] != '/'
    ensures !("api/" <= p)
  {
    assert "api/"[3] == '/';
  }

  /** The fourth character of a stored slug is never a slash. */
  lemma SlugFourthChar(s: string, ts: string)
    requires IsSlug(s) && IsTimestamp(ts)
    ensures (s + "-" + ts)[3] != '/'
  {
    var slug := s + "-" + ts;
    if |s| > 3 {
      assert slug[3] == s[3];
      assert SlugChar(s[3]);
    } else if |s| < 3 {
      assert slug[3] == ts[3 - |s| - 1];
      assert IsDigit(ts[3 - |s| - 1]);
    }
  }

  /** Every slug the repository gives a stored article passes the guard. */
  lemma CreatedSlugAllowed(base: string, ts: string)
    requires IsTimestamp(ts)
    ensures ArticlePathAllowed(Slugify(base) + "-" + ts)
  {
    var slug := Slugify(base) + "-" + ts;
    SlugParts(base, ts);
    SlugifyIsSlug(base);
    SlugFourthChar(Slugify(base), ts);
    NotApiPath(slug);
    assert LastFourteen(slug) == ts;
    assert |slug| != |"editor"|;
  }

  /** What `serve_article` answers. */
  datatype ArticlePage = PageNotFound | ServerFailure | Page(html: Node)

  /** The HTML `get_template_html` reads from a store holding `revs`. */
  function TemplateIn(revs: seq<Templates.Revision>, defaultHtml: string): string {
    if revs == [] then defaultHtml else Templates.LatestOf(revs).value.html
  }

  /** The ids of the stored rows with slug `slug`. */
  function RowsWithSlug(articles: map<nat, Article>, slug: string): (r: set<nat>)
    ensures forall id :: id in r <==> id in articles && articles[id].slug == slug
  {
    set id | id in articles && articles[id].slug == slug
  }

  /**
   * `serve_article`: a path refused by the guard, or with no article under that slug, is a
   * 404; several articles under one slug is a 500. For the one article under the slug the
   * current template is read (seeding the default into an empty store), parsed by `parse`,
   * and rendered: a renderer failure is a 500, otherwise the page. The template store is
   * read only when there is exactly one article.
   */
  method ServeArticle(
    repo: Repository, store: Templates.TemplateStore, defaultHtml: string, parse: string -> Node,
    path: string, now: int)
    returns (r: ArticlePage)
    requires repo.Valid() && store.Valid()
    modifies store
    ensures store.Valid()
    ensures r == PageNotFound <==> !ArticlePathAllowed(path) || RowsWithSlug(repo.articles, path) == {}
    ensures r == PageNotFound || |RowsWithSlug(repo.articles, path)| > 1 ==> store.revisions == old(store.revisions)
    ensures ArticlePathAllowed(path) && |RowsWithSlug(repo.articles, path)| > 1 ==> r == ServerFailure
    ensures ArticlePathAllowed(path) && |RowsWithSlug(repo.articles, path)| == 1 ==>
      && (old(store.revisions) == [] ==> store.revisions == [Templates.Revision(1, defaultHtml, now)])
      && (old(store.revisions) != [] ==> store.revisions == old(store.revisions))
      && exists id :: RowsWithSlug(repo.articles, path) == {id}
           && var rendered := RenderSpec(parse(TemplateIn(old(store.revisions), defaultHtml)), repo.articles[id]);
              && (rendered.Ok? ==> r == Page(rendered.value))
              && (rendered.Err? ==> r == ServerFailure)
  {
    if "api/" <= path || path == "editor" {
      return PageNotFound;
    }
    if path == [] {
      return PageNotFound;
    }
    if !AllDigits(LastFourteen(path)) {
      return PageNotFound;
    }
    var found := repo.GetBySlug(path);
    ghost var rows := RowsWithSlug(repo.articles, path);
    match found
    case NoMatch =>
      assert rows == {};
      r := PageNotFound;
    case Multiple =>
      assert |rows| > 1 by {
        var i, j :| i in repo.articles && j in repo.articles && i != j
          && repo.articles[i].slug == path && repo.articles[j].slug == path;
        assert {i, j} <= rows;
        assert |{i, j}| == 2;
        SubsetSize({i, j}, rows);
      }
      r := ServerFailure;
    case Unique(article) =>
      assert rows == {article.id};
      ghost var template := TemplateIn(store.revisions, defaultHtml);
      var html := store.Current(defaultHtml, now);
      assert html == template;
      var rendered := RenderArticle(parse(html), article);
      if rendered.Ok? {
        r := Page(rendered.value);
      } else {
        r := ServerFailure;
      }
  }

  lemma SubsetSize(a: set<nat>, b: set<nat>)
    requires a <= b
    ensures |a| <= |b|
  {
    assert b == a + (b - a);
  }

  /** How `int(data.get("satire_level", 50))` went: no key, a number, or a value `int` rejects. */
  datatype SatireField = SatireAbsent | SatireInt(n: int) | SatireInvalid

  /** The decoded creation request; `prompt` is `None` when the key is missing or null. */
  datatype CreateBody = CreateBody(prompt: Option<string>, satire: SatireField, imagePrompts: seq<Option<string>>)

  datatype CreateInput = CreateInput(prompt: string, satireLevel: int, imagePrompts: seq<string>)

  /** `[p for p in image_prompts if p]`. */
  function FilterPrompts(ps: seq<Option<string>>): (r: seq<string>)
    ensures |r| <= |ps|
    ensures forall s :: s in r <==> Some(s) in ps && s != []
  {
    if ps == [] then []
    else
      var rest := FilterPrompts(ps[1..]);
      assert forall s :: Some(s) in ps <==> ps[0] == Some(s) || Some(s) in ps[1..] by {
        assert ps == [ps[0]] + ps[1..];
      }
      (if ps[0].Some? && ps[0].value != [] then [ps[0].value] else []) + rest
  }

  /** The filter keeps the order of the prompts. */
  lemma {:induction false} FilterPromptsAppend(a: seq<Option<string>>, b: seq<Option<string>>)
    ensures FilterPrompts(a + b) == FilterPrompts(a) + FilterPrompts(b)
  {
    if a == [] {
      assert a + b == b;
    } else {
      assert (a + b)[0] == a[0];
      assert (a + b)[1..] == a[1..] + b;
      FilterPromptsAppend(a[1..], b);
    }
  }

  /**
   * The checks of `api_create_article` in their order: the satire level is converted first
   * (a failure is a 500), then the prompt must be present and non-empty (a 400).
   */
  function ParseCreate(body: CreateBody): (r: Result<CreateInput, ApiError>)
    ensures r.Ok? <==> !body.satire.SatireInvalid? && body.prompt.Some? && body.prompt.value != []
    ensures body.satire.SatireInvalid? ==> r == Err(ServerError)
    ensures !body.satire.SatireInvalid? && (body.prompt.None? || body.prompt.value == [])
      ==> r == Err(BadRequest(PromptRequired))
    ensures r.Ok? ==>
      && r.value.prompt == body.prompt.value
      && r.value.satireLevel == (if body.satire.SatireInt? then body.satire.n else DefaultSatireLevel)
      && r.value.imagePrompts == FilterPrompts(body.imagePrompts)
      && forall i :: 0 <= i < |r.value.imagePrompts| ==> r.value.imagePrompts[i] != []
  {
    if body.satire.SatireInvalid? then Err(ServerError)
    else
      var level := if body.satire.SatireInt? then body.satire.n else DefaultSatireLevel;
      var prompts := FilterPrompts(body.imagePrompts);
      if body.prompt.None? || body.prompt.value == [] then Err(BadRequest(PromptRequired))
      else
        assert forall i :: 0 <= i < |prompts| ==> prompts[i] in prompts;
        Ok(CreateInput(body.prompt.value, level, prompts))
  }

  /**
   * The route joins a list of authors again before storing; on modules the generator
   * normalised there is no list left, so the join never fails and changes nothing.
   */
  lemma StoreAuthorsAfterNormalize(m: Dict)
    requires NormalizeModules(m).Some?
    ensures JoinAuthors(NormalizeModules(m).value) == NormalizeModules(m)
  {
    NormalizeEffect(m);
    JoinAuthorsNoList(NormalizeModules(m).value);
  }

  /** The provider's reply to the generation request of a parsed body. */
  function ReplyFor(input: CreateInput, ask: TextRequest -> Option<Reply>): Option<Reply> {
    ask(TextRequest(SatireDescriptor(input.satireLevel), input.prompt))
  }

  /** The modules the generator returns for a reply, when normalisation succeeds. */
  function ReplyModules(reply: Reply): Option<Dict> {
    NormalizeModules(reply.modules.GetOr(map[]))
  }

  /** What `api_create_article` answers: the new row's id, slug and timestamp, or an error. */
  datatype CreateResponse = Created(id: nat, slug: string, timestamp: string) | Refused(error: ApiError)

  /**
   * The answer built from the handle `create_article_record` returned, after the row is
   * stored: the log line and the 201 body read `id`, `slug` and `timestamp`. On an expired,
   * detached object the first read raises, and Flask answers 500.
   */
  function CreatedAnswer(h: Handle): (r: CreateResponse)
    ensures r.Created? <==> h.Loaded?
    ensures h.Loaded? ==> r == Created(h.row.id, h.row.slug, h.row.timestamp)
    ensures h.Expired? ==> r == Refused(ServerError)
  {
    match h
    case Loaded(row) => Created(row.id, row.slug, row.timestamp)
    case Expired => Refused(ServerError)
  }

  /**
   * As written, `create_article_record` returns without `session.expunge`, so for every
   * stored row the route answers 500 although the row has been committed.
   */
  lemma CreatedAnswerAsWritten(row: Article)
    ensures CreatedAnswer(LeaveSession(row, CreateExpunges)) == Refused(ServerError)
  {
  }

  /**
   * With the row expunged before the session closes, as `get_article` does, the answer is the
   * stored row's id, slug and timestamp. `ApiCreateArticle` answers this way.
   */
  lemma CreatedAnswerIntended(row: Article)
    ensures CreatedAnswer(LeaveSession(row, true)) == Created(row.id, row.slug, row.timestamp)
    ensures CreatedAnswer(LeaveSession(row, true)) != CreatedAnswer(LeaveSession(row, CreateExpunges))
  {
  }

  /**
   * `api_create_article`: parse, generate (a `RuntimeError` of the generator is a 400 carrying
   * its message; an author list it cannot join is a 500), join the authors, and store. A
   * module set whose slug base is not a string is a 500 and stores nothing; nothing is
   * stored on any error. On success exactly one row is added, the record built from the
   * request, the generated modules, topics and images, and the clock.
   */
  method ApiCreateArticle(
    repo: Repository, body: CreateBody, apiKey: Option<string>,
    ask: TextRequest -> Option<Reply>, gen: string -> ImageOutcome, clock: Timestamp.DateTime, now: int)
    returns (r: CreateResponse)
    requires repo.Valid()
    requires Timestamp.Valid(clock)
    modifies repo
    ensures repo.Valid()
    ensures r.Refused? ==> repo.articles == old(repo.articles)
    ensures ParseCreate(body).Err? ==> r == Refused(ParseCreate(body).error)
    ensures ParseCreate(body).Ok? && (apiKey.None? || apiKey.value == []) ==> r == Refused(BadRequest(MissingKeyMessage))
    ensures ParseCreate(body).Ok? && apiKey.Some? && apiKey.value != [] && ReplyFor(ParseCreate(body).value, ask).None?
      ==> r == Refused(BadRequest(GenerationFailedMessage))
    ensures ParseCreate(body).Ok? && apiKey.Some? && apiKey.value != [] && ReplyFor(ParseCreate(body).value, ask).Some?
      && ReplyModules(ReplyFor(ParseCreate(body).value, ask).value).None?
      ==> r == Refused(ServerError)
    ensures ParseCreate(body).Ok? && apiKey.Some? && apiKey.value != [] && ReplyFor(ParseCreate(body).value, ask).Some?
      && ReplyModules(ReplyFor(ParseCreate(body).value, ask).value).Some?
      ==> (r.Created? <==> SlugBase(ReplyModules(ReplyFor(ParseCreate(body).value, ask).value).value).Some?)
    ensures r.Created? ==>
      && ParseCreate(body).Ok? && ReplyFor(ParseCreate(body).value, ask).Some?
      && var input := ParseCreate(body).value;
      && var reply := ReplyFor(input, ask).value;
      && ReplyModules(reply).Some?
      && r.id !in old(repo.articles)
      && r.id in repo.articles
      && repo.articles == old(repo.articles)[r.id := repo.articles[r.id]]
      && Some(repo.articles[r.id]) == BuildRecord(
           r.id, input.prompt, input.satireLevel, ReplyModules(reply).value, reply.temas.GetOr(StrList([])),
           input.imagePrompts, GeneratedUrls(input.prompt, input.imagePrompts, gen),
           GeneratedMetadata(input.prompt, input.imagePrompts, gen), Timestamp.Format(clock), now)
      && repo.articles[r.id].slug == r.slug
      && r.timestamp == Timestamp.Format(clock)
      && ArticlePathAllowed(r.slug)
  {
    var parsed := ParseCreate(body);
    if parsed.Err? {
      return Refused(parsed.error);
    }
    var input := parsed.value;
    var generation := Generate(apiKey, input.prompt, input.satireLevel, input.imagePrompts, ask, gen);
    if generation.Err? {
      match generation.error
      case Runtime(message) => return Refused(BadRequest(message));
      case AuthorJoinFailed => return Refused(ServerError);
    }
    // The generated modules hold no list of authors, so the route's own join cannot raise.
    StoreAuthorsAfterNormalize(ReplyFor(input, ask).value.modules.GetOr(map[]));
    var modules := JoinAuthors(generation.value.modules).value;
    assert modules == generation.value.modules;
    var ts := Timestamp.Format(clock);
    var article := repo.Create(
      input.prompt, input.satireLevel, modules, generation.value.temas, input.imagePrompts,
      generation.value.imageUrls, generation.value.imageMetadata, ts, now);
    if article.None? {
      return Refused(ServerError);
    }
    var a := article.value;
    RecordSlug(a.id, input.prompt, input.satireLevel, modules, generation.value.temas, input.imagePrompts,
      generation.value.imageUrls, generation.value.imageMetadata, ts, now);
    CreatedSlugAllowed(SlugBase(modules).value, ts);
    r := CreatedAnswer(LeaveSession(a, true));
  }

  /** `data.get("template")` checked for null; an empty template is accepted. */
  function TemplateBody(template: Option<string>): (r: Result<string, ApiError>)
    ensures r.Err? <==> template.None?
    ensures r.Err? ==> r.error == BadRequest(TemplateMissing)
    ensures r.Ok? ==> r.value == template.value
  {
    if template.None? then Err(BadRequest(TemplateMissing)) else Ok(template.value)
  }

  /**
   * `api_update_template`: a missing template is a 400 and changes nothing; otherwise a new
   * revision is saved, and with a clock that has not gone back it is the one read next.
   */
  method ApiUpdateTemplate(store: Templates.TemplateStore, template: Option<string>, now: int)
    returns (r: Result<(), ApiError>)
    requires store.Valid()
    modifies store
    ensures store.Valid()
    ensures r.Err? <==> template.None?
    ensures template.None? ==> r == Err(BadRequest(TemplateMissing)) && store.revisions == old(store.revisions)
    ensures template.Some? ==>
      store.revisions == old(store.revisions) + [Templates.Revision(|old(store.revisions)| + 1, template.value, now)]
    ensures template.Some? && (forall i :: 0 <= i < |old(store.revisions)| ==> old(store.revisions)[i].createdAt <= now)
      ==> Templates.LatestOf(store.revisions).Some? && Templates.LatestOf(store.revisions).value.html == template.value
  {
    var body := TemplateBody(template);
    if body.Err? {
      return Err(body.error);
    }
    var before := store.revisions;
    var saved := store.Save(body.value, now);
    if forall i :: 0 <= i < |before| ==> before[i].createdAt <= now {
      Templates.SavedIsLatest(before, saved);
    }
    r := Ok(());
  }
}
