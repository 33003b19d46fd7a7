/**
 * The article repository: building the stored record of a generated article, and the
 * create, list, get, update and delete operations on the `articles` table. Each database
 * session is one atomic step on an in-memory map from row id to article; the clock is a
 * parameter.
 */
module Articles {
  import opened Wrappers
  import opened Values
  import opened Digits
  import opened Slug

  /** The sixteen template modules an article fills, in template order. */
  const ArticleFields: seq<string> := [
    "mod_titulo", "mod_subtitulo", "mod_autores", "mod_ciudad", "mod_fecha", "mod_pie1",
    "mod_cuerpo1", "mod_cuerpo2", "mod_relacionada", "mod_pie2", "mod_cuerpo3", "mod_cuerpo4",
    "mod_catchline", "mod_cuerpo5", "mod_cuerpo6", "mod_cuerpo7"
  ]

  predicate IsTimestamp(ts: string) { |ts| == 14 && AllDigits(ts) }

  datatype Article = Article(
    id: nat,
    slug: string,
    timestamp: string,
    prompt: string,
    satireLevel: int,
    imagePromptPrimary: Option<string>,
    imagePromptSecondary: Option<string>,
    articleData: Dict,
    imageData: Dict,
    createdAt: int,
    updatedAt: int)

  /**
   * The text the slug is made from: the title when it is truthy, otherwise the subtitle,
   * and "noticia" only when there is no subtitle key at all. `None` when that value is not a
   * string, where the source fails calling `lower()` on it.
   */
  function SlugBase(modules: Dict): Option<string> {
    var title := Get(modules, "mod_titulo", Str(""));
    var base := if Truthy(title) then title else Get(modules, "mod_subtitulo", Str("noticia"));
    if base.Str? then Some(base.s) else None
  }

  /** The `article_data` column: every template field (defaulting to ""), the topics and the image prompts. */
  function Payload(modules: Dict, temas: Value, imagePrompts: seq<string>): Dict {
    (map f | f in ArticleFields :: Get(modules, f, Str("")))["temas" := temas]["image_prompts" := StrList(imagePrompts)]
  }

  /** The `image_data` column. */
  function ImagePayload(modules: Dict, imageUrls: Dict, imageMetadata: Value): Dict {
    map[
      "primary" := Get(imageUrls, "primary", Null),
      "secondary" := Get(imageUrls, "secondary", Null),
      "captions" := imageMetadata,
      "caption_primary" := Get(modules, "mod_pie1", Null),
      "caption_secondary" := Get(modules, "mod_pie2", Null)]
  }

  function FirstPrompt(imagePrompts: seq<string>): Option<string> {
    if |imagePrompts| > 0 then Some(imagePrompts[0]) else None
  }

  function SecondPrompt(imagePrompts: seq<string>): Option<string> {
    if |imagePrompts| > 1 then Some(imagePrompts[1]) else None
  }

  /** The row `create_article_record` inserts under row id `id`, at time `now`, with timestamp `ts`. */
  function BuildRecord(
    id: nat, prompt: string, satireLevel: int, modules: Dict, temas: Value,
    imagePrompts: seq<string>, imageUrls: Dict, imageMetadata: Value, ts: string, now: int): Option<Article>
  {
    match SlugBase(modules)
    case None => None
    case Some(base) =>
      Some(Article(id, Slugify(base) + "-" + ts, ts, prompt, satireLevel,
        FirstPrompt(imagePrompts), SecondPrompt(imagePrompts),
        Payload(modules, temas, imagePrompts), ImagePayload(modules, imageUrls, imageMetadata), now, now))
  }

  /** The stored slug splits back into the slugified base and the timestamp. */
  lemma SlugParts(base: string, ts: string)
    requires IsTimestamp(ts)
    ensures var slug := Slugify(base) + "-" + ts;
      && |slug| >= 15 && slug[|slug| - 14..] == ts && slug[|slug| - 15] == '-'
      && slug[..|slug| - 15] == Slugify(base)
      && IsSlug(slug[..|slug| - 15])
  {
    SlugifyIsSlug(base);
    var slug := Slugify(base) + "-" + ts;
    assert slug[..|slug| - 15] == Slugify(base);
  }

  /**
   * The slug base is the title when that is truthy, otherwise the subtitle, and "noticia"
   * only when the subtitle key is missing.
   */
  lemma SlugBaseChoice(modules: Dict)
    ensures var title := Get(modules, "mod_titulo", Str(""));
      && (Truthy(title) ==> SlugBase(modules) == (if title.Str? then Some(title.s) else None))
      && (!Truthy(title) && "mod_subtitulo" in modules ==>
            SlugBase(modules) == (if modules["mod_subtitulo"].Str? then Some(modules["mod_subtitulo"].s) else None))
      && (!Truthy(title) && "mod_subtitulo" !in modules ==> SlugBase(modules) == Some("noticia"))
  {
  }

  /** A record is built exactly when the slug base is a string; its slug is that base slugified, a hyphen and the timestamp. */
  lemma RecordSlug(
    id: nat, prompt: string, satireLevel: int, modules: Dict, temas: Value,
    imagePrompts: seq<string>, imageUrls: Dict, imageMetadata: Value, ts: string, now: int)
    requires IsTimestamp(ts)
    ensures var r := BuildRecord(id, prompt, satireLevel, modules, temas, imagePrompts, imageUrls, imageMetadata, ts, now);
      && (r.Some? <==> SlugBase(modules).Some?)
      && (r.Some? ==>
            var slug := r.value.slug;
            && |slug| >= 15 && slug[|slug| - 14..] == ts && slug[|slug| - 15] == '-'
            && slug[..|slug| - 15] == Slugify(SlugBase(modules).value)
            && IsSlug(slug[..|slug| - 15]))
  {
    var r := BuildRecord(id, prompt, satireLevel, modules, temas, imagePrompts, imageUrls, imageMetadata, ts, now);
    if r.Some? {
      var base := SlugBase(modules).value;
      assert r.value.slug == Slugify(base) + "-" + ts;
      SlugParts(base, ts);
    }
  }

  /** `article_data` holds exactly the sixteen fields, each defaulting to "", plus the topics and the image prompts. */
  lemma PayloadContents(modules: Dict, temas: Value, imagePrompts: seq<string>)
    ensures var d := Payload(modules, temas, imagePrompts);
      && d.Keys == (set f | f in ArticleFields) + {"temas", "image_prompts"}
      && (forall f :: f in ArticleFields ==> d[f] == (if f in modules then modules[f] else Str("")))
      && d["temas"] == temas
      && d["image_prompts"] == StrList(imagePrompts)
  {
    assert "temas" !in ArticleFields && "image_prompts" !in ArticleFields;
  }

  /** `image_data` copies the two URLs (None when absent), the metadata and the two captions. */
  lemma ImagePayloadContents(modules: Dict, imageUrls: Dict, imageMetadata: Value)
    ensures var d := ImagePayload(modules, imageUrls, imageMetadata);
      && d.Keys == {"primary", "secondary", "captions", "caption_primary", "caption_secondary"}
      && d["primary"] == (if "primary" in imageUrls then imageUrls["primary"] else Null)
      && d["secondary"] == (if "secondary" in imageUrls then imageUrls["secondary"] else Null)
      && d["captions"] == imageMetadata
      && d["caption_primary"] == (if "mod_pie1" in modules then modules["mod_pie1"] else Null)
      && d["caption_secondary"] == (if "mod_pie2" in modules then modules["mod_pie2"] else Null)
  {
  }

  /** A record exists exactly when the slug base is a string, and it carries the given row id. */
  lemma RecordId(
    id: nat, prompt: string, satireLevel: int, modules: Dict, temas: Value,
    imagePrompts: seq<string>, imageUrls: Dict, imageMetadata: Value, ts: string, now: int)
    ensures var r := BuildRecord(id, prompt, satireLevel, modules, temas, imagePrompts, imageUrls, imageMetadata, ts, now);
      && (r.Some? <==> SlugBase(modules).Some?)
      && (r.Some? ==> r.value.id == id)
  {
  }

  /** The other columns of a created row: the two image prompt columns come from the first two prompts. */
  lemma RecordColumns(
    id: nat, prompt: string, satireLevel: int, modules: Dict, temas: Value,
    imagePrompts: seq<string>, imageUrls: Dict, imageMetadata: Value, ts: string, now: int)
    requires BuildRecord(id, prompt, satireLevel, modules, temas, imagePrompts, imageUrls, imageMetadata, ts, now).Some?
    ensures var a := BuildRecord(id, prompt, satireLevel, modules, temas, imagePrompts, imageUrls, imageMetadata, ts, now).value;
      && a.id == id && a.timestamp == ts && a.prompt == prompt && a.satireLevel == satireLevel
      && a.createdAt == now && a.updatedAt == now
      && a.articleData == Payload(modules, temas, imagePrompts)
      && a.imageData == ImagePayload(modules, imageUrls, imageMetadata)
      && (a.imagePromptPrimary.Some? <==> |imagePrompts| >= 1)
      && (a.imagePromptSecondary.Some? <==> |imagePrompts| >= 2)
      && (|imagePrompts| >= 1 ==> a.imagePromptPrimary.value == imagePrompts[0])
      && (|imagePrompts| >= 2 ==> a.imagePromptSecondary.value == imagePrompts[1])
  {
  }

  /** What `update_article` may change: everything is optional, as in the request body. */
  datatype UpdateRequest = UpdateRequest(
    articleData: Option<Dict>,
    temas: Option<Value>,
    imagePrompts: Option<Value>,
    imageData: Option<Dict>)

  /** `article_data` after the merge: the payload's keys win, then `temas` and `image_prompts` overwrite. */
  function MergeArticleData(data: Dict, req: UpdateRequest): Dict {
    var merged := data + req.articleData.GetOr(map[]);
    var withTemas := if req.temas.Some? then merged["temas" := req.temas.value] else merged;
    if req.imagePrompts.Some? then withTemas["image_prompts" := req.imagePrompts.value] else withTemas
  }

  function ApplyUpdate(a: Article, req: UpdateRequest, now: int): Article {
    a.(articleData := MergeArticleData(a.articleData, req),
       imageData := if req.imageData.Some? then a.imageData + req.imageData.value else a.imageData,
       updatedAt := now)
  }

  /**
   * The merge is shallow and key by key: the top-level `temas` and `image_prompts` win, then the
   * keys of the payload's `article_data`, and every other key keeps its value; `image_data` only
   * changes when the request carries one. The slug, timestamp and creation time never change.
   */
  lemma UpdateEffect(a: Article, req: UpdateRequest, now: int, k: string)
    ensures var b := ApplyUpdate(a, req, now);
      && b.id == a.id && b.slug == a.slug && b.timestamp == a.timestamp && b.createdAt == a.createdAt
      && b.prompt == a.prompt && b.satireLevel == a.satireLevel
      && b.updatedAt == now
      && (k == "temas" && req.temas.Some? ==> k in b.articleData && b.articleData[k] == req.temas.value)
      && (k == "image_prompts" && req.imagePrompts.Some? ==>
            k in b.articleData && b.articleData[k] == req.imagePrompts.value)
      && (!(k == "temas" && req.temas.Some?) && !(k == "image_prompts" && req.imagePrompts.Some?) ==>
            if req.articleData.Some? && k in req.articleData.value
            then k in b.articleData && b.articleData[k] == req.articleData.value[k]
            else (k in b.articleData <==> k in a.articleData) && (k in a.articleData ==> b.articleData[k] == a.articleData[k]))
      && (req.imageData.None? ==> b.imageData == a.imageData)
      && (req.imageData.Some? ==>
            && (k in req.imageData.value ==> k in b.imageData && b.imageData[k] == req.imageData.value[k])
            && (k !in req.imageData.value ==>
                  (k in b.imageData <==> k in a.imageData) && (k in a.imageData ==> b.imageData[k] == a.imageData[k])))
  {
  }

  /** One row of the listing. */
  datatype Summary = Summary(id: nat, slug: string, timestamp: string, title: Value, createdAt: int)

  function SummaryOf(a: Article): Summary {
    Summary(a.id, a.slug, a.timestamp, Get(a.articleData, "mod_titulo", Null), a.createdAt)
  }

  predicate NewestFirst(s: seq<Summary>) {
    forall i, j :: 0 <= i < j < |s| ==> s[i].createdAt >= s[j].createdAt
  }

  predicate DistinctIds(s: seq<Summary>) {
    forall i, j :: 0 <= i < j < |s| ==> s[i].id != s[j].id
  }

  /** Places `x` after every summary at least as new, keeping the listing newest first. */
  function Insert(s: seq<Summary>, x: Summary): (r: seq<Summary>)
    requires NewestFirst(s)
    ensures NewestFirst(r)
    ensures |r| == |s| + 1
    ensures forall y :: y in r <==> y in s || y == x
    ensures DistinctIds(s) && (forall i :: 0 <= i < |s| ==> s[i].id != x.id) ==> DistinctIds(r)
  {
    if s == [] || x.createdAt >= s[0].createdAt then [x] + s
    else
      var t := Insert(s[1..], x);
      InsertBehind(s, x, t);
      [s[0]] + t
  }

  /** Putting the head of `s` in front of `x` inserted into the tail keeps both listing properties. */
  lemma InsertBehind(s: seq<Summary>, x: Summary, t: seq<Summary>)
    requires s != [] && NewestFirst(s) && x.createdAt < s[0].createdAt
    requires NewestFirst(t)
    requires forall y :: y in t <==> y in s[1..] || y == x
    requires DistinctIds(s[1..]) && (forall i :: 1 <= i < |s| ==> s[i].id != x.id) ==> DistinctIds(t)
    ensures NewestFirst([s[0]] + t)
    ensures forall y :: y in [s[0]] + t <==> y in s || y == x
    ensures DistinctIds(s) && (forall i :: 0 <= i < |s| ==> s[i].id != x.id) ==> DistinctIds([s[0]] + t)
  {
    var r := [s[0]] + t;
    assert s == [s[0]] + s[1..];
    forall j | 0 <= j < |t|
      ensures s[0].createdAt >= t[j].createdAt
      ensures DistinctIds(s) && (forall i :: 0 <= i < |s| ==> s[i].id != x.id) ==> s[0].id != t[j].id
    {
      assert t[j] in t;
      if t[j] != x {
        var i :| 0 <= i < |s[1..]| && s[1..][i] == t[j];
        assert t[j] == s[i + 1];
      }
    }
    forall i, j | 0 <= i < j < |r|
      ensures r[i].createdAt >= r[j].createdAt
    {
      if i > 0 {
        assert r[i] == t[i - 1] && r[j] == t[j - 1];
      } else {
        assert r[j] == t[j - 1];
      }
    }
    if DistinctIds(s) && (forall i :: 0 <= i < |s| ==> s[i].id != x.id) {
      assert DistinctIds(s[1..]) by {
        forall i, j | 0 <= i < j < |s[1..]|
          ensures s[1..][i].id != s[1..][j].id
        {
          assert s[1..][i] == s[i + 1] && s[1..][j] == s[j + 1];
        }
      }
      forall i, j | 0 <= i < j < |r|
        ensures r[i].id != r[j].id
      {
        if i > 0 {
          assert r[i] == t[i - 1] && r[j] == t[j - 1];
        } else {
          assert r[j] == t[j - 1];
        }
      }
    }
  }

  /** Storing a row under its own id keeps every row under its own id. */
  lemma StoreKeepsIds(m: map<nat, Article>, a: Article, stored: map<nat, Article>)
    requires forall id :: id in m ==> m[id].id == id
    requires stored == m[a.id := a]
    ensures forall id :: id in stored ==> stored[id].id == id
  {
  }

  /**
   * The object a repository function hands back once its session is gone. Leaving
   * `with get_session()` commits, which expires every loaded attribute (the session factory
   * keeps SQLAlchemy's default `expire_on_commit`), and then closes the session, which
   * detaches the object. An object expunged before that keeps its loaded attributes.
   * Reading an attribute of an expired, detached object raises `DetachedInstanceError`.
   */
  datatype Handle = Loaded(row: Article) | Expired

  /** The handle left after the session closes, with or without `session.expunge`. */
  function LeaveSession(row: Article, expunged: bool): (h: Handle)
    ensures h.Loaded? <==> expunged
    ensures h.Loaded? ==> h.row == row
  {
    if expunged then Loaded(row) else Expired
  }

  /** `create_article_record` returns the new row without expunging it. */
  const CreateExpunges := false

  /** What a lookup by slug finds; several rows make `one_or_none` raise. */
  datatype SlugMatch = NoMatch | Unique(article: Article) | Multiple

  class Repository {
    var articles: map<nat, Article>

    /** Every row is stored under its own id. */
    ghost predicate Valid()
      reads this
    {
      forall id :: id in articles ==> articles[id].id == id
    }

    constructor()
      ensures Valid() && articles == map[]
    {
      articles := map[];
    }

    /** The row id SQLite assigns: one more than the largest in use, or 1 for an empty table. */
    method NextId() returns (id: nat)
      ensures id >= 1 && id !in articles
      ensures forall k :: k in articles ==> k < id
      ensures articles == map[] ==> id == 1
      ensures articles != map[] ==> id - 1 in articles
    {
      var rest := articles.Keys;
      id := 1;
      while rest != {}
        invariant rest <= articles.Keys
        invariant id >= 1
        invariant forall k :: k in articles && k !in rest ==> k < id
        invariant id == 1 || id - 1 in articles
        invariant id > 1 ==> id - 1 !in rest
        invariant articles.Keys - rest == {} ==> id == 1
        invariant articles.Keys - rest != {} ==> id - 1 in articles.Keys - rest
        decreases rest
      {
        var k :| k in rest;
        if k + 1 > id {
          id := k + 1;
        }
        rest := rest - {k};
      }
    }

    /**
     * `create_article_record`: inserts the record under a fresh id; when the slug base is not
     * a string nothing is stored.
     */
    method Create(
      prompt: string, satireLevel: int, modules: Dict, temas: Value, imagePrompts: seq<string>,
      imageUrls: Dict, imageMetadata: Value, ts: string, now: int) returns (r: Option<Article>)
      requires Valid()
      modifies this
      ensures Valid()
      ensures r.None? <==> SlugBase(modules).None?
      ensures r.None? ==> articles == old(articles)
      ensures r.Some? ==>
        && r.value.id !in old(articles)
        && r == BuildRecord(r.value.id, prompt, satireLevel, modules, temas, imagePrompts, imageUrls, imageMetadata, ts, now)
        && articles == old(articles)[r.value.id := r.value]
    {
      var id := NextId();
      r := BuildRecord(id, prompt, satireLevel, modules, temas, imagePrompts, imageUrls, imageMetadata, ts, now);
      RecordId(id, prompt, satireLevel, modules, temas, imagePrompts, imageUrls, imageMetadata, ts, now);
      if r.Some? {
        var a := r.value;
        assert a.id == id;
        assert r == BuildRecord(a.id, prompt, satireLevel, modules, temas, imagePrompts, imageUrls, imageMetadata, ts, now);
        StoreKeepsIds(articles, a, articles[a.id := a]);
        articles := articles[a.id := a];
      }
    }

    /** `list_articles`: one summary per row, newest first. */
    method List() returns (r: seq<Summary>)
      requires Valid()
      ensures NewestFirst(r) && DistinctIds(r)
      ensures forall i :: 0 <= i < |r| ==> r[i].id in articles && r[i] == SummaryOf(articles[r[i].id])
      ensures forall id :: id in articles ==> exists i :: 0 <= i < |r| && r[i].id == id
    {
      var rest := articles.Keys;
      r := [];
      while rest != {}
        invariant rest <= articles.Keys
        invariant NewestFirst(r) && DistinctIds(r)
        invariant forall i :: 0 <= i < |r| ==> r[i].id in articles && r[i].id !in rest && r[i] == SummaryOf(articles[r[i].id])
        invariant forall id :: id in articles && id !in rest ==> exists i :: 0 <= i < |r| && r[i].id == id
        decreases rest
      {
        var k :| k in rest;
        var x := SummaryOf(articles[k]);
        var r' := Insert(r, x);
        forall i | 0 <= i < |r'|
          ensures r'[i].id in articles && r'[i].id !in rest - {k} && r'[i] == SummaryOf(articles[r'[i].id])
        {
          assert r'[i] in r';
          if r'[i] != x {
            var j :| 0 <= j < |r| && r[j] == r'[i];
          }
        }
        forall id | id in articles && id !in rest - {k}
          ensures exists i :: 0 <= i < |r'| && r'[i].id == id
        {
          if id == k {
            assert x in r';
          } else {
            var i :| 0 <= i < |r| && r[i].id == id;
            assert r[i] in r';
          }
        }
        r := r';
        rest := rest - {k};
      }
    }

    /** `get_article`. */
    method Get(id: nat) returns (r: Option<Article>)
      ensures r == if id in articles then Some(articles[id]) else None
    {
      r := if id in articles then Some(articles[id]) else None;
    }

    /** `get_article_by_slug`: the unique row with that slug, none, or an error when there are several. */
    method GetBySlug(slug: string) returns (r: SlugMatch)
      requires Valid()
      ensures r.NoMatch? <==> forall id :: id in articles ==> articles[id].slug != slug
      ensures r.Unique? ==>
        && r.article.id in articles && articles[r.article.id] == r.article && r.article.slug == slug
        && forall id :: id in articles && articles[id].slug == slug ==> id == r.article.id
      ensures r.Multiple? ==>
        exists i, j :: i in articles && j in articles && i != j && articles[i].slug == slug && articles[j].slug == slug
    {
      var rest := articles.Keys;
      r := NoMatch;
      while rest != {}
        invariant rest <= articles.Keys
        invariant r.NoMatch? <==> forall id :: id in articles && id !in rest ==> articles[id].slug != slug
        invariant r.Unique? ==>
          && r.article.id in articles && r.article.id !in rest && articles[r.article.id] == r.article
          && r.article.slug == slug
          && forall id :: id in articles && id !in rest && articles[id].slug == slug ==> id == r.article.id
        invariant r.Multiple? ==>
          exists i, j :: i in articles && j in articles && i != j && articles[i].slug == slug && articles[j].slug == slug
        decreases rest
      {
        var k :| k in rest;
        if articles[k].slug == slug {
          match r
          case NoMatch => r := Unique(articles[k]);
          case Unique(a) => r := Multiple;
          case Multiple =>
        }
        rest := rest - {k};
      }
    }

    /** `update_article`: `None` and no change for an unknown id, otherwise the merged row. */
    method Update(id: nat, req: UpdateRequest, now: int) returns (r: Option<Article>)
      requires Valid()
      modifies this
      ensures Valid()
      ensures r.None? <==> id !in old(articles)
      ensures r.None? ==> articles == old(articles)
      ensures r.Some? ==>
        && r.value == ApplyUpdate(old(articles)[id], req, now)
        && articles == old(articles)[id := r.value]
    {
      if id !in articles {
        return None;
      }
      var updated := ApplyUpdate(articles[id], req, now);
      articles := articles[id := updated];
      r := Some(updated);
    }

    /** `delete_article`: true exactly when the row existed, which is then gone and nothing else is. */
    method Delete(id: nat) returns (deleted: bool)
      requires Valid()
      modifies this
      ensures Valid()
      ensures deleted <==> id in old(articles)
      ensures articles == old(articles) - {id}
    {
      deleted := id in articles;
      articles := articles - {id};
    }
  }
}
