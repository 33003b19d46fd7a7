# Info Sur in Dafny

Info Sur is a small Flask service that generates satirical local news articles for Málaga.
It stores the articles and renders them into an HTML template whose nodes are marked with
CSS classes. This project models the service layer and the request guards in front of it,
and proves properties of that model:

- **Slug utility** (`Slug`, `SlugExamples`). `slugify` is modelled as its five rewrites. The
  project proves the shape of a slug, its idempotence and the exact fixpoints, and the worked
  examples of the test suite.
- **Timestamp** (`Timestamp`, `Digits`). The 14-digit `%Y%m%d%H%M%S` stamp: zero-padded,
  fields readable back, injective.
- **Article repository** (`Articles`). A class over a map from row id to article, with the
  record built by `create_article_record`, the SQLite row id, listing newest first,
  lookup by id and by slug, the shallow merge of `update_article`, and delete. Each database
  session is one atomic method call.
- **Template store** (`Templates`). An append-only sequence of revisions. Reading returns
  the newest revision and seeds the default only into an empty store.
- **Renderer** (`Dom`, `Render`, `Values`). The parsed template is a tree of elements with a
  tag name, a class set, attributes and children. The scalar, authors and topics passes of
  `render_article_html` are written as methods with loops, proved equal to a pass-by-pass
  specification. Lemmas state which nodes end up holding which text, which image nodes
  change, and which topic slots disappear. (Dafny name: `Render.RenderArticle`.)
- **Generation normalisation** (`Generation`): the satire tone, the module defaults and the
  author join, the assignment of at most two generated images, and the `slug_title`
  fallback. The text and image providers are function parameters.
- **Route guards** (`Routes`, `Paths`): the public article path, the image filename and
  traversal checks, the creation request and the template update.

Behaviours of the code worth knowing:

- **Short digit paths.** The article guard checks only `s[-14:]`, the last fourteen
  characters or fewer. So any non-empty all-digit path passes it, "12345" included
  (`Routes.DigitsAllowed`), and only the lookup can then refuse it.
- **The "noticia" placeholder.** The slug base falls back to "noticia" only when the
  `mod_subtitulo` key is missing. An empty title with an empty subtitle gives an empty slug
  base (`Articles.SlugBaseChoice`).
- **Image paths.** The traversal check compares the resolved path with the image directory
  as strings, by prefix. So `../images-old/x.png`, in a sibling directory whose name starts
  with `images`, passes that check (`Paths.SiblingAccepted`).
- **Values that are not strings.** A list of authors holding a non-string item makes the
  generator's `" y ".join` raise `TypeError`, which the route does not catch: a 500 with
  nothing stored (`Generation.Generate`, `Routes.ApiCreateArticle`). In the renderer, a
  non-string topic or author value raises only when the template has a node for it
  (`Render.TopicsFailure`, `Render.AuthorsFailure`).
- **The answer to a creation.** `create_article_record` hands back an object whose session
  has committed and closed without expunging it, so the route's first read of it fails after
  the row is stored. "## Findings" describes it; the model answers with the intended 201.

## Model

| member | source | states |
|---|---|---|
| Slug.Lower | info_sur/services.py:40 | keeps the length (the fold itself is stated by `Slug.LowerPointwise`) |
| Slug.LowerPointwise | info_sur/services.py:40 | every character becomes its folded form, ASCII capitals and the seven accented capitals moving to lower case and everything else kept; no such capital is left |
| Slug.StripDisallowed | info_sur/services.py:41 | the result holds only characters of `[a-z0-9áéíóúñü\s-]` |
| Slug.StripChar | info_sur/services.py:41 | one character is kept exactly when it is in `[a-z0-9áéíóúñü\s-]`, and is dropped otherwise |
| Slug.StripAppend | info_sur/services.py:41 | the filter works character by character: filtering a concatenation concatenates the filtered parts |
| Slug.LowerAppend | info_sur/services.py:40 | lowering works character by character |
| Slug.HyphenateSpaces | info_sur/services.py:42 | replaces each plain space with a hyphen, keeping the length |
| Slug.HyphenateAppend | info_sur/services.py:42 | the space replacement works character by character |
| Slug.CollapseHyphens | info_sur/services.py:43 | leaves no two adjacent hyphens, takes its characters from the input and keeps its first character |
| Slug.CollapseChar | info_sur/services.py:43 | a single character passes the collapse unchanged |
| Slug.Hyphens | info_sur/services.py:43 | a run of k hyphens |
| Slug.CollapseRun | info_sur/services.py:43 | a run of one or more hyphens, followed by text not starting with one, becomes exactly one hyphen |
| Slug.CollapseAppend | info_sur/services.py:43 | after a non-hyphen the collapse splits: collapsing a concatenation concatenates the collapsed parts |
| Slug.TrimStart | info_sur/services.py:44 | removes only hyphens, all of them from the front: a suffix of the input, not starting with a hyphen, with only hyphens before it |
| Slug.TrimEnd | info_sur/services.py:44 | removes only hyphens, all of them from the back: a prefix of the input, not ending with a hyphen, with only hyphens after it |
| Slug.Slugify | info_sur/services.py:38-44 | the five rewrites in order; no contract of its own: `Slug.SlugifyIsSlug`, `Slug.SlugFixpoint` and `Slug.SlugifyIdempotent` state its properties, and the rows of the five stages state each rewrite |
| Slug.SlugifyIsSlug | info_sur/services.py:38-44 | every slug has only kept characters, no plain space, no `--` and no hyphen at either end |
| Slug.SlugFixpoint | info_sur/services.py:38-44 | `slugify(s) == s` exactly when `s` already has the slug shape |
| Slug.SlugifyIdempotent | info_sur/services.py:38-44 | `slugify(slugify(x)) == slugify(x)` |
| Slug.LowerOfLowered | info_sur/services.py:40 | lowering twice equals lowering once |
| Slug.StripKeepsKept | info_sur/services.py:41 | a string of kept characters passes the filter unchanged |
| Slug.CollapseKeepsSingleHyphens | info_sur/services.py:43 | a string without `--` passes the collapse unchanged |
| SlugExamples.HelloSpace | tests/test_services.py:8 | "Hello World" gives "hello-world" |
| SlugExamples.TestArticleNumber | tests/test_services.py:9 | "Test Article 123" gives "test-article-123" |
| SlugExamples.HelloWorld | tests/test_services.py:14 | "Hello, World!" gives "hello-world" |
| SlugExamples.TestArticle | tests/test_services.py:15 | "Test@Article#123" gives "testarticle123" |
| SlugExamples.Malaga | tests/test_services.py:20 | "Málaga" gives "málaga" |
| SlugExamples.Spain | tests/test_services.py:21 | "España año" gives "españa-año" |
| SlugExamples.MultipleSpaces | tests/test_services.py:26 | "Hello    World" gives "hello-world" |
| SlugExamples.SpacedHyphen | tests/test_services.py:27 | "Test  -  Article" gives "test-article" |
| SlugExamples.TabSurvives | info_sur/services.py:41-42 | a tab matches the whitespace class, is kept, and is not turned into a hyphen |
| Digits.Pad | info_sur/services.py:48 | a zero-padded field has exactly the field width and only digits |
| Digits.PadValue | info_sur/services.py:48 | a number below 10^width reads back from its padded digits |
| Digits.NatToStringValue | info_sur/services.py:325 | the decimal text of a number reads back as that number |
| Digits.NatToStringInjective | info_sur/services.py:325 | different numbers have different decimal texts |
| Digits.NatToString | info_sur/services.py:325 | `str(k)` is non-empty and all digits |
| Digits.NatToStringLength | info_sur/services.py:325 | a slot number has a one-character text exactly when it is below 10 |
| Timestamp.Format | info_sur/services.py:47-48 | the timestamp is exactly 14 ASCII digits |
| Timestamp.FormatFields | info_sur/services.py:47-48 | year, month, day, hour, minute and second read back from their fixed positions |
| Timestamp.FormatInjective | info_sur/services.py:47-48 | different moments give different timestamps |
| Articles.SlugBaseChoice | info_sur/services.py:197-198 | the slug base is the title if truthy, else the subtitle; "noticia" only when the subtitle key is absent |
| Articles.SlugBase | info_sur/services.py:197-198 | the text `slugify` is applied to, or None when it is not a string; no contract of its own: `Articles.SlugBaseChoice` states which key it comes from and `Articles.RecordSlug` what the slug then is |
| Articles.BuildRecord | info_sur/services.py:188-224 | the row `create_article_record` builds, or None for a non-text base; no contract of its own: `Articles.RecordSlug`, `Articles.PayloadContents`, `Articles.ImagePayloadContents` and `Articles.RecordColumns` state its slug, payloads and columns, and `Articles.Repository.Create` stores exactly it |
| Articles.LeaveSession | info_sur/services.py:214-228 | the object handed back after the session closes keeps its row readable exactly when it was expunged |
| Articles.SlugParts | info_sur/services.py:200 | a stored slug ends in a hyphen and the timestamp, and what precedes them is the slugified base |
| Articles.RecordSlug | info_sur/services.py:197-200 | a record exists exactly when the slug base is text; its slug splits back into slug and timestamp |
| Articles.PayloadContents | info_sur/services.py:202-204 | `article_data` has exactly the 16 fields (default "") plus `temas` and `image_prompts` |
| Articles.ImagePayloadContents | info_sur/services.py:206-212 | `image_data` copies the two URLs (None when absent), the metadata and the two captions |
| Articles.RecordColumns | info_sur/services.py:214-224 | the row's columns; the prompt columns hold the first two image prompts, None beyond the list |
| Articles.UpdateEffect | info_sur/services.py:262-278 | key by key: `temas`/`image_prompts` override, then payload keys, all else unchanged; `image_data` merged only when given; slug and creation time unchanged |
| Articles.ApplyUpdate | info_sur/services.py:262-278 | the merged row; no contract of its own: `Articles.UpdateEffect` states the key-by-key result and `Articles.Repository.Update` stores exactly it |
| Articles.Insert | info_sur/services.py:233 | inserting into a newest-first listing keeps it newest first, with the same elements plus one and distinct ids |
| Articles.Repository.NextId | info_sur/services.py:225-227 | the SQLite row id: larger than every id in use, one past the largest, 1 for an empty table |
| Articles.Repository.Create | info_sur/services.py:188-228 | stores the built record under a fresh id and nothing else; stores nothing when the slug base is not text |
| Articles.Repository.List | info_sur/services.py:231-243 | one summary per article, newest first, ids distinct, title from `mod_titulo` |
| Articles.Repository.Get | info_sur/services.py:246-251 | the article under that id, or None |
| Articles.Repository.GetBySlug | info_sur/services.py:254-259 | no match exactly when no row has the slug; a unique match is the only such row; several rows give an error |
| Articles.Repository.Update | info_sur/services.py:262-278 | None and no change for an unknown id; otherwise exactly that row replaced by its merged form |
| Articles.Repository.Delete | info_sur/services.py:281-287 | true exactly when the id existed; afterwards exactly that id is gone |
| Templates.LatestOf | info_sur/models.py:42-43 | None only for an empty store; otherwise a stored revision whose creation time is the greatest |
| Templates.SavedIsLatest | info_sur/services.py:69-74 | a revision saved no earlier than the others is the one read back |
| Templates.LatestIsLast | info_sur/models.py:42-43 | with a strictly increasing clock the latest revision is the last saved |
| Templates.TemplateStore.Save | info_sur/services.py:69-74 | appends one revision with the next id and leaves the earlier ones untouched |
| Templates.TemplateStore.Latest | info_sur/models.py:42-43 | the loop finds the revision `LatestOf` specifies |
| Templates.TemplateStore.Current | info_sur/services.py:51-66 | an empty store is seeded with the default, which is returned; a non-empty store is left unchanged and its latest HTML returned |
| Values.AllStrings | info_sur/services.py:153 | the items of a list are all strings exactly when each is present, and then they are those strings in order |
| Values.JoinList | info_sur/services.py:153 | `" y ".join` of a list: a list of strings is joined; a list with a non-string item fails exactly when some item is not a string |
| Values.JoinLength | info_sur/services.py:153 | the joined text's length is the parts' lengths plus one separator between each pair |
| Values.JoinEmpty | info_sur/services.py:318 | a join is empty exactly for no parts or one empty part |
| Values.JoinCons | info_sur/services.py:153 | joining a list of two or more puts the separator right after its first part |
| Values.ReprStr | info_sur/services.py:299 | `str` of a text inside a list adds exactly its two quotes |
| Values.ReprList | info_sur/services.py:299 | `str` of a list is bracketed, and is exactly "[]" only for the empty list |
| Values.ReprMap | info_sur/services.py:299 | `str` of a dictionary is braced, and is exactly "{}" only for the empty one |
| Values.ContainersPrintVisibly | info_sur/services.py:299 | a list or dictionary value never prints as empty text |
| Dom.Overwrite | info_sur/services.py:309-311 | keeps the root's tag, classes and attributes; with text content every selected node ends holding exactly it |
| Dom.OverwriteAt | info_sur/services.py:309-311 | every element of the overwritten tree is the element at the same path before, with the same tag, classes and attributes |
| Dom.OverwriteKeepsAbsent | info_sur/services.py:319-320 | overwriting with text never introduces a class into the tree |
| Dom.Remove | info_sur/services.py:330-333 | keeps the root's tag, classes and attributes; leaves no node of the class |
| Dom.RemoveKeepsOutside | info_sur/services.py:330-333 | a class survives removal exactly where it sits outside every removed subtree |
| Dom.OverwriteKeepsFilled | info_sur/services.py:319-328 | overwriting one class keeps another class's filled text when no node carries both |
| Dom.RemoveKeepsFilled | info_sur/services.py:330-333 | removal keeps every remaining node's filled text |
| Dom.Drop | info_sur/services.py:330-333 | the kept children are exactly the children without the class |
| Dom.OverwriteAbsent | info_sur/services.py:309-311 | overwriting a class no node carries leaves the tree as it was |
| Dom.RemoveAbsent | info_sur/services.py:330-333 | removing a class no node carries leaves the tree as it was |
| Dom.ImageAttrs | info_sur/services.py:302-307 | `src` is the URL, `alt` is the text or the previous alt, every other attribute unchanged |
| Dom.TextContent | info_sur/services.py:309-311 | a cleared node gets the text, or no children for the empty string |
| Dom.FillField | info_sur/services.py:297-311 | every non-img node of the field holds exactly the field text; with a URL every img node of the field points at it |
| Dom.FillFieldAt | info_sur/services.py:297-311 | every element of the result is the element at the same path before, same tag and classes; attributes change only on a matched img, and then as the image rule says |
| Dom.KeepImagesUntouched | info_sur/services.py:301-308 | without a URL for the field, every element at every path keeps its tag and attributes, so img nodes keep `src` and `alt` whatever else the field matches |
| Dom.ImageOnlyFieldUnchanged | info_sur/services.py:301-308 | a field whose only matches are img nodes, with no URL for it, leaves the tree exactly as it was |
| Dom.FillFieldKeepsFilled | info_sur/services.py:297-311 | filling one field keeps another field's non-img nodes holding their text when no node carries both classes |
| Dom.FillFieldAbsent | info_sur/services.py:300 | a field no node carries changes nothing |
| Dom.FillFieldIdempotent | info_sur/services.py:297-311 | filling a field twice equals filling it once |
| Render.SlotClassInjective | info_sur/services.py:325 | different topic slots have different classes, so `mod_tema1` never selects `mod_tema10` |
| Render.FieldTextEmpty | info_sur/services.py:299 | the written text is empty exactly for None, "" and values printing as "" |
| Render.ImageRuleFor | info_sur/services.py:301-307 | an img of a field gets a new source exactly for `mod_pie1` with a truthy primary URL or `mod_pie2` with a truthy secondary URL |
| Render.ScalarPassFilled | info_sur/services.py:297-311 | after the scalar pass, when no template node carries two field classes, every non-img node of each field holds exactly that field's text |
| Render.ScalarPass | info_sur/services.py:297-311 | the first k fields applied in order; no contract of its own: `Render.ScalarPassFilled` states the filled text and `Render.FillFields` computes it with the loop |
| Render.AuthorsPass | info_sur/services.py:313-320 | the authors loop; no contract of its own: `Render.AuthorsFailure`, `Render.AuthorsFromList`, `Render.AuthorsFromMixedList` and `Render.EmptyAuthorListShowsBrackets` state its outcomes |
| Render.TopicItems | info_sur/services.py:324 | what `enumerate` walks through; no contract of its own: `Render.TopicsIterable` states when it fails |
| Render.FillSlots | info_sur/services.py:324-328 | the topics loop up to slot k; no contract of its own: `Render.FillSlotsFilled`, `Render.FillSlotsFailure` and `Render.FillSlotsFailureKept` state its outcomes and `Render.FillTopics` computes it with the loop |
| Render.RemoveSlots | info_sur/services.py:330-333 | the removal of slots from lo to 9; no contract of its own: `Render.RemoveSlotsClears` states what is gone and `Render.RemoveExtraSlots` computes it with the loop |
| Render.TopicsPass | info_sur/services.py:322-333 | filling, then removal; no contract of its own: `Render.TopicsOutcome`, `Render.TopicsRemoved`, `Render.TopicsFilled` and `Render.TopicsFailure` state its outcomes |
| Render.RenderSpec | info_sur/services.py:290-335 | the three passes in order; no contract of its own: `Render.RenderArticle` computes it, and `Render.RenderedTopics` and `Render.ScalarPassFilled` state what the page holds |
| Render.FillFields | info_sur/services.py:297-311 | the field loop computes the scalar pass over all sixteen fields |
| Render.FinishRender | info_sur/services.py:313-333 | the authors loop and the two topic loops compute the authors and topics passes |
| Render.FillTopics | info_sur/services.py:324-328 | the topic loop computes `FillSlots`, stopping at the first append that raises |
| Render.RemoveExtraSlots | info_sur/services.py:329-333 | the removal loop computes `RemoveSlots` |
| Render.RenderArticle | info_sur/services.py:290-335 | the three passes compute the pass-by-pass specification `RenderSpec`, failing where the source raises |
| Render.EmptyAuthorListShowsBrackets | info_sur/services.py:297-320 | an empty author list shows as "[]" and the authors pass leaves it there |
| Render.AuthorsFromList | info_sur/services.py:313-320 | a list of authors is joined with " y " into every author node, unless the join is empty |
| Render.AuthorsFailure | info_sur/services.py:313-320 | with a node selecting `mod_autores`, the pass fails exactly for a list holding a non-string item (the join raises) or a truthy dictionary or scalar (the append raises); without one it never fails |
| Render.AuthorsFromMixedList | info_sur/services.py:313-320 | a list whose items are all strings renders like the plain list of those strings |
| Render.RemoveSlotsClears | info_sur/services.py:329-333 | after the removal loop no slot from the first removed one to 9 is left |
| Render.FillSlotsFilled | info_sur/services.py:322-328 | slot k holds topic k for every filled slot whose topic is a string, when no node has two slot classes |
| Render.FillSlotsFailure | info_sur/services.py:324-328 | filling fails only on a non-string topic whose slot the template has |
| Render.FillSlotsFailureKept | info_sur/services.py:324-328 | a failure at one slot is the result of the whole loop |
| Render.TopicsIterable | info_sur/services.py:324 | `enumerate(temas)` fails exactly for None and for a number or boolean |
| Render.TopicsRemoved | info_sur/services.py:329-333 | after a successful topics pass no slot between the last topic and 9 is left |
| Render.TopicsFilled | info_sur/services.py:322-328 | after a successful topics pass each slot shows its string topic, when no node has two slot classes |
| Render.TopicsOutcome | info_sur/services.py:322-333 | a successful topics pass fills slot k with every string topic k and removes slots n+1..9 |
| Render.TopicsFailure | info_sur/services.py:295-328 | `temas` that is None or a scalar is exactly the not-iterable failure; any other failure is a non-string topic whose slot the template has; a missing key means no topics |
| Render.HighSlotsNeverTargeted | info_sur/services.py:329-333 | slots 10 and above are never among the removed classes |
| Render.RenderedTopics | info_sur/services.py:290-335 | end to end: slot k shows topic k when it is a string, and no slot between the last topic and 9 remains |
| Generation.SatireDescriptor | info_sur/services.py:84-88 | sober exactly up to 10, balanced exactly from 11 to 60, absurd exactly above 60 |
| Generation.SatireMonotone | info_sur/services.py:84-88 | the tone never becomes less satirical as the level rises |
| Generation.JoinAuthors | info_sur/services.py:152-153 | a list of authors becomes its " y " join, anything else is kept, other keys unchanged; fails exactly for a list holding a non-string item |
| Generation.NormalizeEffect | info_sur/services.py:148-153 | fails exactly for an author list with a non-string item; otherwise city defaults to "Málaga", authors default to "" and a list is joined with " y ", other keys unchanged |
| Generation.NormalizeModules | info_sur/services.py:148-153 | the two `setdefault`s, then the join; no contract of its own: `Generation.NormalizeEffect`, `Generation.NormalizeNames` and `Generation.NormalizeIdempotent` state its result |
| Generation.NormalizeNames | info_sur/services.py:150-153 | a list of author names is always joined with " y " |
| Generation.NormalizeIdempotent | info_sur/services.py:148-153 | normalising succeeded modules again changes nothing |
| Generation.SlugTitle | info_sur/services.py:179 | the reply's `slug_title` when truthy, otherwise the title or "" |
| Generation.CompositePrompt | info_sur/services.py:165 | every image prompt starts with the fixed illustration lead |
| Generation.AssignImages | info_sur/services.py:158-176 | index 0 fills the primary slot and index 1 the secondary; each records its URL and, in order, its prompt |
| Generation.SlotFacts | info_sur/services.py:161-176 | missing or empty prompts and failed calls leave a slot empty; a success carries its URL; prompts past the second are ignored |
| Generation.Generate | info_sur/services.py:77-185 | missing or empty key and a failed reply are the two `RuntimeError`s; an unjoinable author list the `TypeError`; otherwise normalised modules, defaults for topics and captions, and the assigned images |
| Paths.Split | info_sur/app.py:68 | the pieces between slashes; none holds a slash |
| Paths.SplitJoin | info_sur/app.py:68 | joining the pieces with "/" gives the path back |
| Paths.SplitAppend | info_sur/app.py:77 | a slash splits a path into the pieces of its two sides |
| Paths.Keep | info_sur/app.py:68 | keeps exactly the pieces that are neither empty nor "." |
| Paths.Parts | info_sur/app.py:68 | parsed components are never empty, "." or hold a slash |
| Paths.LastDot | info_sur/app.py:68 | the last dot's position, None exactly when there is no dot |
| Paths.Suffix | info_sur/app.py:68 | the suffix is empty or starts at the name's last dot, which is not its first or last character |
| Paths.SuffixOf | info_sur/app.py:68 | `stem.ext` has the suffix `.ext` |
| Paths.RootIs | info_sur/app.py:78 | the resolved image directory is the working directory followed by data/images |
| Paths.WalkCanonical | info_sur/app.py:77 | resolving components without "..", "." or "" just appends them |
| Paths.InsideAccepted | info_sur/app.py:76-79 | a relative name without ".." resolves below the image directory and passes the check |
| Paths.ParentEscapeRefused | info_sur/app.py:76-79 | `../../<n>` resolves outside the image directory and the check refuses it |
| Paths.SiblingAccepted | info_sur/app.py:76-79 | `../images<tail>/<n>` resolves outside the image directory, yet the string check passes it |
| Paths.ServeImage | info_sur/app.py:64-81 | checks extension, then directory existence, then traversal; only a request passing all three is served |
| Paths.ExtensionAllowed | info_sur/app.py:66-70 | the lowered suffix is one of the six extensions; no contract of its own: `Paths.ServeImage`, `Paths.ExecutableRefused`, `Paths.PngAllowed` and `Paths.UpperCaseExtension` state it |
| Paths.TargetParts | info_sur/app.py:76-77 | the components of the resolved target; no contract of its own: `Paths.InsideAccepted`, `Paths.ParentEscapeRefused` and `Paths.SiblingAccepted` state where it lands |
| Paths.PrefixInside | info_sur/app.py:78-79 | the string-prefix comparison; no contract of its own: `Paths.InsideAccepted`, `Paths.ParentEscapeRefused` and `Paths.SiblingAccepted` state when it holds |
| Paths.ExecutableRefused | tests/test_app.py:68-71 | "test.exe" is refused by the extension check |
| Paths.PngAllowed | info_sur/app.py:67-70 | ".PNG" folds to an allowed extension |
| Paths.TraversalRefused | tests/test_app.py:74-78 | "../../../etc/passwd" is refused, already by the extension check |
| Paths.UpperCaseExtension | info_sur/app.py:67-70 | "photo.PNG" is served: the extension is compared in lower case |
| Routes.LastFourteen | info_sur/app.py:180 | the last min(14, length) characters |
| Routes.DigitsAllowed | info_sur/app.py:176-181 | every non-empty all-digit path passes the guard, shorter or longer than 14 |
| Routes.ArticlePathAllowed | info_sur/app.py:176-181 | the four guards of `serve_article`; no contract of its own: `Routes.DigitsAllowed`, `Routes.NonDigitRefused`, `Routes.InvalidSlugRefused`, `Routes.NotApiPath` and `Routes.CreatedSlugAllowed` state it |
| Routes.NumericTestPath | info_sur/app.py:180 | "12345" passes the guard |
| Routes.NonDigitRefused | info_sur/app.py:180-181 | a non-digit among the last 14 characters refuses the path |
| Routes.InvalidSlugRefused | tests/test_app.py:80-83 | "invalid-slug" is refused by the guard |
| Routes.WellFormedTestPath | tests/test_app.py:86-89 | "test-article-20231225120000" passes the guard, so only the lookup can answer 404 |
| Routes.CreatedSlugAllowed | info_sur/app.py:176-181 | every slug the repository stores passes the guard |
| Routes.RowsWithSlug | info_sur/services.py:254-259 | the ids of exactly the rows with that slug |
| Routes.ServeArticle | info_sur/app.py:174-186 | a 404 exactly for a refused path or an unknown slug; several rows are a 500; for the only row, the current template (seeded into an empty store) is rendered: a page, or a 500 when rendering fails; the store is touched only then |
| Routes.FilterPrompts | info_sur/app.py:94 | keeps exactly the present, non-empty prompts |
| Routes.FilterPromptsAppend | info_sur/app.py:94 | the filter keeps the prompts' order |
| Routes.ParseCreate | info_sur/app.py:91-96 | satire conversion fails first (500); then a missing or empty prompt is a 400; the level defaults to 50 |
| Routes.StoreAuthorsAfterNormalize | info_sur/app.py:107-110 | the route's join never fails on, and never changes, modules the generator normalised |
| Routes.ApiCreateArticle | info_sur/app.py:90-128 | parse errors, a missing key and a failed reply are refused as 400s, an unjoinable author list and a non-text slug base as 500s, all without storing; otherwise it creates exactly one new row, the record built from the request, the generated modules, topics and images and the clock, reachable through the guard, and answers with its id, slug and timestamp as the corrected `Routes.CreatedAnswer` of "## Findings" does |
| Routes.CreatedAnswer | info_sur/app.py:122-128 | the 201 body with the row's id, slug and timestamp exactly when the handle is readable, and a 500 otherwise |
| Routes.CreatedAnswerAsWritten | info_sur/services.py:214-228 | as written, every stored row is answered with a 500 |
| Routes.CreatedAnswerIntended | info_sur/services.py:246-251 | with the row expunged, as `get_article` does, the answer is the stored id, slug and timestamp, unlike the answer as written |
| Routes.TemplateBody | info_sur/app.py:167-170 | only a missing or null template is refused; "" is accepted |
| Routes.ApiUpdateTemplate | info_sur/app.py:165-172 | a missing template is a 400 and changes nothing; otherwise one revision is appended and is the one read next |

## Left out

- The OpenAI text and image calls are left out (info_sur/services.py:79-83, 133-146,
  167-172). They are the parameters `ask` and `gen`. The system and user prompt texts are
  not modelled; only the tone and the user's prompt reach `ask`.
- JSON decoding of the reply and of request bodies is left out. Values outside the model's
  shapes are not modelled: a non-dictionary `modules`, a non-string truthy prompt, a
  non-string template, a non-list `image_prompts`, or non-dictionary `article_data` and
  `image_data` in an update.
- HTML parsing and serialisation are left out. The renderer starts from the parsed template
  tree and stops at the mutated tree; in `Routes.ServeArticle` the parser is the parameter
  `parse`. `prettify` escaping is outside the model.
- A list item that is not a string is modelled as absent (`MixedList`), and a dictionary
  holding non-string values by its keys and its printed form (`MixedMap`). Their contents
  matter to the services only through the join, the iteration and `str()`.
- Persistence is left out. SQLAlchemy sessions, commit and rollback are not modelled, and
  each repository method is one atomic step. The only session effect modelled is the
  expiry of the object `create_article_record` returns (see "## Findings"). Concurrent first reads of the template store
  are not modelled.
- The clock is a parameter: `datetime.utcnow()`, the `created_at` defaults, and
  `created_at.isoformat()` in the listing. Creation times are integers.
- The file system is not modelled:
  - reading the bundled default template is a parameter;
  - `images_dir.exists()` is a boolean parameter;
  - the working directory is a parameter;
  - symlink resolution is not done;
  - `send_from_directory`, with its own checks, is not part of this model.
- Flask plumbing is left out: routing, rate limits, logging, redirects and the thin
  `api_get_article`, `api_update_article`, `api_delete_article` and `api_list_articles`
  wrappers. Those wrappers map the repository's None/false to a 404.
- `info_sur/version.py` (git subprocess calls) and `info_sur/static/js/editor.js` (browser
  UI) are not part of this model.
- Slug.Lower: folds only ASCII capitals and the seven accented capitals, not full Unicode
  `str.lower()`.
- Paths.ExtensionAllowed: compares the suffix in lower case using the same restricted
  folding.
- Routes.ArticlePathAllowed: accepts only ASCII digits, whereas `str.isdigit()` also accepts
  other Unicode digits.
- Timestamp.Format: only four-digit years (1000 to 9999) are modelled.
- Values.ReprStr: quotes the text as is, which is exact only for strings without quotes,
  backslashes or unprintable characters.
- Templates.LatestOf: on equal creation times it returns the later-saved revision. The SQL
  query leaves that order unspecified.
- Articles.SlugBase: a non-text slug base gives `None`, where the source raises from
  `lower()`. `Routes.ApiCreateArticle` turns that into a server error.
- Paths.Parts: does not model the POSIX special case of a path starting with exactly two
  slashes. Flask's path converter never produces a leading slash.
- Render.FillSlotsFailure: states that a failure needs a non-string topic whose slot the
  template has, not the converse, because filling an earlier slot can detach that node first.
- Values.MixedList / Values.MixedMap: the printed form `text` is a free field. It is not
  tied to the items, so values whose `str()` Python could never produce (an empty text for a
  non-empty list) are included, and `Render.FieldTextEmpty` covers them too.
- Render.ImageRuleFor: a truthy `primary` or `secondary` URL that is not a string is written
  into `src` as its printed form. bs4 stores the raw value, and serialises a list value
  joined by spaces. Such a value reaches the renderer only through an update's `image_data`.
- Generation.SlugTitle: the fallback is computed as in the source but never used by any
  caller.
- Note: two articles created within the same second from the same title get the same slug.
  The model keeps both rows, and `Articles.Repository.GetBySlug` then reports several
  matches, which `Routes.ServeArticle` answers as a server error.

## Findings

| source | as written | input that shows it | evidently intended | confidence | as-written member | corrected member |
|---|---|---|---|---|---|---|
| info_sur/services.py:214-228 with info_sur/app.py:122-128 | `create_article_record` returns the new object from inside `with get_session()` without `session.expunge`. Leaving the block commits, which expires the object's attributes with the session factory's default `expire_on_commit`, and closes the session, which detaches the object. The route's `article.slug` then raises `DetachedInstanceError`, a 500, although the row is committed | any successful creation, for instance a prompt "x" whose reply holds `mod_titulo` "Hola" | a 201 with the new row's id, slug and timestamp, which the editor reads; `get_article` and `get_article_by_slug` expunge for this reason | medium; not executed, it rests on SQLAlchemy's documented session defaults | Routes.CreatedAnswerAsWritten | Routes.CreatedAnswerIntended |
