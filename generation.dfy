/**
 * The provider-independent parts of `generate_article_via_openai`: the tone chosen from the
 * satire level, the defaults and author join applied to the returned modules, the
 * assignment of at most two generated images to the primary and secondary slots, and the
 * `slug_title` fallback. The text and image providers are parameters.
 */
module Generation {
  import opened Wrappers
  import opened Values

  const Sober: string := "totalmente sobrio y profesional"
  const Balanced: string := "equilibrio entre rigor y s\U{00E1}tira"
  const Absurd: string := "altamente absurdo, pero manteniendo estructura period\U{00ED}stica"

  const MissingKeyMessage: string := "OPENAI_API_KEY environment variable is not set"
  const GenerationFailedMessage: string := "No se pudo generar el art\U{00ED}culo con OpenAI"

  const DefaultCity: string := "M\U{00E1}laga"
  const AuthorSeparator: string := " y "

  /** The tone sent to the provider: sober up to 10, balanced up to 60, absurd above. */
  function SatireDescriptor(level: int): (d: string)
    ensures d == Sober <==> level <= 10
    ensures d == Balanced <==> 10 < level <= 60
    ensures d == Absurd <==> 60 < level
  {
    if level <= 10 then Sober else if level <= 60 then Balanced else Absurd
  }

  /** The tone never gets less satirical as the level rises. */
  lemma SatireMonotone(a: int, b: int)
    requires a <= b
    ensures SatireDescriptor(a) == Absurd ==> SatireDescriptor(b) == Absurd
    ensures SatireDescriptor(b) == Sober ==> SatireDescriptor(a) == Sober
  {
  }

  /**
   * `if isinstance(modules.get("mod_autores"), list): modules["mod_autores"] = " y ".join(...)`:
   * a list of authors becomes one string, anything else is kept; `None` when the join raises
   * `TypeError` on an item that is not a string.
   */
  function JoinAuthors(m: Dict): (r: Option<Dict>)
    ensures r.None? <==> "mod_autores" in m && IsList(m["mod_autores"]) && JoinList(m["mod_autores"], AuthorSeparator).None?
    ensures r.Some? ==>
      && r.value.Keys == m.Keys
      && (forall k :: k in m && k != "mod_autores" ==> r.value[k] == m[k])
      && ("mod_autores" in m ==> !IsList(r.value["mod_autores"]))
      && ("mod_autores" in m && IsList(m["mod_autores"]) ==>
            r.value["mod_autores"] == Str(JoinList(m["mod_autores"], AuthorSeparator).value))
      && ("mod_autores" in m && !IsList(m["mod_autores"]) ==> r.value["mod_autores"] == m["mod_autores"])
  {
    if "mod_autores" in m && IsList(m["mod_autores"]) then
      match JoinList(m["mod_autores"], AuthorSeparator)
      case None => None
      case Some(joined) => Some(m["mod_autores" := Str(joined)])
    else Some(m)
  }

  /** Joining the authors of modules that hold no list of authors changes nothing. */
  lemma JoinAuthorsNoList(m: Dict)
    requires "mod_autores" in m ==> !IsList(m["mod_autores"])
    ensures JoinAuthors(m) == Some(m)
  {
  }

  /**
   * `modules.setdefault("mod_ciudad", "Málaga")`, `modules.setdefault("mod_autores", [])`,
   * then the join of a list of authors.
   */
  function NormalizeModules(m: Dict): Option<Dict> {
    var withCity := if "mod_ciudad" in m then m else m["mod_ciudad" := Str(DefaultCity)];
    var withAuthors := if "mod_autores" in withCity then withCity else withCity["mod_autores" := StrList([])];
    JoinAuthors(withAuthors)
  }

  /**
   * Normalisation fails exactly when the authors are a list holding something other than a
   * string. Otherwise the modules always have a city and never a list of authors: a missing
   * city becomes "Málaga", missing authors become "", a list is joined with " y ", and every
   * other key is kept as it was.
   */
  lemma NormalizeEffect(m: Dict)
    ensures NormalizeModules(m).None? <==>
      "mod_autores" in m && IsList(m["mod_autores"]) && JoinList(m["mod_autores"], AuthorSeparator).None?
    ensures NormalizeModules(m).Some? ==>
      var r := NormalizeModules(m).value;
      && r.Keys == m.Keys + {"mod_ciudad", "mod_autores"}
      && r["mod_ciudad"] == (if "mod_ciudad" in m then m["mod_ciudad"] else Str(DefaultCity))
      && !IsList(r["mod_autores"])
      && ("mod_autores" !in m ==> r["mod_autores"] == Str([]))
      && ("mod_autores" in m && IsList(m["mod_autores"]) ==>
            r["mod_autores"] == Str(JoinList(m["mod_autores"], AuthorSeparator).value))
      && ("mod_autores" in m && !IsList(m["mod_autores"]) ==> r["mod_autores"] == m["mod_autores"])
      && (forall k :: k in m && k != "mod_ciudad" && k != "mod_autores" ==> r[k] == m[k])
  {
  }

  /** A list of author names is always joined; only a non-string item makes the join raise. */
  lemma NormalizeNames(m: Dict, names: seq<string>)
    requires "mod_autores" in m && m["mod_autores"] == StrList(names)
    ensures NormalizeModules(m).Some?
    ensures NormalizeModules(m).value["mod_autores"] == Str(Join(names, AuthorSeparator))
  {
  }

  /** Normalising what normalisation produced changes nothing. */
  lemma NormalizeIdempotent(m: Dict)
    requires NormalizeModules(m).Some?
    ensures NormalizeModules(NormalizeModules(m).value) == NormalizeModules(m)
  {
    NormalizeEffect(m);
    var r := NormalizeModules(m).value;
    NormalizeEffect(r);
    assert NormalizeModules(r) == Some(r);
  }

  /** `data.get("slug_title") or modules.get("mod_titulo", "")`. */
  function SlugTitle(slugTitle: Value, modules: Dict): (r: Value)
    ensures Truthy(slugTitle) ==> r == slugTitle
    ensures !Truthy(slugTitle) ==> r == Get(modules, "mod_titulo", Str([]))
  {
    if Truthy(slugTitle) then slugTitle else Get(modules, "mod_titulo", Str([]))
  }

  /** What the image provider did for one slot: raised, or returned an image whose URL may be missing. */
  datatype ImageOutcome = Failed | Generated(url: Option<string>)

  const ImagePromptLead: string :=
    "Ilustraci\U{00F3}n sat\U{00ED}rica estilo fotoperiodismo andaluz. Contexto del art\U{00ED}culo: "

  /** The prompt sent to the image provider for one slot. */
  function CompositePrompt(prompt: string, detail: string): (r: string)
    ensures ImagePromptLead <= r
  {
    ImagePromptLead + prompt + ". Detalle: " + detail + "."
  }

  /** The outcome of slot `idx`: skipped for a missing or empty prompt, dropped when the provider fails. */
  function SlotResult(prompt: string, prompts: seq<string>, idx: nat, gen: string -> ImageOutcome): Option<(Option<string>, string)> {
    if idx < |prompts| && prompts[idx] != [] then
      var composite := CompositePrompt(prompt, prompts[idx]);
      match gen(composite)
      case Failed => None
      case Generated(url) => Some((url, composite))
    else None
  }

  function SlotUrl(slot: Option<(Option<string>, string)>): Option<string> {
    if slot.Some? then slot.value.0 else None
  }

  function SlotEntry(slot: Option<(Option<string>, string)>, key: string): seq<(string, string)> {
    if slot.Some? then [(key, slot.value.1)] else []
  }

  function SlotKey(idx: nat): string {
    if idx == 0 then "prompt" else "prompt_secondary"
  }

  /**
   * The image loop over `image_prompts[:2]`: index 0 feeds the primary slot and index 1 the
   * secondary one, each recording its URL and, in order, the prompt that produced it.
   */
  method AssignImages(prompt: string, prompts: seq<string>, gen: string -> ImageOutcome)
    returns (primary: Option<string>, secondary: Option<string>, metadata: seq<(string, string)>)
    ensures primary == SlotUrl(SlotResult(prompt, prompts, 0, gen))
    ensures secondary == SlotUrl(SlotResult(prompt, prompts, 1, gen))
    ensures metadata == SlotEntry(SlotResult(prompt, prompts, 0, gen), "prompt")
                        + SlotEntry(SlotResult(prompt, prompts, 1, gen), "prompt_secondary")
  {
    primary, secondary, metadata := None, None, [];
    var considered := if |prompts| < 2 then prompts else prompts[..2];
    var idx := 0;
    while idx < |considered|
      invariant 0 <= idx <= |considered| <= 2
      invariant considered == prompts[..|considered|]
      invariant primary == (if idx > 0 then SlotUrl(SlotResult(prompt, prompts, 0, gen)) else None)
      invariant secondary == (if idx > 1 then SlotUrl(SlotResult(prompt, prompts, 1, gen)) else None)
      invariant metadata == (if idx > 0 then SlotEntry(SlotResult(prompt, prompts, 0, gen), "prompt") else [])
                            + (if idx > 1 then SlotEntry(SlotResult(prompt, prompts, 1, gen), "prompt_secondary") else [])
    {
      var detail := considered[idx];
      if detail == [] {
        idx := idx + 1;
        continue;
      }
      var composite := CompositePrompt(prompt, detail);
      var outcome := gen(composite);
      if outcome.Failed? {
        idx := idx + 1;
        continue;
      }
      if idx == 0 {
        primary := outcome.url;
      } else {
        secondary := outcome.url;
      }
      metadata := metadata + [(SlotKey(idx), composite)];
      idx := idx + 1;
    }
  }

  /**
   * Only the first two prompts are ever used; an empty prompt or a failed call leaves its slot
   * empty, and a slot whose call succeeded carries the returned URL.
   */
  lemma SlotFacts(prompt: string, prompts: seq<string>, idx: nat, gen: string -> ImageOutcome)
    ensures idx >= |prompts| || prompts[idx] == [] ==> SlotResult(prompt, prompts, idx, gen).None?
    ensures idx < |prompts| && prompts[idx] != [] && gen(CompositePrompt(prompt, prompts[idx])).Failed?
      ==> SlotResult(prompt, prompts, idx, gen).None?
    ensures idx < |prompts| && prompts[idx] != [] && gen(CompositePrompt(prompt, prompts[idx])).Generated?
      ==> SlotUrl(SlotResult(prompt, prompts, idx, gen)) == gen(CompositePrompt(prompt, prompts[idx])).url
    ensures idx < 2 && 2 <= |prompts| ==> SlotResult(prompt, prompts, idx, gen) == SlotResult(prompt, prompts[..2], idx, gen)
  {
  }

  /** What the text provider is asked: the tone and the user's prompt. */
  datatype TextRequest = TextRequest(tone: string, prompt: string)

  /** The parsed JSON reply; a missing key is `None`. */
  datatype Reply = Reply(modules: Option<Dict>, temas: Option<Value>, imagenes: Option<Value>, slugTitle: Option<Value>)

  datatype GenerationResult = GenerationResult(
    slugTitle: Value,
    modules: Dict,
    temas: Value,
    imageCaptions: Value,
    imageUrls: Dict,
    imageMetadata: Value)

  /**
   * What `generate_article_via_openai` raises: a `RuntimeError` with its message (which the
   * route turns into a 400), or the `TypeError` of the author join (which it does not catch).
   */
  datatype GenerationError = Runtime(message: string) | AuthorJoinFailed

  /** The `image_urls` of the result: each slot's URL, or None. */
  function GeneratedUrls(prompt: string, imagePrompts: seq<string>, gen: string -> ImageOutcome): Dict {
    map[
      "primary" := UrlValue(SlotUrl(SlotResult(prompt, imagePrompts, 0, gen))),
      "secondary" := UrlValue(SlotUrl(SlotResult(prompt, imagePrompts, 1, gen)))]
  }

  /** The `image_metadata` of the result: the full prompt of each slot that produced an image. */
  function GeneratedMetadata(prompt: string, imagePrompts: seq<string>, gen: string -> ImageOutcome): Value {
    StrMap(SlotEntry(SlotResult(prompt, imagePrompts, 0, gen), "prompt")
           + SlotEntry(SlotResult(prompt, imagePrompts, 1, gen), "prompt_secondary"))
  }

  function UrlValue(url: Option<string>): Value {
    if url.Some? then Str(url.value) else Null
  }

  /**
   * `generate_article_via_openai`. A missing or empty key and a failed or unparsable reply
   * (`ask` returns `None`) are its two `RuntimeError`s, and an author list that cannot be
   * joined its `TypeError`; otherwise the reply is normalised and the images are assigned.
   */
  method Generate(
    apiKey: Option<string>, prompt: string, satireLevel: int, imagePrompts: seq<string>,
    ask: TextRequest -> Option<Reply>, gen: string -> ImageOutcome)
    returns (r: Result<GenerationResult, GenerationError>)
    ensures apiKey.None? || apiKey.value == [] ==> r == Err(Runtime(MissingKeyMessage))
    ensures apiKey.Some? && apiKey.value != [] && ask(TextRequest(SatireDescriptor(satireLevel), prompt)).None?
      ==> r == Err(Runtime(GenerationFailedMessage))
    ensures apiKey.Some? && apiKey.value != [] && ask(TextRequest(SatireDescriptor(satireLevel), prompt)).Some?
      ==> var reply := ask(TextRequest(SatireDescriptor(satireLevel), prompt)).value;
          (r == Err(AuthorJoinFailed) <==> NormalizeModules(reply.modules.GetOr(map[])).None?)
    ensures r.Ok? <==>
      && apiKey.Some? && apiKey.value != []
      && ask(TextRequest(SatireDescriptor(satireLevel), prompt)).Some?
      && NormalizeModules(ask(TextRequest(SatireDescriptor(satireLevel), prompt)).value.modules.GetOr(map[])).Some?
    ensures r.Ok? ==>
      && var reply := ask(TextRequest(SatireDescriptor(satireLevel), prompt)).value;
      && var modules := NormalizeModules(reply.modules.GetOr(map[])).value;
      && r.value.modules == modules
      && r.value.temas == reply.temas.GetOr(StrList([]))
      && r.value.imageCaptions == reply.imagenes.GetOr(StrMap([]))
      && r.value.slugTitle == SlugTitle(reply.slugTitle.GetOr(Null), modules)
      && r.value.imageUrls == GeneratedUrls(prompt, imagePrompts, gen)
      && r.value.imageMetadata == GeneratedMetadata(prompt, imagePrompts, gen)
  {
    if apiKey.None? || apiKey.value == [] {
      return Err(Runtime(MissingKeyMessage));
    }
    var reply := ask(TextRequest(SatireDescriptor(satireLevel), prompt));
    if reply.None? {
      return Err(Runtime(GenerationFailedMessage));
    }
    var normalized := NormalizeModules(reply.value.modules.GetOr(map[]));
    if normalized.None? {
      return Err(AuthorJoinFailed);
    }
    var modules := normalized.value;
    var primary, secondary, metadata := AssignImages(prompt, imagePrompts, gen);
    r := Ok(GenerationResult(
      SlugTitle(reply.value.slugTitle.GetOr(Null), modules),
      modules,
      reply.value.temas.GetOr(StrList([])),
      reply.value.imagenes.GetOr(StrMap([])),
      map["primary" := UrlValue(primary), "secondary" := UrlValue(secondary)],
      StrMap(metadata)));
  }
}
