/**
 * `render_article_html`: the three passes over the parsed template. Parsing the template and
 * serialising the result are not modelled; the renderer maps a tree to a tree, or to the
 * error the source raises.
 */
module Render {
  import opened Wrappers
  import opened Values
  import opened Digits
  import opened Dom
  import opened Articles

  const TagPrefix: string := "mod_tema"

  /** The class of topic slot `k`: `mod_tema1`, `mod_tema2`, ... */
  function SlotClass(k: nat): string {
    TagPrefix + NatToString(k)
  }

  /** Distinct slots have distinct classes; in particular `mod_tema1` never selects `mod_tema10`. */
  lemma SlotClassInjective(j: nat, k: nat)
    requires SlotClass(j) == SlotClass(k)
    ensures j == k
  {
    assert SlotClass(j)[|TagPrefix|..] == NatToString(j);
    assert SlotClass(k)[|TagPrefix|..] == NatToString(k);
    NatToStringInjective(j, k);
  }

  /** The tree BeautifulSoup builds: its root is the document itself, which no selector matches. */
  predicate IsSoup(doc: Node) {
    doc.Element? && doc.classes == {}
  }

  /** The text the scalar pass writes: "" for None, otherwise `str(value)`. */
  function FieldText(v: Value): string {
    if v == Null then [] else PyStr(v)
  }

  /** The scalar pass leaves a field's nodes empty exactly for None, "" and values printing as "". */
  lemma FieldTextEmpty(v: Value)
    ensures FieldText(v) == [] <==> v == Null || v == Str([]) || ((v.Other? || v.MixedList? || v.MixedMap?) && v.text == [])
  {
  }

  /** What happens to the `img` nodes of a field: only the two caption fields with a truthy URL set one. */
  function ImageRuleFor(field: string, imageData: Dict): (r: ImageRule)
    ensures r.SetImage? <==>
      || (field == "mod_pie1" && Truthy(Get(imageData, "primary", Null)))
      || (field == "mod_pie2" && Truthy(Get(imageData, "secondary", Null)))
  {
    if field == "mod_pie1" && Truthy(Get(imageData, "primary", Null)) then SetImage(PyStr(imageData["primary"]))
    else if field == "mod_pie2" && Truthy(Get(imageData, "secondary", Null)) then SetImage(PyStr(imageData["secondary"]))
    else KeepImage
  }

  /** The first `k` fields of the scalar pass, in field order. */
  function ScalarPass(doc: Node, data: Dict, imageData: Dict, k: nat): Node
    requires k <= |ArticleFields|
  {
    if k == 0 then doc
    else
      var field := ArticleFields[k - 1];
      FillField(ScalarPass(doc, data, imageData, k - 1), field, FieldText(Get(data, field, Str([]))), ImageRuleFor(field, imageData))
  }

  datatype RenderError =
    | AuthorsNotText     // a truthy `mod_autores` that is neither a string nor a list cannot be appended
    | AuthorsNotJoinable // a list of authors with an item that is not a string makes the join raise
    | TopicsNotIterable  // `temas` is None or a scalar, so `enumerate` fails
    | TopicNotText       // a topic that is not a string cannot be appended to its slot

  /** The authors value after the re-join of a list with " y "; `None` when the join raises. */
  function AuthorsValue(data: Dict): Option<Value> {
    var v := Get(data, "mod_autores", Null);
    if IsList(v) then
      match JoinList(v, " y ")
      case None => None
      case Some(joined) => Some(Str(joined))
    else Some(v)
  }

  /**
   * The authors pass: the value is re-read and re-joined for every `mod_autores` node, so it
   * can only fail when there is one; the nodes are overwritten only when the value is truthy.
   */
  function AuthorsPass(doc: Node, data: Dict): Result<Node, RenderError> {
    match AuthorsValue(data)
    case None => if Mentions(doc, "mod_autores") then Err(AuthorsNotJoinable) else Ok(doc)
    case Some(v) =>
      if !Truthy(v) then Ok(doc)
      else if v.Str? then Ok(Overwrite(doc, "mod_autores", [Text(v.s)]))
      else if Mentions(doc, "mod_autores") then Err(AuthorsNotText)
      else Ok(doc)
  }

  /**
   * What `enumerate(temas)` yields: list items, a string's characters, a dictionary's keys;
   * an item is `None` when it is not a string. `None` when `temas` is not iterable.
   */
  function TopicItems(v: Value): Option<seq<Option<string>>> {
    match v
    case StrList(items) => Some(seq(|items|, i requires 0 <= i < |items| => Some(items[i])))
    case MixedList(elems, _) => Some(elems)
    case Str(s) => Some(seq(|s|, i requires 0 <= i < |s| => Some([s[i]])))
    case StrMap(entries) => Some(seq(|entries|, i requires 0 <= i < |entries| => Some(entries[i].0)))
    case MixedMap(keys, _) => Some(seq(|keys|, i requires 0 <= i < |keys| => Some(keys[i])))
    case Null => None
    case Other(_, _) => None
  }

  /**
   * Slots 1..k filled with the first k topics, in that order. A topic that is not a string
   * fails when the tree, as filled so far, still has a node for its slot, and is skipped
   * otherwise.
   */
  function FillSlots(doc: Node, items: seq<Option<string>>, k: nat): Result<Node, RenderError>
    requires k <= |items|
  {
    if k == 0 then Ok(doc)
    else match FillSlots(doc, items, k - 1)
      case Err(e) => Err(e)
      case Ok(d) =>
        if items[k - 1].Some? then Ok(Overwrite(d, SlotClass(k), [Text(items[k - 1].value)]))
        else if Mentions(d, SlotClass(k)) then Err(TopicNotText)
        else Ok(d)
  }

  /** Slots lo..9 decomposed, in that order. */
  function RemoveSlots(doc: Node, lo: nat): Node
    decreases 10 - lo
  {
    if lo >= 10 then doc else RemoveSlots(Remove(doc, SlotClass(lo)), lo + 1)
  }

  function TopicsPass(doc: Node, data: Dict): Result<Node, RenderError> {
    match TopicItems(Get(data, "temas", StrList([])))
    case None => Err(TopicsNotIterable)
    case Some(items) =>
      match FillSlots(doc, items, |items|)
      case Err(e) => Err(e)
      case Ok(filled) => Ok(RemoveSlots(filled, |items| + 1))
  }

  /** The authors and topics passes, on the tree the scalar pass left. */
  function AfterScalar(scalar: Node, data: Dict): Result<Node, RenderError> {
    match AuthorsPass(scalar, data)
    case Err(e) => Err(e)
    case Ok(withAuthors) => TopicsPass(withAuthors, data)
  }

  /** The whole renderer on the parsed template. */
  function RenderSpec(doc: Node, article: Article): Result<Node, RenderError> {
    AfterScalar(ScalarPass(doc, article.articleData, article.imageData, |ArticleFields|), article.articleData)
  }

  /** The loop over `enumerate(temas, start=1)`: slot by slot, stopping at the first append that raises. */
  method FillTopics(doc: Node, items: seq<Option<string>>) returns (r: Result<Node, RenderError>)
    ensures r == FillSlots(doc, items, |items|)
  {
    var d := doc;
    var idx := 1;
    while idx <= |items|
      invariant 1 <= idx <= |items| + 1
      invariant FillSlots(doc, items, idx - 1) == Ok(d)
    {
      var item := items[idx - 1];
      if item.Some? {
        d := Overwrite(d, SlotClass(idx), [Text(item.value)]);
      } else if Mentions(d, SlotClass(idx)) {
        FillSlotsFailureKept(doc, items, idx, |items|);
        return Err(TopicNotText);
      }
      idx := idx + 1;
    }
    r := Ok(d);
  }

  /** The loop over `range(len(temas) + 1, 10)`, decomposing each slot's nodes. */
  method RemoveExtraSlots(doc: Node, lo: nat) returns (r: Node)
    ensures r == RemoveSlots(doc, lo)
  {
    r := doc;
    var idx := lo;
    while idx < 10
      invariant RemoveSlots(r, idx) == RemoveSlots(doc, lo)
      decreases 10 - idx as int
    {
      r := Remove(r, SlotClass(idx));
      idx := idx + 1;
    }
  }

  /** The loop over `ARTICLE_FIELDS`, field by field. */
  method FillFields(doc: Node, data: Dict, imageData: Dict) returns (d: Node)
    ensures d == ScalarPass(doc, data, imageData, |ArticleFields|)
  {
    d := doc;
    var i := 0;
    while i < |ArticleFields|
      invariant 0 <= i <= |ArticleFields|
      invariant d == ScalarPass(doc, data, imageData, i)
    {
      var field := ArticleFields[i];
      d := FillField(d, field, FieldText(Get(data, field, Str([]))), ImageRuleFor(field, imageData));
      i := i + 1;
    }
  }

  /** The authors loop and the two topic loops. */
  method FinishRender(scalar: Node, data: Dict) returns (r: Result<Node, RenderError>)
    ensures r == AfterScalar(scalar, data)
  {
    var authors := AuthorsPass(scalar, data);
    if authors.Err? {
      return Err(authors.error);
    }
    var topics := TopicItems(Get(data, "temas", StrList([])));
    if topics.None? {
      return Err(TopicsNotIterable);
    }
    var filled := FillTopics(authors.value, topics.value);
    if filled.Err? {
      return Err(filled.error);
    }
    var cleaned := RemoveExtraSlots(filled.value, |topics.value| + 1);
    r := Ok(cleaned);
  }

  /** `render_article_html`, pass by pass. */
  method RenderArticle(doc: Node, article: Article) returns (r: Result<Node, RenderError>)
    ensures r == RenderSpec(doc, article)
  {
    var scalar := FillFields(doc, article.articleData, article.imageData);
    r := FinishRender(scalar, article.articleData);
  }

  /**
   * An empty author list is printed as "[]" by the scalar pass and the authors pass leaves it
   * there, because the joined value is empty.
   */
  lemma EmptyAuthorListShowsBrackets(doc: Node, data: Dict)
    requires Get(data, "mod_autores", Null) == StrList([])
    ensures FieldText(Get(data, "mod_autores", Str([]))) == "[]"
    ensures AuthorsPass(doc, data) == Ok(doc)
  {
  }

  /**
   * A list of authors is joined with " y " and overwrites every `mod_autores` node, unless the
   * join is empty (no authors, or one empty name), when the nodes are left as they are.
   */
  lemma AuthorsFromList(doc: Node, data: Dict, items: seq<string>)
    requires Get(data, "mod_autores", Null) == StrList(items)
    ensures items != [] && items != [[]] ==>
      AuthorsPass(doc, data) == Ok(Overwrite(doc, "mod_autores", [Text(Join(items, " y "))]))
      && EveryFilled(AuthorsPass(doc, data).value, "mod_autores", [Text(Join(items, " y "))])
    ensures items == [] || items == [[]] ==> AuthorsPass(doc, data) == Ok(doc)
  {
    JoinEmpty(items, " y ");
  }

  /**
   * The authors pass fails only when some node selects `mod_autores`, and then exactly for a
   * list with an item that is not a string (the join raises) or a truthy value that is
   * neither a string nor a list (the append raises).
   */
  lemma AuthorsFailure(doc: Node, data: Dict)
    ensures AuthorsPass(doc, data).Err? <==>
      var v := Get(data, "mod_autores", Null);
      && Mentions(doc, "mod_autores")
      && (|| (v.MixedList? && exists i :: 0 <= i < |v.elems| && v.elems[i].None?)
          || (v.StrMap? && v.entries != [])
          || (v.MixedMap? && v.keys != [])
          || (v.Other? && v.truthy))
    ensures AuthorsPass(doc, data) == Err(AuthorsNotJoinable) <==>
      var v := Get(data, "mod_autores", Null);
      Mentions(doc, "mod_autores") && v.MixedList? && exists i :: 0 <= i < |v.elems| && v.elems[i].None?
  {
  }

  /** A list whose items are all strings is joined like the plain list of those strings. */
  lemma AuthorsFromMixedList(doc: Node, data: Dict, other: Dict)
    requires var v := Get(data, "mod_autores", Null);
      v.MixedList? && forall i :: 0 <= i < |v.elems| ==> v.elems[i].Some?
    requires Get(other, "mod_autores", Null) == StrList(AllStrings(Get(data, "mod_autores", Null).elems).value)
    ensures AuthorsPass(doc, data) == AuthorsPass(doc, other)
  {
  }

  lemma {:induction false} RemoveSlotsKeepsRoot(x: Node, lo: nat)
    requires IsSoup(x)
    ensures IsSoup(RemoveSlots(x, lo))
    decreases 10 - lo
  {
    if lo < 10 {
      RemoveSlotsKeepsRoot(Remove(x, SlotClass(lo)), lo + 1);
    }
  }

  lemma {:induction false} RemoveSlotsKeepsAbsent(x: Node, lo: nat, c: string)
    requires !Mentions(x, c)
    ensures !Mentions(RemoveSlots(x, lo), c)
    decreases 10 - lo
  {
    if lo < 10 {
      RemoveKeepsAbsent(x, SlotClass(lo), c);
      RemoveSlotsKeepsAbsent(Remove(x, SlotClass(lo)), lo + 1, c);
    }
  }

  /** After removing slots lo..9 none of them is left anywhere in the tree. */
  lemma {:induction false} RemoveSlotsClears(x: Node, lo: nat)
    requires IsSoup(x)
    ensures forall k :: lo <= k < 10 ==> !Mentions(RemoveSlots(x, lo), SlotClass(k))
    decreases 10 - lo
  {
    if lo < 10 {
      var c := SlotClass(lo);
      var y := Remove(x, c);
      assert IsSoup(y) && !Mentions(y, c);
      assert RemoveSlots(x, lo) == RemoveSlots(y, lo + 1);
      RemoveSlotsClears(y, lo + 1);
      RemoveSlotsKeepsAbsent(y, lo + 1, c);
      forall k | lo <= k < 10
        ensures !Mentions(RemoveSlots(x, lo), SlotClass(k))
      {
        if k == lo {
          assert !Mentions(RemoveSlots(x, lo), c);
        }
      }
    }
  }

  lemma {:induction false} RemoveSlotsKeepsFilled(x: Node, lo: nat, c: string, content: seq<Node>)
    requires EveryFilled(x, c, content) && TextOnly(content)
    ensures EveryFilled(RemoveSlots(x, lo), c, content)
    decreases 10 - lo
  {
    if lo < 10 {
      RemoveKeepsFilled(x, c, content, SlotClass(lo));
      RemoveSlotsKeepsFilled(Remove(x, SlotClass(lo)), lo + 1, c, content);
    }
  }

  /** No node carries two different slot classes. */
  ghost predicate SlotsApart(doc: Node) {
    forall j: nat, k: nat :: 1 <= j && 1 <= k && j != k ==> NoShared(doc, SlotClass(j), SlotClass(k))
  }

  lemma {:induction false} FillSlotsKeepsApart(x: Node, items: seq<Option<string>>, m: nat)
    requires m <= |items| && SlotsApart(x)
    ensures FillSlots(x, items, m).Ok? ==> SlotsApart(FillSlots(x, items, m).value)
  {
    if m > 0 && FillSlots(x, items, m).Ok? {
      FillSlotsKeepsApart(x, items, m - 1);
      var prev := FillSlots(x, items, m - 1).value;
      if items[m - 1].Some? {
        forall j: nat, k: nat | 1 <= j && 1 <= k && j != k
          ensures NoShared(FillSlots(x, items, m).value, SlotClass(j), SlotClass(k))
        {
          OverwriteKeepsNoShared(prev, SlotClass(j), SlotClass(k), SlotClass(m), [Text(items[m - 1].value)]);
        }
      }
    }
  }

  /**
   * Filling later slots keeps every earlier slot's text, when no node carries two slot
   * classes; a slot whose topic is not a string is left as it is.
   */
  lemma {:induction false} FillSlotsFilled(x: Node, items: seq<Option<string>>, m: nat)
    requires m <= |items| && SlotsApart(x)
    ensures FillSlots(x, items, m).Ok? ==>
      forall k :: 1 <= k <= m && items[k - 1].Some? ==>
        EveryFilled(FillSlots(x, items, m).value, SlotClass(k), [Text(items[k - 1].value)])
  {
    if m > 0 && FillSlots(x, items, m).Ok? {
      FillSlotsFilled(x, items, m - 1);
      FillSlotsKeepsApart(x, items, m - 1);
      var prev := FillSlots(x, items, m - 1).value;
      if items[m - 1].Some? {
        forall k | 1 <= k < m && items[k - 1].Some?
          ensures EveryFilled(FillSlots(x, items, m).value, SlotClass(k), [Text(items[k - 1].value)])
        {
          OverwriteKeepsFilled(prev, SlotClass(k), [Text(items[k - 1].value)], SlotClass(m), [Text(items[m - 1].value)]);
        }
      }
    }
  }

  lemma {:induction false} FillSlotsRoot(x: Node, items: seq<Option<string>>, m: nat)
    requires m <= |items| && IsSoup(x)
    ensures FillSlots(x, items, m).Ok? ==> IsSoup(FillSlots(x, items, m).value)
  {
    if m > 0 {
      FillSlotsRoot(x, items, m - 1);
    }
  }

  /** Filling slots never introduces a class. */
  lemma {:induction false} FillSlotsKeepsAbsent(x: Node, items: seq<Option<string>>, m: nat, c: string)
    requires m <= |items| && !Mentions(x, c)
    ensures FillSlots(x, items, m).Ok? ==> !Mentions(FillSlots(x, items, m).value, c)
  {
    if m > 0 && FillSlots(x, items, m).Ok? {
      FillSlotsKeepsAbsent(x, items, m - 1, c);
      if items[m - 1].Some? {
        OverwriteKeepsAbsent(FillSlots(x, items, m - 1).value, SlotClass(m), [Text(items[m - 1].value)], c);
      }
    }
  }

  /**
   * Filling fails only on a topic that is not a string and whose slot the template has; a
   * failure, once met, is the result.
   */
  lemma {:induction false} FillSlotsFailure(x: Node, items: seq<Option<string>>, m: nat)
    requires m <= |items|
    ensures FillSlots(x, items, m).Err? ==>
      && FillSlots(x, items, m) == Err(TopicNotText)
      && exists k :: 1 <= k <= m && items[k - 1].None? && Mentions(x, SlotClass(k))
  {
    if m > 0 && FillSlots(x, items, m).Err? {
      FillSlotsFailure(x, items, m - 1);
      if FillSlots(x, items, m - 1).Ok? {
        assert items[m - 1].None? && Mentions(FillSlots(x, items, m - 1).value, SlotClass(m));
        if !Mentions(x, SlotClass(m)) {
          FillSlotsKeepsAbsent(x, items, m - 1, SlotClass(m));
        }
        assert 1 <= m <= m && items[m - 1].None? && Mentions(x, SlotClass(m));
      } else {
        var k :| 1 <= k <= m - 1 && items[k - 1].None? && Mentions(x, SlotClass(k));
        assert 1 <= k <= m && items[k - 1].None? && Mentions(x, SlotClass(k));
      }
    }
  }

  /** A failure in slot j is the result of filling any number of slots from j on. */
  lemma {:induction false} FillSlotsFailureKept(x: Node, items: seq<Option<string>>, j: nat, m: nat)
    requires j <= m <= |items| && FillSlots(x, items, j).Err?
    ensures FillSlots(x, items, m) == FillSlots(x, items, j)
    decreases m - j
  {
    if j < m {
      FillSlotsFailureKept(x, items, j, m - 1);
    }
  }

  /** After a successful topics pass no slot between the last topic and 9 is left. */
  lemma TopicsRemoved(doc: Node, data: Dict)
    requires IsSoup(doc)
    requires TopicsPass(doc, data).Ok?
    ensures var items := TopicItems(Get(data, "temas", StrList([]))).value;
      forall k :: |items| < k < 10 ==> !Mentions(TopicsPass(doc, data).value, SlotClass(k))
  {
    var items := TopicItems(Get(data, "temas", StrList([]))).value;
    FillSlotsRoot(doc, items, |items|);
    TopicsPassShape(doc, data, items);
    RemoveSlotsClears(FillSlots(doc, items, |items|).value, |items| + 1);
  }

  /** After a successful topics pass slot k shows every string topic k, when no node carries two slot classes. */
  lemma TopicsFilled(doc: Node, data: Dict)
    requires SlotsApart(doc)
    requires TopicsPass(doc, data).Ok?
    ensures var items := TopicItems(Get(data, "temas", StrList([]))).value;
      forall k :: 1 <= k <= |items| && items[k - 1].Some? ==>
        EveryFilled(TopicsPass(doc, data).value, SlotClass(k), [Text(items[k - 1].value)])
  {
    var items := TopicItems(Get(data, "temas", StrList([]))).value;
    TopicsPassShape(doc, data, items);
    FillSlotsFilled(doc, items, |items|);
    RemoveSlotsKeepsSlots(FillSlots(doc, items, |items|).value, items);
  }

  /** The topics pass, once the topics are known to be iterable. */
  lemma TopicsPassShape(doc: Node, data: Dict, items: seq<Option<string>>)
    requires TopicItems(Get(data, "temas", StrList([]))) == Some(items)
    ensures FillSlots(doc, items, |items|).Err? ==> TopicsPass(doc, data) == FillSlots(doc, items, |items|)
    ensures FillSlots(doc, items, |items|).Ok? ==>
      TopicsPass(doc, data) == Ok(RemoveSlots(FillSlots(doc, items, |items|).value, |items| + 1))
  {
  }

  lemma RemoveSlotsKeepsSlots(filled: Node, items: seq<Option<string>>)
    requires forall k :: 1 <= k <= |items| && items[k - 1].Some? ==>
      EveryFilled(filled, SlotClass(k), [Text(items[k - 1].value)])
    ensures forall k :: 1 <= k <= |items| && items[k - 1].Some? ==>
      EveryFilled(RemoveSlots(filled, |items| + 1), SlotClass(k), [Text(items[k - 1].value)])
  {
    forall k | 1 <= k <= |items| && items[k - 1].Some?
      ensures EveryFilled(RemoveSlots(filled, |items| + 1), SlotClass(k), [Text(items[k - 1].value)])
    {
      RemoveSlotsKeepsFilled(filled, |items| + 1, SlotClass(k), [Text(items[k - 1].value)]);
    }
  }

  /**
   * The topics pass: slot k shows the k-th topic for every k up to the number of topics whose
   * topic is a string, and slots beyond it up to 9 are gone from the tree. The first part
   * needs that no node carries two slot classes.
   */
  lemma TopicsOutcome(doc: Node, data: Dict)
    requires IsSoup(doc)
    requires TopicsPass(doc, data).Ok?
    ensures var items := TopicItems(Get(data, "temas", StrList([]))).value;
      forall k :: |items| < k < 10 ==> !Mentions(TopicsPass(doc, data).value, SlotClass(k))
    ensures var items := TopicItems(Get(data, "temas", StrList([]))).value;
      SlotsApart(doc) ==>
        forall k :: 1 <= k <= |items| && items[k - 1].Some? ==>
          EveryFilled(TopicsPass(doc, data).value, SlotClass(k), [Text(items[k - 1].value)])
  {
    TopicsRemoved(doc, data);
    if SlotsApart(doc) {
      TopicsFilled(doc, data);
    }
  }

  /**
   * The topics pass fails with `TopicsNotIterable` exactly for a `temas` that is None or a
   * scalar, and otherwise only on a topic that is not a string and whose slot the template
   * has; a missing key means no topics.
   */
  lemma TopicsFailure(doc: Node, data: Dict)
    ensures TopicsPass(doc, data) == Err(TopicsNotIterable) <==>
      "temas" in data && (data["temas"] == Null || data["temas"].Other?)
    ensures TopicsPass(doc, data).Err? && TopicsPass(doc, data) != Err(TopicsNotIterable) ==>
      var items := TopicItems(Get(data, "temas", StrList([]))).value;
      && TopicsPass(doc, data) == Err(TopicNotText)
      && exists k :: 1 <= k <= |items| && items[k - 1].None? && Mentions(doc, SlotClass(k))
    ensures "temas" !in data ==> TopicsPass(doc, data) == Ok(RemoveSlots(doc, 1))
  {
    var v := Get(data, "temas", StrList([]));
    TopicsIterable(v);
    var t := TopicItems(v);
    if t.Some? {
      FillSlotsFailure(doc, t.value, |t.value|);
      TopicsPassShape(doc, data, t.value);
    }
  }

  /** `enumerate` fails exactly on None and on scalars. */
  lemma TopicsIterable(v: Value)
    ensures TopicItems(v).None? <==> v == Null || v.Other?
  {
  }

  /** Slots numbered 10 and above are never among the classes the removal step decomposes. */
  lemma HighSlotsNeverTargeted(lo: nat, k: nat)
    requires k >= 10
    ensures forall j :: lo <= j < 10 ==> SlotClass(j) != SlotClass(k)
  {
    forall j | lo <= j < 10
      ensures SlotClass(j) != SlotClass(k)
    {
      if SlotClass(j) == SlotClass(k) {
        SlotClassInjective(j, k);
      }
    }
  }

  lemma {:induction false} ScalarPassKeepsApart(doc: Node, data: Dict, imageData: Dict, k: nat)
    requires k <= |ArticleFields| && SlotsApart(doc)
    ensures SlotsApart(ScalarPass(doc, data, imageData, k))
  {
    if k > 0 {
      ScalarPassKeepsApart(doc, data, imageData, k - 1);
      var prev := ScalarPass(doc, data, imageData, k - 1);
      var field := ArticleFields[k - 1];
      forall j: nat, m: nat | 1 <= j && 1 <= m && j != m
        ensures NoShared(ScalarPass(doc, data, imageData, k), SlotClass(j), SlotClass(m))
      {
        FillFieldKeepsNoShared(prev, SlotClass(j), SlotClass(m), field,
          FieldText(Get(data, field, Str([]))), ImageRuleFor(field, imageData));
      }
    }
  }

  /** No node carries two field classes. */
  ghost predicate FieldsApart(doc: Node) {
    forall i, j :: 0 <= i < |ArticleFields| && 0 <= j < |ArticleFields| && i != j ==>
      NoShared(doc, ArticleFields[i], ArticleFields[j])
  }

  /** The text the scalar pass gives the nodes of field number `i`. */
  function FieldContent(data: Dict, i: nat): seq<Node>
    requires i < |ArticleFields|
  {
    TextContent(FieldText(Get(data, ArticleFields[i], Str([]))))
  }

  lemma {:induction false} ScalarPassKeepsFieldsApart(doc: Node, data: Dict, imageData: Dict, k: nat)
    requires k <= |ArticleFields| && FieldsApart(doc)
    ensures FieldsApart(ScalarPass(doc, data, imageData, k))
  {
    if k > 0 {
      ScalarPassKeepsFieldsApart(doc, data, imageData, k - 1);
      var prev := ScalarPass(doc, data, imageData, k - 1);
      var field := ArticleFields[k - 1];
      forall i, j | 0 <= i < |ArticleFields| && 0 <= j < |ArticleFields| && i != j
        ensures NoShared(ScalarPass(doc, data, imageData, k), ArticleFields[i], ArticleFields[j])
      {
        FillFieldKeepsNoShared(prev, ArticleFields[i], ArticleFields[j], field,
          FieldText(Get(data, field, Str([]))), ImageRuleFor(field, imageData));
      }
    }
  }

  /**
   * The scalar pass as a whole: when no template node carries two field classes, after the
   * first k fields every node of each of them other than an `img` holds exactly that field's
   * text, later fields having left it alone.
   */
  lemma {:induction false} ScalarPassFilled(doc: Node, data: Dict, imageData: Dict, k: nat)
    requires k <= |ArticleFields| && FieldsApart(doc)
    ensures forall i :: 0 <= i < k ==>
      EveryNonImageFilled(ScalarPass(doc, data, imageData, k), ArticleFields[i], FieldContent(data, i))
  {
    if k > 0 {
      ScalarPassFilled(doc, data, imageData, k - 1);
      ScalarPassKeepsFieldsApart(doc, data, imageData, k - 1);
      var prev := ScalarPass(doc, data, imageData, k - 1);
      var field := ArticleFields[k - 1];
      var text := FieldText(Get(data, field, Str([])));
      assert ScalarPass(doc, data, imageData, k) == FillField(prev, field, text, ImageRuleFor(field, imageData));
      forall i | 0 <= i < k
        ensures EveryNonImageFilled(ScalarPass(doc, data, imageData, k), ArticleFields[i], FieldContent(data, i))
      {
        if i < k - 1 {
          FillFieldKeepsFilled(prev, ArticleFields[i], FieldContent(data, i), field, text, ImageRuleFor(field, imageData));
        }
      }
    }
  }

  lemma {:induction false} ScalarPassRoot(doc: Node, data: Dict, imageData: Dict, k: nat)
    requires k <= |ArticleFields| && IsSoup(doc)
    ensures IsSoup(ScalarPass(doc, data, imageData, k))
  {
    if k > 0 {
      ScalarPassRoot(doc, data, imageData, k - 1);
    }
  }

  /**
   * End to end: a rendered article shows its k-th topic in slot k when that topic is a string
   * (and no template node carries two slot classes), and keeps none of the slots between the
   * last topic and 9.
   */
  lemma RenderedTopics(doc: Node, article: Article)
    requires IsSoup(doc)
    requires RenderSpec(doc, article).Ok?
    ensures var items := TopicItems(Get(article.articleData, "temas", StrList([]))).value;
      && (forall k :: |items| < k < 10 ==> !Mentions(RenderSpec(doc, article).value, SlotClass(k)))
      && (SlotsApart(doc) ==>
            forall k :: 1 <= k <= |items| && items[k - 1].Some? ==>
              EveryFilled(RenderSpec(doc, article).value, SlotClass(k), [Text(items[k - 1].value)]))
  {
    var data := article.articleData;
    var scalar := ScalarPass(doc, data, article.imageData, |ArticleFields|);
    ScalarPassRoot(doc, data, article.imageData, |ArticleFields|);
    var withAuthors := AuthorsPass(scalar, data).value;
    assert IsSoup(withAuthors);
    if SlotsApart(doc) {
      ScalarPassKeepsApart(doc, data, article.imageData, |ArticleFields|);
      var v := AuthorsValue(data);
      if v.Some? && Truthy(v.value) && v.value.Str? {
        forall j: nat, m: nat | 1 <= j && 1 <= m && j != m
          ensures NoShared(withAuthors, SlotClass(j), SlotClass(m))
        {
          OverwriteKeepsNoShared(scalar, SlotClass(j), SlotClass(m), "mod_autores", [Text(v.value.s)]);
        }
      }
    }
    TopicsOutcome(withAuthors, data);
  }
}
