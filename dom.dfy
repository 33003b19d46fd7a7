/**
 * The parsed template as a tree, and the three BeautifulSoup edits the renderer makes on
 * every node a class selector matches: clear-and-append, setting image attributes, and
 * `decompose`. `soup.select` lists the matches in document order before any edit, and an
 * edit of a node detaches everything below it, so applying each edit top-down and not
 * descending below a replaced node gives the same tree.
 */
module Dom {
  import opened Wrappers

  datatype Node =
    | Element(tag: string, classes: set<string>, attrs: map<string, string>, children: seq<Node>)
    | Text(text: string)

  predicate HasClass(n: Node, c: string) {
    n.Element? && c in n.classes
  }

  /** The node or one below it carries class `c`. */
  predicate Mentions(n: Node, c: string) {
    match n
    case Text(_) => false
    case Element(_, classes, _, children) =>
      c in classes || exists i :: 0 <= i < |children| && Mentions(children[i], c)
  }

  /** Some node carrying `d` lies neither at nor below a node carrying `c`. */
  predicate MentionsOutside(n: Node, d: string, c: string) {
    match n
    case Text(_) => false
    case Element(_, classes, _, children) =>
      c !in classes && (d in classes || exists i :: 0 <= i < |children| && MentionsOutside(children[i], d, c))
  }

  /** Every node carrying `c` has exactly `content` as its children. */
  predicate EveryFilled(n: Node, c: string, content: seq<Node>) {
    match n
    case Text(_) => true
    case Element(_, classes, _, children) =>
      (c in classes ==> children == content) && forall i :: 0 <= i < |children| ==> EveryFilled(children[i], c, content)
  }

  /** No node carries both `c` and `d`. */
  predicate NoShared(n: Node, c: string, d: string) {
    match n
    case Text(_) => true
    case Element(_, classes, _, children) =>
      !(c in classes && d in classes) && forall i :: 0 <= i < |children| ==> NoShared(children[i], c, d)
  }

  predicate TextOnly(content: seq<Node>) {
    forall i :: 0 <= i < |content| ==> content[i].Text?
  }

  /** The node reached from `n` by following the child indices in `path`, if there is one. */
  function NodeAt(n: Node, path: seq<nat>): Option<Node>
    decreases |path|
  {
    if path == [] then Some(n)
    else match n
      case Text(_) => None
      case Element(_, _, _, children) => if path[0] < |children| then NodeAt(children[path[0]], path[1..]) else None
  }

  /** An element at `path` in `after` sits at the same path in `before`, with the same tag and classes. */
  predicate SameElementAt(before: Node, after: Node, path: seq<nat>) {
    NodeAt(after, path).Some? && NodeAt(after, path).value.Element? ==>
      && NodeAt(before, path).Some? && NodeAt(before, path).value.Element?
      && NodeAt(after, path).value.tag == NodeAt(before, path).value.tag
      && NodeAt(after, path).value.classes == NodeAt(before, path).value.classes
  }

  /** `for tag in soup.select("." + c): tag.clear(); tag.append(...)`. */
  function Overwrite(n: Node, c: string, content: seq<Node>): (r: Node)
    ensures n.Text? ==> r == n
    ensures n.Element? ==> r.Element? && r.tag == n.tag && r.classes == n.classes && r.attrs == n.attrs
    ensures TextOnly(content) ==> EveryFilled(r, c, content)
  {
    match n
    case Text(_) => n
    case Element(tag, classes, attrs, children) =>
      if c in classes then Element(tag, classes, attrs, content)
      else Element(tag, classes, attrs, seq(|children|, i requires 0 <= i < |children| => Overwrite(children[i], c, content)))
  }

  /**
   * Overwriting only replaces children of matched nodes by plain text, so every element of the
   * result is the element at the same path before, with its tag, classes and attributes.
   */
  lemma {:induction false} OverwriteAt(n: Node, c: string, content: seq<Node>, path: seq<nat>)
    requires TextOnly(content)
    ensures SameElementAt(n, Overwrite(n, c, content), path)
    ensures var y := NodeAt(Overwrite(n, c, content), path);
      y.Some? && y.value.Element? ==> y.value.attrs == NodeAt(n, path).value.attrs
    decreases |path|
  {
    if path != [] && n.Element? {
      var i := path[0];
      var r := Overwrite(n, c, content);
      if c in n.classes {
        assert r.children == content;
        if i < |content| {
          assert content[i].Text?;
          assert NodeAt(r, path) == NodeAt(content[i], path[1..]);
        }
      } else if i < |n.children| {
        assert r.children[i] == Overwrite(n.children[i], c, content);
        assert NodeAt(r, path) == NodeAt(r.children[i], path[1..]);
        assert NodeAt(n, path) == NodeAt(n.children[i], path[1..]);
        OverwriteAt(n.children[i], c, content, path[1..]);
      }
    }
  }

  /** The siblings that survive `decompose` of every node carrying `c`. */
  function Drop(ns: seq<Node>, c: string): (r: seq<Node>)
    ensures forall i :: 0 <= i < |r| ==> !HasClass(r[i], c) && r[i] in ns
    ensures forall i :: 0 <= i < |ns| && !HasClass(ns[i], c) ==> ns[i] in r
  {
    if ns == [] then []
    else (if HasClass(ns[0], c) then [] else [ns[0]]) + Drop(ns[1..], c)
  }

  /** `for tag in soup.select("." + c): tag.decompose()`, below the root. */
  function Remove(n: Node, c: string): (r: Node)
    ensures n.Text? ==> r == n
    ensures n.Element? ==> r.Element? && r.tag == n.tag && r.classes == n.classes && r.attrs == n.attrs
    ensures !HasClass(n, c) ==> !Mentions(r, c)
  {
    match n
    case Text(_) => n
    case Element(tag, classes, attrs, children) =>
      var kept := Drop(seq(|children|, i requires 0 <= i < |children| => Remove(children[i], c)), c);
      Element(tag, classes, attrs, kept)
  }

  /** A class the tree does not carry selects nothing: overwriting it changes nothing. */
  lemma {:induction false} OverwriteAbsent(n: Node, c: string, content: seq<Node>)
    requires !Mentions(n, c)
    ensures Overwrite(n, c, content) == n
  {
    match n
    case Text(_) =>
    case Element(tag, classes, attrs, children) =>
      forall i | 0 <= i < |children|
        ensures Overwrite(children[i], c, content) == children[i]
      {
        OverwriteAbsent(children[i], c, content);
      }
      assert seq(|children|, i requires 0 <= i < |children| => Overwrite(children[i], c, content)) == children;
  }

  lemma {:induction false} DropNone(ns: seq<Node>, c: string)
    requires forall i :: 0 <= i < |ns| ==> !HasClass(ns[i], c)
    ensures Drop(ns, c) == ns
  {
    if ns != [] {
      DropNone(ns[1..], c);
    }
  }

  /** Decomposing a class the tree does not carry changes nothing. */
  lemma {:induction false} RemoveAbsent(n: Node, c: string)
    requires !Mentions(n, c)
    ensures Remove(n, c) == n
  {
    match n
    case Text(_) =>
    case Element(tag, classes, attrs, children) =>
      var mapped := seq(|children|, i requires 0 <= i < |children| => Remove(children[i], c));
      forall i | 0 <= i < |children|
        ensures mapped[i] == children[i]
      {
        RemoveAbsent(children[i], c);
      }
      assert mapped == children;
      DropNone(children, c);
  }

  lemma DropMentions(ns: seq<Node>, c: string, d: string)
    ensures (exists i :: 0 <= i < |Drop(ns, c)| && Mentions(Drop(ns, c)[i], d))
        <==> (exists i :: 0 <= i < |ns| && !HasClass(ns[i], c) && Mentions(ns[i], d))
  {
    if exists i :: 0 <= i < |ns| && !HasClass(ns[i], c) && Mentions(ns[i], d) {
      var i :| 0 <= i < |ns| && !HasClass(ns[i], c) && Mentions(ns[i], d);
      var n := ns[i];
      assert n in Drop(ns, c);
      var j :| 0 <= j < |Drop(ns, c)| && Drop(ns, c)[j] == n;
      assert Mentions(Drop(ns, c)[j], d);
    }
    if exists i :: 0 <= i < |Drop(ns, c)| && Mentions(Drop(ns, c)[i], d) {
      var i :| 0 <= i < |Drop(ns, c)| && Mentions(Drop(ns, c)[i], d);
      var n := Drop(ns, c)[i];
      assert !HasClass(n, c) && n in ns;
      var j :| 0 <= j < |ns| && ns[j] == n;
      assert !HasClass(ns[j], c) && Mentions(ns[j], d);
    }
  }

  /**
   * After decomposing `c` below the root, class `d` is still present exactly when some node
   * carrying it lay outside every node carrying `c`.
   */
  lemma {:induction false} RemoveKeepsOutside(n: Node, c: string, d: string)
    requires !HasClass(n, c)
    ensures Mentions(Remove(n, c), d) <==> MentionsOutside(n, d, c)
  {
    match n
    case Text(_) =>
    case Element(tag, classes, attrs, children) =>
      var mapped := seq(|children|, i requires 0 <= i < |children| => Remove(children[i], c));
      DropMentions(mapped, c, d);
      forall i | 0 <= i < |children|
        ensures (!HasClass(mapped[i], c) && Mentions(mapped[i], d)) <==> MentionsOutside(children[i], d, c)
      {
        if !HasClass(children[i], c) {
          RemoveKeepsOutside(children[i], c, d);
        }
      }
  }

  /** Decomposing never introduces a class. */
  lemma {:induction false} RemoveKeepsAbsent(n: Node, c: string, d: string)
    requires !Mentions(n, d)
    ensures !Mentions(Remove(n, c), d)
  {
    match n
    case Text(_) =>
    case Element(tag, classes, attrs, children) =>
      var mapped := seq(|children|, i requires 0 <= i < |children| => Remove(children[i], c));
      forall i | 0 <= i < |children|
        ensures !Mentions(mapped[i], d)
      {
        RemoveKeepsAbsent(children[i], c, d);
      }
      var kept := Drop(mapped, c);
      forall i | 0 <= i < |kept|
        ensures !Mentions(kept[i], d)
      {
        assert kept[i] in mapped;
      }
  }

  lemma {:induction false} OverwriteText(content: seq<Node>, c: string, other: seq<Node>)
    requires TextOnly(content)
    ensures seq(|content|, i requires 0 <= i < |content| => Overwrite(content[i], c, other)) == content
  {
  }

  lemma {:induction false} RemoveText(content: seq<Node>, c: string)
    requires TextOnly(content)
    ensures Drop(seq(|content|, i requires 0 <= i < |content| => Remove(content[i], c)), c) == content
  {
    var mapped := seq(|content|, i requires 0 <= i < |content| => Remove(content[i], c));
    assert mapped == content;
    DropNone(content, c);
  }

  /**
   * Overwriting `d` keeps every node carrying `c` filled with the same content, as long as no
   * node carries both classes and both contents are plain text.
   */
  lemma {:induction false} OverwriteKeepsFilled(n: Node, c: string, content: seq<Node>, d: string, other: seq<Node>)
    requires EveryFilled(n, c, content) && NoShared(n, c, d)
    requires TextOnly(content) && TextOnly(other)
    ensures EveryFilled(Overwrite(n, d, other), c, content)
  {
    match n
    case Text(_) =>
    case Element(tag, classes, attrs, children) =>
      if d !in classes {
        if c in classes {
          OverwriteText(content, d, other);
        } else {
          forall i | 0 <= i < |children|
            ensures EveryFilled(Overwrite(children[i], d, other), c, content)
          {
            OverwriteKeepsFilled(children[i], c, content, d, other);
          }
        }
      }
  }

  /** Decomposing keeps every remaining node carrying `c` filled with the same plain text. */
  lemma {:induction false} RemoveKeepsFilled(n: Node, c: string, content: seq<Node>, d: string)
    requires EveryFilled(n, c, content) && TextOnly(content)
    ensures EveryFilled(Remove(n, d), c, content)
  {
    match n
    case Text(_) =>
    case Element(tag, classes, attrs, children) =>
      if c in classes {
        RemoveText(content, d);
      } else {
        var mapped := seq(|children|, i requires 0 <= i < |children| => Remove(children[i], d));
        forall i | 0 <= i < |children|
          ensures EveryFilled(mapped[i], c, content)
        {
          RemoveKeepsFilled(children[i], c, content, d);
        }
        var kept := Drop(mapped, d);
        forall i | 0 <= i < |kept|
          ensures EveryFilled(kept[i], c, content)
        {
          assert kept[i] in mapped;
        }
      }
  }

  /** Overwriting with plain text never makes two classes meet on one node. */
  lemma {:induction false} OverwriteKeepsNoShared(n: Node, c: string, d: string, e: string, content: seq<Node>)
    requires NoShared(n, c, d) && TextOnly(content)
    ensures NoShared(Overwrite(n, e, content), c, d)
  {
    match n
    case Text(_) =>
    case Element(tag, classes, attrs, children) =>
      if e !in classes {
        forall i | 0 <= i < |children|
          ensures NoShared(Overwrite(children[i], e, content), c, d)
        {
          OverwriteKeepsNoShared(children[i], c, d, e, content);
        }
      }
  }

  /** Overwriting with plain text never introduces a class. */
  lemma {:induction false} OverwriteKeepsAbsent(n: Node, c: string, content: seq<Node>, d: string)
    requires !Mentions(n, d) && TextOnly(content)
    ensures !Mentions(Overwrite(n, c, content), d)
  {
    match n
    case Text(_) =>
    case Element(tag, classes, attrs, children) =>
      var r := Overwrite(n, c, content);
      if c in classes {
        assert r.children == content;
        assert forall i :: 0 <= i < |content| ==> !Mentions(content[i], d);
      } else {
        forall i | 0 <= i < |children|
          ensures !Mentions(r.children[i], d)
        {
          assert r.children[i] == Overwrite(children[i], c, content);
          OverwriteKeepsAbsent(children[i], c, content, d);
        }
      }
  }

  /** The attributes of an image matched by `mod_pie1`/`mod_pie2` when its URL is set. */
  function ImageAttrs(attrs: map<string, string>, src: string, text: string): (r: map<string, string>)
    ensures "src" in r && r["src"] == src
    ensures "alt" in r && r["alt"] == (if text != [] then text else if "alt" in attrs then attrs["alt"] else [])
    ensures forall k :: k != "src" && k != "alt" ==> (k in r <==> k in attrs) && (k in attrs ==> r[k] == attrs[k])
  {
    attrs["src" := src]["alt" := if text != [] then text else if "alt" in attrs then attrs["alt"] else []]
  }

  /** What the scalar pass does to an `img` node of the field: nothing, or set its source. */
  datatype ImageRule = KeepImage | SetImage(src: string)

  function ImageEdit(attrs: map<string, string>, rule: ImageRule, text: string): map<string, string> {
    match rule
    case KeepImage => attrs
    case SetImage(src) => ImageAttrs(attrs, src, text)
  }

  /** The children a cleared node gets: the text, or nothing for the empty string. */
  function TextContent(text: string): (r: seq<Node>)
    ensures TextOnly(r)
    ensures r == [] <==> text == []
  {
    if text == [] then [] else [Text(text)]
  }

  /** Every `img` node carrying `c` has attributes `attrs` edited by `rule`... */
  predicate ImagesPoint(n: Node, c: string, src: string, text: string) {
    match n
    case Text(_) => true
    case Element(tag, classes, attrs, children) =>
      && (c in classes && tag == "img" ==>
            && "src" in attrs && attrs["src"] == src && "alt" in attrs
            && (text != [] ==> attrs["alt"] == text))
      && forall i :: 0 <= i < |children| ==> ImagesPoint(children[i], c, src, text)
  }

  /** Every node carrying `c` other than an `img` has exactly `content` as children. */
  predicate EveryNonImageFilled(n: Node, c: string, content: seq<Node>) {
    match n
    case Text(_) => true
    case Element(tag, classes, _, children) =>
      (c in classes && tag != "img" ==> children == content)
      && forall i :: 0 <= i < |children| ==> EveryNonImageFilled(children[i], c, content)
  }

  /** Every node carrying `c` is an `img`. */
  predicate OnlyImages(n: Node, c: string) {
    match n
    case Text(_) => true
    case Element(tag, classes, _, children) =>
      (c in classes ==> tag == "img") && forall i :: 0 <= i < |children| ==> OnlyImages(children[i], c)
  }

  /**
   * One field of the scalar pass: a matching `img` gets its attributes edited by `rule`, any
   * other matching node is cleared and given the text.
   */
  function FillField(n: Node, c: string, text: string, rule: ImageRule): (r: Node)
    ensures n.Text? ==> r == n
    ensures n.Element? ==> r.Element? && r.tag == n.tag && r.classes == n.classes
    ensures EveryNonImageFilled(r, c, TextContent(text))
    ensures rule.SetImage? ==> ImagesPoint(r, c, rule.src, text)
  {
    match n
    case Text(_) => n
    case Element(tag, classes, attrs, children) =>
      if c in classes && tag != "img" then Element(tag, classes, attrs, TextContent(text))
      else
        var attrs' := if c in classes then ImageEdit(attrs, rule, text) else attrs;
        Element(tag, classes, attrs', seq(|children|, i requires 0 <= i < |children| => FillField(children[i], c, text, rule)))
  }

  /**
   * The scalar pass rewrites the attributes of matched `img` nodes only: every element of the
   * result is the element at the same path before, with its tag and classes, and its attributes
   * edited by `rule` when it is a matched `img` and unchanged otherwise.
   */
  lemma {:induction false} FillFieldAt(n: Node, c: string, text: string, rule: ImageRule, path: seq<nat>)
    ensures SameElementAt(n, FillField(n, c, text, rule), path)
    ensures var y := NodeAt(FillField(n, c, text, rule), path);
      y.Some? && y.value.Element? ==>
        var x := NodeAt(n, path).value;
        y.value.attrs == if c in x.classes && x.tag == "img" then ImageEdit(x.attrs, rule, text) else x.attrs
    decreases |path|
  {
    if path != [] && n.Element? {
      var i := path[0];
      var r := FillField(n, c, text, rule);
      if c in n.classes && n.tag != "img" {
        assert r.children == TextContent(text);
        if i < |r.children| {
          assert r.children[i].Text?;
          assert NodeAt(r, path) == NodeAt(r.children[i], path[1..]);
        }
      } else if i < |n.children| {
        assert r.children[i] == FillField(n.children[i], c, text, rule);
        assert NodeAt(r, path) == NodeAt(r.children[i], path[1..]);
        assert NodeAt(n, path) == NodeAt(n.children[i], path[1..]);
        FillFieldAt(n.children[i], c, text, rule, path[1..]);
      }
    }
  }

  /**
   * Without a URL for the field, no element's attributes change anywhere in the tree: in
   * particular every `img` node keeps its `src` and `alt`, whatever other nodes carry the class.
   */
  lemma KeepImagesUntouched(n: Node, c: string, text: string, path: seq<nat>)
    ensures var y := NodeAt(FillField(n, c, text, KeepImage), path);
      y.Some? && y.value.Element? ==>
        && NodeAt(n, path).Some? && NodeAt(n, path).value.Element?
        && y.value.tag == NodeAt(n, path).value.tag
        && y.value.attrs == NodeAt(n, path).value.attrs
  {
    FillFieldAt(n, c, text, KeepImage, path);
  }

  /** When every match is an image and there is no URL for it, the field changes nothing. */
  lemma {:induction false} ImageOnlyFieldUnchanged(n: Node, c: string, text: string)
    requires OnlyImages(n, c)
    ensures FillField(n, c, text, KeepImage) == n
  {
    match n
    case Text(_) =>
    case Element(tag, classes, attrs, children) =>
      forall i | 0 <= i < |children|
        ensures FillField(children[i], c, text, KeepImage) == children[i]
      {
        ImageOnlyFieldUnchanged(children[i], c, text);
      }
      assert seq(|children|, i requires 0 <= i < |children| => FillField(children[i], c, text, KeepImage)) == children;
  }

  /** A class the tree does not carry selects nothing: the field changes nothing. */
  lemma {:induction false} FillFieldAbsent(n: Node, c: string, text: string, rule: ImageRule)
    requires !Mentions(n, c)
    ensures FillField(n, c, text, rule) == n
  {
    match n
    case Text(_) =>
    case Element(tag, classes, attrs, children) =>
      forall i | 0 <= i < |children|
        ensures FillField(children[i], c, text, rule) == children[i]
      {
        FillFieldAbsent(children[i], c, text, rule);
      }
      assert seq(|children|, i requires 0 <= i < |children| => FillField(children[i], c, text, rule)) == children;
  }

  /** Filling the same field twice gives the same tree as filling it once. */
  lemma {:induction false} FillFieldIdempotent(n: Node, c: string, text: string, rule: ImageRule)
    ensures FillField(FillField(n, c, text, rule), c, text, rule) == FillField(n, c, text, rule)
  {
    match n
    case Text(_) =>
    case Element(tag, classes, attrs, children) =>
      if !(c in classes && tag != "img") {
        var once := seq(|children|, i requires 0 <= i < |children| => FillField(children[i], c, text, rule));
        forall i | 0 <= i < |children|
          ensures FillField(once[i], c, text, rule) == once[i]
        {
          FillFieldIdempotent(children[i], c, text, rule);
        }
        assert seq(|once|, i requires 0 <= i < |once| => FillField(once[i], c, text, rule)) == once;
        if c in classes {
          assert ImageEdit(ImageEdit(attrs, rule, text), rule, text) == ImageEdit(attrs, rule, text);
        }
      }
  }

  /**
   * Filling field `d` keeps every non-image node carrying `c` filled with the same plain
   * text, as long as no node carries both classes.
   */
  lemma {:induction false} FillFieldKeepsFilled(n: Node, c: string, content: seq<Node>, d: string, text: string, rule: ImageRule)
    requires EveryNonImageFilled(n, c, content) && NoShared(n, c, d) && TextOnly(content)
    ensures EveryNonImageFilled(FillField(n, d, text, rule), c, content)
  {
    match n
    case Text(_) =>
    case Element(tag, classes, attrs, children) =>
      var r := FillField(n, d, text, rule);
      if d in classes && tag != "img" {
        assert r.children == TextContent(text);
      } else {
        forall i | 0 <= i < |children|
          ensures EveryNonImageFilled(r.children[i], c, content)
        {
          assert r.children[i] == FillField(children[i], d, text, rule);
          FillFieldKeepsFilled(children[i], c, content, d, text, rule);
        }
        if c in classes && tag != "img" {
          forall i | 0 <= i < |children|
            ensures r.children[i] == children[i]
          {
            assert children[i] == content[i] && content[i].Text?;
          }
          assert r.children == children;
        }
      }
  }

  /** The scalar pass never makes two classes meet on one node. */
  lemma {:induction false} FillFieldKeepsNoShared(n: Node, c: string, d: string, e: string, text: string, rule: ImageRule)
    requires NoShared(n, c, d)
    ensures NoShared(FillField(n, e, text, rule), c, d)
  {
    match n
    case Text(_) =>
    case Element(tag, classes, attrs, children) =>
      if !(e in classes && tag != "img") {
        forall i | 0 <= i < |children|
          ensures NoShared(FillField(children[i], e, text, rule), c, d)
        {
          FillFieldKeepsNoShared(children[i], c, d, e, text, rule);
        }
      }
  }
}
