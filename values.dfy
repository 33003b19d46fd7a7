/**
 * The JSON values stored in an article's `article_data` and `image_data` columns, with the
 * parts of Python's behaviour on them that the services rely on: truthiness, `str()`,
 * `sep.join(list)` and `dict.get`.
 */
module Values {
  import opened Wrappers

  /**
   * A JSON value as the services see it. `StrList` and `StrMap` are a list of strings and a
   * dictionary of strings (in insertion order). `MixedList` is a list some of whose items are
   * not strings: each item is `Some(s)` for a string and `None` otherwise, and `text` is the
   * list's `str()`. `MixedMap` is a dictionary some of whose values are not strings, with its
   * keys in order and its `str()`. `Other` is a number or a boolean, with its `str()` and its
   * truthiness.
   */
  datatype Value =
    | Str(s: string)
    | StrList(items: seq<string>)
    | StrMap(entries: seq<(string, string)>)
    | MixedList(elems: seq<Option<string>>, text: string)
    | MixedMap(keys: seq<string>, text: string)
    | Null
    | Other(text: string, truthy: bool)

  type Dict = map<string, Value>

  /** Python's `bool(v)`. */
  predicate Truthy(v: Value) {
    match v
    case Str(s) => s != []
    case StrList(items) => items != []
    case StrMap(entries) => entries != []
    case MixedList(elems, _) => elems != []
    case MixedMap(keys, _) => keys != []
    case Null => false
    case Other(_, t) => t
  }

  /** `d.get(k, default)`. */
  function Get(d: Dict, k: string, default: Value): Value {
    if k in d then d[k] else default
  }

  function TotalLength(items: seq<string>): nat {
    if items == [] then 0 else |items[0]| + TotalLength(items[1..])
  }

  /** `sep.join(items)`. */
  function Join(items: seq<string>, sep: string): string {
    if items == [] then [] else if |items| == 1 then items[0] else items[0] + sep + Join(items[1..], sep)
  }

  /** `isinstance(v, list)`. */
  predicate IsList(v: Value) {
    v.StrList? || v.MixedList?
  }

  /** The items of a list when every one of them is a string. */
  function AllStrings(elems: seq<Option<string>>): (r: Option<seq<string>>)
    ensures r.Some? <==> forall i :: 0 <= i < |elems| ==> elems[i].Some?
    ensures r.Some? ==> |r.value| == |elems| && forall i :: 0 <= i < |elems| ==> r.value[i] == elems[i].value
  {
    if elems == [] then Some([])
    else if elems[0].None? then None
    else match AllStrings(elems[1..])
      case None => None
      case Some(rest) => Some([elems[0].value] + rest)
  }

  /** `sep.join(v)` for a list: `None` when Python raises because an item is not a string. */
  function JoinList(v: Value, sep: string): (r: Option<string>)
    requires IsList(v)
    ensures v.StrList? ==> r == Some(Join(v.items, sep))
    ensures v.MixedList? ==> (r.Some? <==> forall i :: 0 <= i < |v.elems| ==> v.elems[i].Some?)
    ensures v.MixedList? && r.Some? ==> r.value == Join(AllStrings(v.elems).value, sep)
  {
    if v.StrList? then Some(Join(v.items, sep))
    else match AllStrings(v.elems)
      case None => None
      case Some(items) => Some(Join(items, sep))
  }

  /** A join is as long as its items together plus one separator between each neighbouring pair. */
  lemma {:induction false} JoinLength(items: seq<string>, sep: string)
    ensures |Join(items, sep)| == TotalLength(items) + (if items == [] then 0 else (|items| - 1) * |sep|)
  {
    if |items| > 1 {
      JoinLength(items[1..], sep);
    }
  }

  /**
   * With a non-empty separator the join is empty exactly for the empty list and for a list
   * holding one empty string.
   */
  lemma JoinEmpty(items: seq<string>, sep: string)
    requires sep != []
    ensures Join(items, sep) == [] <==> items == [] || items == [[]]
  {
    JoinLength(items, sep);
  }

  /** Every item appears in the join, in order, with the separator between neighbours. */
  lemma {:induction false} JoinCons(x: string, rest: seq<string>, sep: string)
    requires rest != []
    ensures Join([x] + rest, sep) == x + sep + Join(rest, sep)
  {
    assert ([x] + rest)[1..] == rest;
  }

  /** `repr` of a string without quotes, backslashes or unprintable characters. */
  function ReprStr(s: string): (r: string)
    ensures |r| == |s| + 2
  {
    "'" + s + "'"
  }

  function ReprItems(items: seq<string>): (r: seq<string>)
    ensures |r| == |items|
    ensures forall i :: 0 <= i < |items| ==> r[i] == ReprStr(items[i])
  {
    seq(|items|, i requires 0 <= i < |items| => ReprStr(items[i]))
  }

  function ReprEntries(entries: seq<(string, string)>): (r: seq<string>)
    ensures |r| == |entries|
    ensures forall i :: 0 <= i < |entries| ==> r[i] == ReprStr(entries[i].0) + ": " + ReprStr(entries[i].1)
  {
    seq(|entries|, i requires 0 <= i < |entries| => ReprStr(entries[i].0) + ": " + ReprStr(entries[i].1))
  }

  /**
   * `str(list_of_strings)`: bracketed, never empty, and exactly `[]` for the empty list
   * (so a list value always renders as visible text).
   */
  function ReprList(items: seq<string>): (r: string)
    ensures |r| >= 2 && r[0] == '[' && r[|r| - 1] == ']'
    ensures r == "[]" <==> items == []
  {
    var inner := ReprItems(items);
    JoinLength(inner, ", ");
    assert items != [] ==> TotalLength(inner) >= 2;
    "[" + Join(inner, ", ") + "]"
  }

  /** `str(dict_of_strings)`, in insertion order. */
  function ReprMap(entries: seq<(string, string)>): (r: string)
    ensures |r| >= 2 && r[0] == '{' && r[|r| - 1] == '}'
    ensures r == "{}" <==> entries == []
  {
    var inner := ReprEntries(entries);
    JoinLength(inner, ", ");
    assert entries != [] ==> TotalLength(inner) >= 6;
    "{" + Join(inner, ", ") + "}"
  }

  /** Python's `str(v)`. */
  function PyStr(v: Value): string {
    match v
    case Str(s) => s
    case StrList(items) => ReprList(items)
    case StrMap(entries) => ReprMap(entries)
    case MixedList(_, text) => text
    case MixedMap(_, text) => text
    case Null => "None"
    case Other(text, _) => text
  }

  /** A list or dictionary always prints as non-empty text, even when it is itself empty. */
  lemma ContainersPrintVisibly(v: Value)
    requires v.StrList? || v.StrMap?
    ensures PyStr(v) != []
  {
  }
}
