/**
 * The guard in front of the `/images/<path:filename>` route: the extension check on the last
 * path component, the existence of the images directory, and the traversal check that
 * compares the resolved target with the resolved images directory as strings. Paths are the
 * POSIX ones: a string is split on '/', empty and "." components are dropped, and resolution
 * walks ".." upwards from the working directory, which is a parameter.
 */
module Paths {
  import opened Wrappers
  import opened Values
  import opened Slug

  /** The pieces of `s` between slashes, empty pieces included. */
  function Split(s: string): (r: seq<string>)
    ensures |r| >= 1
    ensures forall i :: 0 <= i < |r| ==> '/' !in r[i]
  {
    if s == [] then [[]]
    else
      var rest := Split(s[1..]);
      if s[0] == '/' then [[]] + rest
      else
        assert '/' !in [s[0]] + rest[0];
        [[s[0]] + rest[0]] + rest[1..]
  }

  /** Splitting and joining back with '/' gives the string again. */
  lemma {:induction false} SplitJoin(s: string)
    ensures Join(Split(s), "/") == s
  {
    if s != [] {
      var rest := Split(s[1..]);
      SplitJoin(s[1..]);
      if s[0] == '/' {
        JoinCons([], rest, "/");
      } else if |rest| == 1 {
        assert Split(s) == [[s[0]] + rest[0]];
      } else {
        JoinCons([s[0]] + rest[0], rest[1..], "/");
        JoinCons(rest[0], rest[1..], "/");
        assert rest == [rest[0]] + rest[1..];
        assert s == [s[0]] + s[1..];
      }
    }
  }

  /** A slash splits a string into the pieces of its two sides. */
  lemma {:induction false} SplitAppend(a: string, b: string)
    ensures Split(a + "/" + b) == Split(a) + Split(b)
  {
    if a == [] {
      assert ("/" + b)[1..] == b;
    } else {
      assert (a + "/" + b)[1..] == a[1..] + "/" + b;
      SplitAppend(a[1..], b);
    }
  }

  lemma {:induction false} SplitNoSlash(s: string)
    requires '/' !in s
    ensures Split(s) == [s]
  {
    if s != [] {
      assert s[0] != '/' by {
        assert s[0] in s;
      }
      assert '/' !in s[1..] by {
        assert forall c :: c in s[1..] ==> c in s;
      }
      SplitNoSlash(s[1..]);
      assert Split(s) == [[s[0]] + s[1..]];
      assert [s[0]] + s[1..] == s;
    }
  }

  /** A component `pathlib` drops when it parses a path. */
  predicate Skipped(c: string) { c == [] || c == "." }

  function Keep(cs: seq<string>): (r: seq<string>)
    ensures forall c :: c in r <==> c in cs && !Skipped(c)
  {
    if cs == [] then [] else (if Skipped(cs[0]) then [] else [cs[0]]) + Keep(cs[1..])
  }

  /** `PurePosixPath(s).parts` for a relative path, and the components after the root for an absolute one. */
  function Parts(s: string): (r: seq<string>)
    ensures forall i :: 0 <= i < |r| ==> !Skipped(r[i]) && '/' !in r[i]
  {
    var r := Keep(Split(s));
    assert forall i :: 0 <= i < |r| ==> r[i] in Split(s);
    r
  }

  /** `PurePath.name`: the last component, or "" when there is none. */
  function Name(s: string): string {
    var p := Parts(s);
    if p == [] then [] else p[|p| - 1]
  }

  /** `str.rfind('.')`. */
  function LastDot(s: string): (r: Option<nat>)
    ensures r.None? <==> '.' !in s
    ensures r.Some? ==> r.value < |s| && s[r.value] == '.' && '.' !in s[r.value + 1..]
  {
    if s == [] then None
    else if s[|s| - 1] == '.' then Some(|s| - 1)
    else
      var r := LastDot(s[..|s| - 1]);
      assert r.Some? ==> s[r.value + 1..] == s[..|s| - 1][r.value + 1..] + [s[|s| - 1]];
      assert '.' !in s[..|s| - 1] ==> '.' !in s by {
        assert s == s[..|s| - 1] + [s[|s| - 1]];
      }
      r
  }

  /**
   * `PurePath.suffix` of a name: from its last dot on, when that dot is neither the first nor
   * the last character; "" otherwise.
   */
  function Suffix(name: string): (r: string)
    ensures r != [] ==> |r| >= 2 && r[0] == '.' && '.' !in r[1..] && |r| < |name| && r == name[|name| - |r|..]
    ensures '.' !in name ==> r == []
  {
    match LastDot(name)
    case None => []
    case Some(i) => if 0 < i < |name| - 1 then name[i..] else []
  }

  /** A stem and an extension without dots give that extension. */
  lemma SuffixOf(stem: string, ext: string)
    requires stem != [] && ext != [] && '.' !in ext
    ensures Suffix(stem + "." + ext) == "." + ext
  {
    var name := stem + "." + ext;
    assert name[|stem|] == '.';
    assert name[|stem| + 1..] == ext;
    var i := LastDot(name).value;
    assert i == |stem|;
    assert name[i..] == "." + ext;
  }

  const AllowedExtensions: set<string> := {".jpg", ".jpeg", ".png", ".gif", ".webp", ".svg"}

  /** The extension check: the lower-cased suffix of the last component is an allowed one. */
  predicate ExtensionAllowed(filename: string) {
    Lower(Suffix(Name(filename))) in AllowedExtensions
  }

  /** A resolved path: its components after the root, none of them empty, ".", ".." or holding '/'. */
  predicate Canonical(dir: seq<string>) {
    forall i :: 0 <= i < |dir| ==> dir[i] != [] && dir[i] != "." && dir[i] != ".." && '/' !in dir[i]
  }

  /** One component of resolution: ".." goes up (and stays at the root), anything else goes down. */
  function Step(at: seq<string>, c: string): seq<string> {
    if c == ".." then (if at == [] then [] else at[..|at| - 1]) else at + [c]
  }

  function Walk(at: seq<string>, comps: seq<string>): seq<string>
    decreases |comps|
  {
    if comps == [] then at else Walk(Step(at, comps[0]), comps[1..])
  }

  /** `Path("data/images")`, relative to the working directory. */
  const ImagesDir: seq<string> := ["data", "images"]

  /** `images_dir.resolve()` from the working directory `cwd`. */
  function RootParts(cwd: seq<string>): seq<string> {
    Walk([], cwd + ImagesDir)
  }

  /** `(images_dir / filename).resolve()`: an absolute `filename` replaces the directory. */
  function TargetParts(cwd: seq<string>, filename: string): seq<string> {
    if "/" <= filename then Walk([], Parts(filename)) else Walk([], cwd + ImagesDir + Parts(filename))
  }

  /** `str` of a resolved path. */
  function PathString(parts: seq<string>): string {
    "/" + Join(parts, "/")
  }

  /** The traversal check as written: the target's text starts with the directory's text. */
  predicate PrefixInside(cwd: seq<string>, filename: string) {
    PathString(RootParts(cwd)) <= PathString(TargetParts(cwd, filename))
  }

  /** Walking canonical components just appends them. */
  lemma {:induction false} WalkCanonical(at: seq<string>, comps: seq<string>)
    requires Canonical(comps)
    ensures Walk(at, comps) == at + comps
    decreases |comps|
  {
    if comps != [] {
      assert Canonical(comps[1..]) by {
        assert forall i :: 0 <= i < |comps[1..]| ==> comps[1..][i] == comps[i + 1];
      }
      WalkCanonical(at + [comps[0]], comps[1..]);
      assert at + [comps[0]] + comps[1..] == at + comps;
    }
  }

  lemma {:induction false} JoinSnoc(x: seq<string>, y: string, sep: string)
    requires x != []
    ensures Join(x + [y], sep) == Join(x, sep) + sep + y
    decreases |x|
  {
    if |x| == 1 {
      assert x + [y] == [x[0]] + [y];
      JoinCons(x[0], [y], sep);
    } else {
      assert x + [y] == [x[0]] + (x[1..] + [y]);
      JoinCons(x[0], x[1..] + [y], sep);
      JoinCons(x[0], x[1..], sep);
      JoinSnoc(x[1..], y, sep);
    }
  }

  /** Joining more components keeps the joined text of the first ones as a prefix. */
  lemma {:induction false} JoinPrefix(a: seq<string>, b: seq<string>, sep: string)
    requires a != []
    ensures Join(a, sep) <= Join(a + b, sep)
    decreases |b|
  {
    if b == [] {
      assert a + b == a;
    } else {
      var c := b[..|b| - 1];
      var last := b[|b| - 1];
      JoinPrefix(a, c, sep);
      assert a + b == (a + c) + [last];
      JoinSnoc(a + c, last, sep);
      var x, y := Join(a, sep), Join(a + c, sep);
      assert x <= y;
      assert y <= y + sep + last;
    }
  }

  /** Canonical paths stay canonical when put one after the other. */
  lemma CanonicalAppend(a: seq<string>, b: seq<string>)
    requires Canonical(a) && Canonical(b)
    ensures Canonical(a + b)
  {
    assert forall i :: |a| <= i < |a| + |b| ==> (a + b)[i] == b[i - |a|];
  }

  lemma CanonicalImagesDir()
    ensures Canonical(ImagesDir)
  {
  }

  /** The components of a name without ".." are canonical. */
  lemma CanonicalParts(filename: string)
    requires ".." !in Parts(filename)
    ensures Canonical(Parts(filename))
  {
    var p := Parts(filename);
    forall i | 0 <= i < |p|
      ensures p[i] != ".."
    {
      assert p[i] in p;
    }
  }

  /** The directory itself resolves to the working directory followed by data/images. */
  lemma RootIs(cwd: seq<string>)
    requires Canonical(cwd)
    ensures RootParts(cwd) == cwd + ImagesDir
  {
    CanonicalImagesDir();
    CanonicalAppend(cwd, ImagesDir);
    WalkCanonical([], cwd + ImagesDir);
  }

  /**
   * A relative name with no ".." component resolves to a path below the images directory,
   * component for component, and the string check lets it through.
   */
  lemma InsideAccepted(cwd: seq<string>, filename: string)
    requires Canonical(cwd)
    requires !("/" <= filename)
    requires ".." !in Parts(filename)
    ensures TargetParts(cwd, filename) == RootParts(cwd) + Parts(filename)
    ensures PrefixInside(cwd, filename)
  {
    var p := Parts(filename);
    CanonicalParts(filename);
    CanonicalImagesDir();
    CanonicalAppend(cwd, ImagesDir);
    CanonicalAppend(cwd + ImagesDir, p);
    WalkCanonical([], cwd + ImagesDir + p);
    RootIs(cwd);
    JoinPrefix(cwd + ImagesDir, p, "/");
  }

  /** Walking a concatenation walks the first part, then the second. */
  lemma {:induction false} WalkSplit(at: seq<string>, a: seq<string>, b: seq<string>)
    ensures Walk(at, a + b) == Walk(Walk(at, a), b)
    decreases |a|
  {
    if a == [] {
      assert a + b == b;
    } else {
      assert (a + b)[0] == a[0];
      assert (a + b)[1..] == a[1..] + b;
      WalkSplit(Step(at, a[0]), a[1..], b);
    }
  }

  /** `../<sibling>/<n>` splits into its three components. */
  lemma SiblingParts(filename: string, sibling: string, n: string)
    requires filename == ".." + "/" + sibling + "/" + n
    requires '/' !in sibling && '/' !in n
    requires !Skipped(sibling) && !Skipped(n)
    ensures Parts(filename) == ["..", sibling, n]
    ensures !("/" <= filename)
  {
    assert filename == ".." + "/" + (sibling + "/" + n);
    SplitAppend("..", sibling + "/" + n);
    SplitAppend(sibling, n);
    SplitNoSlash("..");
    SplitNoSlash(sibling);
    SplitNoSlash(n);
    var cs := ["..", sibling, n];
    assert Split(filename) == cs;
    assert cs[1..] == [sibling, n];
    assert cs[1..][1..] == [n];
    assert Keep([n]) == [n];
    assert Keep([sibling, n]) == [sibling, n];
    assert filename[0] == '.';
  }

  /** From the images directory, `../<sibling>/<n>` lands in the sibling directory. */
  lemma SiblingWalk(cwd: seq<string>, sibling: string, n: string)
    requires Canonical(cwd)
    requires Canonical([sibling, n])
    ensures Walk([], cwd + ImagesDir + ["..", sibling, n]) == cwd + ["data", sibling, n]
  {
    var start := cwd + ImagesDir;
    CanonicalImagesDir();
    CanonicalAppend(cwd, ImagesDir);
    WalkCanonical([], start);
    assert [] + start == start;
    WalkSplit([], start, ["..", sibling, n]);
    assert Walk([], start + ["..", sibling, n]) == Walk(start, ["..", sibling, n]);
    assert ["..", sibling, n] == [".."] + [sibling, n];
    WalkSplit(start, [".."], [sibling, n]);
    assert [".."][0] == ".." && [".."][1..] == [];
    assert Walk(start, [".."]) == Walk(Step(start, ".."), []);
    assert Step(start, "..") == start[..|start| - 1];
    assert start[..|start| - 1] == cwd + ["data"];
    WalkCanonical(cwd + ["data"], [sibling, n]);
    assert cwd + ["data"] + [sibling, n] == cwd + ["data", sibling, n];
    assert Walk(start, ["..", sibling, n]) == Walk(cwd + ["data"], [sibling, n]);
  }

  /** The text of the images directory is a prefix of the text of anything in a directory whose name extends "images". */
  lemma SiblingText(cwd: seq<string>, tail: string, n: string)
    ensures PathString(cwd + ImagesDir) <= PathString(cwd + ["data", "images" + tail, n])
  {
    var up := cwd + ["data"];
    JoinSnoc(up, "images", "/");
    JoinSnoc(up, "images" + tail, "/");
    JoinSnoc(up + ["images" + tail], n, "/");
    assert up + ["images"] == cwd + ImagesDir;
    assert up + ["images" + tail] + [n] == cwd + ["data", "images" + tail, n];
    var j := Join(up, "/") + "/";
    assert j + "images" <= j + ("images" + tail);
    assert j + ("images" + tail) <= j + ("images" + tail) + "/" + n;
  }

  /**
   * The string check is weaker than containment: `../images<tail>/<n>` names a file in a
   * sibling directory whose name starts with "images", outside the images directory, and
   * the check still lets it through.
   */
  lemma SiblingAccepted(cwd: seq<string>, tail: string, n: string, filename: string)
    requires Canonical(cwd)
    requires tail != [] && '/' !in tail
    requires !Skipped(n) && n != ".." && '/' !in n
    requires filename == "../images" + tail + "/" + n
    ensures TargetParts(cwd, filename) == cwd + ["data", "images" + tail, n]
    ensures !(RootParts(cwd) <= TargetParts(cwd, filename))
    ensures PrefixInside(cwd, filename)
  {
    var sibling := "images" + tail;
    assert "../images" == ".." + "/" + "images";
    assert filename == ".." + "/" + sibling + "/" + n;
    assert '/' !in sibling by {
      assert forall i :: 6 <= i < |sibling| ==> sibling[i] == tail[i - 6];
    }
    assert |sibling| > 6;
    SiblingParts(filename, sibling, n);
    assert Canonical([sibling, n]);
    SiblingWalk(cwd, sibling, n);
    RootIs(cwd);
    var target := cwd + ["data", sibling, n];
    assert target[|cwd| + 1] == sibling;
    assert (cwd + ImagesDir)[|cwd| + 1] == "images";
    SiblingText(cwd, tail, n);
  }

  /** `../../<n>` splits into its three components. */
  lemma ParentParts(filename: string, n: string)
    requires filename == ".." + "/" + ".." + "/" + n
    requires '/' !in n && !Skipped(n)
    ensures Parts(filename) == ["..", "..", n]
    ensures !("/" <= filename)
  {
    assert filename == ".." + "/" + (".." + "/" + n);
    SplitAppend("..", ".." + "/" + n);
    SplitAppend("..", n);
    SplitNoSlash("..");
    SplitNoSlash(n);
    var cs := ["..", "..", n];
    assert Split(filename) == cs;
    assert cs[1..] == ["..", n];
    assert cs[1..][1..] == [n];
    assert Keep([n]) == [n];
    assert Keep(["..", n]) == ["..", n];
    assert filename[0] == '.';
  }

  /** From the images directory, `../../<n>` lands next to `data` in the working directory. */
  lemma ParentWalk(cwd: seq<string>, n: string)
    requires Canonical(cwd)
    requires Canonical([n])
    ensures Walk([], cwd + ImagesDir + ["..", "..", n]) == cwd + [n]
  {
    var start := cwd + ImagesDir;
    CanonicalImagesDir();
    CanonicalAppend(cwd, ImagesDir);
    WalkCanonical([], start);
    assert [] + start == start;
    WalkSplit([], start, ["..", "..", n]);
    assert ["..", "..", n] == [".."] + ([".."] + [n]);
    WalkSplit(start, [".."], [".."] + [n]);
    assert [".."][0] == ".." && [".."][1..] == [];
    assert Walk(start, [".."]) == Walk(Step(start, ".."), []);
    assert Step(start, "..") == cwd + ["data"];
    var up := cwd + ["data"];
    WalkSplit(up, [".."], [n]);
    assert Walk(up, [".."]) == Walk(Step(up, ".."), []);
    assert Step(up, "..") == cwd;
    WalkCanonical(cwd, [n]);
  }

  /** Starting with the text of the images directory means carrying a 'd' right after the working directory. */
  lemma ParentText(cwd: seq<string>, n: string)
    requires n != [] && n[0] != 'd'
    ensures !(PathString(cwd + ImagesDir) <= PathString(cwd + [n]))
  {
    if cwd == [] {
      assert cwd + ImagesDir == ["data"] + ["images"];
      JoinCons("data", ["images"], "/");
      assert PathString(cwd + ImagesDir)[1] == 'd';
      assert cwd + [n] == [n];
      assert PathString(cwd + [n])[1] == n[0];
    } else {
      var j := "/" + Join(cwd, "/") + "/";
      JoinSnoc(cwd, "data", "/");
      JoinSnoc(cwd + ["data"], "images", "/");
      assert cwd + ["data"] + ["images"] == cwd + ImagesDir;
      JoinSnoc(cwd, n, "/");
      assert PathString(cwd + ImagesDir) == j + "data" + "/" + "images";
      assert PathString(cwd + [n]) == j + n;
      assert PathString(cwd + ImagesDir)[|j|] == 'd';
      assert PathString(cwd + [n])[|j|] == n[0];
    }
  }

  /**
   * A traversal that keeps an allowed extension is caught by the string check: `../../<n>`
   * resolves next to `data` in the working directory, outside the images directory.
   */
  lemma ParentEscapeRefused(cwd: seq<string>, n: string, filename: string)
    requires Canonical(cwd)
    requires filename == "../../" + n
    requires n != [] && n[0] != 'd' && '/' !in n && n != "." && n != ".."
    ensures TargetParts(cwd, filename) == cwd + [n]
    ensures !PrefixInside(cwd, filename)
  {
    assert "../../" == ".." + "/" + ".." + "/";
    assert filename == ".." + "/" + ".." + "/" + n;
    ParentParts(filename, n);
    assert Canonical([n]);
    ParentWalk(cwd, n);
    RootIs(cwd);
    ParentText(cwd, n);
  }

  /** What the route answers. */
  datatype ImageResponse = InvalidType | NoImagesDir | InvalidPath | Send(filename: string)

  /**
   * The `images` route: the extension is checked first, then the directory's existence,
   * then the traversal check; only a request passing all three reaches the file.
   */
  function ServeImage(cwd: seq<string>, dirExists: bool, filename: string): (r: ImageResponse)
    ensures r == InvalidType <==> !ExtensionAllowed(filename)
    ensures r == NoImagesDir <==> ExtensionAllowed(filename) && !dirExists
    ensures r == InvalidPath <==> ExtensionAllowed(filename) && dirExists && !PrefixInside(cwd, filename)
    ensures r.Send? <==> ExtensionAllowed(filename) && dirExists && PrefixInside(cwd, filename)
    ensures r.Send? ==> r.filename == filename
  {
    if !ExtensionAllowed(filename) then InvalidType
    else if !dirExists then NoImagesDir
    else if !PrefixInside(cwd, filename) then InvalidPath
    else Send(filename)
  }

  /** A single component `stem.ext` is its own name and has the suffix `.ext`. */
  lemma PlainNameSuffix(filename: string, stem: string, ext: string)
    requires filename == stem + "." + ext
    requires stem != [] && ext != [] && '.' !in ext && '/' !in stem && '/' !in ext
    ensures Parts(filename) == [filename]
    ensures Suffix(Name(filename)) == "." + ext
  {
    assert '/' !in filename by {
      assert forall i :: 0 <= i < |filename| ==> filename[i] == (if i < |stem| then stem[i] else if i == |stem| then '.' else ext[i - |stem| - 1]);
    }
    SplitNoSlash(filename);
    assert filename != [] && filename != ".";
    assert Keep([filename]) == [filename];
    SuffixOf(stem, ext);
  }

  /** The extension check decided from the suffix alone. */
  lemma CheckedBySuffix(filename: string, ext: string)
    requires Suffix(Name(filename)) == ext
    ensures ExtensionAllowed(filename) <==> Lower(ext) in AllowedExtensions
  {
  }

  lemma ExeNotAllowed(ext: string)
    requires ext == ".exe"
    ensures Lower(ext) !in AllowedExtensions
  {
    assert Lower(".exe") == ".exe";
  }

  /** A request for an executable is refused before the file system is consulted. */
  lemma ExecutableRefused(cwd: seq<string>, dirExists: bool, filename: string)
    requires filename == "test.exe"
    ensures ServeImage(cwd, dirExists, filename) == InvalidType
  {
    assert filename == "test" + "." + "exe";
    PlainNameSuffix(filename, "test", "exe");
    CheckedBySuffix(filename, ".exe");
    ExeNotAllowed(".exe");
  }

  lemma {:induction false} KeepAppend(a: seq<string>, b: seq<string>)
    ensures Keep(a + b) == Keep(a) + Keep(b)
  {
    if a == [] {
      assert a + b == b;
    } else {
      assert (a + b)[0] == a[0];
      assert (a + b)[1..] == a[1..] + b;
      KeepAppend(a[1..], b);
    }
  }

  /** The name of `a/b` is `b` when `b` is a plain component. */
  lemma LastComponent(filename: string, a: string, b: string)
    requires filename == a + "/" + b
    requires '/' !in b && !Skipped(b)
    ensures Name(filename) == b
  {
    SplitAppend(a, b);
    SplitNoSlash(b);
    KeepAppend(Split(a), [b]);
    assert Keep([b]) == [b];
  }

  /** The traversal in the route's tests has no extension, so it is refused by the first check. */
  lemma TraversalRefused(cwd: seq<string>, dirExists: bool, filename: string)
    requires filename == "../../../etc/passwd"
    ensures ServeImage(cwd, dirExists, filename) == InvalidType
  {
    assert filename == "../../../etc" + "/" + "passwd";
    LastComponent(filename, "../../../etc", "passwd");
    assert '.' !in "passwd";
    CheckedBySuffix(filename, []);
  }

  lemma PngAllowed(ext: string)
    requires ext == ".PNG"
    ensures Lower(ext) in AllowedExtensions
  {
    assert Lower(".PNG") == ".png";
  }

  /** An upper-case extension is accepted like its lower-case form. */
  lemma UpperCaseExtension(cwd: seq<string>, filename: string)
    requires Canonical(cwd)
    requires filename == "photo.PNG"
    ensures ServeImage(cwd, true, filename) == Send(filename)
  {
    assert filename == "photo" + "." + "PNG";
    PlainNameSuffix(filename, "photo", "PNG");
    CheckedBySuffix(filename, ".PNG");
    PngAllowed(".PNG");
    assert filename[0] == 'p';
    InsideAccepted(cwd, filename);
  }
}
