/**
 * The slug utility: the chain of string rewrites that turns a title into a URL-safe identifier
 * (lower-case, drop every character outside the kept set, spaces to hyphens, collapse runs of
 * hyphens, trim hyphens at both ends).
 */
module Slug {

  /** The seven accented capitals whose lower-case forms the kept set lists. */
  predicate IsUpperAccent(c: char) {
    c == '\U{00C1}' || c == '\U{00C9}' || c == '\U{00CD}' || c == '\U{00D3}' ||
    c == '\U{00DA}' || c == '\U{00D1}' || c == '\U{00DC}'
  }

  /** á é í ó ú ñ ü */
  predicate IsLowerAccent(c: char) {
    c == '\U{00E1}' || c == '\U{00E9}' || c == '\U{00ED}' || c == '\U{00F3}' ||
    c == '\U{00FA}' || c == '\U{00F1}' || c == '\U{00FC}'
  }

  /**
   * Case folding of one character: ASCII capitals and the seven accented capitals move down by
   * 32 code points; every other character is left as it is.
   */
  function LowerChar(c: char): char {
    if 'A' <= c <= 'Z' || IsUpperAccent(c) then (c as int + 32) as char else c
  }

  /** The characters a regular-expression `\s` matches in a text pattern (those `str.isspace` accepts). */
  predicate IsSpace(c: char) {
    c == ' ' || c == '\t' || c == '\n' || c == '\r' || c == '\U{000B}' || c == '\U{000C}' ||
    ('\U{001C}' <= c <= '\U{001F}') || c == '\U{0085}' || c == '\U{00A0}' || c == '\U{1680}' ||
    ('\U{2000}' <= c <= '\U{200A}') || c == '\U{2028}' || c == '\U{2029}' || c == '\U{202F}' ||
    c == '\U{205F}' || c == '\U{3000}'
  }

  /** The class `[a-z0-9áéíóúñü\s-]`: what survives the filtering step. */
  predicate Kept(c: char) {
    ('a' <= c <= 'z') || ('0' <= c <= '9') || IsLowerAccent(c) || IsSpace(c) || c == '-'
  }

  /** A character a slug may contain: a kept one other than the plain space. */
  predicate SlugChar(c: char) { Kept(c) && c != ' ' }

  predicate NoDoubleHyphen(s: string) {
    forall i :: 0 <= i < |s| - 1 ==> !(s[i] == '-' && s[i + 1] == '-')
  }

  /** What a slug looks like: slug characters only, no `--`, no hyphen at either end. */
  predicate IsSlug(s: string) {
    && (forall i :: 0 <= i < |s| ==> SlugChar(s[i]))
    && NoDoubleHyphen(s)
    && (|s| > 0 ==> s[0] != '-' && s[|s| - 1] != '-')
  }

  function Lower(s: string): (r: string)
    ensures |r| == |s|
  {
    if s == [] then [] else [LowerChar(s[0])] + Lower(s[1..])
  }

  /**
   * Lowering works character by character: each character becomes its folded form, so the
   * result holds no ASCII capital and none of the seven accented capitals.
   */
  lemma {:induction false} LowerPointwise(s: string)
    ensures forall i :: 0 <= i < |s| ==> Lower(s)[i] == LowerChar(s[i])
    ensures forall i :: 0 <= i < |s| ==> !('A' <= Lower(s)[i] <= 'Z') && !IsUpperAccent(Lower(s)[i])
  {
    if s != [] {
      LowerPointwise(s[1..]);
      assert forall i :: 1 <= i < |s| ==> Lower(s)[i] == Lower(s[1..])[i - 1];
    }
  }

  function StripDisallowed(s: string): (r: string)
    ensures forall i :: 0 <= i < |r| ==> Kept(r[i])
  {
    if s == [] then []
    else (if Kept(s[0]) then [s[0]] else []) + StripDisallowed(s[1..])
  }

  function HyphenateSpaces(s: string): (r: string)
    ensures |r| == |s|
    ensures forall i :: 0 <= i < |s| ==> r[i] == if s[i] == ' ' then '-' else s[i]
  {
    if s == [] then [] else [if s[0] == ' ' then '-' else s[0]] + HyphenateSpaces(s[1..])
  }

  /** Every run of hyphens becomes a single hyphen. */
  function CollapseHyphens(s: string): (r: string)
    ensures forall i :: 0 <= i < |r| ==> r[i] in s
    ensures |s| > 0 ==> |r| > 0 && r[0] == s[0]
    ensures NoDoubleHyphen(r)
  {
    if |s| <= 1 then s
    else if s[0] == '-' && s[1] == '-' then CollapseHyphens(s[1..])
    else [s[0]] + CollapseHyphens(s[1..])
  }

  function TrimStart(s: string): (r: string)
    ensures |r| <= |s| && r == s[|s| - |r|..]
    ensures |r| > 0 ==> r[0] != '-'
    ensures forall i :: 0 <= i < |s| - |r| ==> s[i] == '-'
  {
    if |s| > 0 && s[0] == '-' then TrimStart(s[1..]) else s
  }

  function TrimEnd(s: string): (r: string)
    ensures |r| <= |s| && r == s[..|r|]
    ensures |r| > 0 ==> r[|r| - 1] != '-'
    ensures forall i :: |r| <= i < |s| ==> s[i] == '-'
  {
    if |s| > 0 && s[|s| - 1] == '-' then TrimEnd(s[..|s| - 1]) else s
  }

  // ---------------------------------------------------------------------------
  // What each rewrite does to the content: the filter and the space rewrite act character by
  // character, and the collapse acts run by run.

  lemma {:induction false} LowerAppend(a: string, b: string)
    ensures Lower(a + b) == Lower(a) + Lower(b)
  {
    if a == [] {
      assert a + b == b;
    } else {
      assert (a + b)[1..] == a[1..] + b;
      LowerAppend(a[1..], b);
    }
  }

  /** The filter keeps a character exactly when it is in the kept set. */
  lemma StripChar(c: char)
    ensures StripDisallowed([c]) == if Kept(c) then [c] else []
  {
    assert [c][1..] == [];
  }

  /** The filter works character by character, so it keeps the kept characters in their order. */
  lemma {:induction false} StripAppend(a: string, b: string)
    ensures StripDisallowed(a + b) == StripDisallowed(a) + StripDisallowed(b)
  {
    if a == [] {
      assert a + b == b;
    } else {
      assert (a + b)[1..] == a[1..] + b;
      StripAppend(a[1..], b);
    }
  }

  lemma {:induction false} HyphenateAppend(a: string, b: string)
    ensures HyphenateSpaces(a + b) == HyphenateSpaces(a) + HyphenateSpaces(b)
  {
    if a == [] {
      assert a + b == b;
    } else {
      assert (a + b)[1..] == a[1..] + b;
      HyphenateAppend(a[1..], b);
    }
  }

  /** A hyphen run cannot reach across a character that is not a hyphen. */
  lemma {:induction false} CollapseAppend(a: string, b: string)
    requires |a| > 0 && a[|a| - 1] != '-'
    ensures CollapseHyphens(a + b) == CollapseHyphens(a) + CollapseHyphens(b)
  {
    var s := a + b;
    if |a| == 1 {
      if b != [] {
        assert s[1..] == b;
      } else {
        assert s == a;
      }
    } else {
      assert s[1..] == a[1..] + b;
      CollapseAppend(a[1..], b);
    }
  }

  /** A run of `k` hyphens. */
  function Hyphens(k: nat): (r: string)
    ensures |r| == k && forall i :: 0 <= i < k ==> r[i] == '-'
  {
    if k == 0 then [] else "-" + Hyphens(k - 1)
  }

  /** A single character passes the collapse unchanged. */
  lemma CollapseChar(c: char)
    ensures CollapseHyphens([c]) == [c]
  {
  }

  /** A whole run of hyphens, followed by anything not starting with one, becomes a single hyphen. */
  lemma {:induction false} CollapseRun(k: nat, b: string)
    requires k >= 1
    requires b == [] || b[0] != '-'
    ensures CollapseHyphens(Hyphens(k) + b) == "-" + CollapseHyphens(b)
  {
    var s := Hyphens(k) + b;
    if k == 1 {
      assert s == "-" + b;
      if b != [] {
        assert s[1..] == b;
      }
    } else {
      assert s[0] == '-' && s[1] == '-';
      assert s[1..] == Hyphens(k - 1) + b;
      CollapseRun(k - 1, b);
    }
  }

  /** `str.strip("-")`. */
  function TrimHyphens(s: string): string {
    TrimEnd(TrimStart(s))
  }

  function Slugify(s: string): string {
    TrimHyphens(CollapseHyphens(HyphenateSpaces(StripDisallowed(Lower(s)))))
  }

  // ---------------------------------------------------------------------------
  // Every output of Slugify is a slug.

  lemma SliceKeepsSlugChars(s: string, lo: int, hi: int)
    requires 0 <= lo <= hi <= |s|
    requires forall i :: 0 <= i < |s| ==> SlugChar(s[i])
    requires NoDoubleHyphen(s)
    ensures forall i :: 0 <= i < hi - lo ==> SlugChar(s[lo..hi][i])
    ensures NoDoubleHyphen(s[lo..hi])
  {
    var t := s[lo..hi];
    forall i | 0 <= i < |t| - 1 ensures !(t[i] == '-' && t[i + 1] == '-') {
      assert t[i] == s[lo + i] && t[i + 1] == s[lo + i + 1];
    }
  }

  lemma TrimHyphensIsSlug(s: string)
    requires forall i :: 0 <= i < |s| ==> SlugChar(s[i])
    requires NoDoubleHyphen(s)
    ensures IsSlug(TrimHyphens(s))
  {
    var t := TrimStart(s);
    SliceKeepsSlugChars(s, |s| - |t|, |s|);
    var u := TrimEnd(t);
    SliceKeepsSlugChars(t, 0, |u|);
    if |u| > 0 {
      assert u[0] == t[0];
    }
  }

  /** Whatever the input, the result has no space, no `--` and no hyphen at either end. */
  lemma SlugifyIsSlug(s: string)
    ensures IsSlug(Slugify(s))
  {
    var h := HyphenateSpaces(StripDisallowed(Lower(s)));
    assert forall i :: 0 <= i < |h| ==> SlugChar(h[i]);
    var c := CollapseHyphens(h);
    forall i | 0 <= i < |c| ensures SlugChar(c[i]) {
      assert c[i] in h;
    }
    TrimHyphensIsSlug(c);
  }

  // ---------------------------------------------------------------------------
  // Slugs are exactly the fixed points of Slugify.

  lemma {:induction false} LowerOfLowered(s: string)
    requires forall i :: 0 <= i < |s| ==> SlugChar(s[i])
    ensures Lower(s) == s
  {
    if s != [] {
      assert SlugChar(s[0]);
      LowerOfLowered(s[1..]);
    }
  }

  lemma {:induction false} StripKeepsKept(s: string)
    requires forall i :: 0 <= i < |s| ==> Kept(s[i])
    ensures StripDisallowed(s) == s
  {
    if s != [] {
      assert Kept(s[0]);
      StripKeepsKept(s[1..]);
    }
  }

  lemma {:induction false} CollapseKeepsSingleHyphens(s: string)
    requires NoDoubleHyphen(s)
    ensures CollapseHyphens(s) == s
  {
    if |s| > 1 {
      assert !(s[0] == '-' && s[1] == '-');
      assert NoDoubleHyphen(s[1..]) by {
        forall i | 0 <= i < |s[1..]| - 1 ensures !(s[1..][i] == '-' && s[1..][i + 1] == '-') {
          assert s[1..][i] == s[i + 1];
        }
      }
      CollapseKeepsSingleHyphens(s[1..]);
    }
  }

  lemma SlugIsFixpoint(s: string)
    requires IsSlug(s)
    ensures Slugify(s) == s
  {
    LowerOfLowered(s);
    StripKeepsKept(s);
    var h := HyphenateSpaces(s);
    assert h == s;
    CollapseKeepsSingleHyphens(s);
  }

  /** A string is left unchanged by Slugify exactly when it is already a slug. */
  lemma SlugFixpoint(s: string)
    ensures Slugify(s) == s <==> IsSlug(s)
  {
    if IsSlug(s) {
      SlugIsFixpoint(s);
    } else {
      SlugifyIsSlug(s);
    }
  }

  /** Slugifying a slug changes nothing. */
  lemma SlugifyIdempotent(s: string)
    ensures Slugify(Slugify(s)) == Slugify(s)
  {
    SlugifyIsSlug(s);
    SlugIsFixpoint(Slugify(s));
  }
}
