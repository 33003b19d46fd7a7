/**
 * Worked cases of the slug utility: the inputs and outputs the repository's own test suite
 * states, derived here from the definitions.
 */
module SlugExamples {
  import opened Slug

  /** When the first three rewrites already give a slug, the last two change nothing. */
  lemma ViaSlug(s: string, kept: string)
    requires StripDisallowed(Lower(s)) == kept
    requires IsSlug(HyphenateSpaces(kept))
    ensures Slugify(s) == HyphenateSpaces(kept)
  {
    SlugIsFixpoint(HyphenateSpaces(kept));
    LowerOfLowered(HyphenateSpaces(kept));
    StripKeepsKept(HyphenateSpaces(kept));
    assert HyphenateSpaces(HyphenateSpaces(kept)) == HyphenateSpaces(kept);
  }


  /** When the first four rewrites already give a slug, trimming changes nothing. */
  lemma ViaCollapse(s: string, hyphenated: string)
    requires HyphenateSpaces(StripDisallowed(Lower(s))) == hyphenated
    requires IsSlug(CollapseHyphens(hyphenated))
    ensures Slugify(s) == CollapseHyphens(hyphenated)
  {
  }

  /** Three pieces whose spaces become hyphens separately do so together. */
  lemma HyphenatePieces(a: string, b: string, c: string, a': string, b': string, c': string)
    requires HyphenateSpaces(a) == a' && HyphenateSpaces(b) == b' && HyphenateSpaces(c) == c'
    ensures HyphenateSpaces(a + b + c) == a' + b' + c'
  {
    HyphenateAppend(a + b, c);
    HyphenateAppend(a, b);
  }

  lemma HelloSpaceLower(s: string)
    requires s == "Hell" + "o Wo" + "rld"
    ensures Lower(s) == "hell" + "o wo" + "rld"
  {
    LowerAppend("Hell" + "o Wo", "rld");
    LowerAppend("Hell", "o Wo");
    assert Lower("Hell") == "hell";
    assert Lower("o Wo") == "o wo";
    assert Lower("rld") == "rld";
  }

  lemma HelloSpaceStrip(s: string)
    requires s == "hell" + "o wo" + "rld"
    ensures StripDisallowed(s) == "hell" + "o wo" + "rld"
  {
    StripAppend("hell" + "o wo", "rld");
    StripAppend("hell", "o wo");
    assert StripDisallowed("hell") == "hell";
    assert StripDisallowed("o wo") == "o wo";
    assert StripDisallowed("rld") == "rld";
  }

  lemma HelloSpaceHyphenate(s: string)
    requires s == "hell" + "o wo" + "rld"
    ensures HyphenateSpaces(s) == "hell" + "o-wo" + "rld"
  {
    HyphenateAppend("hell" + "o wo", "rld");
    HyphenateAppend("hell", "o wo");
    assert HyphenateSpaces("hell") == "hell";
    assert HyphenateSpaces("o wo") == "o-wo";
    assert HyphenateSpaces("rld") == "rld";
  }

  lemma HelloSpaceSlug(h: string)
    requires h == "hell" + "o-wo" + "rld"
    ensures IsSlug(h)
  {
  }

  lemma HelloSpacePipeline(s: string)
    requires s == "Hell" + "o Wo" + "rld"
    ensures Slugify(s) == "hell" + "o-wo" + "rld"
  {
    HelloSpaceLower(s);
    var lowered := Lower(s);
    HelloSpaceStrip(lowered);
    var kept := StripDisallowed(lowered);
    HelloSpaceHyphenate(kept);
    HelloSpaceSlug(HyphenateSpaces(kept));
    ViaSlug(s, kept);
  }

  lemma HelloSpaceSpelled(a: string, b: string)
    requires a == "Hell" + "o Wo" + "rld" && b == "hell" + "o-wo" + "rld"
    ensures a == "Hello World" && b == "hello-world"
  {
  }

  /** A space becomes a hyphen: "Hello World" becomes "hello-world". */
  lemma HelloSpace(s: string)
    requires s == "Hello World"
    ensures Slugify(s) == "hello-world"
  {
    HelloSpaceSpelled("Hell" + "o Wo" + "rld", "hell" + "o-wo" + "rld");
    HelloSpacePipeline(s);
    HelloSpaceSpelled(s, Slugify(s));
  }

  lemma TestArticleNumberLower(s: string)
    requires s == "Test" + " Art" + "icle" + " 123"
    ensures Lower(s) == "test" + " art" + "icle" + " 123"
  {
    LowerAppend("Test" + " Art" + "icle", " 123");
    LowerAppend("Test" + " Art", "icle");
    LowerAppend("Test", " Art");
    assert Lower("Test") == "test";
    assert Lower(" Art") == " art";
    assert Lower("icle") == "icle";
    assert Lower(" 123") == " 123";
  }

  lemma TestArticleNumberStrip(s: string)
    requires s == "test" + " art" + "icle" + " 123"
    ensures StripDisallowed(s) == "test" + " art" + "icle" + " 123"
  {
    StripAppend("test" + " art" + "icle", " 123");
    StripAppend("test" + " art", "icle");
    StripAppend("test", " art");
    assert StripDisallowed("test") == "test";
    assert StripDisallowed(" art") == " art";
    assert StripDisallowed("icle") == "icle";
    assert StripDisallowed(" 123") == " 123";
  }

  lemma HyphenateTest(t: string)
    requires t == "test"
    ensures HyphenateSpaces(t) == "test"
  {
  }

  lemma HyphenateSpaceArt(t: string)
    requires t == " art"
    ensures HyphenateSpaces(t) == "-art"
  {
  }

  lemma HyphenateIcle(t: string)
    requires t == "icle"
    ensures HyphenateSpaces(t) == "icle"
  {
  }

  lemma HyphenateSpace123(t: string)
    requires t == " 123"
    ensures HyphenateSpaces(t) == "-123"
  {
  }

  lemma TestArticleNumberHyphenate(s: string)
    requires s == "test" + " art" + "icle" + " 123"
    ensures HyphenateSpaces(s) == "test" + "-art" + "icle" + "-123"
  {
    HyphenateTest("test");
    HyphenateSpaceArt(" art");
    HyphenateIcle("icle");
    HyphenateSpace123(" 123");
    HyphenatePieces("test", " art", "icle", "test", "-art", "icle");
    HyphenateAppend("test" + " art" + "icle", " 123");
  }

  lemma TestArticleNumberSlug(h: string)
    requires h == "test" + "-art" + "icle" + "-123"
    ensures IsSlug(h)
  {
  }

  lemma TestArticleNumberPipeline(s: string)
    requires s == "Test" + " Art" + "icle" + " 123"
    ensures Slugify(s) == "test" + "-art" + "icle" + "-123"
  {
    TestArticleNumberLower(s);
    var lowered := Lower(s);
    TestArticleNumberStrip(lowered);
    var kept := StripDisallowed(lowered);
    TestArticleNumberHyphenate(kept);
    TestArticleNumberSlug(HyphenateSpaces(kept));
    ViaSlug(s, kept);
  }

  lemma TestArticleNumberSpelled(a: string, b: string)
    requires a == "Test" + " Art" + "icle" + " 123" && b == "test" + "-art" + "icle" + "-123"
    ensures a == "Test Article 123" && b == "test-article-123"
  {
  }

  /** Digits are kept: "Test Article 123" becomes "test-article-123". */
  lemma TestArticleNumber(s: string)
    requires s == "Test Article 123"
    ensures Slugify(s) == "test-article-123"
  {
    TestArticleNumberSpelled("Test" + " Art" + "icle" + " 123", "test" + "-art" + "icle" + "-123");
    TestArticleNumberPipeline(s);
    TestArticleNumberSpelled(s, Slugify(s));
  }

  lemma HelloWorldLower(s: string)
    requires s == "Hell" + "o, W" + "orld" + "!"
    ensures Lower(s) == "hell" + "o, w" + "orld" + "!"
  {
    LowerAppend("Hell" + "o, W" + "orld", "!");
    LowerAppend("Hell" + "o, W", "orld");
    LowerAppend("Hell", "o, W");
    assert Lower("Hell") == "hell";
    assert Lower("o, W") == "o, w";
    assert Lower("orld") == "orld";
    assert Lower("!") == "!";
  }

  lemma HelloWorldStrip(s: string)
    requires s == "hell" + "o, w" + "orld" + "!"
    ensures StripDisallowed(s) == "hell" + "o w" + "orld" + ""
  {
    StripAppend("hell" + "o, w" + "orld", "!");
    StripAppend("hell" + "o, w", "orld");
    StripAppend("hell", "o, w");
    assert StripDisallowed("hell") == "hell";
    assert StripDisallowed("o, w") == "o w";
    assert StripDisallowed("orld") == "orld";
    assert StripDisallowed("!") == "";
  }

  lemma HelloWorldHyphenate(s: string)
    requires s == "hell" + "o w" + "orld" + ""
    ensures HyphenateSpaces(s) == "hell" + "o-w" + "orld" + ""
  {
    HyphenateAppend("hell" + "o w" + "orld", "");
    HyphenateAppend("hell" + "o w", "orld");
    HyphenateAppend("hell", "o w");
    assert HyphenateSpaces("hell") == "hell";
    assert HyphenateSpaces("o w") == "o-w";
    assert HyphenateSpaces("orld") == "orld";
    assert HyphenateSpaces("") == "";
  }

  lemma HelloWorldSlug(h: string)
    requires h == "hell" + "o-w" + "orld" + ""
    ensures IsSlug(h)
  {
  }

  lemma HelloWorldPipeline(s: string)
    requires s == "Hell" + "o, W" + "orld" + "!"
    ensures Slugify(s) == "hell" + "o-w" + "orld" + ""
  {
    HelloWorldLower(s);
    var lowered := Lower(s);
    HelloWorldStrip(lowered);
    var kept := StripDisallowed(lowered);
    HelloWorldHyphenate(kept);
    HelloWorldSlug(HyphenateSpaces(kept));
    ViaSlug(s, kept);
  }

  lemma HelloWorldSpelled(a: string, b: string)
    requires a == "Hell" + "o, W" + "orld" + "!" && b == "hell" + "o-w" + "orld" + ""
    ensures a == "Hello, World!" && b == "hello-world"
  {
  }

  /** Punctuation is dropped: "Hello, World!" becomes "hello-world". */
  lemma HelloWorld(s: string)
    requires s == "Hello, World!"
    ensures Slugify(s) == "hello-world"
  {
    HelloWorldSpelled("Hell" + "o, W" + "orld" + "!", "hell" + "o-w" + "orld" + "");
    HelloWorldPipeline(s);
    HelloWorldSpelled(s, Slugify(s));
  }

  lemma TestArticleLower(s: string)
    requires s == "Test" + "@Art" + "icle" + "#123"
    ensures Lower(s) == "test" + "@art" + "icle" + "#123"
  {
    LowerAppend("Test" + "@Art" + "icle", "#123");
    LowerAppend("Test" + "@Art", "icle");
    LowerAppend("Test", "@Art");
    assert Lower("Test") == "test";
    assert Lower("@Art") == "@art";
    assert Lower("icle") == "icle";
    assert Lower("#123") == "#123";
  }

  lemma TestArticleStrip(s: string)
    requires s == "test" + "@art" + "icle" + "#123"
    ensures StripDisallowed(s) == "test" + "art" + "icle" + "123"
  {
    StripAppend("test" + "@art" + "icle", "#123");
    StripAppend("test" + "@art", "icle");
    StripAppend("test", "@art");
    assert StripDisallowed("test") == "test";
    assert StripDisallowed("@art") == "art";
    assert StripDisallowed("icle") == "icle";
    assert StripDisallowed("#123") == "123";
  }

  lemma TestArticleHyphenate(s: string)
    requires s == "test" + "art" + "icle" + "123"
    ensures HyphenateSpaces(s) == "test" + "art" + "icle" + "123"
  {
    HyphenateAppend("test" + "art" + "icle", "123");
    HyphenateAppend("test" + "art", "icle");
    HyphenateAppend("test", "art");
    assert HyphenateSpaces("test") == "test";
    assert HyphenateSpaces("art") == "art";
    assert HyphenateSpaces("icle") == "icle";
    assert HyphenateSpaces("123") == "123";
  }

  lemma TestArticleSlug(h: string)
    requires h == "test" + "art" + "icle" + "123"
    ensures IsSlug(h)
  {
  }

  lemma TestArticlePipeline(s: string)
    requires s == "Test" + "@Art" + "icle" + "#123"
    ensures Slugify(s) == "test" + "art" + "icle" + "123"
  {
    TestArticleLower(s);
    var lowered := Lower(s);
    TestArticleStrip(lowered);
    var kept := StripDisallowed(lowered);
    TestArticleHyphenate(kept);
    TestArticleSlug(HyphenateSpaces(kept));
    ViaSlug(s, kept);
  }

  lemma TestArticleSpelled(a: string, b: string)
    requires a == "Test" + "@Art" + "icle" + "#123" && b == "test" + "art" + "icle" + "123"
    ensures a == "Test@Article#123" && b == "testarticle123"
  {
  }

  /** Symbols are dropped without a hyphen: "Test@Article#123" becomes "testarticle123". */
  lemma TestArticle(s: string)
    requires s == "Test@Article#123"
    ensures Slugify(s) == "testarticle123"
  {
    TestArticleSpelled("Test" + "@Art" + "icle" + "#123", "test" + "art" + "icle" + "123");
    TestArticlePipeline(s);
    TestArticleSpelled(s, Slugify(s));
  }

  lemma MalagaLower(s: string)
    requires s == "M\U{00E1}l" + "aga"
    ensures Lower(s) == "m\U{00E1}l" + "aga"
  {
    LowerAppend("M\U{00E1}l", "aga");
    assert Lower("M\U{00E1}l") == "m\U{00E1}l";
    assert Lower("aga") == "aga";
  }

  lemma MalagaStrip(s: string)
    requires s == "m\U{00E1}l" + "aga"
    ensures StripDisallowed(s) == "m\U{00E1}l" + "aga"
  {
    StripAppend("m\U{00E1}l", "aga");
    assert StripDisallowed("m\U{00E1}l") == "m\U{00E1}l";
    assert StripDisallowed("aga") == "aga";
  }

  lemma MalagaHyphenate(s: string)
    requires s == "m\U{00E1}l" + "aga"
    ensures HyphenateSpaces(s) == "m\U{00E1}l" + "aga"
  {
    HyphenateAppend("m\U{00E1}l", "aga");
    assert HyphenateSpaces("m\U{00E1}l") == "m\U{00E1}l";
    assert HyphenateSpaces("aga") == "aga";
  }

  lemma MalagaSlug(h: string)
    requires h == "m\U{00E1}l" + "aga"
    ensures IsSlug(h)
  {
  }

  lemma MalagaPipeline(s: string)
    requires s == "M\U{00E1}l" + "aga"
    ensures Slugify(s) == "m\U{00E1}l" + "aga"
  {
    MalagaLower(s);
    var lowered := Lower(s);
    MalagaStrip(lowered);
    var kept := StripDisallowed(lowered);
    MalagaHyphenate(kept);
    MalagaSlug(HyphenateSpaces(kept));
    ViaSlug(s, kept);
  }

  lemma MalagaSpelled(a: string, b: string)
    requires a == "M\U{00E1}l" + "aga" && b == "m\U{00E1}l" + "aga"
    ensures a == "M\U{00E1}laga" && b == "m\U{00E1}laga"
  {
  }

  /** A kept accented capital is lowered: "Málaga" becomes "málaga". */
  lemma Malaga(s: string)
    requires s == "M\U{00E1}laga"
    ensures Slugify(s) == "m\U{00E1}laga"
  {
    MalagaSpelled("M\U{00E1}l" + "aga", "m\U{00E1}l" + "aga");
    MalagaPipeline(s);
    MalagaSpelled(s, Slugify(s));
  }

  lemma SpainLower(s: string)
    requires s == "Espa" + "\U{00F1}a a" + "\U{00F1}o"
    ensures Lower(s) == "espa" + "\U{00F1}a a" + "\U{00F1}o"
  {
    LowerAppend("Espa" + "\U{00F1}a a", "\U{00F1}o");
    LowerAppend("Espa", "\U{00F1}a a");
    assert Lower("Espa") == "espa";
    assert Lower("\U{00F1}a a") == "\U{00F1}a a";
    assert Lower("\U{00F1}o") == "\U{00F1}o";
  }

  lemma SpainStrip(s: string)
    requires s == "espa" + "\U{00F1}a a" + "\U{00F1}o"
    ensures StripDisallowed(s) == "espa" + "\U{00F1}a a" + "\U{00F1}o"
  {
    StripAppend("espa" + "\U{00F1}a a", "\U{00F1}o");
    StripAppend("espa", "\U{00F1}a a");
    assert StripDisallowed("espa") == "espa";
    assert StripDisallowed("\U{00F1}a a") == "\U{00F1}a a";
    assert StripDisallowed("\U{00F1}o") == "\U{00F1}o";
  }

  lemma SpainHyphenate(s: string)
    requires s == "espa" + "\U{00F1}a a" + "\U{00F1}o"
    ensures HyphenateSpaces(s) == "espa" + "\U{00F1}a-a" + "\U{00F1}o"
  {
    HyphenateAppend("espa" + "\U{00F1}a a", "\U{00F1}o");
    HyphenateAppend("espa", "\U{00F1}a a");
    assert HyphenateSpaces("espa") == "espa";
    assert HyphenateSpaces("\U{00F1}a a") == "\U{00F1}a-a";
    assert HyphenateSpaces("\U{00F1}o") == "\U{00F1}o";
  }

  lemma SpainSlug(h: string)
    requires h == "espa" + "\U{00F1}a-a" + "\U{00F1}o"
    ensures IsSlug(h)
  {
  }

  lemma SpainPipeline(s: string)
    requires s == "Espa" + "\U{00F1}a a" + "\U{00F1}o"
    ensures Slugify(s) == "espa" + "\U{00F1}a-a" + "\U{00F1}o"
  {
    SpainLower(s);
    var lowered := Lower(s);
    SpainStrip(lowered);
    var kept := StripDisallowed(lowered);
    SpainHyphenate(kept);
    SpainSlug(HyphenateSpaces(kept));
    ViaSlug(s, kept);
  }

  lemma SpainSpelled(a: string, b: string)
    requires a == "Espa" + "\U{00F1}a a" + "\U{00F1}o" && b == "espa" + "\U{00F1}a-a" + "\U{00F1}o"
    ensures a == "Espa\U{00F1}a a\U{00F1}o" && b == "espa\U{00F1}a-a\U{00F1}o"
  {
  }

  /** The kept accented letters pass through: "España año" becomes "españa-año". */
  lemma Spain(s: string)
    requires s == "Espa\U{00F1}a a\U{00F1}o"
    ensures Slugify(s) == "espa\U{00F1}a-a\U{00F1}o"
  {
    SpainSpelled("Espa" + "\U{00F1}a a" + "\U{00F1}o", "espa" + "\U{00F1}a-a" + "\U{00F1}o");
    SpainPipeline(s);
    SpainSpelled(s, Slugify(s));
  }

  lemma MultipleSpacesLower(s: string)
    requires s == "Hell" + "o   " + " Wor" + "ld"
    ensures Lower(s) == "hell" + "o   " + " wor" + "ld"
  {
    LowerAppend("Hell" + "o   " + " Wor", "ld");
    LowerAppend("Hell" + "o   ", " Wor");
    LowerAppend("Hell", "o   ");
    assert Lower("Hell") == "hell";
    assert Lower("o   ") == "o   ";
    assert Lower(" Wor") == " wor";
    assert Lower("ld") == "ld";
  }

  lemma MultipleSpacesStrip(s: string)
    requires s == "hell" + "o   " + " wor" + "ld"
    ensures StripDisallowed(s) == "hell" + "o   " + " wor" + "ld"
  {
    StripAppend("hell" + "o   " + " wor", "ld");
    StripAppend("hell" + "o   ", " wor");
    StripAppend("hell", "o   ");
    assert StripDisallowed("hell") == "hell";
    assert StripDisallowed("o   ") == "o   ";
    assert StripDisallowed(" wor") == " wor";
    assert StripDisallowed("ld") == "ld";
  }

  lemma MultipleSpacesHyphenate(s: string)
    requires s == "hell" + "o   " + " wor" + "ld"
    ensures HyphenateSpaces(s) == "hell" + "o---" + "-wor" + "ld"
  {
    HyphenateAppend("hell" + "o   " + " wor", "ld");
    HyphenateAppend("hell" + "o   ", " wor");
    HyphenateAppend("hell", "o   ");
    assert HyphenateSpaces("hell") == "hell";
    assert HyphenateSpaces("o   ") == "o---";
    assert HyphenateSpaces(" wor") == "-wor";
    assert HyphenateSpaces("ld") == "ld";
  }

  lemma MultipleSpacesRegroup(h: string)
    requires h == "hell" + "o---" + "-wor" + "ld"
    ensures h == "hell" + ("o----w" + "orld")
  {
  }

  lemma MultipleSpacesCollapse(h: string)
    requires h == "hell" + ("o----w" + "orld")
    ensures CollapseHyphens(h) == CollapseHyphens("hell") + (CollapseHyphens("o----w") + CollapseHyphens("orld"))
  {
    CollapseAppend("hell", "o----w" + "orld");
    CollapseAppend("o----w", "orld");
  }

  lemma MultipleSpacesCollapsedHead()
    ensures CollapseHyphens("hell") == "hell"
  {
  }

  lemma MultipleSpacesCollapsedRun()
    ensures CollapseHyphens("o----w") == "o-w"
  {
  }

  lemma MultipleSpacesCollapsedTail()
    ensures CollapseHyphens("orld") == "orld"
  {
  }

  lemma MultipleSpacesSlug(h: string)
    requires h == "hell" + ("o-w" + "orld")
    ensures IsSlug(h)
  {
  }

  lemma MultipleSpacesPipeline(s: string)
    requires s == "Hell" + "o   " + " Wor" + "ld"
    ensures Slugify(s) == "hell" + ("o-w" + "orld")
  {
    MultipleSpacesLower(s);
    var lowered := Lower(s);
    MultipleSpacesStrip(lowered);
    var kept := StripDisallowed(lowered);
    MultipleSpacesHyphenate(kept);
    var hyphenated := HyphenateSpaces(kept);
    MultipleSpacesRegroup(hyphenated);
    MultipleSpacesCollapse(hyphenated);
    MultipleSpacesCollapsedHead();
    MultipleSpacesCollapsedRun();
    MultipleSpacesCollapsedTail();
    MultipleSpacesSlug(CollapseHyphens(hyphenated));
    ViaCollapse(s, hyphenated);
  }

  lemma MultipleSpacesSpelled(a: string, b: string)
    requires a == "Hell" + "o   " + " Wor" + "ld" && b == "hell" + ("o-w" + "orld")
    ensures a == "Hello    World" && b == "hello-world"
  {
  }

  /** A run of spaces becomes one hyphen: "Hello    World" becomes "hello-world". */
  lemma MultipleSpaces(s: string)
    requires s == "Hello    World"
    ensures Slugify(s) == "hello-world"
  {
    MultipleSpacesSpelled("Hell" + "o   " + " Wor" + "ld", "hell" + ("o-w" + "orld"));
    MultipleSpacesPipeline(s);
    MultipleSpacesSpelled(s, Slugify(s));
  }

  lemma SpacedHyphenLower(s: string)
    requires s == "Test" + "  - " + " Art" + "icle"
    ensures Lower(s) == "test" + "  - " + " art" + "icle"
  {
    LowerAppend("Test" + "  - " + " Art", "icle");
    LowerAppend("Test" + "  - ", " Art");
    LowerAppend("Test", "  - ");
    assert Lower("Test") == "test";
    assert Lower("  - ") == "  - ";
    assert Lower(" Art") == " art";
    assert Lower("icle") == "icle";
  }

  lemma SpacedHyphenStrip(s: string)
    requires s == "test" + "  - " + " art" + "icle"
    ensures StripDisallowed(s) == "test" + "  - " + " art" + "icle"
  {
    StripAppend("test" + "  - " + " art", "icle");
    StripAppend("test" + "  - ", " art");
    StripAppend("test", "  - ");
    assert StripDisallowed("test") == "test";
    assert StripDisallowed("  - ") == "  - ";
    assert StripDisallowed(" art") == " art";
    assert StripDisallowed("icle") == "icle";
  }

  lemma SpacedHyphenHyphenate(s: string)
    requires s == "test" + "  - " + " art" + "icle"
    ensures HyphenateSpaces(s) == "test" + "----" + "-art" + "icle"
  {
    HyphenateAppend("test" + "  - " + " art", "icle");
    HyphenateAppend("test" + "  - ", " art");
    HyphenateAppend("test", "  - ");
    assert HyphenateSpaces("test") == "test";
    assert HyphenateSpaces("  - ") == "----";
    assert HyphenateSpaces(" art") == "-art";
    assert HyphenateSpaces("icle") == "icle";
  }

  lemma SpacedHyphenRegroup(h: string)
    requires h == "test" + "----" + "-art" + "icle"
    ensures h == "test" + ("-----a" + "rticle")
  {
  }

  lemma SpacedHyphenCollapse(h: string)
    requires h == "test" + ("-----a" + "rticle")
    ensures CollapseHyphens(h) == CollapseHyphens("test") + (CollapseHyphens("-----a") + CollapseHyphens("rticle"))
  {
    CollapseAppend("test", "-----a" + "rticle");
    CollapseAppend("-----a", "rticle");
  }

  lemma SpacedHyphenCollapsedHead(t: string)
    requires t == "test"
    ensures CollapseHyphens(t) == t
  {
    assert forall i :: 0 <= i < |t| ==> t[i] != '-';
    CollapseKeepsSingleHyphens(t);
  }

  lemma SpacedHyphenCollapsedRun(t: string)
    requires t == "-----a"
    ensures CollapseHyphens(t) == "-a"
  {
    assert t == Hyphens(5) + "a";
    CollapseRun(5, "a");
    CollapseChar('a');
  }

  lemma SpacedHyphenCollapsedTail(t: string)
    requires t == "rticle"
    ensures CollapseHyphens(t) == t
  {
    assert forall i :: 0 <= i < |t| ==> t[i] != '-';
    CollapseKeepsSingleHyphens(t);
  }

  lemma SpacedHyphenSlug(h: string)
    requires h == "test" + ("-a" + "rticle")
    ensures IsSlug(h)
  {
  }

  lemma SpacedHyphenPipeline(s: string)
    requires s == "Test" + "  - " + " Art" + "icle"
    ensures Slugify(s) == "test" + ("-a" + "rticle")
  {
    SpacedHyphenLower(s);
    var lowered := Lower(s);
    SpacedHyphenStrip(lowered);
    var kept := StripDisallowed(lowered);
    SpacedHyphenHyphenate(kept);
    var hyphenated := HyphenateSpaces(kept);
    SpacedHyphenRegroup(hyphenated);
    SpacedHyphenCollapse(hyphenated);
    SpacedHyphenCollapsedHead("test");
    SpacedHyphenCollapsedRun("-----a");
    SpacedHyphenCollapsedTail("rticle");
    SpacedHyphenSlug(CollapseHyphens(hyphenated));
    ViaCollapse(s, hyphenated);
  }

  lemma SpacedHyphenSpelled(a: string, b: string)
    requires a == "Test" + "  - " + " Art" + "icle" && b == "test" + ("-a" + "rticle")
    ensures a == "Test  -  Article" && b == "test-article"
  {
  }

  /** Spaces around a hyphen collapse with it: "Test  -  Article" becomes "test-article". */
  lemma SpacedHyphen(s: string)
    requires s == "Test  -  Article"
    ensures Slugify(s) == "test-article"
  {
    SpacedHyphenSpelled("Test" + "  - " + " Art" + "icle", "test" + ("-a" + "rticle"));
    SpacedHyphenPipeline(s);
    SpacedHyphenSpelled(s, Slugify(s));
  }

  /** Only the plain space becomes a hyphen: a tab is kept, since it matches the whitespace class. */
  lemma TabSurvives(s: string)
    requires s == "a\tb"
    ensures Slugify(s) == "a\tb"
  {
    SlugIsFixpoint(s);
  }
}
