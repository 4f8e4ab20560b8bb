/**
 * The slug rule shared by the Post, Category and Tag pre-save hooks, in four steps:
 * lower-case the source, delete every character other than an ASCII letter, digit or
 * space, turn every whitespace run into one hyphen, and collapse hyphen runs.
 *
 * Because every hyphen of the source is deleted by the second step, the only
 * hyphens left are the ones the third step writes, one per run of spaces, and
 * those are never adjacent; so the fourth step never changes anything.
 */
module Slug {
  import opened Text

  /** The characters the second step keeps: `[a-zA-Z0-9 ]`. */
  predicate IsKept(c: char) {
    'a' <= c <= 'z' || 'A' <= c <= 'Z' || '0' <= c <= '9' || c == ' '
  }

  /** ASCII letters and digits. */
  predicate IsAlnum(c: char) {
    'a' <= c <= 'z' || 'A' <= c <= 'Z' || '0' <= c <= '9'
  }

  /** The slug alphabet `[a-z0-9-]`. */
  predicate IsSlugChar(c: char) {
    'a' <= c <= 'z' || '0' <= c <= '9' || c == '-'
  }

  /** `replace(/[^a-zA-Z0-9 ]/g, '')`. */
  function KeepAllowed(s: String): (r: String)
    ensures forall c :: c in r ==> IsKept(c) && c in s
  {
    if s == [] then [] else (if IsKept(s[0]) then [s[0]] else []) + KeepAllowed(s[1..])
  }

  /** The ASCII letters and digits of s, in order. */
  function Alnum(s: String): String {
    if s == [] then [] else (if IsAlnum(s[0]) then [s[0]] else []) + Alnum(s[1..])
  }

  /** s without its leading hyphens. */
  function DropHyphens(s: String): (r: String)
    ensures |r| <= |s|
    ensures s != [] && s[0] == '-' ==> |r| < |s|
  {
    if s != [] && s[0] == '-' then DropHyphens(s[1..]) else s
  }

  /** `replace(/-+/g, '-')`: every run of hyphens becomes one hyphen. */
  function CollapseHyphens(s: String): String
    decreases |s|
  {
    if s == [] then []
    else if s[0] == '-' then ['-'] + CollapseHyphens(DropHyphens(s))
    else [s[0]] + CollapseHyphens(s[1..])
  }

  /** Collapsing hyphen runs leaves a string without doubled hyphens unchanged. */
  lemma {:induction false} CollapseWithoutDoubles(s: String)
    requires NoDoubled(s, '-')
    ensures CollapseHyphens(s) == s
    decreases |s|
  {
    if s != [] {
      assert NoDoubled(s[1..], '-');
      CollapseWithoutDoubles(s[1..]);
      if s[0] == '-' {
        assert s[1..] == [] || s[1] != '-';
        assert DropHyphens(s) == s[1..];
      }
    }
  }

  lemma {:induction false} KeptWithoutWsIsAlnum(s: String)
    ensures RemoveWs(KeepAllowed(s)) == Alnum(s)
  {
    if s != [] {
      KeptWithoutWsIsAlnum(s[1..]);
      var head := if IsKept(s[0]) then [s[0]] else [];
      assert KeepAllowed(s) == head + KeepAllowed(s[1..]);
      if IsKept(s[0]) {
        assert (head + KeepAllowed(s[1..]))[1..] == KeepAllowed(s[1..]);
      } else {
        assert head + KeepAllowed(s[1..]) == KeepAllowed(s[1..]);
      }
    }
  }

  lemma {:induction false} RemoveAbsentChar(s: String, c: char)
    requires c !in s
    ensures RemoveChar(s, c) == s
  {
    if s != [] {
      RemoveAbsentChar(s[1..], c);
    }
  }

  lemma {:induction false} AlnumHasNoHyphen(s: String)
    ensures '-' !in Alnum(s)
  {
    if s != [] {
      AlnumHasNoHyphen(s[1..]);
    }
  }

  /** The slug of s: only `[a-z0-9-]`, never two hyphens in a row, exactly the ASCII
      letters and digits of the lower-cased source once the hyphens are removed (so
      hyphens and punctuation of the source are dropped), and exactly one hyphen per
      run of spaces left after punctuation is removed. Where those hyphens go is fixed
      by the last clause: the slug is the words the second step leaves (its pieces
      between whitespace runs) joined by single hyphens. */
  function Slugify(s: String): (r: String)
    ensures r == Join(SplitWs(KeepAllowed(Lower(s))), "-")
    ensures forall i :: 0 <= i < |r| ==> IsSlugChar(r[i])
    ensures NoDoubled(r, '-')
    ensures RemoveChar(r, '-') == Alnum(Lower(s))
    ensures Count('-', r) == Runs(KeepAllowed(Lower(s)))
  {
    SlugifyFacts(s, Lower(s), KeepAllowed(Lower(s)), ReplaceRuns(KeepAllowed(Lower(s)), '-'));
    CollapseHyphens(ReplaceRuns(KeepAllowed(Lower(s)), '-'))
  }

  lemma SlugifyFacts(s: String, lower: String, kept: String, spaced: String)
    requires lower == Lower(s) && kept == KeepAllowed(lower) && spaced == ReplaceRuns(kept, '-')
    ensures forall i :: 0 <= i < |CollapseHyphens(spaced)| ==> IsSlugChar(CollapseHyphens(spaced)[i])
    ensures NoDoubled(CollapseHyphens(spaced), '-')
    ensures RemoveChar(CollapseHyphens(spaced), '-') == Alnum(lower)
    ensures Count('-', CollapseHyphens(spaced)) == Runs(kept)
    ensures CollapseHyphens(spaced) == Join(SplitWs(kept), "-")
  {
    assert forall c :: c in lower ==> !IsAsciiUpper(c);
    assert '-' !in kept;
    ReplaceRunsChars(kept, '-');
    assert forall i :: 0 <= i < |spaced| ==> IsSlugChar(spaced[i]) by {
      forall i | 0 <= i < |spaced|
        ensures IsSlugChar(spaced[i])
      {
        assert spaced[i] in spaced;
      }
    }
    ReplaceRunsNoDoubled(kept, '-');
    CollapseWithoutDoubles(spaced);
    ReplaceRunsKeepsText(kept, '-');
    KeptWithoutWsIsAlnum(lower);
    AlnumHasNoHyphen(lower);
    RemoveAbsentChar(Alnum(lower), '-');
    ReplaceRunsCount(kept, '-');
    CountAbsent('-', kept);
    ReplaceRunsIsJoinOfPieces(kept, '-');
    assert "-" == ['-'];
  }

  lemma {:induction false} KeepAllowedConcat(a: String, b: String)
    ensures KeepAllowed(a + b) == KeepAllowed(a) + KeepAllowed(b)
  {
    if a == [] {
      assert a + b == b;
    } else {
      assert (a + b)[1..] == a[1..] + b;
      KeepAllowedConcat(a[1..], b);
    }
  }

  lemma {:induction false} KeepAllowedAllKept(s: String)
    requires forall i :: 0 <= i < |s| ==> IsKept(s[i])
    ensures KeepAllowed(s) == s
  {
    if s != [] {
      KeepAllowedAllKept(s[1..]);
    }
  }

  /** Two words of kept characters, one space between them, pass the second step untouched. */
  lemma {:induction false} KeepTwoWords(a: String, b: String)
    requires forall i :: 0 <= i < |a| ==> 'a' <= a[i] <= 'z'
    requires forall i :: 0 <= i < |b| ==> 'a' <= b[i] <= 'z'
    ensures KeepAllowed(a + " " + b) == a + " " + b
  {
    var s := a + " " + b;
    forall i | 0 <= i < |s|
      ensures IsKept(s[i])
    {
      if i < |a| {
        assert s[i] == a[i];
      } else if i > |a| {
        assert s[i] == b[i - |a| - 1];
      }
    }
    KeepAllowedAllKept(s);
  }

  /** One space between two whitespace-free words becomes one hyphen. */
  lemma {:induction false} SpaceBetweenWords(a: String, b: String)
    requires NoWs(a) && NoWs(b) && b != []
    ensures ReplaceRuns(a + " " + b, '-') == a + "-" + b
  {
    var sb := " " + b;
    assert a + " " + b == a + sb;
    ReplaceRunsAfterWord(a, sb, '-');
    assert sb[1..] == b;
    assert DropWs(sb) == b;
    ReplaceRunsWord(b, '-');
    assert ReplaceRuns(sb, '-') == "-" + b;
    assert a + ("-" + b) == a + "-" + b;
  }

  /** A hyphen between two hyphen-free words is not doubled. */
  lemma {:induction false} HyphenBetweenWords(a: String, b: String)
    requires '-' !in a && '-' !in b
    ensures NoDoubled(a + "-" + b, '-')
  {
    var t := a + "-" + b;
    forall i | 0 <= i < |t| - 1
      ensures !(t[i] == '-' && t[i + 1] == '-')
    {
      if i < |a| {
        assert t[i] == a[i];
      } else {
        assert t[i + 1] == b[i - |a|];
      }
    }
  }

  /** Lower-case words w1, w2 with one space between them slug to w1-w2. */
  lemma {:induction false} SlugOfTwoWords(source: String, a: String, b: String)
    requires |b| > 0
    requires forall i :: 0 <= i < |a| ==> 'a' <= a[i] <= 'z'
    requires forall i :: 0 <= i < |b| ==> 'a' <= b[i] <= 'z'
    requires KeepAllowed(Lower(source)) == a + " " + b
    ensures Slugify(source) == a + "-" + b
  {
    assert NoWs(a) by {
      forall i | 0 <= i < |a|
        ensures !IsWs(a[i])
      {
        assert 'a' <= a[i] <= 'z';
      }
    }
    assert NoWs(b) by {
      forall i | 0 <= i < |b|
        ensures !IsWs(b[i])
      {
        assert 'a' <= b[i] <= 'z';
      }
    }
    assert '-' !in a && '-' !in b;
    SpaceBetweenWords(a, b);
    HyphenBetweenWords(a, b);
    CollapseWithoutDoubles(a + "-" + b);
  }

  /** A source that keeps only one lower-case word slugs to that word. */
  lemma {:induction false} SlugOfOneWord(source: String, w: String)
    requires forall i :: 0 <= i < |w| ==> 'a' <= w[i] <= 'z'
    requires KeepAllowed(Lower(source)) == w
    ensures Slugify(source) == w
  {
    assert NoWs(w) by {
      forall i | 0 <= i < |w|
        ensures !IsWs(w[i])
      {
        assert 'a' <= w[i] <= 'z';
      }
    }
    assert NoDoubled(w, '-') by {
      forall i | 0 <= i < |w| - 1
        ensures w[i] != '-'
      {
        assert 'a' <= w[i] <= 'z';
      }
    }
    ReplaceRunsWord(w, '-');
    CollapseWithoutDoubles(w);
  }

  /** Worked example: the source hyphen is dropped, not turned into a separator. */
  lemma {:induction false} SlugDropsSourceHyphen(title: String)
    requires title == "a-b"
    ensures Slugify(title) == "ab"
  {
    var a: String := "a";
    var b: String := "b";
    HyphenDropped(title, a, b);
    assert a + b == "ab";
    SlugOfOneWord(title, a + b);
  }

  lemma {:induction false} HyphenDropped(title: String, a: String, b: String)
    requires title == "a-b" && a == "a" && b == "b"
    ensures KeepAllowed(Lower(title)) == a + b
  {
    HyphenLower(title, a, b);
    KeepAllowedConcat(a + "-", b);
    KeepAllowedConcat(a, "-");
    assert KeepAllowed("-") == "";
    KeepAllowedAllKept(a);
    KeepAllowedAllKept(b);
  }

  lemma HyphenLower(title: String, a: String, b: String)
    requires title == "a-b" && a == "a" && b == "b"
    ensures Lower(title) == a + "-" + b
  {
  }

  lemma {:induction false} KeepAllowedNoneKept(s: String)
    requires forall i :: 0 <= i < |s| ==> !IsKept(s[i])
    ensures KeepAllowed(s) == []
  {
    if s != [] {
      KeepAllowedNoneKept(s[1..]);
    }
  }

  /** Kept characters followed by dropped ones keep exactly the former. */
  lemma {:induction false} KeepWordThenJunk(w: String, p: String)
    requires forall i :: 0 <= i < |w| ==> IsKept(w[i])
    requires forall i :: 0 <= i < |p| ==> !IsKept(p[i])
    ensures KeepAllowed(w + p) == w
  {
    KeepAllowedConcat(w, p);
    KeepAllowedAllKept(w);
    KeepAllowedNoneKept(p);
  }

  /** Punctuation after each of two space-separated words is deleted by the second step. */
  lemma {:induction false} KeepWordsWithPunctuation(a: String, p: String, b: String, q: String)
    requires forall i :: 0 <= i < |a| ==> 'a' <= a[i] <= 'z'
    requires forall i :: 0 <= i < |b| ==> 'a' <= b[i] <= 'z'
    requires forall i :: 0 <= i < |p| ==> !IsKept(p[i])
    requires forall i :: 0 <= i < |q| ==> !IsKept(q[i])
    ensures KeepAllowed(a + p + " " + b + q) == a + " " + b
  {
    var x := a + p;
    var sb := " " + b;
    var y := sb + q;
    assert a + p + " " + b + q == x + y;
    KeepAllowedConcat(x, y);
    KeepWordThenJunk(a, p);
    assert forall i :: 0 <= i < |sb| ==> IsKept(sb[i]) by {
      forall i | 0 <= i < |sb|
        ensures IsKept(sb[i])
      {
        if i > 0 {
          assert sb[i] == b[i - 1];
        }
      }
    }
    KeepWordThenJunk(sb, q);
    assert a + sb == a + " " + b;
  }

  /** Worked example: punctuation vanishes and the space becomes a hyphen. */
  lemma {:induction false} SlugOfHelloWorld(title: String)
    requires title == "Hello, World!!"
    ensures Slugify(title) == "hello-world"
  {
    var hello: String := "hello";
    var world: String := "world";
    HelloWorldKept(title, hello, world);
    SlugOfTwoWords(title, hello, world);
    assert hello + "-" + world == "hello-world";
  }

  lemma {:induction false} HelloWorldKept(title: String, hello: String, world: String)
    requires title == "Hello, World!!" && hello == "hello" && world == "world"
    ensures KeepAllowed(Lower(title)) == hello + " " + world
  {
    HelloWorldLower(title, hello, world);
    KeepWordsWithPunctuation(hello, ",", world, "!!");
  }

  lemma HelloWorldLower(title: String, hello: String, world: String)
    requires title == "Hello, World!!" && hello == "hello" && world == "world"
    ensures Lower(title) == hello + "," + " " + world + "!!"
  {
  }

  /** Worked example: a two-word category name. */
  lemma {:induction false} SlugOfTechNews(name: String)
    requires name == "Tech News"
    ensures Slugify(name) == "tech-news"
  {
    var tech: String := "tech";
    var news: String := "news";
    TechNewsKept(name, tech, news);
    SlugOfTwoWords(name, tech, news);
    assert tech + "-" + news == "tech-news";
  }

  lemma {:induction false} TechNewsKept(name: String, tech: String, news: String)
    requires name == "Tech News" && tech == "tech" && news == "news"
    ensures KeepAllowed(Lower(name)) == tech + " " + news
  {
    assert Lower(name) == tech + " " + news;
    KeepTwoWords(tech, news);
  }
}
