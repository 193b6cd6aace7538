/**
 * Slug derivation in the post-creation form: the post slug computed from the
 * title (lower-case, runs outside [a-z0-9] collapsed to '-', one leading and
 * one trailing '-' removed) and the tag slug computed from a new tag's name
 * (the same without the trimming step).
 */
module Slugs {
  import opened JsText

  predicate IsAlnum(c: char) { 'a' <= c <= 'z' || '0' <= c <= '9' }

  predicate IsSlugChar(c: char) { IsAlnum(c) || c == '-' }

  /** Only [a-z0-9-], and never two '-' in a row. */
  ghost predicate IsCollapsed(s: string) {
    s == [] || (IsSlugChar(s[0]) && (|s| > 1 ==> s[0] != '-' || s[1] != '-') && IsCollapsed(s[1..]))
  }

  /** A collapsed string that neither starts nor ends with '-'. */
  ghost predicate IsSlug(s: string) {
    IsCollapsed(s) && (s != [] ==> s[0] != '-' && s[|s| - 1] != '-')
  }

  /** Every character of a collapsed string is in [a-z0-9-], and no '-' follows a '-'. */
  lemma {:induction false} CollapsedChars(s: string)
    requires IsCollapsed(s)
    ensures forall i :: 0 <= i < |s| ==> IsSlugChar(s[i])
    ensures forall i, j :: 0 <= i && j == i + 1 && j < |s| ==> s[i] != '-' || s[j] != '-'
  {
    if s != [] {
      CollapsedChars(s[1..]);
      assert forall i :: 1 <= i < |s| ==> s[i] == s[1..][i - 1];
    }
  }

  /** Every prefix of a collapsed string is collapsed. */
  lemma {:induction false} CollapsedPrefix(s: string, n: nat)
    requires IsCollapsed(s) && n <= |s|
    ensures IsCollapsed(s[..n])
  {
    if n > 0 {
      CollapsedPrefix(s[1..], n - 1);
      assert s[..n][1..] == s[1..][..n - 1];
    }
  }

  /** Drops the leading run of characters outside [a-z0-9]. */
  function DropRun(s: string): (r: string)
    ensures |r| <= |s| && r == s[|s| - |r|..]
    ensures r == [] || IsAlnum(r[0])
    ensures forall k :: 0 <= k < |s| - |r| ==> !IsAlnum(s[k])
  {
    if s != [] && !IsAlnum(s[0]) then
      var r := DropRun(s[1..]);
      assert s[1..][|s| - 1 - |r|..] == s[|s| - |r|..];
      assert forall k :: 1 <= k < |s| - |r| ==> s[k] == s[1..][k - 1];
      r
    else s
  }

  /**
   * `s.replace(/[^a-z0-9]+/g, '-')`: every maximal run of characters outside
   * [a-z0-9] becomes a single '-'. The result starts (ends) with '-' exactly
   * when the input starts (ends) with such a character.
   */
  function CollapseRuns(s: string): (r: string)
    ensures |r| <= |s|
    ensures r == [] <==> s == []
    decreases |s|
  {
    if s == [] then []
    else if IsAlnum(s[0]) then [s[0]] + CollapseRuns(s[1..])
    else ['-'] + CollapseRuns(DropRun(s[1..]))
  }

  /** Collapsing starts (ends) with '-' exactly when its input starts (ends) outside [a-z0-9]. */
  lemma CollapseRunsEnds(s: string)
    requires s != []
    ensures var r := CollapseRuns(s);
      && (r[0] == '-' <==> !IsAlnum(s[0]))
      && (r[|r| - 1] == '-' <==> !IsAlnum(s[|s| - 1]))
  {
    CollapseRunsLast(s);
  }

  lemma {:induction false} CollapseRunsLast(s: string)
    requires s != []
    ensures var r := CollapseRuns(s); r[|r| - 1] == '-' <==> !IsAlnum(s[|s| - 1])
    decreases |s|
  {
    var r := CollapseRuns(s);
    if IsAlnum(s[0]) {
      var r' := CollapseRuns(s[1..]);
      assert r == [s[0]] + r';
      if |s| > 1 {
        CollapseRunsLast(s[1..]);
        assert r[|r| - 1] == r'[|r'| - 1];
      }
    } else {
      var t := DropRun(s[1..]);
      var r' := CollapseRuns(t);
      assert r == ['-'] + r';
      if t != [] {
        assert t[|t| - 1] == s[|s| - 1];
        CollapseRunsLast(t);
        assert r[|r| - 1] == r'[|r'| - 1];
      }
    }
  }

  /** Collapsing leaves only [a-z0-9-] and never two '-' in a row. */
  lemma {:induction false} CollapseRunsIsCollapsed(s: string)
    ensures IsCollapsed(CollapseRuns(s))
    decreases |s|
  {
    var r := CollapseRuns(s);
    if s != [] {
      if IsAlnum(s[0]) {
        CollapseRunsIsCollapsed(s[1..]);
        assert r[1..] == CollapseRuns(s[1..]);
      } else {
        var t := DropRun(s[1..]);
        CollapseRunsIsCollapsed(t);
        assert r[1..] == CollapseRuns(t);
      }
    }
  }

  /** `s.replace(/(^-|-$)/g, '')`: removes one leading and one trailing '-'. */
  function TrimDashes(s: string): (r: string)
    ensures var i := if |s| > 0 && s[0] == '-' then 1 else 0;
            var j := if |s| > i && s[|s| - 1] == '-' then 1 else 0;
            r == s[i..|s| - j]
    ensures |s| - 2 <= |r| <= |s|
    ensures if |s| > 0 && s[0] == '-' then r <= s[1..] else r <= s
    ensures s == [] || (s[0] != '-' && s[|s| - 1] != '-') ==> r == s
  {
    var a := if |s| > 0 && s[0] == '-' then s[1..] else s;
    if |a| > 0 && a[|a| - 1] == '-' then a[..|a| - 1] else a
  }

  /** Removing the outer dashes of a collapsed string gives a slug. */
  lemma TrimDashesOfCollapsed(s: string)
    requires IsCollapsed(s)
    ensures IsSlug(TrimDashes(s))
  {
    var a := if |s| > 0 && s[0] == '-' then s[1..] else s;
    assert IsCollapsed(a) && (a != [] ==> a[0] != '-');
    if |a| > 0 && a[|a| - 1] == '-' {
      CollapsedPrefix(a, |a| - 1);
      CollapsedChars(a);
      if |a| > 1 {
        assert a[|a| - 2] != '-';
      }
    }
  }

  /** The slug the form derives from a post title. */
  function PostSlug(title: string): (r: string)
    ensures IsSlug(r)
  {
    var c := CollapseRuns(ToLower(title));
    CollapseRunsIsCollapsed(ToLower(title));
    TrimDashesOfCollapsed(c);
    TrimDashes(c)
  }

  /**
   * The slug given to a newly created tag: lower-cased and collapsed, but not
   * trimmed, so a name that ends (or starts) outside [a-z0-9] keeps a
   * trailing (leading) '-'.
   */
  function TagSlug(name: string): (slug: string)
    ensures |slug| <= |name| && (slug == [] <==> name == [])
  {
    CollapseRuns(ToLower(name))
  }

  /** The tag slug has no two `-` in a row, only `[a-z0-9-]`, and is empty only for an empty name. */
  lemma TagSlugShape(name: string)
    ensures IsCollapsed(TagSlug(name))
    ensures |TagSlug(name)| <= |name| && (TagSlug(name) == [] <==> name == [])
  {
    CollapseRunsIsCollapsed(ToLower(name));
  }

  /**
   * The tag slug starts (ends) with `-` exactly when the name's first (last)
   * character, lower-cased, is outside `[a-z0-9]`: nothing trims those dashes.
   */
  lemma TagSlugEnds(name: string)
    requires name != []
    ensures TagSlug(name)[0] == '-' <==> !IsAlnum(LowerChar(name[0]))
    ensures TagSlug(name)[|TagSlug(name)| - 1] == '-' <==> !IsAlnum(LowerChar(name[|name| - 1]))
  {
    var lower := ToLower(name);
    assert lower[0] == LowerChar(name[0]);
    assert lower[|lower| - 1] == LowerChar(name[|name| - 1]);
    CollapseRunsEnds(lower);
  }

  /** The post slug is the tag slug with its outer dashes removed. */
  lemma PostSlugFromTagSlug(title: string)
    ensures PostSlug(title) == TrimDashes(TagSlug(title))
  {
  }

  /** A collapsed string is left unchanged by collapsing. */
  lemma {:induction false} CollapseRunsOfCollapsed(s: string)
    requires IsCollapsed(s)
    ensures CollapseRuns(s) == s
    decreases |s|
  {
    if s != [] {
      var t := s[1..];
      assert s == [s[0]] + t;
      CollapseRunsOfCollapsed(t);
      if !IsAlnum(s[0]) {
        assert DropRun(t) == t;
      }
    }
  }

  /** Deriving a slug from a derived slug gives it back unchanged. */
  lemma PostSlugIdempotent(title: string)
    ensures PostSlug(PostSlug(title)) == PostSlug(title)
  {
    PostSlugFixpoints(PostSlug(title));
  }

  /** A string is its own post slug exactly when it has the slug shape. */
  lemma PostSlugFixpoints(s: string)
    ensures PostSlug(s) == s <==> IsSlug(s)
  {
    if IsSlug(s) {
      PostSlugOfSlug(s);
    }
  }

  lemma PostSlugOfSlug(s: string)
    requires IsSlug(s)
    ensures PostSlug(s) == s
  {
    CollapsedChars(s);
    ToLowerOfLower(s);
    CollapseRunsOfCollapsed(s);
    assert CollapseRuns(ToLower(s)) == s;
    assert TrimDashes(s) == s;
  }

  /** A word of [a-z0-9] characters is copied through by collapsing. */
  lemma {:induction false} CollapseWord(w: string, rest: string)
    requires forall i :: 0 <= i < |w| ==> IsAlnum(w[i])
    ensures CollapseRuns(w + rest) == w + CollapseRuns(rest)
  {
    if w != [] {
      var s := w + rest;
      assert s[0] == w[0] && s[1..] == w[1..] + rest;
      assert CollapseRuns(s) == [w[0]] + CollapseRuns(w[1..] + rest);
      CollapseWord(w[1..], rest);
      assert [w[0]] + (w[1..] + CollapseRuns(rest)) == w + CollapseRuns(rest);
    } else {
      assert w + rest == rest;
    }
  }

  /** A run outside [a-z0-9] followed by a word becomes one '-'. */
  lemma {:induction false} CollapseSeparator(run: string, rest: string)
    requires run != [] && forall i :: 0 <= i < |run| ==> !IsAlnum(run[i])
    requires rest == [] || IsAlnum(rest[0])
    ensures CollapseRuns(run + rest) == "-" + CollapseRuns(rest)
  {
    var s := run + rest;
    assert s[0] == run[0] && s[1..] == run[1..] + rest;
    DropRunOfSeparator(run[1..], rest);
    assert CollapseRuns(s) == ['-'] + CollapseRuns(DropRun(s[1..]));
  }

  lemma {:induction false} DropRunOfSeparator(run: string, rest: string)
    requires forall i :: 0 <= i < |run| ==> !IsAlnum(run[i])
    requires rest == [] || IsAlnum(rest[0])
    ensures DropRun(run + rest) == rest
  {
    if run != [] {
      assert (run + rest)[1..] == run[1..] + rest;
      DropRunOfSeparator(run[1..], rest);
    } else {
      assert run + rest == rest;
    }
  }

  /** Two separators between three words collapse to two single dashes. */
  lemma CollapseThreeWords(w1: string, s1: string, w2: string, s2: string, w3: string)
    requires forall i :: 0 <= i < |w1| ==> IsAlnum(w1[i])
    requires w2 != [] && forall i :: 0 <= i < |w2| ==> IsAlnum(w2[i])
    requires w3 != [] && forall i :: 0 <= i < |w3| ==> IsAlnum(w3[i])
    requires s1 != [] && forall i :: 0 <= i < |s1| ==> !IsAlnum(s1[i])
    requires s2 != [] && forall i :: 0 <= i < |s2| ==> !IsAlnum(s2[i])
    ensures CollapseRuns(w1 + (s1 + (w2 + (s2 + w3)))) == w1 + ("-" + (w2 + ("-" + w3)))
  {
    CollapseWord(w3, []);
    assert w3 + [] == w3;
    CollapseSeparator(s2, w3);
    CollapseWord(w2, s2 + w3);
    CollapseSeparator(s1, w2 + (s2 + w3));
    CollapseWord(w1, s1 + (w2 + (s2 + w3)));
  }

  /** "Hello, World! 2024" gets the slug "hello-world-2024". */
  lemma PostSlugExample()
    ensures PostSlug("Hello, World! 2024") == "hello-world-2024"
  {
    ExampleLowered();
    ExampleCollapsed();
    ExampleJoined();
  }

  lemma ExampleCollapsed()
    ensures CollapseRuns("hello, world! 2024") == "hello-world-2024"
  {
    assert "hello, world! 2024" == "hello" + (", " + ("world" + ("! " + "2024")));
    CollapseThreeWords("hello", ", ", "world", "! ", "2024");
    ExampleJoined();
  }

  lemma ExampleLowered()
    ensures ToLower("Hello, World! 2024") == "hello, world! 2024"
  {
    ToLowerIs("Hello, World! 2024", "hello, world! 2024");
  }

  lemma ExampleJoined()
    ensures "hello" + ("-" + ("world" + ("-" + "2024"))) == "hello-world-2024"
    ensures TrimDashes("hello-world-2024") == "hello-world-2024"
  {
  }

  lemma LowerCPlusPlus()
    ensures ToLower("C++") == "c++"
  {
    ToLowerIs("C++", "c++");
  }

  lemma CollapseCPlusPlus()
    ensures CollapseRuns("c++") == "c-"
  {
    assert "c++"[1..] == "++";
    assert DropRun("+") == "";
  }

  /** "C++" keeps its trailing '-' as a tag slug... */
  lemma TagSlugExample()
    ensures TagSlug("C++") == "c-"
  {
    LowerCPlusPlus();
    CollapseCPlusPlus();
  }

  /** ...but loses it as a post slug. */
  lemma PostSlugOfCPlusPlus()
    ensures PostSlug("C++") == "c"
  {
    TagSlugExample();
    PostSlugFromTagSlug("C++");
    assert TrimDashes("c-") == "c";
  }
}
