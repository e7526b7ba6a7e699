/** The text-cleaning chain of the pattern extractor and the shape of its
    pattern report (utils/regex_extractor.py). Each `re.sub` of `clean_text`
    is one function here; the chain applies them in the source's order. */
module Cleaning {
  import opened Text

  // ---------------------------------------------------------------------
  // Step 1: URLs

  /** One character of the URL body class: ASCII letters, digits, `!` and the range `$`..`_`
      (the range already holds `@ . & + * , %` and the digits of a `%XX` escape). */
  predicate IsUrlBodyChar(c: char) {
    'a' <= c <= 'z' || 'A' <= c <= 'Z' || '0' <= c <= '9' || '$' <= c <= '_' || c == '!'
  }

  /** The maximal run of URL body characters at the head of `s`. */
  function UrlBodyRun(s: string): (n: nat)
    ensures n <= |s|
    ensures forall k :: 0 <= k < n ==> IsUrlBodyChar(s[k])
    ensures n < |s| ==> !IsUrlBodyChar(s[n])
  {
    if s != [] && IsUrlBodyChar(s[0]) then 1 + UrlBodyRun(s[1..]) else 0
  }

  /** `s[i..n]` is a non-empty run of body characters that cannot be extended. */
  predicate BodyFrom(s: string, i: nat, n: nat) {
    i < n <= |s| && (forall k :: i <= k < n ==> IsUrlBodyChar(s[k])) && (n < |s| ==> !IsUrlBodyChar(s[n]))
  }

  /** Length of the URL match starting at the head of `s`, or 0: `https://` is tried
      before `http://`, and the greedy body takes the whole run of body characters.
      A match is a scheme followed by a maximal non-empty body; there is none exactly
      when neither scheme is followed by a body character. */
  function UrlMatchLength(s: string): (n: nat)
    ensures n <= |s|
    ensures n > 0 ==> (IsPrefix("https://", s) && BodyFrom(s, 8, n)) || (IsPrefix("http://", s) && BodyFrom(s, 7, n))
    ensures n == 0 ==>
      && !(IsPrefix("https://", s) && 8 < |s| && IsUrlBodyChar(s[8]))
      && !(IsPrefix("http://", s) && 7 < |s| && IsUrlBodyChar(s[7]))
  {
    if IsPrefix("https://", s) && UrlBodyRun(s[8..]) > 0 then 8 + UrlBodyRun(s[8..])
    else if IsPrefix("http://", s) && UrlBodyRun(s[7..]) > 0 then 7 + UrlBodyRun(s[7..])
    else 0
  }

  /** No URL match starts anywhere in `s`. */
  predicate UrlFree(s: string) {
    forall k :: 0 <= k < |s| ==> UrlMatchLength(s[k..]) == 0
  }

  /** A URL match depends only on the leading run of body characters, which holds the
      whole scheme and the first body character. */
  lemma UrlMatchByHead(r: string, s: string)
    requires UrlMatchLength(r) > 0
    requires UrlBodyRun(r) <= |s| && s[..UrlBodyRun(r)] == r[..UrlBodyRun(r)]
    ensures UrlMatchLength(s) > 0
  {
    UrlMatchScheme(r);
    if SchemeThenBody("https://", r) {
      SchemeByHead("https://", r, s);
    } else {
      SchemeByHead("http://", r, s);
    }
    SchemeUrlMatch(s);
  }

  /** `s` starts with the scheme `p` and a body character after it. */
  predicate SchemeThenBody(p: string, s: string) {
    IsPrefix(p, s) && UrlBodyRun(s[|p|..]) > 0
  }

  lemma UrlMatchScheme(s: string)
    requires UrlMatchLength(s) > 0
    ensures SchemeThenBody("https://", s) || SchemeThenBody("http://", s)
  {
  }

  lemma SchemeUrlMatch(s: string)
    requires SchemeThenBody("https://", s) || SchemeThenBody("http://", s)
    ensures UrlMatchLength(s) > 0
  {
  }

  /** A scheme of body characters and one more body character in `r` reappear in `s`
      when `s` starts with the leading body run of `r`. */
  lemma SchemeByHead(p: string, r: string, s: string)
    requires p == "https://" || p == "http://"
    requires SchemeThenBody(p, r)
    requires UrlBodyRun(r) <= |s| && s[..UrlBodyRun(r)] == r[..UrlBodyRun(r)]
    ensures SchemeThenBody(p, s)
  {
    var m := UrlBodyRun(r);
    var n := |p|;
    assert forall k :: 0 <= k < n ==> IsUrlBodyChar(p[k]);
    assert r[n..][0] == r[n];
    forall k | 0 <= k <= n ensures IsUrlBodyChar(r[k]) {
      if k < n {
        assert r[k] == r[..n][k] == p[k];
      }
    }
    assert n < m;
    forall k | 0 <= k <= n ensures s[k] == r[k] {
      assert s[k] == s[..m][k] && r[k] == r[..m][k];
    }
    assert s[..n] == r[..n];
    assert s[n..][0] == s[n];
  }

  /** `re.sub(url_pattern, '', s)`: a left-to-right scan deleting each match. What is
      left holds no URL match, a text with no match comes back unchanged, and after the
      head of a deleted match or at a non-body character the result starts with a
      non-body character. */
  function RemoveUrls(s: string): (r: string)
    ensures |r| <= |s|
    ensures UrlFree(r)
    ensures UrlFree(s) ==> r == s
    ensures (s == [] || !IsUrlBodyChar(s[0])) ==> (r == [] || !IsUrlBodyChar(r[0]))
    ensures UrlBodyRun(r) <= |s| && r[..UrlBodyRun(r)] == s[..UrlBodyRun(r)]
    decreases |s|
  {
    if s == [] then []
    else
      var n := UrlMatchLength(s);
      if n > 0 then
        assert n < |s| ==> s[n..][0] == s[n];
        assert s[0..] == s;
        RemoveUrls(s[n..])
      else
        var t := RemoveUrls(s[1..]);
        KeepUrlHead(s, t);
        UrlFreeTail(s);
        [s[0]] + t
  }

  /** Keeping a head that starts no match in front of a URL-free rest whose leading
      body run comes from the rest of `s` keeps both facts. */
  lemma KeepUrlHead(s: string, t: string)
    requires s != [] && UrlMatchLength(s) == 0 && UrlFree(t)
    requires UrlBodyRun(t) <= |s| - 1 && t[..UrlBodyRun(t)] == s[1..][..UrlBodyRun(t)]
    ensures UrlFree([s[0]] + t)
    ensures UrlBodyRun([s[0]] + t) <= |s| && ([s[0]] + t)[..UrlBodyRun([s[0]] + t)] == s[..UrlBodyRun([s[0]] + t)]
  {
    var r := [s[0]] + t;
    KeepUrlRun(s, t);
    forall k | 0 <= k < |r| ensures UrlMatchLength(r[k..]) == 0 {
      if k > 0 {
        assert r[k..] == t[k - 1..];
      } else if UrlMatchLength(r) > 0 {
        MatchStartsWithH(r);
        UrlMatchByHead(r, s);
      }
    }
  }

  /** The rest of a URL-free text is URL-free. */
  lemma UrlFreeTail(s: string)
    requires s != []
    ensures UrlFree(s) ==> UrlFree(s[1..])
    ensures [s[0]] + s[1..] == s
  {
    forall k | 0 <= k < |s| - 1 ensures s[1..][k..] == s[k + 1..] {
    }
  }

  lemma MatchStartsWithH(r: string)
    requires UrlMatchLength(r) > 0
    ensures r[0] == 'h'
  {
    assert r[..7][0] == r[0];
  }

  /** The leading body run of `[s[0]] + t` is a prefix of `s`. */
  lemma KeepUrlRun(s: string, t: string)
    requires s != []
    requires UrlBodyRun(t) <= |s| - 1 && t[..UrlBodyRun(t)] == s[1..][..UrlBodyRun(t)]
    ensures UrlBodyRun([s[0]] + t) <= |s| && ([s[0]] + t)[..UrlBodyRun([s[0]] + t)] == s[..UrlBodyRun([s[0]] + t)]
  {
    var r := [s[0]] + t;
    assert r[1..] == t;
    if IsUrlBodyChar(s[0]) {
      var m := 1 + UrlBodyRun(t);
      assert UrlBodyRun(r) == m;
      forall k | 0 <= k < m ensures r[k] == s[k] {
        if k > 0 {
          assert r[k] == t[k - 1] == t[..m - 1][k - 1];
        }
      }
      assert r[..m] == s[..m];
    }
  }

  // ---------------------------------------------------------------------
  // Step 2: mentions and hashtags

  /** The maximal run of word characters at the head of `s`. */
  function WordRun(s: string): (n: nat)
    ensures n <= |s|
    ensures forall k :: 0 <= k < n ==> IsWordChar(s[k])
    ensures n < |s| ==> !IsWordChar(s[n])
  {
    if s != [] && IsWordChar(s[0]) then 1 + WordRun(s[1..]) else 0
  }

  /** Length of a match of `@\w+|#\w+` at the head of `s`, or 0. */
  function TagMatchLength(s: string): (n: nat)
    ensures n <= |s|
  {
    if s != [] && (s[0] == '@' || s[0] == '#') && WordRun(s[1..]) > 0 then 1 + WordRun(s[1..]) else 0
  }

  /** No mention or hashtag starts anywhere in `s`. */
  predicate TagFree(s: string) {
    forall k :: 0 <= k < |s| ==> TagMatchLength(s[k..]) == 0
  }

  /** `re.sub(r'@\w+|#\w+', '', s)`. What is left holds no mention or hashtag, a text
      with none comes back unchanged, and the result starts with a non-word character
      whenever `s` does. */
  function RemoveTags(s: string): (r: string)
    ensures |r| <= |s|
    ensures TagFree(r)
    ensures TagFree(s) ==> r == s
    ensures (s == [] || !IsWordChar(s[0])) ==> (r == [] || !IsWordChar(r[0]))
    decreases |s|
  {
    if s == [] then []
    else
      var n := TagMatchLength(s);
      if n > 0 then
        assert n < |s| ==> s[n..][0] == s[1..][n - 1];
        assert s[0..] == s;
        RemoveTags(s[n..])
      else
        var t := RemoveTags(s[1..]);
        KeepTagHead(s, t);
        TagFreeTail(s);
        [s[0]] + t
  }

  /** The rest of a tag-free text is tag-free. */
  lemma TagFreeTail(s: string)
    requires s != []
    ensures TagFree(s) ==> TagFree(s[1..])
    ensures [s[0]] + s[1..] == s
  {
    forall k | 0 <= k < |s| - 1 ensures s[1..][k..] == s[k + 1..] {
    }
  }

  /** Keeping a head that starts no match in front of a tag-free rest that starts with
      a non-word character whenever the rest of `s` does keeps the result tag-free. */
  lemma KeepTagHead(s: string, t: string)
    requires s != [] && TagMatchLength(s) == 0 && TagFree(t)
    requires (|s| == 1 || !IsWordChar(s[1])) ==> (t == [] || !IsWordChar(t[0]))
    ensures TagFree([s[0]] + t)
  {
    var r := [s[0]] + t;
    assert forall k :: 1 <= k < |r| ==> r[k..] == t[k - 1..];
    assert r[1..] == t;
    if s[0] == '@' || s[0] == '#' {
      assert WordRun(s[1..]) == 0;
      assert |s| > 1 ==> s[1..][0] == s[1];
    }
  }

  // ---------------------------------------------------------------------
  // Step 4: characters outside the kept set

  predicate IsKeptPunctuation(c: char) {
    c == '.' || c == ',' || c == '!' || c == '?' || c == ';' || c == ':' || c == '(' || c == ')' || c == '-'
  }

  /** Every whitespace character of `s` is a plain blank. */
  predicate OnlyBlanks(s: string) {
    forall k :: 0 <= k < |s| && IsSpace(s[k]) ==> s[k] == ' '
  }

  /** The complement of `[^\w\s.,!?;:()\-]`. */
  predicate IsKept(c: char) {
    IsWordChar(c) || IsSpace(c) || IsKeptPunctuation(c)
  }

  /** `re.sub(r'[^\w\s.,!?;:()\-]', '', s)`: only allowed characters are left, and a
      string of allowed characters comes back unchanged. */
  function KeepAllowed(s: string): (r: string)
    ensures |r| <= |s|
    ensures forall k :: 0 <= k < |r| ==> IsKept(r[k])
    ensures (forall k :: 0 <= k < |s| ==> IsKept(s[k])) ==> r == s
    ensures OnlyBlanks(s) ==> OnlyBlanks(r)
  {
    if s == [] then []
    else if IsKept(s[0]) then [s[0]] + KeepAllowed(s[1..])
    else KeepAllowed(s[1..])
  }

  /** Every allowed character survives as often as it occurs, and every other one
      is deleted. */
  lemma {:induction false} KeepAllowedCounts(s: string, c: char)
    ensures multiset(KeepAllowed(s))[c] == if IsKept(c) then multiset(s)[c] else 0
    decreases |s|
  {
    if s != [] {
      KeepAllowedCounts(s[1..], c);
      assert s == [s[0]] + s[1..];
      assert multiset(s) == multiset([s[0]]) + multiset(s[1..]);
      if IsKept(s[0]) {
        assert multiset(KeepAllowed(s)) == multiset([s[0]]) + multiset(KeepAllowed(s[1..]));
      }
    }
  }

  /** The deletion works character by character, so it distributes over
      concatenation and keeps the order of what it keeps. */
  lemma {:induction false} KeepAllowedAppend(a: string, b: string)
    ensures KeepAllowed(a + b) == KeepAllowed(a) + KeepAllowed(b)
    decreases |a|
  {
    if a != [] {
      var c, t := a[0], a[1..];
      assert a == [c] + t;
      AppendAssoc([c], t, b);
      KeepAllowedAppend(t, b);
      KeepCons(c, t + b);
      KeepCons(c, t);
      if IsKept(c) {
        AppendAssoc([c], KeepAllowed(t), KeepAllowed(b));
      }
    } else {
      assert a + b == b;
    }
  }

  /** One step of the deletion: the first character is kept or dropped on its own. */
  lemma KeepCons(c: char, t: string)
    ensures KeepAllowed([c] + t) == if IsKept(c) then [c] + KeepAllowed(t) else KeepAllowed(t)
  {
    var s := [c] + t;
    assert s[0] == c && s[1..] == t;
  }

  // ---------------------------------------------------------------------
  // The chain

  /** `clean_text`: URLs, then mentions and hashtags, then whitespace runs, then
      disallowed characters, then surrounding whitespace. */
  function CleanText(text: string): (r: string)
    ensures r == [] || (!IsSpace(r[0]) && !IsSpace(r[|r| - 1]))
    ensures forall k :: 0 <= k < |r| ==> IsWordChar(r[k]) || r[k] == ' ' || IsKeptPunctuation(r[k])
    ensures forall k :: 0 <= k < |r| ==> r[k] != '@' && r[k] != '#' && r[k] != '$'
    ensures |r| <= |text|
  {
    var collapsed := CollapseSpaces(RemoveTags(RemoveUrls(text)));
    var kept := KeepAllowed(collapsed);
    StripKeeps(kept, IsCleanChar);
    var r := Strip(kept);
    forall k | 0 <= k < |r| ensures IsWordChar(r[k]) || r[k] == ' ' || IsKeptPunctuation(r[k]) {
      CleanCharShape(r[k]);
    }
    forall k | 0 <= k < |r| ensures r[k] != '@' && r[k] != '#' && r[k] != '$' {
      CleanCharShape(r[k]);
    }
    r
  }

  /** A character the cleaning keeps: an allowed one, and a plain blank if whitespace. */
  predicate IsCleanChar(c: char) {
    IsKept(c) && (IsSpace(c) ==> c == ' ')
  }

  lemma CleanCharShape(c: char)
    requires IsCleanChar(c)
    ensures IsWordChar(c) || c == ' ' || IsKeptPunctuation(c)
    ensures c != '@' && c != '#' && c != '$'
  {
  }

  /** `c` is what `clean_text` returns for `text`. The equation sits under a
      quantifier so that the cleaning chain is unfolded only where a proof
      mentions `CleanText(text)` itself. */
  ghost predicate IsCleaningOf(c: string, text: string) {
    forall t :: t == text ==> c == CleanText(t)
  }

  /** Both schemes hold a `/` at offset 6, so a text without `/` has no URL match. */
  lemma NoSlashUrlFree(s: string)
    requires forall k :: 0 <= k < |s| ==> s[k] != '/'
    ensures UrlFree(s)
  {
    forall k | 0 <= k < |s| ensures UrlMatchLength(s[k..]) == 0 {
      SlashInMatch(s, k);
    }
  }

  lemma SlashInMatch(s: string, k: nat)
    requires k < |s|
    ensures UrlMatchLength(s[k..]) > 0 ==> k + 6 < |s| && s[k + 6] == '/'
  {
    var t := s[k..];
    if UrlMatchLength(t) > 0 {
      UrlMatchScheme(t);
      if IsPrefix("https://", t) {
        assert t[6] == t[..8][6];
      } else {
        assert t[6] == t[..7][6];
      }
    }
  }

  /** Without an `@` or `#` there is no mention or hashtag to remove. */
  lemma RemoveTagsWithoutMarks(s: string)
    requires forall k :: 0 <= k < |s| ==> s[k] != '@' && s[k] != '#'
    ensures RemoveTags(s) == s
  {
    forall k | 0 <= k < |s| ensures TagMatchLength(s[k..]) == 0 {
      assert s[k..][0] == s[k];
    }
  }

  /** Text that is already clean comes back unchanged: only allowed characters (so no
      `/`, `@` or `#`, and hence no URL, mention or hashtag), blanks as the only
      whitespace and never two in a row, and no blank at either end. */
  lemma CleanTextKeepsClean(s: string)
    requires forall k :: 0 <= k < |s| ==> IsKept(s[k])
    requires SingleSpaced(s)
    requires s == [] || (!IsSpace(s[0]) && !IsSpace(s[|s| - 1]))
    ensures CleanText(s) == s
  {
    NoSlashUrlFree(s);
    RemoveTagsWithoutMarks(s);
    CollapseSingleSpaced(s);
    CleanTextStages(s, s, s);
    StripUnchanged(s);
  }

  /** Cleaning is not idempotent: deleting a character between two blanks leaves a
      double blank, which a second pass collapses. */
  lemma CleanTextNotIdempotent()
    ensures CleanText("a $ b") == "a  b"
    ensures CleanText(CleanText("a $ b")) != CleanText("a $ b")
  {
    CleanOnce();
    CleanTwice();
    assert |"a b"| != |"a  b"|;
  }

  lemma CleanOnce()
    ensures CleanText("a $ b") == "a  b"
  {
    var s := "a $ b";
    NoMarksInSample(s);
    SampleSingleSpaced();
    KeepDropsDollar();
    CleanTextStages(s, s, "a  b");
    StripDoubleBlank();
  }

  lemma CleanTwice()
    ensures CleanText("a  b") == "a b"
  {
    var t := "a  b";
    NoMarksInSample(t);
    CollapseDoubleBlank();
    KeepSingleBlank();
    CleanTextStages(t, "a b", "a b");
    StripSingleBlank();
  }

  lemma SampleSingleSpaced()
    ensures CollapseSpaces("a $ b") == "a $ b"
  {
    var s := "a $ b";
    assert s[0] == 'a' && s[1] == ' ' && s[2] == '$' && s[3] == ' ' && s[4] == 'b';
    CollapseSingleSpaced(s);
  }

  /** The cleaning chain, stage by stage. */
  lemma CleanTextStages(text: string, collapsed: string, kept: string)
    requires CollapseSpaces(RemoveTags(RemoveUrls(text))) == collapsed && KeepAllowed(collapsed) == kept
    ensures CleanText(text) == Strip(kept)
  {
  }

  /** The two samples hold no `/`, `@` or `#`, so the first two stages keep them. */
  lemma NoMarksInSample(s: string)
    requires s == "a $ b" || s == "a  b"
    ensures RemoveTags(RemoveUrls(s)) == s
  {
    forall k | 0 <= k < |s| ensures s[k] != '/' && s[k] != '@' && s[k] != '#' {
      if s == "a $ b" {
        assert s[0] == 'a' && s[1] == ' ' && s[2] == '$' && s[3] == ' ' && s[4] == 'b';
      } else {
        assert s[0] == 'a' && s[1] == ' ' && s[2] == ' ' && s[3] == 'b';
      }
    }
    NoSlashUrlFree(s);
    RemoveTagsWithoutMarks(s);
  }

  lemma KeepDropsDollar()
    ensures KeepAllowed("a $ b") == "a  b"
  {
    var s := "a $ b";
    assert s[1..] == " $ b" && s[2..] == "$ b" && s[3..] == " b" && s[4..] == "b";
    assert KeepAllowed(s[4..]) == "b";
    assert KeepAllowed(s[3..]) == " b";
    assert KeepAllowed(s[2..]) == " b";
  }

  lemma StripDoubleBlank()
    ensures Strip("a  b") == "a  b"
  {
    assert TrimStart("a  b") == "a  b";
    assert TrimEnd("a  b") == "a  b";
  }

  lemma CollapseDoubleBlank()
    ensures CollapseSpaces("a  b") == "a b"
  {
    CollapseAfterA();
    CollapseBlanksBeforeB();
    assert ['a'] + " b" == "a b";
  }

  lemma CollapseAfterA()
    ensures CollapseSpaces("a  b") == ['a'] + CollapseSpaces("  b")
  {
    var t := "a  b";
    assert t[0] == 'a' && t[1..] == "  b";
    CollapseWordHead(t);
  }

  lemma CollapseBlanksBeforeB()
    ensures CollapseSpaces("  b") == " b"
  {
    var u := "  b";
    assert u[0] == ' ' && u[1..] == " b";
    CollapseSpaceHead(u);
    TrimBlankBeforeB();
    var w := "b";
    assert w[0] == 'b' && w[1..] == [];
    CollapseWordHead(w);
    assert [' '] + "b" == " b";
  }

  lemma TrimBlankBeforeB()
    ensures TrimStart(" b") == "b"
  {
    var v := " b";
    assert v[0] == ' ' && v[1..] == "b";
    TrimStartSkips(v);
    var w := "b";
    assert w[0] == 'b';
    TrimStartStops(w);
  }

  lemma KeepSingleBlank()
    ensures KeepAllowed("a b") == "a b"
  {
    var u := "a b";
    assert u[1..] == " b" && u[2..] == "b";
    assert KeepAllowed(u[2..]) == "b";
  }

  lemma StripSingleBlank()
    ensures Strip("a b") == "a b"
  {
    assert TrimStart("a b") == "a b";
    assert TrimEnd("a b") == "a b";
  }

  // ---------------------------------------------------------------------
  // Pattern report

  /** The patterns of the extractor's table; `Email` and `Phone` are never reported. */
  datatype PatternKind = Price | Date | ModelCode | Rating | Email | Phone

  /** `extract_all_patterns`: one `findall` per reported pattern, keyed by plural name.
      `findall` stands for Python's `re.findall` over the extractor's pattern table,
      with the flags each extractor passes. */
  function ExtractAllPatterns(text: string, findall: (PatternKind, string) -> seq<string>)
    : (r: map<string, seq<string>>)
    ensures r.Keys == {"prices", "dates", "models", "ratings"}
    ensures r["prices"] == findall(Price, text) && r["dates"] == findall(Date, text)
    ensures r["models"] == findall(ModelCode, text) && r["ratings"] == findall(Rating, text)
  {
    map["prices" := findall(Price, text), "dates" := findall(Date, text),
        "models" := findall(ModelCode, text), "ratings" := findall(Rating, text)]
  }
}
