/** Characters and strings as the Python built-ins used by the pipeline see
    them: `str.isspace` and the regex class `\s`, the regex class `\w`,
    `str.lower`, `s in t`, `str.split()`, `str.join`, `str.strip`,
    `str.capitalize` and `list(dict.fromkeys(xs))`. Case mapping covers
    ASCII and Latin-1 only, and leaves the three Latin-1 letters whose upper
    case is not one Latin-1 character (`ß`, `ÿ`, `µ`) unchanged. */
module Text {

  // ---------------------------------------------------------------------
  // Character classes

  /** Whitespace as `str.isspace()` and `\s` define it. */
  predicate IsSpace(c: char) {
    c == ' ' || '\t' <= c <= '\r' || '\U{1C}' <= c <= '\U{1F}'
    || c == '\U{85}' || c == '\U{A0}' || c == '\U{1680}'
    || '\U{2000}' <= c <= '\U{200A}' || c == '\U{2028}' || c == '\U{2029}'
    || c == '\U{202F}' || c == '\U{205F}' || c == '\U{3000}'
  }

  predicate IsAsciiAlnum(c: char) {
    'a' <= c <= 'z' || 'A' <= c <= 'Z' || '0' <= c <= '9'
  }

  /** The Latin-1 characters Python counts as alphanumeric. */
  predicate IsLatin1Alnum(c: char) {
    c == '\U{AA}' || c == '\U{B2}' || c == '\U{B3}' || c == '\U{B5}'
    || c == '\U{B9}' || c == '\U{BA}' || '\U{BC}' <= c <= '\U{BE}'
    || ('\U{C0}' <= c <= '\U{FF}' && c != '\U{D7}' && c != '\U{F7}')
  }

  /** The regex class `\w`, restricted to ASCII and Latin-1. */
  predicate IsWordChar(c: char) {
    IsAsciiAlnum(c) || c == '_' || IsLatin1Alnum(c)
  }

  predicate IsUpper(c: char) {
    'A' <= c <= 'Z' || ('\U{C0}' <= c <= '\U{DE}' && c != '\U{D7}')
  }

  predicate IsLower(c: char) {
    'a' <= c <= 'z' || ('\U{E0}' <= c <= '\U{FE}' && c != '\U{F7}')
  }

  function LowerChar(c: char): char {
    if IsUpper(c) then (c as int + 32) as char else c
  }

  function UpperChar(c: char): char {
    if IsLower(c) then (c as int - 32) as char else c
  }

  /** `str.lower()`. */
  function Lower(s: string): string {
    seq(|s|, i requires 0 <= i < |s| => LowerChar(s[i]))
  }

  predicate IsLowerCase(s: string) {
    forall i :: 0 <= i < |s| ==> LowerChar(s[i]) == s[i]
  }

  /** Lowering is a projection: its output is lower-case, so lowering again changes nothing. */
  lemma LowerIdempotent(s: string)
    ensures IsLowerCase(Lower(s)) && Lower(Lower(s)) == Lower(s)
  {
  }

  lemma LowerOfLowerCase(s: string)
    requires IsLowerCase(s)
    ensures Lower(s) == s
  {
  }

  lemma LowerAppend(a: string, b: string)
    ensures Lower(a + b) == Lower(a) + Lower(b)
  {
  }

  // ---------------------------------------------------------------------
  // Substrings

  predicate IsPrefix(p: string, s: string) {
    |p| <= |s| && s[..|p|] == p
  }

  /** `p` occurs in `s` at offset `i`. */
  ghost predicate OccursAt(s: string, p: string, i: int) {
    0 <= i && i + |p| <= |s| && s[i..i + |p|] == p
  }

  /** Python's `p in s`: a left-to-right scan for `p`. */
  predicate Contains(s: string, p: string)
    decreases |s|
  {
    IsPrefix(p, s) || (s != [] && Contains(s[1..], p))
  }

  /** An occurrence at a known offset is found by the scan. */
  lemma {:induction false} ContainsAt(s: string, p: string, i: nat)
    requires i + |p| <= |s| && s[i..i + |p|] == p
    ensures Contains(s, p)
    decreases i
  {
    if i > 0 {
      assert s[1..][i - 1..i - 1 + |p|] == s[i..i + |p|];
      ContainsAt(s[1..], p, i - 1);
    }
  }

  lemma {:induction false} ContainsOccurs(s: string, p: string)
    requires Contains(s, p)
    ensures exists i :: OccursAt(s, p, i)
    decreases |s|
  {
    if IsPrefix(p, s) {
      assert OccursAt(s, p, 0);
    } else {
      ContainsOccurs(s[1..], p);
      var i :| OccursAt(s[1..], p, i);
      assert s[1..][i..i + |p|] == s[i + 1..i + 1 + |p|];
      assert OccursAt(s, p, i + 1);
    }
  }

  /** The scan finds `p` exactly when `p` occurs somewhere in `s`. */
  lemma ContainsIff(s: string, p: string)
    ensures Contains(s, p) <==> exists i :: OccursAt(s, p, i)
  {
    if exists i :: OccursAt(s, p, i) {
      var i :| OccursAt(s, p, i);
      ContainsAt(s, p, i);
    }
    if Contains(s, p) {
      ContainsOccurs(s, p);
    }
  }

  /** The empty string is in every string. */
  lemma ContainsEmpty(s: string)
    ensures Contains(s, "")
  {
  }

  // ---------------------------------------------------------------------
  // Words: `str.split()` and `" ".join`

  /** A non-empty run of non-whitespace characters. */
  predicate IsWord(w: string) {
    w != [] && forall i :: 0 <= i < |w| ==> !IsSpace(w[i])
  }

  /** Length of the leading run of non-whitespace characters. */
  function WordLength(s: string): (n: nat)
    ensures n <= |s|
    ensures forall k :: 0 <= k < n ==> !IsSpace(s[k])
    ensures n < |s| ==> IsSpace(s[n])
  {
    if s == [] || IsSpace(s[0]) then 0 else 1 + WordLength(s[1..])
  }

  /** `str.split()` with no separator: the maximal runs of non-whitespace. */
  function Split(s: string): (ws: seq<string>)
    ensures forall k :: 0 <= k < |ws| ==> IsWord(ws[k])
    decreases |s|
  {
    if s == [] then []
    else if IsSpace(s[0]) then Split(s[1..])
    else
      var n := WordLength(s);
      [s[..n]] + Split(s[n..])
  }

  /** `sep.join(parts)`. */
  function Join(sep: string, parts: seq<string>): string {
    if parts == [] then ""
    else if |parts| == 1 then parts[0]
    else parts[0] + sep + Join(sep, parts[1..])
  }

  lemma {:induction false} WordLengthOfWord(w: string, t: string)
    requires IsWord(w)
    requires t == [] || IsSpace(t[0])
    ensures WordLength(w + t) == |w|
    decreases |w|
  {
    if |w| > 1 {
      assert (w + t)[1..] == w[1..] + t;
      WordLengthOfWord(w[1..], t);
    } else {
      assert (w + t)[1..] == t;
    }
  }

  lemma SplitWordThen(w: string, t: string)
    requires IsWord(w)
    requires t == [] || IsSpace(t[0])
    ensures Split(w + t) == [w] + Split(t)
  {
    WordLengthOfWord(w, t);
    assert (w + t)[..|w|] == w;
    assert (w + t)[|w|..] == t;
  }

  /** Splitting a space-joined list of words gives the words back. */
  lemma {:induction false} SplitJoin(ws: seq<string>)
    requires forall k :: 0 <= k < |ws| ==> IsWord(ws[k])
    ensures Split(Join(" ", ws)) == ws
  {
    if |ws| == 1 {
      SplitWordThen(ws[0], "");
      assert ws[0] + "" == ws[0];
    } else if |ws| > 1 {
      var rest := " " + Join(" ", ws[1..]);
      assert Join(" ", ws) == ws[0] + rest;
      SplitWordThen(ws[0], rest);
      assert rest[1..] == Join(" ", ws[1..]);
      SplitJoin(ws[1..]);
      assert Split(rest) == ws[1..];
    }
  }

  /** Every character of a joined string comes from a part or from the separator. */
  lemma {:induction false} JoinChars(sep: string, parts: seq<string>, P: char -> bool)
    requires forall k, i :: 0 <= k < |parts| && 0 <= i < |parts[k]| ==> P(parts[k][i])
    requires forall i :: 0 <= i < |sep| ==> P(sep[i])
    ensures forall i :: 0 <= i < |Join(sep, parts)| ==> P(Join(sep, parts)[i])
  {
    if |parts| > 1 {
      JoinChars(sep, parts[1..], P);
      var j := Join(sep, parts);
      var tail := Join(sep, parts[1..]);
      forall i | 0 <= i < |j| ensures P(j[i]) {
        if i < |parts[0]| {
          assert j[i] == parts[0][i];
        } else if i < |parts[0]| + |sep| {
          assert j[i] == sep[i - |parts[0]|];
        } else {
          assert j[i] == tail[i - |parts[0]| - |sep|];
        }
      }
    } else if |parts| == 1 {
      assert Join(sep, parts) == parts[0];
    }
  }

  /** A space-joined list of words starts and ends with a word character, not a space. */
  lemma JoinWordsEnds(ws: seq<string>)
    requires forall k :: 0 <= k < |ws| ==> IsWord(ws[k])
    ensures var j := Join(" ", ws);
      j == [] || (!IsSpace(j[0]) && !IsSpace(j[|j| - 1]))
  {
    if ws != [] {
      JoinFirstLast(ws);
    }
  }

  lemma {:induction false} JoinFirstLast(ws: seq<string>)
    requires ws != [] && forall k :: 0 <= k < |ws| ==> IsWord(ws[k])
    ensures IsWord(ws[0]) && IsWord(ws[|ws| - 1])
    ensures var j := Join(" ", ws);
      |j| > 0 && j[0] == ws[0][0] && j[|j| - 1] == ws[|ws| - 1][|ws[|ws| - 1]| - 1]
  {
    if |ws| > 1 {
      JoinFirstLast(ws[1..]);
    }
  }

  /** `re.sub(r'\s+', ' ', s)`: every maximal whitespace run becomes one blank. */
  function CollapseSpaces(s: string): (r: string)
    ensures |r| <= |s|
    ensures forall k :: 0 <= k < |r| && IsSpace(r[k]) ==> r[k] == ' '
    decreases |s|
  {
    if s == [] then []
    else if IsSpace(s[0]) then [' '] + CollapseSpaces(TrimStart(s[1..]))
    else [s[0]] + CollapseSpaces(s[1..])
  }

  /** Every whitespace character is a blank and no two whitespace characters are adjacent. */
  predicate SingleSpaced(s: string) {
    (forall k :: 0 <= k < |s| && IsSpace(s[k]) ==> s[k] == ' ')
    && forall k :: 0 <= k < |s| - 1 && IsSpace(s[k]) ==> !IsSpace(s[k + 1])
  }

  /** A leading run of whitespace becomes one blank. */
  lemma CollapseSpaceHead(s: string)
    requires s != [] && IsSpace(s[0])
    ensures CollapseSpaces(s) == [' '] + CollapseSpaces(TrimStart(s[1..]))
  {
  }

  /** A leading non-whitespace character is kept. */
  lemma CollapseWordHead(s: string)
    requires s != [] && !IsSpace(s[0])
    ensures CollapseSpaces(s) == [s[0]] + CollapseSpaces(s[1..])
  {
  }

  /** Collapsing changes nothing in a single-spaced string. */
  lemma {:induction false} CollapseSingleSpaced(s: string)
    requires SingleSpaced(s)
    ensures CollapseSpaces(s) == s
    decreases |s|
  {
    if s != [] {
      var t := s[1..];
      SingleSpacedTail(s);
      CollapseSingleSpaced(t);
      if IsSpace(s[0]) {
        if t != [] {
          assert t[0] == s[1] && !IsSpace(s[1]);
        }
        assert TrimStart(t) == t;
        assert CollapseSpaces(s) == [' '] + CollapseSpaces(t);
        assert s == [' '] + t;
      } else {
        assert CollapseSpaces(s) == [s[0]] + CollapseSpaces(t);
        assert s == [s[0]] + t;
      }
    }
  }

  lemma SingleSpacedTail(s: string)
    requires s != [] && SingleSpaced(s)
    ensures SingleSpaced(s[1..])
  {
    var t := s[1..];
    forall k | 0 <= k < |t| ensures t[k] == s[k + 1] {
    }
  }

  /** Collapsing whitespace keeps every non-whitespace character as it is. */
  lemma {:induction false} CollapseChars(s: string, P: char -> bool)
    requires forall k :: 0 <= k < |s| && !IsSpace(s[k]) ==> P(s[k])
    ensures forall k :: 0 <= k < |CollapseSpaces(s)| && !IsSpace(CollapseSpaces(s)[k]) ==> P(CollapseSpaces(s)[k])
    decreases |s|
  {
    if s != [] {
      if IsSpace(s[0]) {
        var t := TrimStart(s[1..]);
        assert forall k :: 0 <= k < |t| ==> t[k] == s[|s| - |t| + k];
        CollapseChars(t, P);
        assert CollapseSpaces(s) == [' '] + CollapseSpaces(t);
        ConsKeeps(' ', CollapseSpaces(t), P);
      } else {
        CollapseChars(s[1..], P);
        assert CollapseSpaces(s) == [s[0]] + CollapseSpaces(s[1..]);
        ConsKeeps(s[0], CollapseSpaces(s[1..]), P);
      }
    }
  }

  /** Prefixing a character that is whitespace or satisfies `P` keeps the property. */
  lemma ConsKeeps(c: char, u: string, P: char -> bool)
    requires !IsSpace(c) ==> P(c)
    requires forall k :: 0 <= k < |u| && !IsSpace(u[k]) ==> P(u[k])
    ensures forall k :: 0 <= k < |[c] + u| && !IsSpace(([c] + u)[k]) ==> P(([c] + u)[k])
  {
    var r := [c] + u;
    forall k | 0 <= k < |r| && !IsSpace(r[k]) ensures P(r[k]) {
      if k > 0 {
        assert r[k] == u[k - 1];
      }
    }
  }

  /** The words of `s` are made of the non-whitespace characters of `s`. */
  lemma {:induction false} SplitChars(s: string, P: char -> bool)
    requires forall k :: 0 <= k < |s| && !IsSpace(s[k]) ==> P(s[k])
    ensures forall w, i :: 0 <= w < |Split(s)| && 0 <= i < |Split(s)[w]| ==> P(Split(s)[w][i])
    decreases |s|
  {
    if s != [] {
      if IsSpace(s[0]) {
        SplitChars(s[1..], P);
        assert Split(s) == Split(s[1..]);
      } else {
        var n := WordLength(s);
        SplitChars(s[n..], P);
        var ws, rest := Split(s), Split(s[n..]);
        assert ws == [s[..n]] + rest;
        assert forall i :: 0 <= i < n ==> s[..n][i] == s[i];
        forall w, i | 0 <= w < |ws| && 0 <= i < |ws[w]| ensures P(ws[w][i]) {
          if w > 0 {
            assert ws[w] == rest[w - 1];
          } else {
            assert ws[0][i] == s[i] && !IsSpace(s[i]);
          }
        }
      }
    }
  }

  /** A space-joined list of words is single-spaced. */
  lemma {:induction false} JoinSingleSpaced(ws: seq<string>)
    requires forall k :: 0 <= k < |ws| ==> IsWord(ws[k])
    ensures SingleSpaced(Join(" ", ws))
  {
    if |ws| > 1 {
      var w, t := ws[0], Join(" ", ws[1..]);
      JoinSingleSpaced(ws[1..]);
      JoinFirstLast(ws[1..]);
      var j := Join(" ", ws);
      assert j == w + " " + t;
      forall k | 0 <= k < |j| && IsSpace(j[k]) ensures j[k] == ' ' {
        if k > |w| {
          assert j[k] == t[k - |w| - 1];
        }
      }
      forall k | 0 <= k < |j| - 1 && IsSpace(j[k]) ensures !IsSpace(j[k + 1]) {
        if k == |w| {
          assert j[k + 1] == t[0];
        } else if k > |w| {
          assert j[k] == t[k - |w| - 1] && j[k + 1] == t[k - |w|];
        }
      }
    }
  }

  /** Each part occurs in the joined string. */
  lemma {:induction false} JoinContains(sep: string, parts: seq<string>, k: nat)
    requires k < |parts|
    ensures Contains(Join(sep, parts), parts[k])
  {
    if |parts| == 1 {
      ContainsAt(parts[0], parts[0], 0);
    } else if k == 0 {
      var j := Join(sep, parts);
      assert j[0..|parts[0]|] == parts[0];
      ContainsAt(j, parts[0], 0);
    } else {
      JoinContains(sep, parts[1..], k - 1);
      ContainsSuffix(parts[0] + sep, Join(sep, parts[1..]), parts[k]);
    }
  }

  /** What occurs in `b` occurs in `a + b`. */
  lemma ContainsSuffix(a: string, b: string, p: string)
    requires Contains(b, p)
    ensures Contains(a + b, p)
  {
    ContainsOccurs(b, p);
    var i :| OccursAt(b, p, i);
    assert (a + b)[|a| + i..|a| + i + |p|] == b[i..i + |p|];
    ContainsAt(a + b, p, |a| + i);
  }

  /** What occurs in `a` occurs in `a + b`. */
  lemma ContainsPrefix(a: string, b: string, p: string)
    requires Contains(a, p)
    ensures Contains(a + b, p)
  {
    ContainsOccurs(a, p);
    var i :| OccursAt(a, p, i);
    assert (a + b)[i..i + |p|] == a[i..i + |p|];
    ContainsAt(a + b, p, i);
  }

  // ---------------------------------------------------------------------
  // Trimming and capitalisation

  function TrimStart(s: string): (r: string)
    ensures r == [] || !IsSpace(r[0])
    ensures |r| <= |s| && r == s[|s| - |r|..]
    ensures forall k :: 0 <= k < |s| - |r| ==> IsSpace(s[k])
  {
    if s != [] && IsSpace(s[0]) then TrimStart(s[1..]) else s
  }

  /** A leading whitespace character is trimmed. */
  lemma TrimStartSkips(s: string)
    requires s != [] && IsSpace(s[0])
    ensures TrimStart(s) == TrimStart(s[1..])
  {
  }

  /** Trimming stops at a non-whitespace character. */
  lemma TrimStartStops(s: string)
    requires s == [] || !IsSpace(s[0])
    ensures TrimStart(s) == s
  {
  }

  function TrimEnd(s: string): (r: string)
    ensures r == [] || !IsSpace(r[|r| - 1])
    ensures |r| <= |s| && r == s[..|r|]
    ensures forall k :: |r| <= k < |s| ==> IsSpace(s[k])
  {
    if s != [] && IsSpace(s[|s| - 1]) then TrimEnd(s[..|s| - 1]) else s
  }

  /** `str.strip()`: the middle of `s` left after removing whitespace at both ends. */
  function Strip(s: string): (r: string)
    ensures r == [] || (!IsSpace(r[0]) && !IsSpace(r[|r| - 1]))
    ensures |r| <= |s|
    ensures exists i, j ::
      (0 <= i <= j <= |s| && r == s[i..j]
       && (forall k :: 0 <= k < i ==> IsSpace(s[k]))
       && (forall k :: j <= k < |s| ==> IsSpace(s[k])))
  {
    var t := TrimStart(s);
    var r := TrimEnd(t);
    StripMiddle(s, t, r);
    r
  }

  /** The trimmed string sits between the two trimmed runs of whitespace. */
  lemma StripMiddle(s: string, t: string, r: string)
    requires |t| <= |s| && t == s[|s| - |t|..] && forall k :: 0 <= k < |s| - |t| ==> IsSpace(s[k])
    requires |r| <= |t| && r == t[..|r|] && forall k :: |r| <= k < |t| ==> IsSpace(t[k])
    ensures var i := |s| - |t|;
      && 0 <= i <= i + |r| <= |s| && r == s[i..i + |r|]
      && (forall k :: 0 <= k < i ==> IsSpace(s[k]))
      && (forall k :: i + |r| <= k < |s| ==> IsSpace(s[k]))
  {
    var i := |s| - |t|;
    SliceOfSuffix(s, t, r, i);
    SpacesOfSuffix(s, t, i, |r|);
  }

  lemma SliceOfSuffix(s: string, t: string, r: string, i: nat)
    requires i <= |s| && t == s[i..] && |r| <= |t| && r == t[..|r|]
    ensures i + |r| <= |s| && r == s[i..i + |r|]
  {
  }

  lemma SpacesOfSuffix(s: string, t: string, i: nat, n: nat)
    requires i + n <= |s| && t == s[i..]
    requires forall k :: n <= k < |t| ==> IsSpace(t[k])
    ensures forall k :: i + n <= k < |s| ==> IsSpace(s[k])
  {
    forall k | i + n <= k < |s| ensures IsSpace(s[k]) {
      assert s[k] == t[k - i];
    }
  }

  /** Whatever holds of every character of `s` holds of every character of `Strip(s)`. */
  lemma StripKeeps(s: string, P: char -> bool)
    requires forall k :: 0 <= k < |s| ==> P(s[k])
    ensures forall k :: 0 <= k < |Strip(s)| ==> P(Strip(s)[k])
  {
    var t := TrimStart(s);
    var r := TrimEnd(t);
    assert Strip(s) == r;
    forall k | 0 <= k < |r|
      ensures P(r[k])
    {
      assert r[k] == t[k];
      assert t[k] == s[|s| - |t| + k];
    }
  }

  /** `str.capitalize()`: first character upper-case, the rest lower-case. */
  function Capitalize(s: string): (r: string)
    ensures |r| == |s|
    ensures s != [] ==> r[0] == UpperChar(s[0]) && r[1..] == Lower(s[1..])
  {
    if s == [] then [] else [UpperChar(s[0])] + Lower(s[1..])
  }

  /** A string with no whitespace at either end is its own strip. */
  lemma StripUnchanged(s: string)
    requires s == [] || (!IsSpace(s[0]) && !IsSpace(s[|s| - 1]))
    ensures Strip(s) == s
  {
    assert TrimStart(s) == s;
    assert TrimEnd(s) == s;
  }

  /** Case mapping never turns a visible character into whitespace. */
  lemma CaseKeepsVisible(c: char)
    requires !IsSpace(c)
    ensures !IsSpace(LowerChar(c)) && !IsSpace(UpperChar(c))
  {
  }

  /** Lowering a capitalised lower-case string gives the string back. */
  lemma LowerCapitalize(s: string)
    requires IsLowerCase(s)
    ensures Lower(Capitalize(s)) == s
  {
    if s != [] {
      var r := Capitalize(s);
      LowerOfLowerCase(s[1..]);
      assert r == [UpperChar(s[0])] + s[1..];
      LowerCons(UpperChar(s[0]), s[1..]);
      LowerOfUpperChar(s[0]);
    }
  }

  lemma LowerCons(c: char, t: string)
    ensures Lower([c] + t) == [LowerChar(c)] + Lower(t)
  {
    LowerAppend([c], t);
  }

  /** Upper-casing a lower-case character is undone by lower-casing it. */
  lemma LowerOfUpperChar(c: char)
    requires LowerChar(c) == c
    ensures LowerChar(UpperChar(c)) == c
  {
  }

  // ---------------------------------------------------------------------
  // Keyword counting: `sum(1 for w in words if w in text)`

  /** How many of `words` occur in `text` as substrings. */
  function CountFound(words: seq<string>, text: string): (n: nat)
    ensures n <= |words|
  {
    if words == [] then 0
    else CountFound(words[..|words| - 1], text) + (if Contains(text, words[|words| - 1]) then 1 else 0)
  }

  /** No word is found exactly when the count is zero. */
  lemma {:induction false} CountFoundZero(words: seq<string>, text: string)
    ensures CountFound(words, text) == 0 <==> forall k :: 0 <= k < |words| ==> !Contains(text, words[k])
  {
    if words != [] {
      var p := words[..|words| - 1];
      CountFoundZero(p, text);
      assert forall k :: 0 <= k < |p| ==> p[k] == words[k];
    }
  }

  /** Every word is found exactly when the count is the number of words. */
  lemma {:induction false} CountFoundAll(words: seq<string>, text: string)
    ensures CountFound(words, text) == |words| <==> forall k :: 0 <= k < |words| ==> Contains(text, words[k])
  {
    if words != [] {
      var p := words[..|words| - 1];
      CountFoundAll(p, text);
      assert forall k :: 0 <= k < |p| ==> p[k] == words[k];
    }
  }

  // ---------------------------------------------------------------------
  // Duplicate removal

  predicate NoDup<T(==)>(s: seq<T>) {
    forall i, j :: 0 <= i < j < |s| ==> s[i] != s[j]
  }

  /** `list(dict.fromkeys(xs))`: every element once, at its first occurrence. */
  function Dedup<T(==)>(xs: seq<T>): (r: seq<T>)
    ensures NoDup(r)
    ensures forall i :: 0 <= i < |r| ==> r[i] in xs
    ensures forall i :: 0 <= i < |xs| ==> xs[i] in r
    ensures |r| <= |xs|
  {
    if xs == [] then []
    else
      var d := Dedup(xs[..|xs| - 1]);
      var x := xs[|xs| - 1];
      if x in d then d else d + [x]
  }

  /** A non-empty sequence is its prefix without the last element, then that element. */
  lemma SplitLast<T>(s: seq<T>)
    requires s != []
    ensures s[..|s| - 1] + [s[|s| - 1]] == s && s[..|s|] == s
  {
  }

  lemma AppendAssoc<T>(a: seq<T>, b: seq<T>, c: seq<T>)
    ensures a + b + c == a + (b + c)
  {
  }

  /** Position of the first occurrence of `x` in `xs`. */
  function FirstIndex<T(==)>(xs: seq<T>, x: T): (k: nat)
    requires x in xs
    ensures k < |xs| && xs[k] == x && forall i :: 0 <= i < k ==> xs[i] != x
  {
    if xs[0] == x then 0 else 1 + FirstIndex(xs[1..], x)
  }

  lemma FirstIndexPrefix<T>(xs: seq<T>, n: nat, x: T)
    requires n <= |xs| && x in xs[..n]
    ensures FirstIndex(xs, x) == FirstIndex(xs[..n], x)
  {
    var k := FirstIndex(xs[..n], x);
    assert xs[..n][..k] == xs[..k];
    assert xs[k] == x;
    assert forall i :: 0 <= i < k ==> xs[i] != x by {
      forall i | 0 <= i < k ensures xs[i] != x {
        assert xs[i] == xs[..k][i];
      }
    }
    FirstIndexIs(xs, x, k);
  }

  lemma FirstIndexIs<T>(xs: seq<T>, x: T, k: nat)
    requires k < |xs| && xs[k] == x
    requires forall i :: 0 <= i < k ==> xs[i] != x
    ensures FirstIndex(xs, x) == k
  {
  }

  /** The elements of `r` appear in the order of their first occurrences in `xs`. */
  ghost predicate FirstOccurrenceOrdered<T>(xs: seq<T>, r: seq<T>) {
    forall a, b :: 0 <= a < b < |r| && r[a] in xs && r[b] in xs ==> FirstIndex(xs, r[a]) < FirstIndex(xs, r[b])
  }

  /** Dedup keeps first-occurrence order. */
  lemma {:induction false} DedupFirstOccurrenceOrder<T>(xs: seq<T>)
    ensures FirstOccurrenceOrdered(xs, Dedup(xs))
  {
    if xs != [] {
      var p := xs[..|xs| - 1];
      DedupFirstOccurrenceOrder(p);
      forall i, j | 0 <= i < j < |Dedup(xs)|
        ensures FirstIndex(xs, Dedup(xs)[i]) < FirstIndex(xs, Dedup(xs)[j])
      {
        DedupSnocPrefix(xs);
        if j < |Dedup(p)| {
          DedupStepOld(xs, i, j);
        } else {
          DedupStepNew(xs, i);
        }
      }
    }
  }

  /** Two elements the deduplicated prefix already held keep their order. */
  lemma DedupStepOld<T>(xs: seq<T>, i: nat, j: nat)
    requires xs != [] && i < j < |Dedup(xs[..|xs| - 1])|
    requires FirstIndex(xs[..|xs| - 1], Dedup(xs[..|xs| - 1])[i])
           < FirstIndex(xs[..|xs| - 1], Dedup(xs[..|xs| - 1])[j])
    ensures FirstIndex(xs, Dedup(xs)[i]) < FirstIndex(xs, Dedup(xs)[j])
  {
    var p := xs[..|xs| - 1];
    var d := Dedup(p);
    var r := Dedup(xs);
    DedupSnocPrefix(xs);
    assert r[i] == r[..|d|][i] == d[i];
    assert r[j] == r[..|d|][j] == d[j];
    FirstIndexPrefixBoth(xs, d[i], d[j]);
  }

  /** Extending a sequence at the end keeps the first occurrences of two elements already in it. */
  lemma {:induction false} FirstIndexPrefixBoth<T>(xs: seq<T>, a: T, b: T)
    requires xs != [] && a in xs[..|xs| - 1] && b in xs[..|xs| - 1]
    ensures FirstIndex(xs, a) == FirstIndex(xs[..|xs| - 1], a)
    ensures FirstIndex(xs, b) == FirstIndex(xs[..|xs| - 1], b)
  {
    FirstIndexPrefix(xs, |xs| - 1, a);
    FirstIndexPrefix(xs, |xs| - 1, b);
  }

  /** An element the deduplicated prefix held comes before a newly added last one. */
  lemma DedupStepNew<T>(xs: seq<T>, i: nat)
    requires xs != [] && i < |Dedup(xs[..|xs| - 1])| < |Dedup(xs)|
    ensures FirstIndex(xs, Dedup(xs)[i]) < FirstIndex(xs, Dedup(xs)[|Dedup(xs[..|xs| - 1])|])
  {
    var p := xs[..|xs| - 1];
    var d := Dedup(p);
    var x := xs[|xs| - 1];
    DedupSnocPrefix(xs);
    assert x !in d && Dedup(xs) == d + [x];
    assert d[i] in p;
    FirstIndexPrefix(xs, |xs| - 1, d[i]);
    NewLastFirstIndex(xs);
  }

  /** The deduplicated prefix is a prefix of the deduplicated whole. */
  lemma DedupSnocPrefix<T>(xs: seq<T>)
    requires xs != []
    ensures |Dedup(xs[..|xs| - 1])| <= |Dedup(xs)|
    ensures Dedup(xs)[..|Dedup(xs[..|xs| - 1])|] == Dedup(xs[..|xs| - 1])
    ensures |Dedup(xs)| == |Dedup(xs[..|xs| - 1])| ==> Dedup(xs) == Dedup(xs[..|xs| - 1])
    ensures |Dedup(xs)| != |Dedup(xs[..|xs| - 1])|
      ==> xs[|xs| - 1] !in Dedup(xs[..|xs| - 1]) && Dedup(xs) == Dedup(xs[..|xs| - 1]) + [xs[|xs| - 1]]
  {
  }

  /** An element that the deduplicated prefix lacks first occurs at the end. */
  lemma NewLastFirstIndex<T>(xs: seq<T>)
    requires xs != [] && xs[|xs| - 1] !in Dedup(xs[..|xs| - 1])
    ensures FirstIndex(xs, xs[|xs| - 1]) == |xs| - 1
  {
    var p := xs[..|xs| - 1];
    var x := xs[|xs| - 1];
    forall k | 0 <= k < |xs| - 1 ensures xs[k] != x {
      assert xs[k] == p[k] && p[k] in Dedup(p);
    }
    FirstIndexIs(xs, x, |xs| - 1);
  }

  lemma DedupOfNoDup<T>(xs: seq<T>)
    requires NoDup(xs)
    ensures Dedup(xs) == xs
  {
    if xs != [] {
      var p := xs[..|xs| - 1];
      DedupOfNoDup(p);
    }
  }

  /** A duplicate-free sequence holds each value at most once. */
  lemma {:induction false} NoDupCount<T>(s: seq<T>, x: T)
    requires NoDup(s)
    ensures multiset(s)[x] <= 1
  {
    if s != [] {
      var p := s[..|s| - 1];
      assert s == p + [s[|s| - 1]];
      assert NoDup(p);
      NoDupCount(p, x);
      assert s[|s| - 1] == x ==> x !in p by {
        forall k | 0 <= k < |p| ensures p[k] == s[k] { }
      }
    }
  }

  /** A value at two positions is counted at least twice. */
  lemma RepeatedCount<T>(t: seq<T>, a: nat, b: nat)
    requires a < b < |t|
    ensures t[a] == t[b] ==> multiset(t)[t[a]] >= 2
  {
    assert t == t[..b] + [t[b]] + t[b + 1..];
    assert t[..b][a] == t[a];
    assert t[a] in multiset(t[..b]);
  }

  /** Rearranging a duplicate-free sequence keeps it duplicate-free. */
  lemma MultisetNoDup<T>(s: seq<T>, t: seq<T>)
    requires NoDup(s) && multiset(s) == multiset(t)
    ensures NoDup(t)
  {
    forall a, b | 0 <= a < b < |t| ensures t[a] != t[b] {
      RepeatedCount(t, a, b);
      NoDupCount(s, t[a]);
    }
  }

  // ---------------------------------------------------------------------
  // Sorting indices by a key (`list.sort(key=...)`, `np.argsort`)

  ghost predicate SortedBy(s: seq<nat>, key: nat -> real) {
    forall i, j :: 0 <= i < j < |s| ==> key(s[i]) <= key(s[j])
  }

  function InsertBy(x: nat, s: seq<nat>, key: nat -> real): (r: seq<nat>)
    requires SortedBy(s, key)
    ensures multiset(r) == multiset(s) + multiset{x}
    ensures r[0] == x || (s != [] && r[0] == s[0])
    ensures SortedBy(r, key)
  {
    if s == [] then [x]
    else if key(x) <= key(s[0]) then
      SortedCons(x, s, key);
      [x] + s
    else
      var t := InsertBy(x, s[1..], key);
      assert s == [s[0]] + s[1..];
      SortedCons(s[0], t, key);
      [s[0]] + t
  }

  /** A head no greater than a sorted tail's first element keeps it sorted. */
  lemma SortedCons(y: nat, t: seq<nat>, key: nat -> real)
    requires SortedBy(t, key) && (t != [] ==> key(y) <= key(t[0]))
    ensures SortedBy([y] + t, key)
  {
    var r := [y] + t;
    forall i, j | 0 <= i < j < |r| ensures key(r[i]) <= key(r[j]) {
      if i == 0 && j > 1 {
        assert key(t[0]) <= key(t[j - 1]);
      }
    }
  }

  /** Sorting positions by themselves (`key=lambda x: x.i`). */
  function IndexKey(k: nat): real {
    k as real
  }

  /** Positions sorted by themselves and without repeats are strictly increasing. */
  lemma SortedDistinctIncreasing(r: seq<nat>)
    requires NoDup(r) && SortedBy(r, IndexKey)
    ensures forall a, b :: 0 <= a < b < |r| ==> r[a] < r[b]
  {
    forall a, b | 0 <= a < b < |r| ensures r[a] < r[b] {
      assert IndexKey(r[a]) <= IndexKey(r[b]);
    }
  }

  /** Stable insertion sort of `s`, ascending by `key`. */
  function SortBy(s: seq<nat>, key: nat -> real): (r: seq<nat>)
    ensures multiset(r) == multiset(s)
    ensures SortedBy(r, key)
  {
    if s == [] then []
    else
      assert s == [s[0]] + s[1..];
      InsertBy(s[0], SortBy(s[1..], key), key)
  }
}
