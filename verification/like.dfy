/** Escaped LIKE patterns against plain prefix and substring tests. */
module LikePatterns {
  import opened Paths

  /** Characters that compare equal under the fold match each other; the fold is a parameter because
      SQLite folds ASCII case only. */
  function Fold(fold: char -> char, s: string): (r: string)
    ensures |r| == |s|
  {
    seq(|s|, i requires 0 <= i < |s| => fold(s[i]))
  }

  predicate StartsWith(fold: char -> char, text: string, prefix: string) {
    |prefix| <= |text| && Fold(fold, text[..|prefix|]) == Fold(fold, prefix)
  }

  predicate Contains(fold: char -> char, text: string, part: string) {
    exists i :: 0 <= i <= |text| - |part| && StartsWith(fold, text[i..], part)
  }

  /** `text LIKE pattern ESCAPE '\'`. */
  predicate Like(fold: char -> char, pattern: string, text: string)
    decreases |pattern|, |text|
  {
    if pattern == "" then text == ""
    else if pattern[0] == '%' then
      Like(fold, pattern[1..], text) || (text != "" && Like(fold, pattern, text[1..]))
    else if pattern[0] == '_' then
      text != "" && Like(fold, pattern[1..], text[1..])
    else if pattern[0] == '\\' then
      |pattern| > 1 && text != "" && fold(pattern[1]) == fold(text[0]) && Like(fold, pattern[2..], text[1..])
    else
      text != "" && fold(pattern[0]) == fold(text[0]) && Like(fold, pattern[1..], text[1..])
  }

  /** `str::replace` of one character by two. */
  function ReplaceChar(s: string, c: char, replacement: string): string {
    if s == "" then ""
    else (if s[0] == c then replacement else [s[0]]) + ReplaceChar(s[1..], c, replacement)
  }

  function EscapeLike(value: string): string {
    ReplaceChar(ReplaceChar(ReplaceChar(value, '\\', "\\\\"), '%', "\\%"), '_', "\\_")
  }

  predicate Wild(c: char) {
    c == '\\' || c == '%' || c == '_'
  }

  /** One backslash in front of every character that LIKE treats specially. */
  function EscapeOnce(value: string): string {
    if value == "" then ""
    else (if Wild(value[0]) then ['\\', value[0]] else [value[0]]) + EscapeOnce(value[1..])
  }

  /** The wildcards of LIKE: an underscore stands for one character, a percent sign for any number, and a
      backslash takes away either meaning. */
  lemma LikeWildcards(fold: char -> char, c: char, text: string)
    ensures Like(fold, "_", [c]) && !Like(fold, "_", "")
    ensures Like(fold, "\\_", [c]) <==> fold('_') == fold(c)
    ensures Like(fold, "\\%", [c]) <==> fold('%') == fold(c)
    ensures Like(fold, "%", text)
  {
    PercentMatchesAnything(fold, text);
    assert [c][1..] == "" && "_"[1..] == "" && "\\_"[2..] == "" && "\\%"[2..] == "";
  }

  /** Without folding, the two tests are those of plain strings. */
  lemma UnfoldedTests(fold: char -> char, text: string, part: string)
    requires forall c :: fold(c) == c
    ensures StartsWith(fold, text, part) <==> part <= text
    ensures Contains(fold, text, part) <==> exists i :: 0 <= i <= |text| && part <= text[i..]
  {
    UnfoldedStart(fold, text, part);
    forall i | 0 <= i <= |text| ensures StartsWith(fold, text[i..], part) <==> part <= text[i..] {
      UnfoldedStart(fold, text[i..], part);
    }
    if i :| 0 <= i <= |text| && part <= text[i..] { assert StartsWith(fold, text[i..], part); }
  }

  lemma UnfoldedStart(fold: char -> char, text: string, prefix: string)
    requires forall c :: fold(c) == c
    ensures StartsWith(fold, text, prefix) <==> prefix <= text
  {
    assert Fold(fold, prefix) == prefix;
    if |prefix| <= |text| {
      assert Fold(fold, text[..|prefix|]) == text[..|prefix|];
      assert prefix <= text <==> text[..|prefix|] == prefix;
    }
  }

  lemma {:induction false} ReplaceConcat(a: string, b: string, c: char, replacement: string)
    ensures ReplaceChar(a + b, c, replacement) == ReplaceChar(a, c, replacement) + ReplaceChar(b, c, replacement)
  {
    if a == "" {
      assert a + b == b;
    } else {
      assert (a + b)[0] == a[0] && (a + b)[1..] == a[1..] + b;
      ReplaceConcat(a[1..], b, c, replacement);
    }
  }

  lemma ReplaceTwoChars(x: char, y: char, c: char, replacement: string)
    ensures ReplaceChar([x], c, replacement) == if x == c then replacement else [x]
    ensures ReplaceChar([x, y], c, replacement) == ReplaceChar([x], c, replacement) + ReplaceChar([y], c, replacement)
  {
    assert [x][1..] == "" && [y][1..] == "" && [x, y][1..] == [y];
    assert [x] + "" == [x] && [y] + "" == [y] && replacement + "" == replacement;
  }

  /** The three successive replacements do not disturb one another. */
  lemma {:induction false} EscapeIsPerCharacter(value: string)
    ensures EscapeLike(value) == EscapeOnce(value)
  {
    if value != "" {
      var c, rest := value[0], value[1..];
      EscapeIsPerCharacter(rest);
      assert value == [c] + rest;
      var head1 := ReplaceChar([c], '\\', "\\\\");
      ReplaceConcat([c], rest, '\\', "\\\\");
      var rest1 := ReplaceChar(rest, '\\', "\\\\");
      ReplaceConcat(head1, rest1, '%', "\\%");
      var head2 := ReplaceChar(head1, '%', "\\%");
      var rest2 := ReplaceChar(rest1, '%', "\\%");
      ReplaceConcat(head2, rest2, '_', "\\_");
      ReplaceTwoChars(c, c, '\\', "\\\\");
      ReplaceTwoChars(c, c, '%', "\\%");
      ReplaceTwoChars('\\', '\\', '%', "\\%");
      ReplaceTwoChars(c, c, '_', "\\_");
      ReplaceTwoChars('\\', '\\', '_', "\\_");
      ReplaceTwoChars('\\', '%', '_', "\\_");
      assert ReplaceChar(head2, '_', "\\_") == if Wild(c) then ['\\', c] else [c];
    }
  }

  lemma {:induction false} PercentMatchesAnything(fold: char -> char, text: string)
    ensures Like(fold, "%", text)
  {
    if text == "" {
      assert Like(fold, "", "");
    } else {
      PercentMatchesAnything(fold, text[1..]);
    }
  }

  lemma {:induction false} LikeEscapedThen(fold: char -> char, value: string, rest: string, text: string)
    ensures Like(fold, EscapeOnce(value) + rest, text) <==>
            StartsWith(fold, text, value) && Like(fold, rest, text[|value|..])
    decreases |value|
  {
    if value == "" {
      assert EscapeOnce(value) + rest == rest && text[0..] == text;
      assert Fold(fold, text[..0]) == Fold(fold, value);
    } else {
      var c, tail := value[0], value[1..];
      var pattern := EscapeOnce(value) + rest;
      var shorter := EscapeOnce(tail) + rest;
      assert pattern == (if Wild(c) then ['\\', c] else [c]) + shorter;
      assert pattern[if Wild(c) then 2 else 1..] == shorter;
      if text != "" {
        LikeEscapedThen(fold, tail, rest, text[1..]);
        StartsWithStep(fold, text, value);
        if |value| <= |text| { assert text[1..][|tail|..] == text[|value|..]; }
      }
    }
  }

  lemma StartsWithStep(fold: char -> char, text: string, prefix: string)
    requires text != "" && prefix != ""
    ensures StartsWith(fold, text, prefix) <==>
            fold(text[0]) == fold(prefix[0]) && StartsWith(fold, text[1..], prefix[1..])
  {
    StartsWithPointwise(fold, text, prefix);
    StartsWithPointwise(fold, text[1..], prefix[1..]);
    if |prefix| <= |text| {
      if forall k :: 0 <= k < |prefix| ==> fold(text[k]) == fold(prefix[k]) {
        forall k | 0 <= k < |prefix| - 1 ensures fold(text[1..][k]) == fold(prefix[1..][k]) {
          assert fold(text[k + 1]) == fold(prefix[k + 1]);
        }
      }
      if && fold(text[0]) == fold(prefix[0])
         && forall k :: 0 <= k < |prefix| - 1 ==> fold(text[1..][k]) == fold(prefix[1..][k]) {
        forall k | 0 <= k < |prefix| ensures fold(text[k]) == fold(prefix[k]) {
          if k > 0 { assert fold(text[1..][k - 1]) == fold(prefix[1..][k - 1]); }
        }
      }
    }
  }

  lemma StartsWithPointwise(fold: char -> char, text: string, prefix: string)
    ensures StartsWith(fold, text, prefix) <==>
            |prefix| <= |text| && forall k :: 0 <= k < |prefix| ==> fold(text[k]) == fold(prefix[k])
  {
    if |prefix| <= |text| {
      var a, b := Fold(fold, text[..|prefix|]), Fold(fold, prefix);
      if a == b {
        forall k | 0 <= k < |prefix| ensures fold(text[k]) == fold(prefix[k]) {
          assert a[k] == b[k];
        }
      }
    }
  }

  /** The pattern built for a directory prefix matches exactly what lies below it. */
  lemma EscapedPrefixPattern(fold: char -> char, prefix: string, text: string)
    ensures Like(fold, EscapeLike(prefix) + "/%", text) <==> StartsWith(fold, text, prefix + "/")
  {
    EscapeIsPerCharacter(prefix);
    EscapeConcat(prefix, "/");
    assert EscapeOnce("/") == "/" by { assert "/"[1..] == ""; assert EscapeOnce("") == ""; }
    assert EscapeLike(prefix) + "/%" == EscapeOnce(prefix + "/") + "%";
    LikeEscapedThen(fold, prefix + "/", "%", text);
    if StartsWith(fold, text, prefix + "/") {
      PercentMatchesAnything(fold, text[|prefix + "/"|..]);
    }
  }

  lemma {:induction false} EscapeConcat(a: string, b: string)
    ensures EscapeOnce(a + b) == EscapeOnce(a) + EscapeOnce(b)
  {
    if a == "" {
      assert a + b == b;
    } else {
      assert (a + b)[0] == a[0] && (a + b)[1..] == a[1..] + b;
      EscapeConcat(a[1..], b);
    }
  }

  lemma {:induction false} LikePercentThen(fold: char -> char, rest: string, text: string)
    ensures Like(fold, "%" + rest, text) <==> exists i :: 0 <= i <= |text| && Like(fold, rest, text[i..])
    decreases |text|
  {
    var pattern := "%" + rest;
    assert pattern[1..] == rest;
    assert text[0..] == text;
    if text != "" {
      LikePercentThen(fold, rest, text[1..]);
      if i :| 0 <= i <= |text| && Like(fold, rest, text[i..]) {
        if i > 0 { assert text[1..][i - 1..] == text[i..]; }
      }
      if i :| 0 <= i <= |text[1..]| && Like(fold, rest, text[1..][i..]) {
        assert text[1..][i..] == text[i + 1..];
      }
    }
  }

  /** The pattern built for a search matches exactly the texts that contain the query. */
  lemma EscapedContainsPattern(fold: char -> char, query: string, text: string)
    ensures Like(fold, "%" + EscapeLike(query) + "%", text) <==> Contains(fold, text, query)
  {
    EscapeIsPerCharacter(query);
    var rest := EscapeOnce(query) + "%";
    assert "%" + EscapeLike(query) + "%" == "%" + rest;
    LikePercentThen(fold, rest, text);
    forall i | 0 <= i <= |text| ensures Like(fold, rest, text[i..]) <==> StartsWith(fold, text[i..], query) {
      LikeEscapedThen(fold, query, "%", text[i..]);
      if StartsWith(fold, text[i..], query) { PercentMatchesAnything(fold, text[i..][|query|..]); }
    }
  }

  // ---------------------------------------------------------------------------------------
  // Listing below a prefix
  // ---------------------------------------------------------------------------------------

  function TrimSlashes(s: string): string {
    if s != "" && s[|s| - 1] == '/' then TrimSlashes(s[..|s| - 1]) else s
  }

  /** The condition of the cached listing: the path itself, or LIKE of the escaped prefix. */
  predicate CachedListingIncludes(fold: char -> char, path: string, prefix: string) {
    path == prefix || Like(fold, EscapeLike(TrimSlashes(prefix)) + "/%", path)
  }

  lemma TrimNormalized(prefix: string)
    requires ValidArchivePath(prefix)
    ensures TrimSlashes(prefix) == prefix
  {
    var front := prefix[..|prefix| - 1];
    var directory := front + "/" + "";
    SplitConcat(front, "");
    assert Split(directory)[|Split(front)|] == "";
    assert prefix[|prefix| - 1] == '/' ==> prefix == directory;
  }

  /** What the cached listing accepts for a normalized prefix. */
  lemma CachedListingMeaning(fold: char -> char, path: string, prefix: string)
    requires ValidArchivePath(prefix)
    ensures CachedListingIncludes(fold, path, prefix) <==> path == prefix || StartsWith(fold, path, prefix + "/")
  {
    TrimNormalized(prefix);
    EscapedPrefixPattern(fold, prefix, path);
  }

  /** A trailing slash of the prefix changes nothing below it. */
  lemma CachedListingOfDirectory(fold: char -> char, path: string, prefix: string)
    requires ValidArchivePath(prefix)
    ensures CachedListingIncludes(fold, path, prefix + "/") <==>
            path == prefix + "/" || StartsWith(fold, path, prefix + "/")
  {
    TrimNormalized(prefix);
    assert (prefix + "/")[..|prefix|] == prefix;
    EscapedPrefixPattern(fold, prefix, path);
  }

  lemma MatchesByPrefix(path: string, prefix: string)
    ensures ArchivePathMatches(path, prefix) <==> path == prefix || prefix + "/" <= path
  {
    if prefix + "/" <= path { assert path[..|prefix|] == (prefix + "/")[..|prefix|] == prefix; }
    if prefix < path && path[|prefix|] == '/' { assert path[..|prefix| + 1] == prefix + "/"; }
  }

  /** No other character compares equal to a character of the text. */
  ghost predicate Unambiguous(fold: char -> char, text: string) {
    forall i, c :: 0 <= i < |text| && fold(c) == fold(text[i]) ==> c == text[i]
  }

  lemma UnambiguousStart(fold: char -> char, text: string, prefix: string)
    requires Unambiguous(fold, prefix)
    ensures StartsWith(fold, text, prefix) <==> prefix <= text
  {
    StartsWithPointwise(fold, text, prefix);
  }

  /** A cached listing can show what the live listing does not, since SQLite's LIKE ignores ASCII case.
      The two agree on every path exactly when no character of the prefix has a variant. */
  lemma CachedListingAgreesIff(fold: char -> char, prefix: string)
    requires ValidArchivePath(prefix)
    ensures (forall path :: CachedListingIncludes(fold, path, prefix) <==> ArchivePathMatches(path, prefix)) <==>
            Unambiguous(fold, prefix + "/")
  {
    hide CachedListingIncludes, StartsWith, ArchivePathMatches;
    var directory := prefix + "/";
    if Unambiguous(fold, directory) {
      forall path ensures CachedListingIncludes(fold, path, prefix) <==> ArchivePathMatches(path, prefix) {
        CachedListingMeaning(fold, path, prefix);
        MatchesByPrefix(path, prefix);
        UnambiguousStart(fold, path, directory);
      }
    } else {
      var i, c :| 0 <= i < |directory| && fold(c) == fold(directory[i]) && c != directory[i];
      var variant := directory[i := c];
      CachedListingMeaning(fold, variant, prefix);
      MatchesByPrefix(variant, prefix);
      StartsWithPointwise(fold, variant, directory);
      assert !(directory <= variant) && |variant| != |prefix|;
    }
  }

  function AsciiLower(c: char): char {
    if 'A' <= c <= 'Z' then c - 'A' + 'a' else c
  }

  predicate IsLetter(c: char) {
    'A' <= c <= 'Z' || 'a' <= c <= 'z'
  }

  function OtherCase(c: char): char
    requires IsLetter(c)
  {
    if c <= 'Z' then c - 'A' + 'a' else c - 'a' + 'A'
  }

  lemma AsciiLowerVariant(c: char)
    ensures (forall d :: AsciiLower(d) == AsciiLower(c) ==> d == c) <==> !IsLetter(c)
  {
    if IsLetter(c) { assert AsciiLower(OtherCase(c)) == AsciiLower(c) && OtherCase(c) != c; }
  }

  /** With SQLite's own fold that means a prefix without ASCII letters. */
  lemma CachedListingFoldsCase(prefix: string)
    requires ValidArchivePath(prefix)
    ensures (forall path :: CachedListingIncludes(AsciiLower, path, prefix) <==> ArchivePathMatches(path, prefix)) <==>
            forall i :: 0 <= i < |prefix| ==> !IsLetter(prefix[i])
  {
    hide CachedListingIncludes, ArchivePathMatches, AsciiLower, IsLetter;
    var directory := prefix + "/";
    CachedListingAgreesIff(AsciiLower, prefix);
    forall i | 0 <= i < |directory|
      ensures (forall d :: AsciiLower(d) == AsciiLower(directory[i]) ==> d == directory[i]) <==> !IsLetter(directory[i])
    {
      AsciiLowerVariant(directory[i]);
    }
    assert !IsLetter(directory[|prefix|]) by { SlashIsNoLetter(); }
    assert forall i :: 0 <= i < |prefix| ==> directory[i] == prefix[i];
    assert Unambiguous(AsciiLower, directory) <==> forall i :: 0 <= i < |directory| ==> !IsLetter(directory[i]);
  }

  lemma SlashIsNoLetter()
    ensures !IsLetter('/')
  {
  }

  /** For example, listing "etc" from the cache also shows "ETC/hosts". */
  lemma CachedListingShowsVariant()
    ensures CachedListingIncludes(AsciiLower, "ETC/hosts", "etc") && !ArchivePathMatches("ETC/hosts", "etc")
  {
    var text, prefix := "ETC/hosts", "etc/";
    assert AsciiLower('E') == 'e' && AsciiLower('T') == 't' && AsciiLower('C') == 'c';
    assert text[0] == 'E' && text[1] == 'T' && text[2] == 'C' && text[3] == '/';
    assert prefix[0] == 'e' && prefix[1] == 't' && prefix[2] == 'c' && prefix[3] == '/';
    StartsWithPointwise(AsciiLower, text, prefix);
    EscapedPrefixPattern(AsciiLower, "etc", text);
    assert "etc" + "/" == prefix;
    assert "etc"[2] == 'c';
  }
}
