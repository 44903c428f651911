/** The two search paths of the index against a plain substring scan. */
module Search {
  import opened Ordering
  import opened Selection
  import opened LikePatterns
  import opened IndexTables

  // ---------------------------------------------------------------------------------------
  // Full-text phrases
  // ---------------------------------------------------------------------------------------

  function QuotePhrase(query: string): string {
    "\"" + ReplaceChar(query, '"', "\"\"") + "\""
  }

  /** How the full-text engine reads the inside of a quoted phrase: a doubled quote is one quote, a
      single one ends the phrase. */
  function ReadPhrase(s: string): Option<string> {
    if s == "" then None
    else if s[0] == '"' then
      if |s| == 1 then Some("")
      else if s[1] == '"' then
        var rest := ReadPhrase(s[2..]);
        if rest.Some? then Some("\"" + rest.value) else None
      else None
    else
      var rest := ReadPhrase(s[1..]);
      if rest.Some? then Some([s[0]] + rest.value) else None
  }

  /** Quoting passes every query through unchanged. */
  lemma {:induction false} PhraseRoundTrip(query: string)
    ensures QuotePhrase(query)[0] == '"' && ReadPhrase(QuotePhrase(query)[1..]) == Some(query)
  {
    var body := ReplaceChar(query, '"', "\"\"") + "\"";
    assert QuotePhrase(query)[1..] == body;
    if query == "" {
      assert body == "\"";
    } else {
      PhraseRoundTrip(query[1..]);
      var rest := ReplaceChar(query[1..], '"', "\"\"") + "\"";
      assert QuotePhrase(query[1..])[1..] == rest;
      if query[0] == '"' {
        assert body == "\"\"" + rest && body[2..] == rest;
        assert query == "\"" + query[1..];
      } else {
        assert body == [query[0]] + rest && body[1..] == rest;
        assert query == [query[0]] + query[1..];
      }
    }
  }

  /** A quote that is not doubled ends the phrase, so nothing may follow it. */
  lemma StrayQuote(c: char)
    requires c != '"'
    ensures ReadPhrase(['"', c]) == None && ReadPhrase("\"\"") == None && ReadPhrase([c, '"']) == Some([c])
  {
    assert "\"\""[2..] == "" && [c, '"'][1..] == "\"" && [c] + "" == [c];
    assert ReadPhrase("\"") == Some("") && ReadPhrase("") == None;
  }

  /** A phrase of trigrams hits a row when all of them occur at consecutive positions. */
  predicate PhraseHits(postings: set<(int, int, string)>, fold: char -> char, row: int, query: string) {
    |query| >= 3 &&
    exists first :: first in postings && first.0 == row && PhraseAt(postings, fold, row, first.1, query)
  }

  predicate PhraseAt(postings: set<(int, int, string)>, fold: char -> char, row: int, position: int, query: string) {
    forall k :: 0 <= k <= |query| - 3 ==> PhrasePosting(fold, row, position, query, k) in postings
  }

  function PhrasePosting(fold: char -> char, row: int, position: int, query: string, k: int): (int, int, string)
    requires 0 <= k <= |query| - 3
  {
    (row, position + k, Fold(fold, query[k..k + 3]))
  }

  /** `files_fts MATCH phrase` for one row. */
  predicate MatchesPhrase(postings: set<(int, int, string)>, fold: char -> char, row: int, phrase: string) {
    phrase != "" && phrase[0] == '"' &&
    var query := ReadPhrase(phrase[1..]);
    query.Some? && PhraseHits(postings, fold, row, query.value)
  }

  lemma TrigramMember(fold: char -> char, row: int, path: string, posting: (int, int, string))
    ensures posting in Trigrams(fold, row, path) <==>
            posting.0 == row && 0 <= posting.1 <= |path| - 3 &&
            posting.2 == Fold(fold, path[posting.1..posting.1 + 3])
  {
    if posting.0 == row && 0 <= posting.1 <= |path| - 3 && posting.2 == Fold(fold, path[posting.1..posting.1 + 3]) {
      assert posting == PostingAt(fold, row, path, posting.1);
    }
  }

  lemma WindowsEqual(fold: char -> char, path: string, i: nat, query: string, k: nat)
    requires i + 3 <= |path| && k + 3 <= |query|
    ensures Fold(fold, path[i..i + 3]) == Fold(fold, query[k..k + 3]) <==>
            && fold(path[i]) == fold(query[k])
            && fold(path[i + 1]) == fold(query[k + 1])
            && fold(path[i + 2]) == fold(query[k + 2])
  {
    var a, b := Fold(fold, path[i..i + 3]), Fold(fold, query[k..k + 3]);
    assert a[0] == fold(path[i]) && a[1] == fold(path[i + 1]) && a[2] == fold(path[i + 2]);
    assert b[0] == fold(query[k]) && b[1] == fold(query[k + 1]) && b[2] == fold(query[k + 2]);
  }

  lemma PostingFound(t: Tables, fold: char -> char, row: int, position: int, query: string, k: int)
    requires t.postings == PostingsOf(fold, t.files) && row in t.files && 0 <= k <= |query| - 3
    ensures var path := t.files[row].item.path;
            PhrasePosting(fold, row, position, query, k) in t.postings <==>
            0 <= position + k <= |path| - 3 &&
            Fold(fold, path[position + k..position + k + 3]) == Fold(fold, query[k..k + 3])
  {
    PostingMember(fold, t.files, PhrasePosting(fold, row, position, query, k));
    TrigramMember(fold, row, t.files[row].item.path, PhrasePosting(fold, row, position, query, k));
  }

  lemma PhraseMeansStart(t: Tables, fold: char -> char, row: int, position: int, query: string)
    requires t.postings == PostingsOf(fold, t.files) && row in t.files && |query| >= 3
    requires PhraseAt(t.postings, fold, row, position, query)
    ensures var path := t.files[row].item.path;
            0 <= position <= |path| - |query| && StartsWith(fold, path[position..], query)
  {
    hide PostingsOf, Fold, StartsWith;
    var path := t.files[row].item.path;
    PostingFound(t, fold, row, position, query, 0);
    PostingFound(t, fold, row, position, query, |query| - 3);
    var text := path[position..];
    forall m | 0 <= m < |query| ensures fold(text[m]) == fold(query[m]) {
      var k := if m <= |query| - 3 then m else |query| - 3;
      PostingFound(t, fold, row, position, query, k);
      WindowsEqual(fold, path, position + k, query, k);
      assert m == k || m == k + 1 || m == k + 2;
    }
    StartsWithPointwise(fold, text, query);
  }

  lemma StartMeansPhrase(t: Tables, fold: char -> char, row: int, position: int, query: string)
    requires t.postings == PostingsOf(fold, t.files) && row in t.files && |query| >= 3
    requires var path := t.files[row].item.path;
             0 <= position <= |path| - |query| && StartsWith(fold, path[position..], query)
    ensures PhraseAt(t.postings, fold, row, position, query)
  {
    hide PostingsOf, Fold, StartsWith;
    var path := t.files[row].item.path;
    var text := path[position..];
    StartsWithPointwise(fold, text, query);
    forall k | 0 <= k <= |query| - 3 ensures PhrasePosting(fold, row, position, query, k) in t.postings {
      assert fold(text[k]) == fold(query[k]) && fold(text[k + 1]) == fold(query[k + 1]) &&
             fold(text[k + 2]) == fold(query[k + 2]);
      WindowsEqual(fold, path, position + k, query, k);
      PostingFound(t, fold, row, position, query, k);
    }
  }

  /** Trigram search equals a substring scan, for every query of at least three characters. */
  lemma PhraseSearchIsSubstringScan(t: Tables, fold: char -> char, row: int, query: string)
    requires t.postings == PostingsOf(fold, t.files) && row in t.files && |query| >= 3
    ensures PhraseHits(t.postings, fold, row, query) <==> Contains(fold, t.files[row].item.path, query)
  {
    var path := t.files[row].item.path;
    if PhraseHits(t.postings, fold, row, query) {
      var first :| first in t.postings && first.0 == row && PhraseAt(t.postings, fold, row, first.1, query);
      PhraseMeansStart(t, fold, row, first.1, query);
    }
    if Contains(fold, path, query) {
      var i :| 0 <= i <= |path| - |query| && StartsWith(fold, path[i..], query);
      StartMeansPhrase(t, fold, row, i, query);
      var first := PhrasePosting(fold, row, i, query, 0);
      assert first in t.postings && first.0 == row && first.1 == i;
    }
  }

  // ---------------------------------------------------------------------------------------
  // Searching
  // ---------------------------------------------------------------------------------------

  const RESULT_LIMIT := 1000

  /** The columns that order the result: newest archive first, then path; the row breaks ties. */
  datatype Hit = Hit(start: int, path: string, row: int)

  predicate HitLe(a: Hit, b: Hit) {
    if a.start != b.start then a.start > b.start
    else if a.path != b.path then StringLe(a.path, b.path)
    else a.row <= b.row
  }

  /** By the two columns that the query names, `a` need not come after `b`. */
  ghost predicate NotAfter(a: Hit, b: Hit) {
    a.start > b.start || (a.start == b.start && (a.path == b.path || StringLe(a.path, b.path)))
  }

  const HitOrder: (Hit, Hit) -> bool := (a: Hit, b: Hit) => HitLe(a, b)

  lemma HitsOrdered()
    ensures TotalOrder(HitOrder)
  {
    StringOrder();
  }

  function HitOf(t: Tables, row: int): Hit
    requires row in t.files && t.files[row].archive in t.archives
  {
    Hit(t.archives[t.files[row].archive].start, t.files[row].item.path, row)
  }

  predicate InSnapshot(t: Tables, row: int, snapshot: Option<string>)
    requires row in t.files && t.files[row].archive in t.archives
  {
    snapshot.None? || t.archives[t.files[row].archive].name == snapshot.value
  }

  /** The simple specification: scan every stored path of the snapshot, or of all if none is given. */
  ghost predicate ScanAccepts(t: Tables, likeFold: char -> char, textFold: char -> char, query: string,
                              snapshot: Option<string>, row: int)
    requires row in t.files && t.files[row].archive in t.archives
  {
    && Contains(if |query| >= 3 then textFold else likeFold, t.files[row].item.path, query)
    && (snapshot.Some? ==> snapshot.value == t.archives[t.files[row].archive].name)
  }

  ghost predicate Linked(t: Tables) {
    forall row :: row in t.files ==> t.files[row].archive in t.archives
  }

  /** The first rows in order, out of all rows of the snapshot that contain the query: filtering comes
      before the cut. */
  method SearchInSnapshot(t: Tables, likeFold: char -> char, textFold: char -> char, query: string,
                          snapshot: Option<string>)
      returns (r: seq<Hit>)
    requires Consistent(t, textFold)
    ensures forall h :: h in r ==>
              h.row in t.files && h == HitOf(t, h.row) && ScanAccepts(t, likeFold, textFold, query, snapshot, h.row)
    ensures StrictlySorted(r, HitOrder) && |r| <= 1000
    ensures forall i, j :: 0 <= i < j < |r| ==> NotAfter(r[i], r[j])
    ensures forall row :: row in t.files && ScanAccepts(t, likeFold, textFold, query, snapshot, row) ==>
              HitOf(t, row) in r ||
              (|r| == 1000 && forall h :: h in r ==> NotAfter(h, HitOf(t, row)))
  {
    assert Linked(t) by { ConsistentLinks(t, textFold); }
    hide Consistent, Contains, Like, PhraseHits, ReadPhrase;
    var rows;
    if |query| >= 3 {
      var phrase := QuotePhrase(query);
      PhraseRoundTrip(query);
      rows := set row | row in t.files && MatchesPhrase(t.postings, textFold, row, phrase) &&
                        InSnapshot(t, row, snapshot);
    } else {
      var pattern := "%" + EscapeLike(query) + "%";
      rows := set row | row in t.files && Like(likeFold, pattern, t.files[row].item.path) &&
                        InSnapshot(t, row, snapshot);
    }
    forall row | row in t.files ensures row in rows <==> ScanAccepts(t, likeFold, textFold, query, snapshot, row) {
      if |query| >= 3 {
        ConsistentLinks(t, textFold);
        PhraseSearchIsSubstringScan(t, textFold, row, query);
      } else {
        EscapedContainsPattern(likeFold, query, t.files[row].item.path);
      }
    }
    r := FirstHits(t, rows);
    forall i, j | 0 <= i < j < |r| ensures NotAfter(r[i], r[j]) { assert HitOrder(r[i], r[j]); }
  }

  lemma ConsistentLinks(t: Tables, fold: char -> char)
    requires Consistent(t, fold)
    ensures Linked(t) && t.postings == PostingsOf(fold, t.files)
  {
  }

  /** `ORDER BY a.start DESC, f.path LIMIT 1000`. */
  method FirstHits(t: Tables, rows: set<int>) returns (r: seq<Hit>)
    requires Linked(t) && rows <= t.files.Keys
    ensures forall h :: h in r ==> h.row in rows && h == HitOf(t, h.row)
    ensures StrictlySorted(r, HitOrder)
    ensures |r| <= 1000
    ensures forall row :: row in rows ==>
              HitOf(t, row) in r ||
              (|r| == 1000 && forall h :: h in r ==> NotAfter(h, HitOf(t, row)))
  {
    var hits: seq<Hit> := [];
    var rest := rows;
    while rest != {}
      invariant rest <= rows
      invariant forall h :: h in hits ==> h.row in rows && h == HitOf(t, h.row)
      invariant forall row :: row in rows && row !in rest ==> HitOf(t, row) in hits
      decreases rest
    {
      var row := AnyOf(rest);
      hits := hits + [HitOf(t, row)];
      rest := rest - {row};
    }
    var sorted := SortHits(hits);
    r := if |sorted| <= RESULT_LIMIT then sorted else sorted[..RESULT_LIMIT];
    forall row | row in rows
      ensures HitOf(t, row) in r ||
              (|r| == 1000 && forall h :: h in r ==> NotAfter(h, HitOf(t, row)))
    {
      assert HitOf(t, row) in sorted;
      var k :| 0 <= k < |sorted| && sorted[k] == HitOf(t, row);
      if k < RESULT_LIMIT {
        assert r[k] == HitOf(t, row);
      } else {
        forall h | h in r ensures NotAfter(h, HitOf(t, row)) {
          var i :| 0 <= i < |r| && r[i] == h;
          assert HitOrder(sorted[i], sorted[k]);
        }
      }
    }
  }

  method SortHits(hits: seq<Hit>) returns (r: seq<Hit>)
    ensures StrictlySorted(r, HitOrder)
    ensures forall h :: h in r <==> h in hits
  {
    HitsOrdered();
    var sorted := Sort(hits, HitOrder);
    assert forall h :: h in sorted <==> h in multiset(sorted);
    assert forall h :: h in hits <==> h in multiset(hits);
    r := DedupSorted(sorted, HitOrder);
  }
}
