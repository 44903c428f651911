/** Archive paths as Borg lists them: relative strings with '/' between components. */
module Paths {

  type Path = seq<string>

  /** What one more leading character does to the components of a string. */
  function Prepend(c: char, parts: seq<string>): seq<string>
    requires parts != []
  {
    if c == '/' then [""] + parts else [[c] + parts[0]] + parts[1..]
  }

  function Split(s: string): (parts: seq<string>)
    ensures |parts| > 0
  {
    if s == "" then [""] else Prepend(s[0], Split(s[1..]))
  }

  function Join(parts: seq<string>): string {
    if parts == [] then ""
    else if |parts| == 1 then parts[0]
    else parts[0] + "/" + Join(parts[1..])
  }

  predicate IsControl(c: char) {
    c < ' ' || '\U{7f}' <= c <= '\U{9f}'
  }

  predicate HasControl(s: string) {
    exists i :: 0 <= i < |s| && IsControl(s[i])
  }

  /** One component of a normalized path, as a directory entry name. */
  predicate ValidName(name: string) {
    name != "" && name != "." && name != ".." && '/' !in name
  }

  predicate NormalComponents(path: Path) {
    forall i :: 0 <= i < |path| ==> ValidName(path[i])
  }

  predicate ValidArchivePath(path: string) {
    && path != ""
    && path[0] != '/'
    && (forall i :: 0 <= i < |path| ==> !IsControl(path[i]))
    && (forall i :: 0 <= i < |Split(path)| ==>
          var part := Split(path)[i]; part != "" && part != "." && part != "..")
  }

  predicate Overlap(a: Path, b: Path) {
    a <= b || b <= a
  }

  predicate ArchivePathMatches(candidate: string, selected: string) {
    || candidate == selected
    || (selected <= candidate && |selected| < |candidate| && candidate[|selected|] == '/')
  }

  predicate ProperAncestor(ancestor: string, path: string) {
    ancestor != path && ArchivePathMatches(path, ancestor)
  }

  // ---------------------------------------------------------------------------------------
  // Strings and components
  // ---------------------------------------------------------------------------------------

  lemma {:induction false} SplitNoSlash(s: string)
    ensures forall part :: part in Split(s) ==> '/' !in part
    ensures '/' !in s ==> Split(s) == [s]
  {
    if s != "" {
      SplitNoSlash(s[1..]);
      var rest := Split(s[1..]);
      assert rest[0] in rest;
      assert s == [s[0]] + s[1..];
      forall part | part in Split(s) ensures '/' !in part {
        if s[0] != '/' && part == [s[0]] + rest[0] {
        } else if part != "" {
          assert part in rest;
        }
      }
    }
  }

  lemma {:induction false} JoinSplit(s: string)
    ensures Join(Split(s)) == s
  {
    if s != "" {
      JoinSplit(s[1..]);
      var rest := Split(s[1..]);
      assert s == [s[0]] + s[1..];
      if s[0] == '/' {
        assert ([""] + rest)[1..] == rest;
      } else {
        assert ([[s[0]] + rest[0]] + rest[1..])[1..] == rest[1..];
      }
    }
  }

  lemma PrependConcat(c: char, a: seq<string>, b: seq<string>)
    requires a != []
    ensures Prepend(c, a + b) == Prepend(c, a) + b
  {
    assert (a + b)[0] == a[0] && (a + b)[1..] == a[1..] + b;
  }

  lemma {:induction false} SplitConcat(a: string, b: string)
    ensures Split(a + "/" + b) == Split(a) + Split(b)
  {
    var s := a + "/" + b;
    if a == "" {
      assert s[0] == '/' && s[1..] == b;
    } else {
      assert s[0] == a[0] && s[1..] == a[1..] + "/" + b;
      SplitConcat(a[1..], b);
      PrependConcat(a[0], Split(a[1..]), Split(b));
    }
  }

  lemma {:induction false} SplitJoin(parts: Path)
    requires parts != []
    requires forall i :: 0 <= i < |parts| ==> '/' !in parts[i]
    ensures Split(Join(parts)) == parts
  {
    SplitNoSlash(parts[0]);
    if |parts| > 1 {
      SplitJoin(parts[1..]);
      SplitConcat(parts[0], Join(parts[1..]));
      assert parts == [parts[0]] + parts[1..];
    } else {
      assert parts == [parts[0]];
    }
  }

  lemma {:induction false} JoinConcat(a: Path, b: Path)
    requires a != [] && b != []
    ensures Join(a + b) == Join(a) + "/" + Join(b)
  {
    if |a| == 1 {
      assert (a + b)[1..] == b;
    } else {
      JoinConcat(a[1..], b);
      assert (a + b)[1..] == a[1..] + b;
      assert a[0] + "/" + (Join(a[1..]) + "/" + Join(b)) == (a[0] + "/" + Join(a[1..])) + "/" + Join(b);
    }
  }

  /** The textual test used throughout the restore code is exactly the component-prefix order. */
  lemma MatchesIsComponentPrefix(candidate: string, selected: string)
    ensures ArchivePathMatches(candidate, selected) <==> Split(selected) <= Split(candidate)
  {
    if ArchivePathMatches(candidate, selected) && candidate != selected {
      var rest := candidate[|selected| + 1..];
      assert candidate == selected + "/" + rest;
      SplitConcat(selected, rest);
    }
    if Split(selected) <= Split(candidate) {
      var rest := Split(candidate)[|Split(selected)|..];
      assert Split(candidate) == Split(selected) + rest;
      JoinSplit(candidate);
      JoinSplit(selected);
      if rest == [] {
        assert Split(candidate) == Split(selected);
      } else {
        JoinConcat(Split(selected), rest);
      }
    }
  }

  lemma ControlIs(c: char)
    ensures IsControl(c) <==> !(32 <= c as int <= 126 || 160 <= c as int)
  {
  }

  /** An archive path is valid exactly if all its components are proper names and it has no control
      character, which are the code points up to 31 and from 127 to 159. */
  lemma ValidArchivePathIff(path: string)
    ensures ValidArchivePath(path) <==>
            && NormalComponents(Split(path))
            && forall i :: 0 <= i < |path| ==> 32 <= path[i] as int <= 126 || 160 <= path[i] as int
  {
    hide IsControl;
    var parts := Split(path);
    SplitNoSlash(path);
    forall i | 0 <= i < |path| ensures IsControl(path[i]) <==> !(32 <= path[i] as int <= 126 || 160 <= path[i] as int) {
      ControlIs(path[i]);
    }
    forall i | 0 <= i < |parts|
      ensures ValidName(parts[i]) <==> parts[i] != "" && parts[i] != "." && parts[i] != ".."
    {
      assert parts[i] in parts;
    }
    assert (path == "" || path[0] == '/') ==> !ValidName(parts[0]);
  }

  lemma ValidComponents(path: string)
    requires ValidArchivePath(path)
    ensures NormalComponents(Split(path)) && Join(Split(path)) == path
  {
    SplitNoSlash(path);
    JoinSplit(path);
    forall i | 0 <= i < |Split(path)| ensures ValidName(Split(path)[i]) {
      assert Split(path)[i] in Split(path);
    }
  }

  lemma JoinInjective(a: Path, b: Path)
    requires a != [] && b != [] && NormalComponents(a) && NormalComponents(b)
    requires Join(a) == Join(b)
    ensures a == b
  {
    SplitJoin(a);
    SplitJoin(b);
  }

  /** Two prefixes of one path are comparable. */
  lemma PrefixesComparable<T>(a: seq<T>, b: seq<T>, c: seq<T>)
    requires a <= c && b <= c
    ensures a <= b || b <= a
  {
    if |a| <= |b| {
      assert a == c[..|a|] && b == c[..|b|];
      assert a == b[..|a|];
    } else {
      assert a == c[..|a|] && b == c[..|b|];
      assert b == a[..|b|];
    }
  }

  lemma MatchesTransitive(a: string, b: string, c: string)
    requires ArchivePathMatches(a, b) && ArchivePathMatches(b, c)
    ensures ArchivePathMatches(a, c)
  {
  }

  lemma MatchesAntisymmetric(a: string, b: string)
    requires ArchivePathMatches(a, b) && ArchivePathMatches(b, a)
    ensures a == b
  {
  }

  lemma MatchesComparable(path: string, a: string, b: string)
    requires ArchivePathMatches(path, a) && ArchivePathMatches(path, b)
    ensures ArchivePathMatches(a, b) || ArchivePathMatches(b, a)
  {
    if |a| <= |b| {
      assert a == path[..|a|] && b == path[..|b|];
      assert a == b[..|a|];
    } else {
      assert a == path[..|a|] && b == path[..|b|];
      assert b == a[..|b|];
    }
  }

  // ---------------------------------------------------------------------------------------
  // Parents
  // ---------------------------------------------------------------------------------------

  /** Everything before the last '/', or "" when there is none. */
  function Parent(path: string): (parent: string)
    ensures |parent| <= |path|
    ensures path != "" ==> |parent| < |path|
  {
    if path == "" then ""
    else if path[|path| - 1] == '/' then path[..|path| - 1]
    else
      var front := path[..|path| - 1];
      Parent(front)
  }

  lemma {:induction false} ParentSplits(path: string)
    ensures '/' !in path ==> Parent(path) == ""
    ensures '/' in path ==>
              && Parent(path) < path
              && path[|Parent(path)|] == '/'
              && '/' !in path[|Parent(path)| + 1..]
    decreases |path|
  {
    if path != "" {
      var front := path[..|path| - 1];
      assert path == front + [path[|path| - 1]];
      ParentSplits(front);
      if '/' in front && path[|path| - 1] != '/' {
        var parent := Parent(path);
        assert path[|parent| + 1..] == front[|parent| + 1..] + [path[|path| - 1]];
      }
    }
  }

  function AtAndAbove(path: string): set<string>
    decreases |path|
  {
    if path == "" then {} else {path} + AtAndAbove(Parent(path))
  }

  /** The directories above a path, from its parent upwards. */
  function Ancestors(path: string): set<string> {
    AtAndAbove(Parent(path))
  }

  /** For a relative path these are exactly its proper ancestors in the component order. */
  lemma {:induction false} AncestorsAreProper(path: string, a: string)
    requires path == "" || path[0] != '/'
    ensures a in Ancestors(path) <==> ProperAncestor(a, path)
    decreases |path|
  {
    var parent := Parent(path);
    ParentSplits(path);
    if '/' in path {
      assert parent != "" && parent == path[..|parent|];
      AncestorsAreProper(parent, a);
      var name := path[|parent| + 1..];
      assert forall k :: |parent| < k < |path| ==> path[k] == name[k - |parent| - 1];
      if ProperAncestor(a, path) {
        assert a == path[..|a|] && path[|a|] == '/';
        assert |a| <= |parent|;
      }
    }
  }

  lemma ParentValid(path: string)
    requires ValidArchivePath(path) && Parent(path) != ""
    ensures ValidArchivePath(Parent(path))
  {
    var parent := Parent(path);
    ParentSplits(path);
    assert '/' in path;
    var name := path[|parent| + 1..];
    assert path == parent + "/" + name;
    SplitConcat(parent, name);
    SplitNoSlash(name);
    assert Split(path) == Split(parent) + [name];
    forall i | 0 <= i < |parent| ensures !IsControl(parent[i]) { assert parent[i] == path[i]; }
    forall i | 0 <= i < |Split(parent)|
      ensures var part := Split(parent)[i]; part != "" && part != "." && part != ".."
    {
      assert Split(parent)[i] == Split(path)[i];
    }
  }

  lemma {:induction false} AncestorValid(ancestor: string, path: string)
    requires ValidArchivePath(path) && ProperAncestor(ancestor, path)
    ensures ValidArchivePath(ancestor)
    decreases |path|
  {
    AncestorsAreProper(path, ancestor);
    assert Parent(path) != "";
    ParentValid(path);
    AncestorsAreProper(Parent(path), ancestor);
    if ancestor != Parent(path) { AncestorValid(ancestor, Parent(path)); }
  }
}
