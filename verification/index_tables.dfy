/** The tables of the index and the search postings that triggers keep beside them. */
module IndexTables {
  import opened Ordering
  import opened Selection
  import opened Planning
  import opened LikePatterns

  const I64_MAX := 0x7FFF_FFFF_FFFF_FFFF

  /** An item as it is stored: sizes beyond the integer range of SQLite saturate. */
  function Stored(item: ArchiveItem): ArchiveItem {
    item.(size := if item.size <= I64_MAX then item.size else I64_MAX)
  }

  datatype ArchiveRow = ArchiveRow(name: string, borgId: string, start: int)

  datatype FileRow = FileRow(archive: int, item: ArchiveItem)

  /** `postings` holds (row, position, folded trigram). */
  datatype Tables = Tables(
    archives: map<int, ArchiveRow>,
    files: map<int, FileRow>,
    postings: set<(int, int, string)>)

  const EmptyTables := Tables(map[], map[], {})

  function PostingAt(fold: char -> char, row: int, path: string, i: int): (int, int, string)
    requires 0 <= i <= |path| - 3
  {
    (row, i, Fold(fold, path[i..i + 3]))
  }

  /** The trigrams of one path, as the full-text table records them for a row. */
  function Trigrams(fold: char -> char, row: int, path: string): set<(int, int, string)> {
    set i | 0 <= i <= |path| - 3 :: PostingAt(fold, row, path, i)
  }

  ghost function PostingsOf(fold: char -> char, files: map<int, FileRow>): set<(int, int, string)> {
    set row, t | row in files && t in Trigrams(fold, row, files[row].item.path) :: t
  }

  // ---------------------------------------------------------------------------------------
  // Statements; `None` is a violated uniqueness constraint
  // ---------------------------------------------------------------------------------------

  predicate NameTaken(t: Tables, name: string) {
    exists id :: id in t.archives && t.archives[id].name == name
  }

  predicate PathTaken(t: Tables, archive: int, path: string) {
    exists row :: row in t.files && t.files[row].archive == archive && t.files[row].item.path == path
  }

  function InsertArchive(t: Tables, id: int, row: ArchiveRow): Option<Tables> {
    if NameTaken(t, row.name) then None
    else Some(t.(archives := t.archives[id := row]))
  }

  /** The insert trigger adds the trigrams of the new row. */
  function InsertItem(t: Tables, fold: char -> char, row: int, archive: int, item: ArchiveItem): Option<Tables> {
    if PathTaken(t, archive, item.path) then None
    else Some(t.(files := t.files[row := FileRow(archive, Stored(item))],
                 postings := t.postings + Trigrams(fold, row, item.path)))
  }

  /** The delete trigger removes the trigrams of the old row. */
  function DeleteFile(t: Tables, fold: char -> char, row: int): Tables
    requires row in t.files
  {
    t.(files := t.files - {row}, postings := t.postings - Trigrams(fold, row, t.files[row].item.path))
  }

  /** The update trigger deletes the old trigrams and inserts the new ones. */
  function UpdateFile(t: Tables, fold: char -> char, row: int, item: ArchiveItem): Tables
    requires row in t.files
  {
    t.(files := t.files[row := FileRow(t.files[row].archive, Stored(item))],
       postings := t.postings - Trigrams(fold, row, t.files[row].item.path) + Trigrams(fold, row, item.path))
  }

  /** `DELETE FROM archives`: the cascade deletes the files one by one, firing the trigger each time. */
  method DeleteArchives(t: Tables, fold: char -> char, doomed: set<int>) returns (r: Tables)
    ensures r.archives == t.archives - doomed
    ensures forall row :: row in r.files <==> row in t.files && t.files[row].archive !in doomed
    ensures forall row :: row in r.files ==> r.files[row] == t.files[row]
    ensures t.postings == PostingsOf(fold, t.files) ==> r.postings == PostingsOf(fold, r.files)
  {
    r := t;
    var rows: set<int> := set row | row in t.files && t.files[row].archive in doomed;
    while rows != {}
      invariant forall row :: row in rows ==> row in t.files && t.files[row].archive in doomed
      invariant r.archives == t.archives
      invariant forall row :: row in r.files <==> row in t.files && (t.files[row].archive !in doomed || row in rows)
      invariant forall row :: row in r.files ==> r.files[row] == t.files[row]
      invariant t.postings == PostingsOf(fold, t.files) ==> r.postings == PostingsOf(fold, r.files)
      decreases rows
    {
      var row := AnyOf(rows);
      DeleteKeepsPostings(r, fold, row);
      r := DeleteFile(r, fold, row);
      rows := rows - {row};
    }
    r := r.(archives := r.archives - doomed);
  }

  // ---------------------------------------------------------------------------------------
  // The triggers keep the postings equal to the trigrams of the stored paths
  // ---------------------------------------------------------------------------------------

  lemma PostingMember(fold: char -> char, files: map<int, FileRow>, posting: (int, int, string))
    ensures posting in PostingsOf(fold, files) <==>
            posting.0 in files && posting in Trigrams(fold, posting.0, files[posting.0].item.path)
  {
    if posting in PostingsOf(fold, files) {
      var row :| row in files && posting in Trigrams(fold, row, files[row].item.path);
      assert row == posting.0;
    }
  }

  lemma InsertKeepsPostings(t: Tables, fold: char -> char, row: int, archive: int, item: ArchiveItem)
    requires t.postings == PostingsOf(fold, t.files) && row !in t.files
    ensures var r := InsertItem(t, fold, row, archive, item);
            r.Some? ==> r.value.postings == PostingsOf(fold, r.value.files)
  {
    var files := t.files[row := FileRow(archive, Stored(item))];
    forall p ensures p in t.postings + Trigrams(fold, row, item.path) <==> p in PostingsOf(fold, files) {
      PostingMember(fold, t.files, p);
      PostingMember(fold, files, p);
    }
  }

  lemma DeleteKeepsPostings(t: Tables, fold: char -> char, row: int)
    requires row in t.files
    ensures t.postings == PostingsOf(fold, t.files) ==>
              DeleteFile(t, fold, row).postings == PostingsOf(fold, DeleteFile(t, fold, row).files)
  {
    if t.postings == PostingsOf(fold, t.files) {
      var r := DeleteFile(t, fold, row);
      forall p ensures p in r.postings <==> p in PostingsOf(fold, r.files) {
        PostingMember(fold, t.files, p);
        PostingMember(fold, r.files, p);
      }
    }
  }

  lemma UpdateKeepsPostings(t: Tables, fold: char -> char, row: int, item: ArchiveItem)
    requires t.postings == PostingsOf(fold, t.files) && row in t.files
    ensures UpdateFile(t, fold, row, item).postings == PostingsOf(fold, UpdateFile(t, fold, row, item).files)
  {
    var r := UpdateFile(t, fold, row, item);
    forall p ensures p in r.postings <==> p in PostingsOf(fold, r.files) {
      PostingMember(fold, t.files, p);
      PostingMember(fold, r.files, p);
    }
  }

  // ---------------------------------------------------------------------------------------
  // What the tables show
  // ---------------------------------------------------------------------------------------

  ghost predicate UniqueNames(t: Tables) {
    forall a, b :: a in t.archives && b in t.archives && t.archives[a].name == t.archives[b].name ==> a == b
  }

  ghost predicate UniquePaths(t: Tables) {
    forall a, b ::
      (a in t.files && b in t.files && t.files[a].archive == t.files[b].archive &&
       t.files[a].item.path == t.files[b].item.path) ==> a == b
  }

  ghost predicate Consistent(t: Tables, fold: char -> char) {
    && UniqueNames(t)
    && UniquePaths(t)
    && (forall row :: row in t.files ==> t.files[row].archive in t.archives)
    && t.postings == PostingsOf(fold, t.files)
  }

  /** One archive as the index shows it. */
  datatype Archived = Archived(borgId: string, start: int, items: set<ArchiveItem>)

  ghost function FilesOf(t: Tables, archive: int): set<ArchiveItem> {
    set row | row in t.files && t.files[row].archive == archive :: t.files[row].item
  }

  /** `view` maps each stored archive name to the archive. */
  ghost predicate Shows(t: Tables, view: map<string, Archived>) {
    && (forall id :: id in t.archives ==>
          var row := t.archives[id];
          row.name in view && view[row.name] == Archived(row.borgId, row.start, FilesOf(t, id)))
    && (forall name :: name in view ==> NameTaken(t, name))
  }

  lemma InsertArchiveShows(t: Tables, fold: char -> char, id: int, row: ArchiveRow, view: map<string, Archived>)
    requires Consistent(t, fold) && Shows(t, view) && id !in t.archives
    ensures InsertArchive(t, id, row).Some? <==> row.name !in view
    ensures row.name !in view ==>
              var r := InsertArchive(t, id, row).value;
              Consistent(r, fold) && Shows(r, view[row.name := Archived(row.borgId, row.start, {})])
  {
    hide PostingsOf;
    if row.name !in view {
      var r := InsertArchive(t, id, row).value;
      var larger := view[row.name := Archived(row.borgId, row.start, {})];
      assert FilesOf(r, id) == {};
      forall other | other in t.archives ensures FilesOf(r, other) == FilesOf(t, other) {}
      forall name | name in larger ensures NameTaken(r, name) {
        if name == row.name {
          assert r.archives[id].name == name;
        } else {
          var k :| k in t.archives && t.archives[k].name == name;
          assert r.archives[k].name == name;
        }
      }
    }
  }

  lemma InsertItemShows(t: Tables, fold: char -> char, row: int, archive: int, item: ArchiveItem,
                        view: map<string, Archived>)
    requires Consistent(t, fold) && Shows(t, view) && row !in t.files && archive in t.archives
    ensures var name := t.archives[archive].name;
            var r := InsertItem(t, fold, row, archive, item);
            r.Some? ==>
              && Consistent(r.value, fold)
              && r.value.archives == t.archives
              && r.value.files.Keys == t.files.Keys + {row}
              && Shows(r.value, view[name := view[name].(items := view[name].items + {Stored(item)})])
  {
    hide PostingsOf;
    var r := InsertItem(t, fold, row, archive, item);
    if r.Some? {
      InsertKeepsPostings(t, fold, row, archive, item);
      var name := t.archives[archive].name;
      var grown := view[name := view[name].(items := view[name].items + {Stored(item)})];
      forall id | id in t.archives
        ensures FilesOf(r.value, id) == if id == archive then FilesOf(t, id) + {Stored(item)} else FilesOf(t, id)
      {
        FilesOfInsert(t, r.value, row, archive, item, id);
      }
      forall n | n in grown ensures NameTaken(r.value, n) {
        assert NameTaken(t, n);
        var k :| k in t.archives && t.archives[k].name == n;
      }
    }
  }

  lemma FilesOfInsert(t: Tables, r: Tables, row: int, archive: int, item: ArchiveItem, id: int)
    requires row !in t.files && r.files == t.files[row := FileRow(archive, Stored(item))]
    ensures FilesOf(r, id) == if id == archive then FilesOf(t, id) + {Stored(item)} else FilesOf(t, id)
  {
    forall x ensures x in FilesOf(r, id) <==> x in FilesOf(t, id) || (id == archive && x == Stored(item)) {
      if x in FilesOf(t, id) {
        var k :| k in t.files && t.files[k].archive == id && t.files[k].item == x;
        assert r.files[k].item == x;
      }
      if id == archive && x == Stored(item) { assert r.files[row].item == x; }
    }
  }

  lemma DeleteArchivesShows(t: Tables, r: Tables, fold: char -> char, doomed: set<int>, view: map<string, Archived>,
                            kept: map<string, Archived>)
    requires Consistent(t, fold) && Shows(t, view)
    requires r.archives == t.archives - doomed
    requires forall row :: row in r.files <==> row in t.files && t.files[row].archive !in doomed
    requires forall row :: row in r.files ==> r.files[row] == t.files[row]
    requires r.postings == PostingsOf(fold, r.files)
    requires forall name :: name in kept <==>
               name in view && exists id :: id in t.archives && id !in doomed && t.archives[id].name == name
    requires forall name :: name in kept ==> kept[name] == view[name]
    ensures Consistent(r, fold) && Shows(r, kept)
  {
    hide PostingsOf;
    forall id | id in r.archives ensures FilesOf(r, id) == FilesOf(t, id) {
      forall x ensures x in FilesOf(r, id) <==> x in FilesOf(t, id) {
        if x in FilesOf(t, id) {
          var k :| k in t.files && t.files[k].archive == id && t.files[k].item == x;
          assert k in r.files;
        }
      }
    }
    forall name | name in kept ensures NameTaken(r, name) {
      var id :| id in t.archives && id !in doomed && t.archives[id].name == name;
      assert r.archives[id].name == name;
    }
  }

  /** A row number above all that are in use. */
  method NextRow(rows: set<int>) returns (row: int)
    ensures row !in rows
    ensures forall r :: r in rows ==> r < row
  {
    row := 1;
    var rest := rows;
    while rest != {}
      invariant rest <= rows
      invariant forall r :: r in rows && r !in rest ==> r < row
      decreases rest
    {
      var r := AnyOf(rest);
      if r >= row { row := r + 1; }
      rest := rest - {r};
    }
  }

  /** `SELECT name, borg_id FROM archives`. */
  function ArchiveIds(t: Tables): map<string, string>
    requires UniqueNames(t)
  {
    map id | id in t.archives :: t.archives[id].name := t.archives[id].borgId
  }

  lemma ArchiveIdsShow(t: Tables, fold: char -> char, view: map<string, Archived>)
    requires Consistent(t, fold) && Shows(t, view)
    ensures ArchiveIds(t).Keys == view.Keys
    ensures forall name :: name in view ==> ArchiveIds(t)[name] == view[name].borgId
  {
    forall name | name in view ensures name in ArchiveIds(t) && ArchiveIds(t)[name] == view[name].borgId {
      assert NameTaken(t, name);
      var id :| id in t.archives && t.archives[id].name == name;
    }
  }
}
