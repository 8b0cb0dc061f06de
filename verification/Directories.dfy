/** The loader on whole directories: the listing order is irrelevant, and printed names load. */
module Directories {
  import opened Common
  import opened FileNames
  import opened Positions
  import opened MigrationSpec
  import opened Loader

  lemma SelectOfPermutation(entries: seq<Entry>, entries': seq<Entry>, up: bool)
    requires multiset(entries) == multiset(entries')
    ensures multiset(Select(entries, up)) == multiset(Select(entries', up))
  {
    SelectSelects(entries, up);
    SelectSelects(entries', up);
    var a, b := multiset(Select(entries, up)), multiset(Select(entries', up));
    forall f ensures a[f] == b[f] {
      assert Selects(Select(entries, up), entries, up);
      assert Selects(Select(entries', up), entries', up);
    }
  }

  lemma PermutedFiles(files: seq<Migration>, files': seq<Migration>, read: Reader)
    requires multiset(files) == multiset(files')
    ensures |files| == |files'|
    ensures forall f :: f in files <==> f in files'
    ensures multiset(PositionsOf(files)) == multiset(PositionsOf(files'))
    ensures OneToN(PositionsOf(files)) <==> OneToN(PositionsOf(files'))
    ensures AllReadable(files, read) <==> AllReadable(files', read)
  {
    assert |multiset(files)| == |files| && |multiset(files')| == |files'|;
    SameMembers(files, files');
    KeysOfPermutation(files, files', PositionOf);
  }

  lemma ReportOfPermutation(number: nat, number': nat, files: seq<Migration>, files': seq<Migration>)
    requires multiset(files) == multiset(files')
    requires Reported(number, files) && Reported(number', files')
    ensures number == number'
  {
    var s :| Arranges(s, PositionsOf(files)) && number == FirstMismatch(s, 0) + 1;
    var s' :| Arranges(s', PositionsOf(files')) && number' == FirstMismatch(s', 0) + 1;
    KeysOfPermutation(files, files', PositionOf);
    SortedIsUnique(s, s');
  }

  lemma OneFilePerPosition(files: seq<Migration>, f: Migration, g: Migration)
    requires OneToN(PositionsOf(files)) && f in files && g in files && f.pos == g.pos
    ensures f == g
  {
    var ps := PositionsOf(files);
    var i :| 0 <= i < |files| && files[i] == f;
    var j :| 0 <= j < |files| && files[j] == g;
    CountedTwice(ps, f.pos);
    assert ps[i] == f.pos && ps[j] == f.pos;
    assert multiset(ps)[f.pos] <= 1;
  }

  lemma FileAtPosition(files: seq<Migration>, pos: nat) returns (f: Migration)
    requires OneToN(PositionsOf(files)) && 1 <= pos <= |files|
    ensures f in files && f.pos == pos
  {
    var ps := PositionsOf(files);
    CountedTwice(ps, pos);
    var i :| 0 <= i < |ps| && ps[i] == pos;
    f := files[i];
  }

  lemma ContentsOfPermutation(a: seq<string>, b: seq<string>, files: seq<Migration>, files': seq<Migration>, read: Reader)
    requires multiset(files) == multiset(files') && OneToN(PositionsOf(files))
    requires HoldsContents(a, files, read) && HoldsContents(b, files', read)
    ensures a == b
  {
    PermutedFiles(files, files', read);
    forall i | 0 <= i < |a|
      ensures a[i] == b[i]
    {
      var f := FileAtPosition(files, i + 1);
    }
  }

  lemma FirstUnreadableIsUnique(f: Migration, g: Migration, ups: seq<Migration>, downs: seq<Migration>,
                                ups': seq<Migration>, downs': seq<Migration>, read: Reader)
    requires multiset(ups) == multiset(ups') && multiset(downs) == multiset(downs')
    requires Complete(ups, downs) && AllUp(ups, true) && AllUp(downs, false)
    requires FirstUnreadable(f, ups + downs, read) && FirstUnreadable(g, ups' + downs', read)
    ensures f == g
  {
    SameMembers(ups, ups');
    SameMembers(downs, downs');
    assert g in ups + downs && f in ups' + downs';
    assert Turn(f) == Turn(g);
    assert f.pos == g.pos && f.up == g.up;
    if f.up {
      OneFilePerPosition(ups, f, g);
    } else {
      OneFilePerPosition(downs, f, g);
    }
  }

  /** The contract of the loader leaves nothing open, not even the order of the files. */
  lemma LoadsIsDeterministic(ups: seq<Migration>, downs: seq<Migration>, ups': seq<Migration>, downs': seq<Migration>,
                             read: Reader, r: Result<Migrations, LoadError>, r': Result<Migrations, LoadError>)
    requires multiset(ups) == multiset(ups') && multiset(downs) == multiset(downs')
    requires AllUp(ups, true) && AllUp(downs, false)
    requires Loads(ups, downs, read, r) && Loads(ups', downs', read, r')
    ensures r == r'
  {
    PermutedFiles(ups, ups', read);
    PermutedFiles(downs, downs', read);
    match r
    case Ok(m) =>
      ContentsOfPermutation(m.ups, r'.value.ups, ups, ups', read);
      ContentsOfPermutation(m.downs, r'.value.downs, downs, downs', read);
    case Err(CountMismatch) =>
    case Err(UpMissing(number)) =>
      ReportOfPermutation(number, r'.error.number, ups, ups');
    case Err(DownMissing(number)) =>
      ReportOfPermutation(number, r'.error.number, downs, downs');
    case Err(Unreadable(name)) =>
      var f :| FirstUnreadable(f, ups + downs, read) && f.name == name;
      var g :| FirstUnreadable(g, ups' + downs', read) && g.name == r'.error.name;
      FirstUnreadableIsUnique(f, g, ups, downs, ups', downs', read);
  }

  /** What `NewMigrationsFromFS` promises of a listing. */
  ghost predicate LoadsListing(entries: seq<Entry>, read: Reader, r: Result<Migrations, LoadError>) {
    Loads(Select(entries, true), Select(entries, false), read, r)
  }

  /** Two listings of one directory give the same scripts, or the same error. */
  lemma ListingOrderIsIrrelevant(entries: seq<Entry>, entries': seq<Entry>, read: Reader,
                                 r: Result<Migrations, LoadError>, r': Result<Migrations, LoadError>)
    requires multiset(entries) == multiset(entries')
    requires LoadsListing(entries, read, r) && LoadsListing(entries', read, r')
    ensures r == r'
  {
    SelectOfPermutation(entries, entries', true);
    SelectOfPermutation(entries, entries', false);
    LoadsIsDeterministic(Select(entries, true), Select(entries, false),
                         Select(entries', true), Select(entries', false), read, r, r');
  }

  /** A migration file as its author wrote it; its position is its place in a list. */
  datatype Authored = Authored(padding: nat, title: string, content: string)

  function AuthoredName(file: Authored, pos: nat, up: bool): string {
    Zeros(file.padding) + Decimal(pos) + "_" + file.title + (if up then ".up.sql" else ".down.sql")
  }

  function Contents(files: seq<Authored>): (scripts: seq<string>)
    ensures |scripts| == |files| && forall i :: 0 <= i < |files| ==> scripts[i] == files[i].content
  {
    seq(|files|, i requires 0 <= i < |files| => files[i].content)
  }

  function Listed(files: seq<Authored>, up: bool): (entries: seq<Entry>)
    ensures |entries| == |files|
    ensures forall i :: 0 <= i < |files| ==> entries[i] == Entry(AuthoredName(files[i], i + 1, up), false)
  {
    seq(|files|, i requires 0 <= i < |files| => Entry(AuthoredName(files[i], i + 1, up), false))
  }

  ghost predicate OneLineTitles(files: seq<Authored>) {
    forall i :: 0 <= i < |files| ==> '\n' !in files[i].title
  }

  ghost predicate Stored(files: seq<Authored>, up: bool, read: Reader) {
    forall i :: 0 <= i < |files| ==> read(AuthoredName(files[i], i + 1, up)) == Some(files[i].content)
  }

  /** Sub-directories and files with other names. */
  ghost predicate Unrelated(entries: seq<Entry>) {
    forall e :: e in entries ==> e.isDir || ParseMigration(e.name).None?
  }

  lemma {:induction false} SelectAppends(a: seq<Entry>, b: seq<Entry>, up: bool)
    ensures Select(a + b, up) == Select(a, up) + Select(b, up)
    decreases |b|
  {
    if b == [] {
      assert a + b == a;
    } else {
      assert (a + b)[..|a + b| - 1] == a + b[..|b| - 1];
      SelectAppends(a, b[..|b| - 1], up);
    }
  }

  lemma {:induction false} SelectUnrelated(entries: seq<Entry>, up: bool)
    requires Unrelated(entries)
    ensures Select(entries, up) == []
  {
    if entries != [] {
      SelectUnrelated(entries[..|entries| - 1], up);
      assert entries[|entries| - 1] in entries;
    }
  }

  /** The entries are files whose names parse as the given migrations. */
  ghost predicate NamesOf(entries: seq<Entry>, migrations: seq<Migration>) {
    && |entries| == |migrations|
    && forall i :: 0 <= i < |entries| ==> !entries[i].isDir && ParseMigration(entries[i].name) == Some(migrations[i])
  }

  lemma SelectLast(entries: seq<Entry>, migration: Migration, up: bool)
    requires entries != [] && !entries[|entries| - 1].isDir
    requires ParseMigration(entries[|entries| - 1].name) == Some(migration)
    ensures Select(entries, up) == Select(entries[..|entries| - 1], up) + if migration.up == up then [migration] else []
  {
  }

  lemma {:induction false} SelectNames(entries: seq<Entry>, migrations: seq<Migration>, up: bool)
    requires NamesOf(entries, migrations) && AllUp(migrations, up)
    ensures Select(entries, up) == migrations && Select(entries, !up) == []
  {
    if entries != [] {
      var n := |entries| - 1;
      assert migrations[n] in migrations;
      SelectNames(entries[..n], migrations[..n], up);
      SelectLast(entries, migrations[n], up);
      SelectLast(entries, migrations[n], !up);
    }
  }

  function AsMigrations(files: seq<Authored>, up: bool): (migrations: seq<Migration>)
    requires |files| < TWO64
    ensures |migrations| == |files|
    ensures forall i :: 0 <= i < |files| ==> migrations[i] == Migration(i + 1, up, AuthoredName(files[i], i + 1, up))
  {
    seq(|files|, i requires 0 <= i < |files| => Migration(i + 1, up, AuthoredName(files[i], i + 1, up)))
  }

  /** Of the printed names of one direction, that direction selects each at its position. */
  lemma SelectListed(files: seq<Authored>, up: bool)
    requires OneLineTitles(files) && |files| < TWO64
    ensures Select(Listed(files, up), up) == AsMigrations(files, up) && Select(Listed(files, up), !up) == []
  {
    forall i | 0 <= i < |files|
      ensures ParseMigration(Listed(files, up)[i].name) == Some(AsMigrations(files, up)[i])
    {
      FileNameRoundTrip(files[i].padding, i + 1, files[i].title, up);
    }
    SelectNames(Listed(files, up), AsMigrations(files, up), up);
  }

  lemma AtTheirPlaces(files: seq<Migration>, scripts: seq<string>, read: Reader)
    requires |scripts| == |files| && forall i :: 0 <= i < |files| ==> files[i].pos == i + 1
    requires forall i :: 0 <= i < |files| ==> read(files[i].name) == Some(scripts[i])
    ensures OneToN(PositionsOf(files)) && AllReadable(files, read) && HoldsContents(scripts, files, read)
  {
    assert PositionsOf(files) == Upto(|files|);
    UptoIsOneToN(|files|);
    SortedContents(files, files, scripts, read);
  }

  /** Of a directory listed ups first, downs second and the rest last, exactly its migrations are selected. */
  lemma SelectDirectory(ups: seq<Authored>, downs: seq<Authored>, others: seq<Entry>, up: bool)
    requires OneLineTitles(ups) && OneLineTitles(downs) && Unrelated(others)
    requires |ups| < TWO64 && |downs| < TWO64
    ensures Select(Listed(ups, true) + Listed(downs, false) + others, up)
            == AsMigrations(if up then ups else downs, up)
  {
    SelectAppends(Listed(ups, true) + Listed(downs, false), others, up);
    SelectAppends(Listed(ups, true), Listed(downs, false), up);
    SelectUnrelated(others, up);
    SelectListed(ups, true);
    SelectListed(downs, false);
  }

  /**
   A directory that holds, under printed names, n ups and n downs with any zero padding and
   any titles on one line, listed in any order and mixed with sub-directories and files of
   other names, loads exactly their contents in order.
   */
  lemma PrintedDirectoryLoads(ups: seq<Authored>, downs: seq<Authored>, others: seq<Entry>, entries: seq<Entry>,
                              read: Reader, r: Result<Migrations, LoadError>)
    requires |ups| == |downs| < TWO64 && OneLineTitles(ups) && OneLineTitles(downs)
    requires Stored(ups, true, read) && Stored(downs, false, read) && Unrelated(others)
    requires multiset(entries) == multiset(Listed(ups, true) + Listed(downs, false) + others)
    requires LoadsListing(entries, read, r)
    ensures r == Ok(Migrations(Contents(ups), Contents(downs)))
  {
    var canonical := Listed(ups, true) + Listed(downs, false) + others;
    SelectDirectory(ups, downs, others, true);
    SelectDirectory(ups, downs, others, false);
    AtTheirPlaces(AsMigrations(ups, true), Contents(ups), read);
    AtTheirPlaces(AsMigrations(downs, false), Contents(downs), read);
    var expected := Ok(Migrations(Contents(ups), Contents(downs)));
    assert LoadsListing(canonical, read, expected);
    ListingOrderIsIrrelevant(entries, canonical, read, r, expected);
  }
}
