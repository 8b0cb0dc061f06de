/** `NewMigrationsFromFS`: from a directory listing to two lists of scripts. */
module Loader {
  import opened Common
  import opened FileNames
  import opened Positions
  import opened MigrationSpec

  datatype Entry = Entry(name: string, isDir: bool)

  datatype LoadError =
    | Unlistable
    | CountMismatch
    | UpMissing(number: nat)
    | DownMissing(number: nat)
    | Unreadable(name: string)

  type Reader = string -> Option<string>

  /** The migrations of one direction among the entries, in listing order. */
  function Select(entries: seq<Entry>, up: bool): (files: seq<Migration>)
    ensures |files| <= |entries|
    ensures forall f :: f in files ==> f.up == up && f.pos > 0
  {
    if entries == [] then []
    else
      var last := entries[|entries| - 1];
      var before := Select(entries[..|entries| - 1], up);
      var parsed := ParseMigration(last.name);
      if !last.isDir && parsed.Some? && parsed.value.up == up then before + [parsed.value] else before
  }

  /**
   Each entry that is a file and whose name parses in this direction is taken as often as
   it is listed, and nothing else is taken.
   */
  ghost predicate Selects(files: seq<Migration>, entries: seq<Entry>, up: bool) {
    forall f :: multiset(files)[f] ==
                if f.up == up && ParseMigration(f.name) == Some(f) then multiset(entries)[Entry(f.name, false)] else 0
  }

  lemma {:induction false} SelectSelects(entries: seq<Entry>, up: bool)
    ensures Selects(Select(entries, up), entries, up)
  {
    if entries != [] {
      var last, front := entries[|entries| - 1], entries[..|entries| - 1];
      SelectSelects(front, up);
      assert entries == front + [last];
      assert multiset(entries) == multiset(front) + multiset{last};
      var parsed := ParseMigration(last.name);
      if !last.isDir && parsed.Some? && parsed.value.up == up {
        assert multiset(Select(entries, up)) == multiset(Select(front, up)) + multiset{parsed.value};
      }
    }
  }

  function PositionOf(f: Migration): int {
    f.pos
  }

  function PositionsOf(files: seq<Migration>): (ps: seq<int>)
    ensures |ps| == |files|
  {
    Keys(files, PositionOf)
  }

  ghost predicate AllReadable(files: seq<Migration>, read: Reader) {
    forall f :: f in files ==> read(f.name).Some?
  }

  /** What counts as a complete directory, read off the listing alone. */
  ghost predicate Complete(ups: seq<Migration>, downs: seq<Migration>) {
    |ups| == |downs| && OneToN(PositionsOf(ups)) && OneToN(PositionsOf(downs))
  }

  /** The scripts are the contents of the files, each at its own position. */
  ghost predicate HoldsContents(scripts: seq<string>, files: seq<Migration>, read: Reader) {
    && |scripts| == |files|
    && forall f :: f in files ==> 1 <= f.pos <= |scripts| && read(f.name) == Some(scripts[f.pos - 1])
  }

  /** The number in the error message is the one found by scanning the sorted positions. */
  ghost predicate Reported(number: nat, files: seq<Migration>) {
    && !OneToN(PositionsOf(files))
    && exists s :: Arranges(s, PositionsOf(files)) && number == FirstMismatch(s, 0) + 1
  }

  /** Separates the directions; `Selects` says what each of the two lists holds. */
  method Split(entries: seq<Entry>) returns (ups: seq<Migration>, downs: seq<Migration>)
    ensures Selects(ups, entries, true) && Selects(downs, entries, false)
    ensures ups == Select(entries, true) && downs == Select(entries, false)
  {
    ups, downs := [], [];
    for i := 0 to |entries|
      invariant ups == Select(entries[..i], true)
      invariant downs == Select(entries[..i], false)
    {
      assert entries[..i + 1][..i] == entries[..i];
      if !entries[i].isDir {
        match ParseMigration(entries[i].name)
        case None =>
        case Some(migration) =>
          if migration.up {
            ups := ups + [migration];
          } else {
            downs := downs + [migration];
          }
      }
    }
    assert entries[..|entries|] == entries;
    SelectSelects(entries, true);
    SelectSelects(entries, false);
  }

  /** The range loop with the comparison in 64-bit signed arithmetic, which may wrap. */
  method CheckContiguous(files: seq<Migration>) returns (bad: Option<nat>)
    requires |files| < TWO63
    ensures var k := FirstMismatch(PositionsOf(files), 0);
            bad == if k == |files| then None else Some(k + 1)
  {
    ghost var ps := PositionsOf(files);
    for i := 0 to |files|
      invariant FirstMismatch(ps, 0) == FirstMismatch(ps, i)
    {
      if i != Pred(ToSigned(files[i].pos)) {
        return Some(i + 1);
      }
    }
    bad := None;
  }

  /** The first script in reading order that cannot be read: up 1, down 1, up 2, down 2, ... */
  ghost predicate StopsAt(ups: seq<Migration>, downs: seq<Migration>, read: Reader, i: nat, up: bool)
    requires |ups| == |downs|
  {
    && i < |ups|
    && (forall k :: 0 <= k < i ==> read(ups[k].name).Some?)
    && (forall k :: 0 <= k < i ==> read(downs[k].name).Some?)
    && (if up then read(ups[i].name).None? else read(ups[i].name).Some? && read(downs[i].name).None?)
  }

  lemma ReadableByIndex(files: seq<Migration>, read: Reader)
    requires forall k :: 0 <= k < |files| ==> read(files[k].name).Some?
    ensures AllReadable(files, read)
  {
  }

  method ReadScripts(ups: seq<Migration>, downs: seq<Migration>, read: Reader) returns (r: Result<Migrations, LoadError>)
    requires |ups| == |downs|
    ensures r.Ok? <==> AllReadable(ups, read) && AllReadable(downs, read)
    ensures r.Ok? ==> |r.value.ups| == |ups| && forall i :: 0 <= i < |ups| ==> read(ups[i].name) == Some(r.value.ups[i])
    ensures r.Ok? ==> |r.value.downs| == |downs| && forall i :: 0 <= i < |downs| ==> read(downs[i].name) == Some(r.value.downs[i])
    ensures r.Err? ==> exists i: nat, up: bool :: StopsAt(ups, downs, read, i, up) &&
                                                  r.error == Unreadable((if up then ups else downs)[i].name)
  {
    var upScripts := new string[|ups|](_ => "");
    var downScripts := new string[|downs|](_ => "");
    for i := 0 to |ups|
      invariant forall k :: 0 <= k < i ==> read(ups[k].name) == Some(upScripts[k])
      invariant forall k :: 0 <= k < i ==> read(downs[k].name) == Some(downScripts[k])
    {
      var content := read(ups[i].name);
      if content.None? {
        assert StopsAt(ups, downs, read, i, true) && ups[i] in ups;
        return Err(Unreadable(ups[i].name));
      }
      upScripts[i] := content.value;
      content := read(downs[i].name);
      if content.None? {
        assert StopsAt(ups, downs, read, i, false) && downs[i] in downs;
        return Err(Unreadable(downs[i].name));
      }
      downScripts[i] := content.value;
    }
    ReadableByIndex(ups, read);
    ReadableByIndex(downs, read);
    r := Ok(Migrations(upScripts[..], downScripts[..]));
  }

  /** In a contiguous sorted list, every file sits at its position. */
  lemma SortedContents(files: seq<Migration>, sorted: seq<Migration>, scripts: seq<string>, read: Reader)
    requires multiset(sorted) == multiset(files) && |sorted| == |files|
    requires forall i :: 0 <= i < |sorted| ==> sorted[i].pos == i + 1
    requires |scripts| == |sorted| && forall i :: 0 <= i < |sorted| ==> read(sorted[i].name) == Some(scripts[i])
    ensures HoldsContents(scripts, files, read)
  {
    forall f | f in files
      ensures 1 <= f.pos <= |scripts| && read(f.name) == Some(scripts[f.pos - 1])
    {
      assert f in multiset(sorted);
      var i :| 0 <= i < |sorted| && sorted[i] == f;
    }
  }

  lemma SameFiles(files: seq<Migration>, sorted: seq<Migration>, read: Reader)
    requires multiset(sorted) == multiset(files)
    ensures AllReadable(sorted, read) <==> AllReadable(files, read)
  {
    SameMembers(files, sorted);
  }

  /** When a file is read: by ascending position, the up before the down. */
  function Turn(f: Migration): int {
    2 * f.pos + if f.up then 0 else 1
  }

  /** `f` cannot be read, and every file whose turn is earlier can. */
  ghost predicate FirstUnreadable(f: Migration, files: seq<Migration>, read: Reader) {
    && f in files && read(f.name).None?
    && forall g :: g in files && Turn(g) < Turn(f) ==> read(g.name).Some?
  }

  ghost predicate AllUp(files: seq<Migration>, up: bool) {
    forall f :: f in files ==> f.up == up
  }

  lemma SameMembers(files: seq<Migration>, sorted: seq<Migration>)
    requires multiset(sorted) == multiset(files)
    ensures forall f :: f in files <==> f in sorted
  {
    forall f ensures f in files <==> f in sorted {
      assert f in files <==> f in multiset(files);
      assert f in sorted <==> f in multiset(sorted);
    }
  }

  lemma StopIsFirstUnreadable(ups: seq<Migration>, downs: seq<Migration>, sortedUps: seq<Migration>, sortedDowns: seq<Migration>,
                              read: Reader, i: nat, up: bool)
    requires multiset(sortedUps) == multiset(ups) && multiset(sortedDowns) == multiset(downs)
    requires |sortedUps| == |sortedDowns| && AllUp(ups, true) && AllUp(downs, false)
    requires forall k :: 0 <= k < |sortedUps| ==> sortedUps[k].pos == k + 1
    requires forall k :: 0 <= k < |sortedDowns| ==> sortedDowns[k].pos == k + 1
    requires StopsAt(sortedUps, sortedDowns, read, i, up)
    ensures FirstUnreadable((if up then sortedUps else sortedDowns)[i], ups + downs, read)
  {
    SameMembers(ups, sortedUps);
    SameMembers(downs, sortedDowns);
    var f := (if up then sortedUps else sortedDowns)[i];
    forall g | g in ups + downs && Turn(g) < Turn(f)
      ensures read(g.name).Some?
    {
      if g in ups {
        var k :| 0 <= k < |sortedUps| && sortedUps[k] == g;
        assert k < i || (k == i && !up);
      } else {
        var k :| 0 <= k < |sortedDowns| && sortedDowns[k] == g;
        assert k < i;
      }
    }
  }

  /** What loading promises about the files of the two directions, in whatever order they are. */
  ghost predicate Loads(ups: seq<Migration>, downs: seq<Migration>, read: Reader, r: Result<Migrations, LoadError>) {
    && (r.Ok? <==> Complete(ups, downs) && AllReadable(ups, read) && AllReadable(downs, read))
    && match r
       case Ok(m) => |m.ups| == |m.downs| && HoldsContents(m.ups, ups, read) && HoldsContents(m.downs, downs, read)
       case Err(Unlistable) => false
       case Err(CountMismatch) => |ups| != |downs|
       case Err(UpMissing(number)) => |ups| == |downs| && Reported(number, ups)
       case Err(DownMissing(number)) => |ups| == |downs| && OneToN(PositionsOf(ups)) && Reported(number, downs)
       case Err(Unreadable(name)) =>
         Complete(ups, downs) && exists f :: FirstUnreadable(f, ups + downs, read) && f.name == name
  }

  /** The last part of the loader, for files that passed every check. */
  method ReadSorted(ghost ups: seq<Migration>, ghost downs: seq<Migration>,
                    sortedUps: seq<Migration>, sortedDowns: seq<Migration>, read: Reader)
    returns (r: Result<Migrations, LoadError>)
    requires multiset(sortedUps) == multiset(ups) && multiset(sortedDowns) == multiset(downs)
    requires |ups| == |downs| == |sortedUps| == |sortedDowns| && AllUp(ups, true) && AllUp(downs, false)
    requires forall k :: 0 <= k < |sortedUps| ==> sortedUps[k].pos == k + 1
    requires forall k :: 0 <= k < |sortedDowns| ==> sortedDowns[k].pos == k + 1
    requires Complete(ups, downs)
    ensures Loads(ups, downs, read, r)
  {
    r := ReadScripts(sortedUps, sortedDowns, read);
    SameFiles(ups, sortedUps, read);
    SameFiles(downs, sortedDowns, read);
    if r.Err? {
      ghost var i: nat, up: bool :| StopsAt(sortedUps, sortedDowns, read, i, up) &&
                                    r.error == Unreadable((if up then sortedUps else sortedDowns)[i].name);
      StopIsFirstUnreadable(ups, downs, sortedUps, sortedDowns, read, i, up);
    } else {
      SortedContents(ups, sortedUps, r.value.ups, read);
      SortedContents(downs, sortedDowns, r.value.downs, read);
    }
  }

  /** Everything behind the listing. */
  method LoadFiles(ups: seq<Migration>, downs: seq<Migration>, read: Reader) returns (r: Result<Migrations, LoadError>)
    requires |ups| < TWO63 && |downs| < TWO63 && AllUp(ups, true) && AllUp(downs, false)
    ensures Loads(ups, downs, read, r)
  {
    if |ups| != |downs| {
      return Err(CountMismatch);
    }
    var sortedUps := SortByKey(ups, PositionOf);
    var sortedDowns := SortByKey(downs, PositionOf);
    NoMismatchIsOneToN(PositionsOf(sortedUps), PositionsOf(ups));
    NoMismatchIsOneToN(PositionsOf(sortedDowns), PositionsOf(downs));
    var bad := CheckContiguous(sortedUps);
    if bad.Some? {
      return Err(UpMissing(bad.value));
    }
    bad := CheckContiguous(sortedDowns);
    if bad.Some? {
      return Err(DownMissing(bad.value));
    }
    ContiguousPositions(sortedUps);
    ContiguousPositions(sortedDowns);
    r := ReadSorted(ups, downs, sortedUps, sortedDowns, read);
  }

  /**
   Loading succeeds exactly when each direction has the positions 1 to n, each once, and
   every file is readable; the scripts are then the contents of the files at their
   positions. Each failure is reported as what it is.
   */
  method NewMigrationsFromFS(listing: Option<seq<Entry>>, read: Reader) returns (r: Result<Migrations, LoadError>)
    requires listing.Some? ==> |listing.value| < TWO63
    ensures listing.None? ==> r == Err(Unlistable)
    ensures listing.Some? ==> Loads(Select(listing.value, true), Select(listing.value, false), read, r)
    ensures r.Ok? ==> r.value.Valid()
  {
    if listing.None? {
      return Err(Unlistable);
    }
    var ups, downs := Split(listing.value);
    r := LoadFiles(ups, downs, read);
  }

  lemma ContiguousPositions(files: seq<Migration>)
    requires FirstMismatch(PositionsOf(files), 0) == |files|
    ensures forall i :: 0 <= i < |files| ==> files[i].pos == i + 1
  {
    forall i | 0 <= i < |files|
      ensures files[i].pos == i + 1
    {
      assert PositionsOf(files)[i] == i + 1;
    }
  }
}
