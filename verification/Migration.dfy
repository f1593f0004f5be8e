/** Carrying a user's data across the rename of the app
    (backend/core/src/data_migration.rs), with the machine free to stop at any
    step. A copy cut short may leave anything behind; a rename happens or does
    not. */
module Migration {
  import opened Common

  type Path = seq<string>

  /** The regular files there are, and what is in them. */
  type Disk = map<Path, string>

  const LEGACY_IDENTIFIER: string := "dev.kafkaoxide.app"
  const LEGACY_DB_FILE: string := "kafkaoxide.sqlite"
  const DB_FILE: string := "salty.sqlite"
  const SIDECAR_SUFFIXES: seq<string> := ["-wal", "-shm"]

  /** `legacy_dir_for`, on the components of a path. */
  function LegacyDirFor(dir: Path): (r: Option<Path>)
    ensures r.Some? <==> dir != [] && dir[|dir| - 1] != LEGACY_IDENTIFIER
    ensures r.Some? ==> |r.value| == |dir| && r.value != dir && r.value[..|dir| - 1] == dir[..|dir| - 1]
    ensures r.Some? ==> r.value[|dir| - 1] == LEGACY_IDENTIFIER
  {
    if dir == [] || dir[|dir| - 1] == LEGACY_IDENTIFIER then None
    else Some(dir[..|dir| - 1] + [LEGACY_IDENTIFIER])
  }

  function Db(dir: Path): Path { dir + [DB_FILE] }

  function Partial(dir: Path): Path { dir + [DB_FILE + ".partial"] }

  function Sidecar(dir: Path, i: nat): Path
    requires i < |SIDECAR_SUFFIXES|
  {
    dir + [DB_FILE + SIDECAR_SUFFIXES[i]]
  }

  function LegacyDb(legacy: Path): Path { legacy + [LEGACY_DB_FILE] }

  function LegacySidecar(legacy: Path, i: nat): Path
    requires i < |SIDECAR_SUFFIXES|
  {
    legacy + [LEGACY_DB_FILE + SIDECAR_SUFFIXES[i]]
  }

  /** There is old data here, and no database of our own yet. */
  predicate Adoptable(d: Disk, dir: Path) {
    Db(dir) !in d && LegacyDirFor(dir).Some? && LegacyDb(LegacyDirFor(dir).value) in d
  }

  // ----- What adoption should come to

  /** The first `n` sidecars copied, if there are such. */
  function WithSidecars(d: Disk, dir: Path, legacy: Path, n: nat): Disk
    requires n <= |SIDECAR_SUFFIXES|
  {
    if n == 0 then d
    else
      var before := WithSidecars(d, dir, legacy, n - 1);
      if LegacySidecar(legacy, n - 1) in d
      then before[Sidecar(dir, n - 1) := d[LegacySidecar(legacy, n - 1)]] else before
  }

  /** The disk once adoption is over, as a function of the disk before it. */
  function Settled(d: Disk, dir: Path): Disk {
    if Adoptable(d, dir) then
      var legacy := LegacyDirFor(dir).value;
      (WithSidecars(d, dir, legacy, |SIDECAR_SUFFIXES|) - {Partial(dir)})[Db(dir) := d[LegacyDb(legacy)]]
    else d
  }

  /** The files adoption may leave unfinished. */
  ghost predicate Scratch(d: Disk, dir: Path, p: Path) {
    Adoptable(d, dir) &&
      (|| p == Partial(dir)
       || exists i: nat :: i < |SIDECAR_SUFFIXES| && p == Sidecar(dir, i)
                           && LegacySidecar(LegacyDirFor(dir).value, i) in d)
  }

  predicate SameAt(d: Disk, e: Disk, p: Path) {
    (p in d <==> p in e) && (p in d ==> d[p] == e[p])
  }

  /** Adoption of `d` was begun and not completed. */
  ghost predicate Unfinished(d: Disk, e: Disk, dir: Path) {
    Db(dir) !in e && forall p :: !Scratch(d, dir, p) ==> SameAt(d, e, p)
  }

  /** What launches may have made of `d`, crashes and all. */
  ghost predicate Survives(d: Disk, e: Disk, dir: Path) {
    e == Settled(d, dir) || Unfinished(d, e, dir)
  }

  lemma NamesApart(dir: Path, legacy: Path)
    requires LegacyDirFor(dir) == Some(legacy)
    ensures Db(dir) != Partial(dir) && Sidecar(dir, 0) != Sidecar(dir, 1)
    ensures forall i: nat :: i < |SIDECAR_SUFFIXES| ==> Sidecar(dir, i) != Db(dir) && Sidecar(dir, i) != Partial(dir)
    ensures forall name: string, other: string {:trigger dir + [name], legacy + [other]} ::
              dir + [name] != legacy + [other]
  {
    LastOf(dir, DB_FILE);
    LastOf(dir, DB_FILE + ".partial");
    LastOf(dir, DB_FILE + "-wal");
    LastOf(dir, DB_FILE + "-shm");
    assert (DB_FILE + "-wal")[13] != (DB_FILE + "-shm")[13];
    forall name: string, other: string
      ensures dir + [name] != legacy + [other]
    {
      assert (dir + [name])[..|dir|] == dir && (legacy + [other])[..|dir|] == legacy;
    }
  }

  lemma LastOf(dir: Path, name: string)
    ensures (dir + [name])[|dir|] == name
  {
  }

  lemma SidecarsAt(d: Disk, dir: Path, legacy: Path, n: nat, p: Path)
    requires LegacyDirFor(dir) == Some(legacy) && n <= |SIDECAR_SUFFIXES|
    ensures var e := WithSidecars(d, dir, legacy, n);
            forall i: nat :: i < n && LegacySidecar(legacy, i) in d ==>
              Sidecar(dir, i) in e && e[Sidecar(dir, i)] == d[LegacySidecar(legacy, i)]
    ensures (forall i: nat :: i < n && LegacySidecar(legacy, i) in d ==> p != Sidecar(dir, i))
            ==> SameAt(d, WithSidecars(d, dir, legacy, n), p)
  {
    NamesApart(dir, legacy);
  }

  /** What adoption comes to, file by file: the old database and its sidecars
      beside each other under their new names, no temporary file, and nothing
      else touched. */
  lemma SettledMeans(d: Disk, dir: Path)
    requires Adoptable(d, dir)
    ensures var e, legacy := Settled(d, dir), LegacyDirFor(dir).value;
            && Db(dir) in e && e[Db(dir)] == d[LegacyDb(legacy)]
            && (forall i: nat :: i < |SIDECAR_SUFFIXES| && LegacySidecar(legacy, i) in d ==>
                  Sidecar(dir, i) in e && e[Sidecar(dir, i)] == d[LegacySidecar(legacy, i)])
            && Partial(dir) !in e
            && forall p :: p != Db(dir) && !Scratch(d, dir, p) ==> SameAt(d, e, p)
  {
    var legacy := LegacyDirFor(dir).value;
    NamesApart(dir, legacy);
    var n := |SIDECAR_SUFFIXES|;
    SidecarsAt(d, dir, legacy, n, Db(dir));
    forall p | p != Db(dir) && !Scratch(d, dir, p)
      ensures SameAt(d, Settled(d, dir), p)
    {
      SidecarsAt(d, dir, legacy, n, p);
    }
  }

  lemma OldFilesKept(d: Disk, e: Disk, dir: Path, name: string)
    requires Unfinished(d, e, dir) && LegacyDirFor(dir).Some?
    ensures SameAt(d, e, LegacyDirFor(dir).value + [name])
  {
    var legacy := LegacyDirFor(dir).value;
    NamesApart(dir, legacy);
    assert forall i: nat :: i < |SIDECAR_SUFFIXES| ==> Sidecar(dir, i) != legacy + [name];
    assert Partial(dir) != legacy + [name];
  }

  lemma SameScratch(d: Disk, e: Disk, dir: Path)
    requires Unfinished(d, e, dir)
    ensures Db(dir) !in d && (Adoptable(e, dir) <==> Adoptable(d, dir))
    ensures forall p :: Scratch(e, dir, p) <==> Scratch(d, dir, p)
  {
    if Adoptable(d, dir) {
      NamesApart(dir, LegacyDirFor(dir).value);
    }
    assert !Scratch(d, dir, Db(dir));
    if LegacyDirFor(dir).Some? {
      OldFilesKept(d, e, dir, LEGACY_DB_FILE);
      forall i: nat | i < |SIDECAR_SUFFIXES|
        ensures SameAt(d, e, LegacySidecar(LegacyDirFor(dir).value, i))
      {
        OldFilesKept(d, e, dir, LEGACY_DB_FILE + SIDECAR_SUFFIXES[i]);
      }
    }
  }

  lemma SettledAt(d: Disk, e: Disk, dir: Path, p: Path)
    requires Unfinished(d, e, dir) && Adoptable(d, dir) && Adoptable(e, dir)
    requires forall q :: Scratch(e, dir, q) <==> Scratch(d, dir, q)
    ensures SameAt(Settled(d, dir), Settled(e, dir), p)
  {
    SettledMeans(d, dir);
    SettledMeans(e, dir);
    OldFilesKept(d, e, dir, LEGACY_DB_FILE);
    if p == Db(dir) {
      assert Settled(e, dir)[p] == Settled(d, dir)[p];
    } else if !Scratch(d, dir, p) {
      assert SameAt(d, e, p) && SameAt(d, Settled(d, dir), p) && SameAt(e, Settled(e, dir), p);
    } else if p != Partial(dir) {
      var legacy := LegacyDirFor(dir).value;
      var i: nat :| i < |SIDECAR_SUFFIXES| && p == Sidecar(dir, i) && LegacySidecar(legacy, i) in d;
      OldFilesKept(d, e, dir, LEGACY_DB_FILE + SIDECAR_SUFFIXES[i]);
      assert LegacySidecar(legacy, i) in e;
    }
  }

  lemma SameEverywhere(a: Disk, b: Disk)
    requires forall p :: SameAt(a, b, p)
    ensures a == b
  {
    forall p
      ensures p in a <==> p in b
      ensures p in a ==> a[p] == b[p]
    {
      assert SameAt(a, b, p);
    }
    assert a.Keys == b.Keys;
  }

  /** An interrupted adoption loses nothing: what is left comes to the same end. */
  lemma UnfinishedSettles(d: Disk, e: Disk, dir: Path)
    requires Unfinished(d, e, dir)
    ensures Settled(e, dir) == Settled(d, dir)
  {
    SameScratch(d, e, dir);
    var a, b := Settled(d, dir), Settled(e, dir);
    forall p
      ensures SameAt(a, b, p)
    {
      if Adoptable(d, dir) {
        SettledAt(d, e, dir, p);
      } else {
        assert SameAt(d, e, p);
      }
    }
    SameEverywhere(a, b);
  }

  lemma SettledStays(d: Disk, dir: Path)
    ensures Settled(Settled(d, dir), dir) == Settled(d, dir)
  {
    if Adoptable(d, dir) {
      SettledMeans(d, dir);
    }
  }

  /** Launches compose. */
  lemma SurvivesAgain(d: Disk, e: Disk, f: Disk, dir: Path)
    requires Survives(d, e, dir) && Survives(e, f, dir)
    ensures Survives(d, f, dir)
  {
    if e == Settled(d, dir) {
      SettledStays(d, dir);
      if f != Settled(e, dir) {
        SettledIsAll(d, e, f, dir);
      }
    } else {
      UnfinishedSettles(d, e, dir);
      if f != Settled(e, dir) {
        SameScratch(d, e, dir);
        forall p | !Scratch(d, dir, p)
          ensures SameAt(d, f, p)
        {
          assert SameAt(d, e, p) && SameAt(e, f, p);
        }
      }
    }
  }

  /** There is nothing to leave unfinished once adoption is over. */
  lemma SettledIsAll(d: Disk, e: Disk, f: Disk, dir: Path)
    requires e == Settled(d, dir) && Unfinished(e, f, dir)
    ensures f == e
  {
    if Adoptable(d, dir) {
      SettledMeans(d, dir);
    }
    SameScratch(e, f, dir);
    assert !Adoptable(e, dir);
    assert forall p :: SameAt(e, f, p);
    SameEverywhere(e, f);
  }

  /** Whatever the crashes: if our database is there and was not before, it is
      the old one whole, with every old sidecar whole beside it; and the old
      directory is as it was. */
  lemma AdoptionIsAllOrNothing(d: Disk, e: Disk, dir: Path)
    requires Survives(d, e, dir) && Db(dir) !in d && LegacyDirFor(dir).Some?
    ensures var legacy := LegacyDirFor(dir).value;
            && (forall name :: SameAt(d, e, legacy + [name]))
            && (Db(dir) in e ==>
                  && LegacyDb(legacy) in d && e[Db(dir)] == d[LegacyDb(legacy)]
                  && forall i: nat :: i < |SIDECAR_SUFFIXES| && LegacySidecar(legacy, i) in d ==>
                       Sidecar(dir, i) in e && e[Sidecar(dir, i)] == d[LegacySidecar(legacy, i)])
  {
    var legacy := LegacyDirFor(dir).value;
    if Adoptable(d, dir) {
      SettledMeans(d, dir);
      NamesApart(dir, legacy);
    }
    forall name
      ensures SameAt(d, e, legacy + [name])
    {
      if e != Settled(d, dir) {
        OldFilesKept(d, e, dir, name);
      } else if Adoptable(d, dir) {
        assert forall i: nat :: i < |SIDECAR_SUFFIXES| ==> Sidecar(dir, i) != legacy + [name];
        assert Partial(dir) != legacy + [name] && Db(dir) != legacy + [name];
      }
    }
  }

  /** The sidecars beside the adopted database are exactly the old ones if and
      only if none was lying there without an old counterpart: adoption copies
      sidecars, and removes none. */
  lemma SidecarsMatchExactly(d: Disk, dir: Path)
    requires Adoptable(d, dir)
    ensures var legacy := LegacyDirFor(dir).value;
            (forall i: nat :: i < |SIDECAR_SUFFIXES| ==>
               (Sidecar(dir, i) in Settled(d, dir) <==> LegacySidecar(legacy, i) in d))
            <==> (forall i: nat :: i < |SIDECAR_SUFFIXES| && Sidecar(dir, i) in d ==> LegacySidecar(legacy, i) in d)
  {
    var legacy := LegacyDirFor(dir).value;
    SettledMeans(d, dir);
    NamesApart(dir, legacy);
    forall i: nat | i < |SIDECAR_SUFFIXES| && LegacySidecar(legacy, i) !in d
      ensures Sidecar(dir, i) in Settled(d, dir) <==> Sidecar(dir, i) in d
    {
      assert forall j: nat :: j < |SIDECAR_SUFFIXES| && Sidecar(dir, j) == Sidecar(dir, i) ==> j == i;
      assert SameAt(d, Settled(d, dir), Sidecar(dir, i));
    }
  }

  /** A disk where that happens: a stray `-wal` beside the adopted database, of
      which the old one had none. */
  lemma StraySidecarStays(root: Path, name: string, database: string, stray: string)
    requires name != LEGACY_IDENTIFIER
    ensures var dir, legacy := root + [name], root + [LEGACY_IDENTIFIER];
            var d := map[LegacyDb(legacy) := database, Sidecar(dir, 0) := stray];
            && LegacySidecar(legacy, 0) !in d
            && Db(dir) in Settled(d, dir) && Settled(d, dir)[Db(dir)] == database
            && Sidecar(dir, 0) in Settled(d, dir) && Settled(d, dir)[Sidecar(dir, 0)] == stray
  {
    var dir, legacy := root + [name], root + [LEGACY_IDENTIFIER];
    var d := map[LegacyDb(legacy) := database, Sidecar(dir, 0) := stray];
    assert LegacyDirFor(dir) == Some(legacy);
    NamesApart(dir, legacy);
    LegacyNamesApart(legacy);
    assert Adoptable(d, dir);
    SettledMeans(d, dir);
    assert forall i: nat :: i < |SIDECAR_SUFFIXES| ==> LegacySidecar(legacy, i) !in d;
    assert SameAt(d, Settled(d, dir), Sidecar(dir, 0));
  }

  lemma LegacyNamesApart(legacy: Path)
    ensures forall i: nat :: i < |SIDECAR_SUFFIXES| ==> LegacySidecar(legacy, i) != LegacyDb(legacy)
  {
    LastOf(legacy, LEGACY_DB_FILE);
    LastOf(legacy, LEGACY_DB_FILE + "-wal");
    LastOf(legacy, LEGACY_DB_FILE + "-shm");
  }

  // ----- Adopting

  datatype Outcome = Nothing | Adopted(from: Path, files: seq<string>) | Crashed

  /** The names copied, in order. */
  function Copied(d: Disk, legacy: Path, n: nat): seq<string>
    requires n <= |SIDECAR_SUFFIXES|
  {
    if n == 0 then []
    else
      Copied(d, legacy, n - 1)
      + if LegacySidecar(legacy, n - 1) in d then [DB_FILE + SIDECAR_SUFFIXES[n - 1]] else []
  }

  /** Where the machine may stop, or the file system fail: while the `i`th
      sidecar is copied, after that, while the database is copied, after that,
      and after the rename. */
  datatype Point = CopyingSidecar(i: nat) | SidecarDone(i: nat) | CopyingDb | DbCopied | Renamed

  /** Whether it stops there. */
  type Crashes = Point -> bool

  /** What a copy that is stopped there leaves behind: anything at all, or the
      target untouched if it fails before creating it. */
  type Debris = Point -> Option<string>

  /** The machine stops at no point before the `n`th sidecar. */
  ghost predicate SidecarsSurvive(d: Disk, legacy: Path, crashes: Crashes, n: nat)
    requires n <= |SIDECAR_SUFFIXES|
  {
    forall i: nat :: i < n ==>
      !crashes(SidecarDone(i)) && (LegacySidecar(legacy, i) in d ==> !crashes(CopyingSidecar(i)))
  }

  /** The machine stops at no point that adoption passes. */
  ghost predicate Undisturbed(d: Disk, dir: Path, crashes: Crashes) {
    Adoptable(d, dir) ==>
      && SidecarsSurvive(d, LegacyDirFor(dir).value, crashes, |SIDECAR_SUFFIXES|)
      && !crashes(CopyingDb) && !crashes(DbCopied) && !crashes(Renamed)
  }

  /** What is at `p` once a copy to it has been cut short. */
  predicate LeftBy(d: Disk, e: Disk, p: Path, debris: Option<string>) {
    if debris.Some? then p in e && e[p] == debris.value else SameAt(d, e, p)
  }

  /** The disk after a copy: done, cut short, or not even begun. */
  function CopiedTo(d: Disk, from: Path, to: Path, cut: bool, debris: Option<string>): Disk
    requires from in d
  {
    if !cut then d[to := d[from]] else if debris.Some? then d[to := debris.value] else d
  }

  /** `fs::copy`. */
  method Copy(d: Disk, from: Path, to: Path, cut: bool, debris: Option<string>) returns (e: Disk)
    requires from in d
    ensures e == CopiedTo(d, from, to, cut, debris)
  {
    e := d;
    if !cut {
      e := e[to := d[from]];
    } else if debris.Some? {
      e := e[to := debris.value];
    }
  }

  lemma CopyStaysUnfinished(d: Disk, e: Disk, dir: Path, from: Path, to: Path, cut: bool, debris: Option<string>)
    requires Unfinished(d, e, dir) && Scratch(d, dir, to) && to != Db(dir) && from in e
    ensures Unfinished(d, CopiedTo(e, from, to, cut, debris), dir)
  {
  }

  /** The sidecars, one after the other, until all are copied or the machine
      stops. */
  method CopySidecars(d: Disk, dir: Path, legacy: Path, crashes: Crashes, debris: Debris)
    returns (e: Disk, files: seq<string>, done: bool)
    requires Adoptable(d, dir) && LegacyDirFor(dir) == Some(legacy)
    ensures Unfinished(d, e, dir)
    ensures done <==> SidecarsSurvive(d, legacy, crashes, |SIDECAR_SUFFIXES|)
    ensures done ==> e == WithSidecars(d, dir, legacy, |SIDECAR_SUFFIXES|)
    ensures done ==> files == Copied(d, legacy, |SIDECAR_SUFFIXES|)
    ensures LegacySidecar(legacy, 0) in d && crashes(CopyingSidecar(0)) ==>
              !done && LeftBy(d, e, Sidecar(dir, 0), debris(CopyingSidecar(0)))
  {
    NamesApart(dir, legacy);
    e, files, done := d, [], true;
    for i := 0 to |SIDECAR_SUFFIXES|
      invariant done && e == WithSidecars(d, dir, legacy, i) && files == Copied(d, legacy, i)
      invariant Unfinished(d, e, dir) && SidecarsSurvive(d, legacy, crashes, i)
    {
      OldFilesKept(d, e, dir, LEGACY_DB_FILE + SIDECAR_SUFFIXES[i]);
      if LegacySidecar(legacy, i) in e {
        var point := CopyingSidecar(i);
        assert Scratch(d, dir, Sidecar(dir, i));
        CopyStaysUnfinished(d, e, dir, LegacySidecar(legacy, i), Sidecar(dir, i), crashes(point), debris(point));
        e := Copy(e, LegacySidecar(legacy, i), Sidecar(dir, i), crashes(point), debris(point));
        if crashes(point) {
          return e, files, false;
        }
        files := files + [DB_FILE + SIDECAR_SUFFIXES[i]];
      }
      if crashes(SidecarDone(i)) {
        return e, files, false;
      }
    }
  }

  /** The disk and the report of an adoption, by the names of the files: each old
      one there is, under its new name, sidecars first. */
  ghost predicate AdoptedAs(d: Disk, e: Disk, dir: Path, from: Path, files: seq<string>)
  {
    && dir != [] && from == dir[..|dir| - 1] + ["dev.kafkaoxide.app"]
    && CarriedOver(d, e, from + ["kafkaoxide.sqlite"], dir + ["salty.sqlite"])
    && (from + ["kafkaoxide.sqlite-wal"] in d ==>
          CarriedOver(d, e, from + ["kafkaoxide.sqlite-wal"], dir + ["salty.sqlite-wal"]))
    && (from + ["kafkaoxide.sqlite-shm"] in d ==>
          CarriedOver(d, e, from + ["kafkaoxide.sqlite-shm"], dir + ["salty.sqlite-shm"]))
    && dir + ["salty.sqlite.partial"] !in e
    && files == (if from + ["kafkaoxide.sqlite-wal"] in d then ["salty.sqlite-wal"] else [])
                + (if from + ["kafkaoxide.sqlite-shm"] in d then ["salty.sqlite-shm"] else [])
                + ["salty.sqlite"]
  }

  predicate CarriedOver(d: Disk, e: Disk, from: Path, to: Path) {
    from in d && to in e && e[to] == d[from]
  }

  lemma FileNames()
    ensures DB_FILE + ".partial" == "salty.sqlite.partial"
    ensures DB_FILE + "-wal" == "salty.sqlite-wal" && DB_FILE + "-shm" == "salty.sqlite-shm"
    ensures LEGACY_DB_FILE + "-wal" == "kafkaoxide.sqlite-wal" && LEGACY_DB_FILE + "-shm" == "kafkaoxide.sqlite-shm"
  {
  }

  lemma CopiedNames(d: Disk, legacy: Path)
    ensures Copied(d, legacy, |SIDECAR_SUFFIXES|)
            == (if legacy + ["kafkaoxide.sqlite-wal"] in d then ["salty.sqlite-wal"] else [])
               + (if legacy + ["kafkaoxide.sqlite-shm"] in d then ["salty.sqlite-shm"] else [])
  {
    FileNames();
    assert Copied(d, legacy, 1) == [] + if LegacySidecar(legacy, 0) in d then ["salty.sqlite-wal"] else [];
  }

  lemma SettledIsAdopted(d: Disk, dir: Path)
    requires Adoptable(d, dir)
    ensures var legacy := LegacyDirFor(dir).value;
            AdoptedAs(d, Settled(d, dir), dir, legacy, Copied(d, legacy, |SIDECAR_SUFFIXES|) + [DB_FILE])
  {
    var legacy := LegacyDirFor(dir).value;
    SettledMeans(d, dir);
    FileNames();
    CopiedNames(d, legacy);
    assert LegacySidecar(legacy, 0) in d ==> CarriedOver(d, Settled(d, dir), LegacySidecar(legacy, 0), Sidecar(dir, 0));
    assert LegacySidecar(legacy, 1) in d ==> CarriedOver(d, Settled(d, dir), LegacySidecar(legacy, 1), Sidecar(dir, 1));
  }

  method AdoptLegacyAppData(d: Disk, dir: Path, crashes: Crashes, debris: Debris) returns (e: Disk, outcome: Outcome)
    ensures Survives(d, e, dir)
    ensures outcome.Crashed? <==> !Undisturbed(d, dir, crashes)
    ensures !outcome.Crashed? ==> e == Settled(d, dir)
    ensures outcome.Adopted? ==> Adoptable(d, dir) && outcome.from == LegacyDirFor(dir).value
                                 && outcome.files == Copied(d, outcome.from, |SIDECAR_SUFFIXES|) + [DB_FILE]
    ensures outcome.Nothing? <==> !Adoptable(d, dir)
    // a copy that is cut short leaves what it leaves
    ensures Adoptable(d, dir) && LegacySidecar(LegacyDirFor(dir).value, 0) in d && crashes(CopyingSidecar(0)) ==>
              LeftBy(d, e, Sidecar(dir, 0), debris(CopyingSidecar(0)))
    ensures (Adoptable(d, dir) && SidecarsSurvive(d, LegacyDirFor(dir).value, crashes, |SIDECAR_SUFFIXES|)
             && crashes(CopyingDb)) ==> LeftBy(d, e, Partial(dir), debris(CopyingDb))
    // in particular, by name
    ensures outcome.Adopted? ==> AdoptedAs(d, e, dir, outcome.from, outcome.files)
    ensures outcome.Nothing? ==> e == d
    ensures outcome.Nothing? <==>
              || dir == [] || dir[|dir| - 1] == "dev.kafkaoxide.app" || dir + ["salty.sqlite"] in d
              || (dir[..|dir| - 1] + ["dev.kafkaoxide.app"]) + ["kafkaoxide.sqlite"] !in d
  {
    if Db(dir) in d {
      return d, Nothing;
    }
    var found := LegacyDirFor(dir);
    if found.None? {
      return d, Nothing;
    }
    var legacy := found.value;
    if LegacyDb(legacy) !in d {
      return d, Nothing;
    }
    var files, done;
    e, files, done := CopySidecars(d, dir, legacy, crashes, debris);
    if !done {
      return e, Crashed;
    }
    e, done := CopyDatabase(d, e, dir, legacy, crashes, debris);
    SettledIsAdopted(d, dir);
    return e, if done then Adopted(legacy, files + [DB_FILE]) else Crashed;
  }

  /** Once the sidecars are in place, the database, through a temporary name. */
  method CopyDatabase(ghost d: Disk, e: Disk, dir: Path, legacy: Path, crashes: Crashes, debris: Debris)
    returns (e': Disk, done: bool)
    requires Adoptable(d, dir) && LegacyDirFor(dir) == Some(legacy) && Unfinished(d, e, dir)
    requires e == WithSidecars(d, dir, legacy, |SIDECAR_SUFFIXES|)
    ensures Survives(d, e', dir)
    ensures done <==> !crashes(CopyingDb) && !crashes(DbCopied) && !crashes(Renamed)
    ensures done ==> e' == Settled(d, dir)
    ensures crashes(CopyingDb) ==> LeftBy(d, e', Partial(dir), debris(CopyingDb))
  {
    NamesApart(dir, legacy);
    OldFilesKept(d, e, dir, LEGACY_DB_FILE);
    var partial := Partial(dir);
    assert Scratch(d, dir, partial);
    SidecarsAt(d, dir, legacy, |SIDECAR_SUFFIXES|, partial);
    CopyStaysUnfinished(d, e, dir, LegacyDb(legacy), partial, crashes(CopyingDb), debris(CopyingDb));
    e' := Copy(e, LegacyDb(legacy), partial, crashes(CopyingDb), debris(CopyingDb));
    if crashes(CopyingDb) || crashes(DbCopied) {
      return e', false;
    }
    e' := (e' - {partial})[Db(dir) := e'[partial]];
    assert e' == Settled(d, dir);
    done := !crashes(Renamed);
  }

  /** Launch after launch, until one is not cut short or patience runs out. */
  method LaunchUntilAdopted(d: Disk, dir: Path, crashes: nat -> Crashes, debris: nat -> Debris, patience: nat)
    returns (e: Disk, through: bool)
    ensures Survives(d, e, dir)
    ensures through ==> e == Settled(d, dir)
    // One launch in which the machine does not stop is enough.
    ensures (exists n: nat :: n < patience && NeverCrashes(crashes(n))) ==> through
  {
    e, through := d, false;
    assert Survives(d, e, dir);
    var n := 0;
    while n < patience && !through
      invariant n <= patience && Survives(d, e, dir)
      invariant through ==> e == Settled(d, dir)
      invariant !through ==> forall k :: 0 <= k < n ==> !NeverCrashes(crashes(k))
    {
      ghost var before := e;
      var outcome;
      e, outcome := AdoptLegacyAppData(e, dir, crashes(n), debris(n));
      SurvivesAgain(d, before, e, dir);
      if !outcome.Crashed? {
        through := true;
        SettledSoon(d, before, dir);
      }
      n := n + 1;
    }
  }

  ghost predicate NeverCrashes(crashes: Crashes) {
    forall point :: !crashes(point)
  }

  /** Whatever launches have made of the disk, settling it comes to the same. */
  lemma SettledSoon(d: Disk, e: Disk, dir: Path)
    requires Survives(d, e, dir)
    ensures Settled(e, dir) == Settled(d, dir)
  {
    if e == Settled(d, dir) {
      SettledStays(d, dir);
    } else {
      UnfinishedSettles(d, e, dir);
    }
  }
}
