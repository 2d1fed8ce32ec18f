/**
 Backup and restore (shoreguard/services/backup.py): what an archive holds, the
 file operations of a restore, and every state of the disk between them.
 */
module Restore {
  import opened Wrappers

  datatype Path = Path(dir: string, name: string)

  type Data = seq<bv8>

  type Files = map<Path, Data>

  /** An archive as extracted; the manifest is usable or not. */
  datatype Archive = Archive(manifestOk: bool, database: Option<Data>, keys: map<string, Data>)

  datatype RestoreError = BadManifest | NoDatabase

  /** A file to restore. */
  datatype Item = Item(target: Path, data: Data)

  const SECRET_KEY := ".secret_key"
  const VAPID_PRIVATE := ".vapid_private"
  const KEY_FILES := [SECRET_KEY, VAPID_PRIVATE]

  function Staged(p: Path): Path
  {
    p.(name := p.name + ".restore-tmp")
  }

  function Kept(p: Path): Path
  {
    p.(name := p.name + ".pre-restore")
  }

  /** The names beside a restored file, and the key files that are archived. */
  lemma NamesExactly(p: Path)
    ensures Staged(p) == Path(p.dir, p.name + ".restore-tmp") && Kept(p) == Path(p.dir, p.name + ".pre-restore")
    ensures KEY_FILES == [".secret_key", ".vapid_private"]
  {
  }

  // ----- Archives --------------------------------------------------------

  /**
   SQLite in WAL mode: what is read from a database file and the log file beside
   it, and the single file that the online backup writes for both.
   */
  datatype Engine = Engine(read: (Data, Option<Data>) -> Data, snapshot: (Data, Option<Data>) -> Data)

  /** A snapshot reads like the database it was taken from. */
  ghost predicate Consistent(e: Engine)
  {
    forall main, log :: e.read(e.snapshot(main, log), None) == e.read(main, log)
  }

  function LogFile(db: Path): Path
  {
    db.(name := db.name + "-wal")
  }

  function LogOf(fs: Files, db: Path): Option<Data>
  {
    if LogFile(db) in fs then Some(fs[LogFile(db)]) else None
  }

  /** What the database holds for its readers. */
  function ContentOf(e: Engine, fs: Files, db: Path): Data
    requires db in fs
  {
    e.read(fs[db], LogOf(fs, db))
  }

  /** `create_backup`: a snapshot of the database and the key files that exist. */
  function Backup(e: Engine, fs: Files, db: Path, config: string): Archive
    requires db in fs
  {
    Archive(true, Some(e.snapshot(fs[db], LogOf(fs, db))),
            map k | k in {SECRET_KEY, VAPID_PRIVATE} && Path(config, k) in fs :: fs[Path(config, k)])
  }

  /** The archived ones of the first key files. */
  function KeyItems(a: Archive, config: string, n: nat): seq<Item>
    requires n <= |KEY_FILES|
  {
    if n == 0 then []
    else
      var key := KEY_FILES[n - 1];
      KeyItems(a, config, n - 1) + if key in a.keys then [Item(Path(config, key), a.keys[key])] else []
  }

  /** What a restore puts back, in order. */
  function Items(a: Archive, db: Path, config: string): seq<Item>
    requires a.database.Some?
  {
    [Item(db, a.database.value)] + KeyItems(a, config, |KEY_FILES|)
  }

  /** The database first, then the key files that the archive holds. */
  lemma ItemsExactly(a: Archive, db: Path, config: string)
    requires a.database.Some?
    ensures Items(a, db, config)
         == [Item(db, a.database.value)]
            + (if ".secret_key" in a.keys then [Item(Path(config, ".secret_key"), a.keys[".secret_key"])] else [])
            + (if ".vapid_private" in a.keys then [Item(Path(config, ".vapid_private"), a.keys[".vapid_private"])]
               else [])
  {
    assert KeyItems(a, config, 0) == [];
    var last := KEY_FILES[1];
    assert KeyItems(a, config, 2)
        == KeyItems(a, config, 1) + if last in a.keys then [Item(Path(config, last), a.keys[last])] else [];
  }

  function Names(items: seq<Item>): seq<string>
  {
    seq(|items|, i requires 0 <= i < |items| => items[i].target.name)
  }

  // ----- The disk --------------------------------------------------------

  /** One file replaced: the old one kept under its other name, the staged copy gone. */
  function RestoreOne(fs: Files, item: Item): Files
  {
    var kept := if item.target in fs then fs[Kept(item.target) := fs[item.target]] else fs;
    (kept - {Staged(item.target)})[item.target := item.data]
  }

  function RestoreAll(fs: Files, items: seq<Item>): Files
  {
    if items == [] then fs else RestoreOne(RestoreAll(fs, items[..|items| - 1]), items[|items| - 1])
  }

  /** The file is there with its content. */
  predicate Holds(fs: Files, p: Path, data: Data)
  {
    p in fs && fs[p] == data
  }

  predicate Overwrites(before: Files, target: Path, p: Path)
  {
    p == Staged(target) || (p == Kept(target) && target in before)
  }

  /** Names that a restore overwrites without keeping what they held. */
  predicate Sacrificed(before: Files, items: seq<Item>, p: Path)
  {
    exists i :: 0 <= i < |items| && Overwrites(before, items[i].target, p)
  }

  predicate Intact(before: Files, now: Files, p: Path)
    requires p in before
  {
    Holds(now, p, before[p]) || Holds(now, Kept(p), before[p])
  }

  /** Nothing else is lost. */
  ghost predicate Safe(before: Files, items: seq<Item>, now: Files)
  {
    forall p :: p in before && !Sacrificed(before, items, p) ==> Intact(before, now, p)
  }

  /** The names used for two items do not meet. */
  predicate Apart(a: Item, b: Item)
  {
    {a.target, Staged(a.target), Kept(a.target)} !! {b.target, Staged(b.target), Kept(b.target)}
  }

  predicate Separate(items: seq<Item>)
  {
    forall i, j :: 0 <= i < j < |items| ==> Apart(items[i], items[j])
  }

  /** The database is not stored under one of the names used for the key files. */
  predicate NamesApart(db: Path, config: string)
  {
    db.dir == config ==>
      forall k :: k in KEY_FILES ==> db.name !in {k, k + ".restore-tmp", k + ".pre-restore"}
  }

  /** Two disks differ in one file at most. */
  ghost predicate SameBut(a: Files, b: Files, p: Path)
  {
    forall q :: q != p ==> (q in a <==> q in b) && (q in a ==> a[q] == b[q])
  }

  function SetAside(fs: Files, item: Item): Files
    requires item.target in fs
  {
    (fs[Staged(item.target) := item.data] - {item.target})[Kept(item.target) := fs[item.target]]
  }

  /** The states between the operations on one file, and half-way through its copy. */
  ghost predicate Between(fs: Files, item: Item, now: Files)
  {
    || SameBut(fs, now, Staged(item.target))
    || (item.target in fs && now == SetAside(fs, item))
    || now == RestoreOne(fs, item)
  }

  class Disk {
    var files: Files
    /** Every state the disk has been in. */
    ghost var seen: set<Files>

    constructor (files: Files)
      ensures this.files == files && Valid()
    {
      this.files, seen := files, {files};
    }

    ghost predicate Valid()
      reads this
    {
      files in seen
    }

    /** A copy, which may be interrupted with any part written. */
    method Copy(data: Data, to: Path)
      modifies this
      ensures files == old(files)[to := data]
      ensures old(seen) + {files} <= seen
      ensures forall fs :: fs in seen ==> fs in old(seen) || SameBut(old(files), fs, to)
    {
      ghost var partial: Data := *;
      seen := seen + {files[to := partial], files[to := data]};
      files := files[to := data];
    }

    /** An atomic rename within a directory. */
    method Replace(from: Path, to: Path)
      requires from in files
      modifies this
      ensures files == (old(files) - {from})[to := old(files)[from]]
      ensures seen == old(seen) + {files}
    {
      files := (files - {from})[to := files[from]];
      seen := seen + {files};
    }

    /** `_stage_then_replace`. */
    method StageThenReplace(data: Data, target: Path)
      modifies this
      ensures files == RestoreOne(old(files), Item(target, data))
      ensures old(seen) + {files} <= seen
      ensures forall fs :: fs in seen ==> fs in old(seen) || Between(old(files), Item(target, data), fs)
    {
      NamesDiffer(target);
      ghost var before := files;
      var staged := Staged(target);
      Copy(data, staged);
      if target in files {
        Replace(target, Kept(target));
        assert files == SetAside(before, Item(target, data));
      }
      Replace(staged, target);
      assert files == RestoreOne(before, Item(target, data));
    }

    method RestoreBackup(a: Archive, db: Path, config: string) returns (r: Result<seq<string>, RestoreError>)
      requires Valid()
      modifies this
      ensures Valid()
      ensures r == Err(BadManifest) <==> !a.manifestOk
      ensures r == Err(NoDatabase) <==> a.manifestOk && a.database.None?
      ensures r.Err? ==> files == old(files) && seen == old(seen)
      ensures r.Ok? ==> files == RestoreAll(old(files), Items(a, db, config)) && r.value == Names(Items(a, db, config))
      ensures r.Ok? ==> old(seen) + {files} <= seen
      ensures r.Ok? && NamesApart(db, config) ==>
        forall fs :: fs in seen ==> fs in old(seen) || Safe(old(files), Items(a, db, config), fs)
    {
      if !a.manifestOk {
        return Err(BadManifest);
      }
      if a.database.None? {
        return Err(NoDatabase);
      }
      ghost var before, items := files, Items(a, db, config);
      if NamesApart(db, config) {
        ItemsSeparate(a, db, config);
      }
      assert items[..0] == [];
      RestoreItem(before, items, 0, old(seen), a.database.value, db);
      var restored := RestoreKeys(before, a, db, config, old(seen));
      assert items[..|items|] == items;
      r := Ok(restored);
    }

    /** The key files of the restore. */
    method RestoreKeys(
      ghost before: Files, a: Archive, db: Path, config: string, ghost start: set<Files>)
      returns (restored: seq<string>)
      requires a.database.Some? && UpTo(before, Items(a, db, config), 1, files, start, seen)
      modifies this
      ensures UpTo(before, Items(a, db, config), |Items(a, db, config)|, files, start, seen)
      ensures restored == Names(Items(a, db, config))
    {
      ghost var items, n := Items(a, db, config), 1;
      restored := [db.name];
      assert Names(items[..1]) == [db.name];
      for i := 0 to |KEY_FILES|
        invariant n == 1 + |KeyItems(a, config, i)| && n <= |items|
        invariant restored == Names(items[..n])
        invariant UpTo(before, items, n, files, start, seen)
      {
        var key := KEY_FILES[i];
        KeyItemNext(a, db, config, i);
        if key in a.keys {
          RestoreItem(before, items, n, start, a.keys[key], Path(config, key));
          restored := restored + [key];
          n := n + 1;
        }
      }
      assert items[..n] == items;
    }

    /** One more file of the restore. */
    method RestoreItem(
      ghost before: Files, ghost items: seq<Item>, ghost n: nat, ghost start: set<Files>, data: Data, target: Path)
      requires n < |items| && items[n] == Item(target, data) && UpTo(before, items, n, files, start, seen)
      modifies this
      ensures UpTo(before, items, n + 1, files, start, seen)
    {
      RestoreStep(before, items, n, files);
      StageThenReplace(data, target);
    }
  }

  /** A restore that has put back its first files: the disk, and the states it has been in since the start. */
  ghost predicate UpTo(before: Files, items: seq<Item>, n: nat, files: Files, start: set<Files>, seen: set<Files>)
    requires n <= |items|
  {
    && files == RestoreAll(before, items[..n])
    && start + {files} <= seen
    && (Separate(items) ==> forall fs :: fs in seen ==> fs in start || Safe(before, items, fs))
  }

  lemma NamesDiffer(p: Path)
    ensures Staged(p) != p && Kept(p) != p && Staged(p) != Kept(p)
  {
    assert Staged(p).name[|p.name| + 1] == 'r' && Kept(p).name[|p.name| + 1] == 'p';
  }

  lemma KeyItemNext(a: Archive, db: Path, config: string, i: nat)
    requires a.database.Some? && i < |KEY_FILES|
    ensures var items, n, key := Items(a, db, config), 1 + |KeyItems(a, config, i)|, KEY_FILES[i];
      && n <= |items|
      && (key in a.keys ==> n < |items| && items[n] == Item(Path(config, key), a.keys[key]))
      && (key in a.keys ==> Names(items[..n + 1]) == Names(items[..n]) + [key])
      && |KeyItems(a, config, i + 1)| == (if key in a.keys then n else n - 1)
  {
    assert KeyItems(a, config, 0) == [];
    assert |KEY_FILES| == 2;
    assert KeyItems(a, config, 2)
        == KeyItems(a, config, 1)
           + if KEY_FILES[1] in a.keys then [Item(Path(config, KEY_FILES[1]), a.keys[KEY_FILES[1]])] else [];
  }

  // ----- Safety at every point -------------------------------------------

  predicate UsesName(item: Item, p: Path)
  {
    p == item.target || p == Staged(item.target) || p == Kept(item.target)
  }

  /** Files under other names stay as they were. */
  lemma {:induction false} Untouched(before: Files, items: seq<Item>, p: Path)
    requires forall i :: 0 <= i < |items| ==> !UsesName(items[i], p)
    ensures p in RestoreAll(before, items) <==> p in before
    ensures p in before ==> RestoreAll(before, items)[p] == before[p]
  {
    if items != [] {
      Untouched(before, items[..|items| - 1], p);
    }
  }

  /** What one file's restore never touches. */
  lemma BetweenKeeps(fs: Files, item: Item, now: Files, p: Path, data: Data)
    requires Between(fs, item, now) && Holds(fs, p, data)
    requires p != item.target && p != Staged(item.target) && (p == Kept(item.target) ==> item.target !in fs)
    ensures Holds(now, p, data)
  {
  }

  lemma BetweenMoves(fs: Files, item: Item, now: Files)
    requires Between(fs, item, now) && item.target in fs
    ensures Intact(fs, now, item.target)
  {
    NamesDiffer(item.target);
  }

  /** A restored file has kept its old content aside; every other file outside the sacrificed names is unchanged. */
  lemma {:induction false} Progress(before: Files, items: seq<Item>, p: Path)
    requires Separate(items) && p in before && !Sacrificed(before, items, p)
    ensures var now := RestoreAll(before, items);
      if exists i :: 0 <= i < |items| && items[i].target == p then Holds(now, Kept(p), before[p])
      else Holds(now, p, before[p])
  {
    if items != [] {
      var n := |items| - 1;
      var front, x := items[..n], items[n];
      var fs := RestoreAll(before, front);
      SeparateFront(items, n);
      assert !Sacrificed(before, front, p) by {
        assert forall i :: 0 <= i < n ==> front[i] == items[i];
      }
      Progress(before, front, p);
      assert forall i :: 0 <= i < n ==> front[i] == items[i];
      if i :| 0 <= i < n && items[i].target == p {
        assert front[i].target == p && Apart(items[i], x);
        BetweenKeeps(fs, x, RestoreOne(fs, x), Kept(p), before[p]);
      } else {
        FirstMove(before, items, n, p);
      }
    }
  }

  lemma FirstMove(before: Files, items: seq<Item>, n: nat, p: Path)
    requires Separate(items) && n < |items| && p in before && !Sacrificed(before, items, p)
    requires Holds(RestoreAll(before, items[..n]), p, before[p])
    ensures var now := RestoreOne(RestoreAll(before, items[..n]), items[n]);
      if items[n].target == p then Holds(now, Kept(p), before[p]) else Holds(now, p, before[p])
  {
    var front, x := items[..n], items[n];
    var fs := RestoreAll(before, front);
    NotSacrificed(before, items, p, n);
    ApartFromFront(items, n);
    Untouched(before, front, x.target);
    NamesDiffer(x.target);
    if p != x.target {
      BetweenKeeps(fs, x, RestoreOne(fs, x), p, before[p]);
    }
  }

  lemma NotSacrificed(before: Files, items: seq<Item>, p: Path, n: nat)
    requires n < |items| && !Sacrificed(before, items, p)
    ensures p != Staged(items[n].target) && (p == Kept(items[n].target) ==> items[n].target !in before)
  {
  }

  lemma SeparateFront(items: seq<Item>, n: nat)
    requires Separate(items) && n <= |items|
    ensures Separate(items[..n])
  {
  }

  lemma ApartFromFront(items: seq<Item>, n: nat)
    requires Separate(items) && n < |items|
    ensures forall i :: 0 <= i < n ==> !UsesName(items[..n][i], items[n].target)
  {
  }

  /** One file further: every state on the way is safe. */
  lemma RestoreStep(before: Files, items: seq<Item>, n: nat, fs: Files)
    requires n < |items| && fs == RestoreAll(before, items[..n])
    ensures RestoreOne(fs, items[n]) == RestoreAll(before, items[..n + 1])
    ensures Separate(items) ==> forall now :: Between(fs, items[n], now) ==> Safe(before, items, now)
  {
    assert items[..n + 1][..n] == items[..n];
    if Separate(items) {
      forall now, p | Between(fs, items[n], now) && p in before && !Sacrificed(before, items, p)
        ensures Intact(before, now, p)
      {
        StepIntact(before, items, n, now, p);
      }
    }
  }

  lemma StepIntact(before: Files, items: seq<Item>, n: nat, now: Files, p: Path)
    requires Separate(items) && n < |items| && Between(RestoreAll(before, items[..n]), items[n], now)
    requires p in before && !Sacrificed(before, items, p)
    ensures Intact(before, now, p)
  {
    var front, x := items[..n], items[n];
    var fs := RestoreAll(before, front);
    SeparateFront(items, n);
    assert forall i :: 0 <= i < n ==> front[i] == items[i];
    assert !Sacrificed(before, front, p);
    Progress(before, front, p);
    NotSacrificed(before, items, p, n);
    ApartFromFront(items, n);
    Untouched(before, front, x.target);
    if i :| 0 <= i < n && items[i].target == p {
      assert front[i].target == p && Apart(items[i], x);
      BetweenKeeps(fs, x, now, Kept(p), before[p]);
    } else if p == x.target {
      BetweenMoves(fs, x, now);
    } else {
      BetweenKeeps(fs, x, now, p, before[p]);
    }
  }

  // ----- The names of an archive's files ---------------------------------

  lemma SameSuffix(a: string, b: string, suffix: string)
    requires a + suffix == b + suffix
    ensures a == b
  {
    assert a == (a + suffix)[..|a|] && b == (b + suffix)[..|b|];
  }

  lemma EndsIn(p: Path)
    ensures Staged(p).name[|Staged(p).name| - 1] == 'p' && Kept(p).name[|Kept(p).name| - 1] == 'e'
    ensures Staged(p).name[|Staged(p).name| - 12] == '.' && Kept(p).name[|Kept(p).name| - 12] == '.'
    ensures |Staged(p).name| == |p.name| + 12 == |Kept(p).name|
  {
  }

  lemma KeyApart(db: Item, key: Item)
    requires key.target.name in KEY_FILES && !UsesName(key, db.target)
    ensures Apart(db, key)
  {
    EndsIn(db.target);
    EndsIn(key.target);
    var k := key.target.name;
    assert |k| == 11 || (|k| == 14 && k[2] == 'a');
    if Staged(db.target) == Staged(key.target) {
      SameSuffix(db.target.name, k, ".restore-tmp");
    }
    if Kept(db.target) == Kept(key.target) {
      SameSuffix(db.target.name, k, ".pre-restore");
    }
  }

  /** After the database come the key files, in order and at most once. */
  lemma KeyNames(a: Archive, db: Path, config: string, j: nat)
    requires a.database.Some? && 1 <= j < |Items(a, db, config)|
    ensures var items := Items(a, db, config);
      && |items| <= 3 && items[j].target.dir == config && items[j].target.name in KEY_FILES
      && (j == 2 ==> items[1].target.name == SECRET_KEY && items[2].target.name == VAPID_PRIVATE)
  {
    KeyItemNext(a, db, config, 0);
    KeyItemNext(a, db, config, 1);
  }

  lemma ItemsSeparate(a: Archive, db: Path, config: string)
    requires a.database.Some? && NamesApart(db, config)
    ensures Separate(Items(a, db, config))
  {
    var items := Items(a, db, config);
    KeyItemNext(a, db, config, 0);
    KeyItemNext(a, db, config, 1);
    forall i, j | 0 <= i < j < |items|
      ensures Apart(items[i], items[j])
    {
      KeyNames(a, db, config, j);
      if i > 0 {
        KeyNames(a, db, config, i);
        assert items[i].target.name == SECRET_KEY && items[j].target.name == VAPID_PRIVATE;
      }
      KeyApart(items[i], items[j]);
    }
  }

  // ----- A completed restore ---------------------------------------------

  /** What a restore leaves under each name it uses. */
  lemma {:induction false} RestoredAt(before: Files, items: seq<Item>, i: nat)
    requires Separate(items) && i < |items|
    ensures var now, x := RestoreAll(before, items), items[i];
      && Holds(now, x.target, x.data) && Staged(x.target) !in now
      && (x.target in before ==> Holds(now, Kept(x.target), before[x.target]))
      && (x.target !in before && Kept(x.target) in before ==> Holds(now, Kept(x.target), before[Kept(x.target)]))
  {
    var n := |items| - 1;
    var front := items[..n];
    SeparateFront(items, n);
    if i < n {
      assert front[i] == items[i] && Apart(items[i], items[n]);
      RestoredAt(before, front, i);
    } else {
      ApartFromFront(items, n);
      Untouched(before, front, items[n].target);
      NamesDiffer(items[n].target);
      forall j | 0 <= j < n
        ensures !UsesName(front[j], Kept(items[n].target))
      {
        assert Apart(items[j], items[n]);
      }
      Untouched(before, front, Kept(items[n].target));
    }
  }

  function Restored(fs: Files, a: Archive, db: Path, config: string): Files
    requires a.database.Some?
  {
    RestoreAll(fs, Items(a, db, config))
  }

  /**
   Restoring a backup of `past` on a disk `now` puts back the snapshot and every
   key file that was archived; a key file that was not stays as it is now.
   */
  lemma RoundTrip(e: Engine, past: Files, now: Files, db: Path, config: string, key: string)
    requires db in past && NamesApart(db, config) && key in KEY_FILES
    ensures var after, k := Restored(now, Backup(e, past, db, config), db, config), Path(config, key);
      && Holds(after, db, e.snapshot(past[db], LogOf(past, db)))
      && (k in past ==> Holds(after, k, past[k]))
      && (k !in past ==> (k in after <==> k in now) && (k in now ==> after[k] == now[k]))
  {
    var a, k := Backup(e, past, db, config), Path(config, key);
    var items := Items(a, db, config);
    ItemsSeparate(a, db, config);
    RestoredAt(now, items, 0);
    KeyItemNext(a, db, config, 0);
    KeyItemNext(a, db, config, 1);
    if k in past {
      var i := 1 + |KeyItems(a, config, if key == SECRET_KEY then 0 else 1)|;
      assert items[i] == Item(k, past[k]);
      RestoredAt(now, items, i);
    } else {
      OtherName(a, db, config, key);
      Untouched(now, items, k);
    }
  }

  lemma LogUnused(a: Archive, db: Path, config: string)
    requires a.database.Some?
    ensures forall i :: 0 <= i < |Items(a, db, config)| ==> !UsesName(Items(a, db, config)[i], LogFile(db))
  {
    var items, log := Items(a, db, config), LogFile(db).name;
    assert log[|log| - 1] == 'l';
    KeyItemNext(a, db, config, 0);
    KeyItemNext(a, db, config, 1);
    forall i | 0 <= i < |items|
      ensures !UsesName(items[i], LogFile(db))
    {
      EndsIn(items[i].target);
      if i > 0 {
        KeyNames(a, db, config, i);
      }
    }
  }

  /** A restore leaves the log file of the database as it is. */
  lemma LogStays(fs: Files, a: Archive, db: Path, config: string)
    requires a.database.Some?
    ensures LogOf(Restored(fs, a, db, config), db) == LogOf(fs, db)
  {
    LogUnused(a, db, config);
    Untouched(fs, Items(a, db, config), LogFile(db));
  }

  /** What readers find after a restore: the snapshot with whatever log lies beside it replayed. */
  lemma RestoredContent(e: Engine, past: Files, now: Files, db: Path, config: string)
    requires db in past && NamesApart(db, config)
    ensures var after := Restored(now, Backup(e, past, db, config), db, config);
      db in after && ContentOf(e, after, db) == e.read(e.snapshot(past[db], LogOf(past, db)), LogOf(now, db))
  {
    RoundTrip(e, past, now, db, config, SECRET_KEY);
    LogStays(now, Backup(e, past, db, config), db, config);
  }

  /** Readers find after the restore what they found when the backup was made. */
  ghost predicate ContentRestored(e: Engine, past: Files, now: Files, db: Path, config: string)
    requires db in past
  {
    var after := Restored(now, Backup(e, past, db, config), db, config);
    db in after && ContentOf(e, after, db) == ContentOf(e, past, db)
  }

  /** The simplest engine that replays a log: it adds one byte. */
  function Appending(): Engine
  {
    var read := (main: Data, log: Option<Data>) => if log.None? then main else main + [0];
    Engine(read, read)
  }

  /** A log file beside the restored database is replayed into the archived content. */
  lemma StaleLogReplayed(past: Files, now: Files, db: Path, config: string)
    requires db in past && NamesApart(db, config) && LogFile(db) in now
    ensures Consistent(Appending()) && !ContentRestored(Appending(), past, now, db, config)
  {
    RestoredContent(Appending(), past, now, db, config);
  }

  /**
   A restore brings the archived content back, however the database engine reads
   its files, exactly if no log file lies beside the database when it starts.
   */
  lemma RestoredContentExactly(past: Files, now: Files, db: Path, config: string)
    requires db in past && NamesApart(db, config)
    ensures (forall e | Consistent(e) :: ContentRestored(e, past, now, db, config)) <==> LogFile(db) !in now
  {
    if LogFile(db) in now {
      StaleLogReplayed(past, now, db, config);
    } else {
      forall e | Consistent(e)
        ensures ContentRestored(e, past, now, db, config)
      {
        RestoredContent(e, past, now, db, config);
      }
    }
  }

  /** The name of a key file that is not archived is used for nothing else. */
  lemma OtherName(a: Archive, db: Path, config: string, key: string)
    requires a.database.Some? && NamesApart(db, config) && key in KEY_FILES && key !in a.keys
    ensures forall i :: 0 <= i < |Items(a, db, config)| ==> !UsesName(Items(a, db, config)[i], Path(config, key))
  {
    var items, k := Items(a, db, config), Item(Path(config, key), []);
    KeyItemNext(a, db, config, 0);
    KeyItemNext(a, db, config, 1);
    KeyApart(items[0], k);
    forall i | 1 <= i < |items|
      ensures !UsesName(items[i], Path(config, key))
    {
      KeyNames(a, db, config, i);
      EndsIn(items[i].target);
    }
  }

  /**
   Only the last restore can be undone: after a second one the set-aside file
   holds what the first one restored, and what was there before is gone.
   */
  lemma SecondRestoreOverwrites(before: Files, items: seq<Item>, items': seq<Item>, i: nat, i': nat)
    requires Separate(items) && Separate(items') && i < |items| && i' < |items'| && items[i].target == items'[i'].target
    ensures Holds(RestoreAll(RestoreAll(before, items), items'), Kept(items[i].target), items[i].data)
  {
    RestoredAt(before, items, i);
    RestoredAt(RestoreAll(before, items), items', i');
  }

  // ----- A database under a key file's name ------------------------------

  /** What restoring one key file does to the database, wherever that is. */
  predicate Spares(fs: Files, a: Archive, db: Path, config: string, key: string, data: Data)
  {
    var k := Path(config, key);
    key in a.keys ==>
      db != Staged(k) && (db == k ==> a.keys[key] == data) && (db == Kept(k) && k in fs ==> fs[k] == data)
  }

  /** The disk after restoring the database and the first key files. */
  function AfterKeys(fs: Files, a: Archive, db: Path, config: string, n: nat): Files
    requires a.database.Some? && n <= |KEY_FILES|
  {
    if n == 0 then RestoreOne(fs, Item(db, a.database.value))
    else
      var before, key := AfterKeys(fs, a, db, config, n - 1), KEY_FILES[n - 1];
      if key in a.keys then RestoreOne(before, Item(Path(config, key), a.keys[key])) else before
  }

  lemma AfterAllKeys(fs: Files, a: Archive, db: Path, config: string)
    requires a.database.Some?
    ensures Restored(fs, a, db, config) == AfterKeys(fs, a, db, config, |KEY_FILES|)
  {
    var first := [Item(db, a.database.value)];
    assert first[..0] == [];
    assert RestoreAll(fs, first) == AfterKeys(fs, a, db, config, 0);
    KeyFileNext(fs, a, db, config, 0);
    KeyFileNext(fs, a, db, config, 1);
  }

  lemma KeyFileNext(fs: Files, a: Archive, db: Path, config: string, n: nat)
    requires a.database.Some? && n < |KEY_FILES|
    requires RestoreAll(fs, [Item(db, a.database.value)] + KeyItems(a, config, n)) == AfterKeys(fs, a, db, config, n)
    ensures RestoreAll(fs, [Item(db, a.database.value)] + KeyItems(a, config, n + 1))
         == AfterKeys(fs, a, db, config, n + 1)
  {
    var before := [Item(db, a.database.value)] + KeyItems(a, config, n);
    var after := [Item(db, a.database.value)] + KeyItems(a, config, n + 1);
    if KEY_FILES[n] in a.keys {
      assert after[..|after| - 1] == before;
    } else {
      assert after == before;
    }
  }

  lemma OneFile(fs: Files, item: Item, p: Path, data: Data)
    ensures Holds(RestoreOne(fs, item), p, data) <==>
      if p == item.target then item.data == data
      else if p == Staged(item.target) then false
      else if p == Kept(item.target) && item.target in fs then fs[item.target] == data
      else Holds(fs, p, data)
  {
  }

  /** At most one key file uses the database's name. */
  lemma OneUser(db: Path, config: string)
    ensures !UsesName(Item(Path(config, SECRET_KEY), []), db) || !UsesName(Item(Path(config, VAPID_PRIVATE), []), db)
  {
    EndsIn(Path(config, SECRET_KEY));
    EndsIn(Path(config, VAPID_PRIVATE));
  }

  lemma KeyUnmoved(fs: Files, a: Archive, db: Path, config: string, key: string, n: nat)
    requires a.database.Some? && key in KEY_FILES && n <= 1 && (n == 1 ==> key == VAPID_PRIVATE)
    requires db == Kept(Path(config, key))
    ensures Path(config, key) in AfterKeys(fs, a, db, config, n) <==> Path(config, key) in fs
    ensures Path(config, key) in fs ==> AfterKeys(fs, a, db, config, n)[Path(config, key)] == fs[Path(config, key)]
  {
  }

  /**
   Wherever the database is stored, a restore brings it back exactly if no
   archived key file is staged over it, replaces it, or is set aside over it.
   */
  lemma DatabaseRestoredExactly(fs: Files, a: Archive, db: Path, config: string)
    requires a.database.Some?
    ensures Holds(Restored(fs, a, db, config), db, a.database.value)
       <==> Spares(fs, a, db, config, SECRET_KEY, a.database.value)
            && Spares(fs, a, db, config, VAPID_PRIVATE, a.database.value)
  {
    var data := a.database.value;
    assert KEY_FILES[0] == SECRET_KEY && KEY_FILES[1] == VAPID_PRIVATE;
    AfterAllKeys(fs, a, db, config);
    OneFile(fs, Item(db, data), db, data);
    OneUser(db, config);
    if SECRET_KEY in a.keys {
      OneFile(AfterKeys(fs, a, db, config, 0), Item(Path(config, SECRET_KEY), a.keys[SECRET_KEY]), db, data);
      if db == Kept(Path(config, SECRET_KEY)) {
        KeyUnmoved(fs, a, db, config, SECRET_KEY, 0);
      }
    }
    assert Holds(AfterKeys(fs, a, db, config, 1), db, data) <==> Spares(fs, a, db, config, SECRET_KEY, data);
    if VAPID_PRIVATE in a.keys {
      OneFile(AfterKeys(fs, a, db, config, 1), Item(Path(config, VAPID_PRIVATE), a.keys[VAPID_PRIVATE]), db, data);
      if db == Kept(Path(config, VAPID_PRIVATE)) {
        KeyUnmoved(fs, a, db, config, VAPID_PRIVATE, 1);
      }
    }
  }
}
