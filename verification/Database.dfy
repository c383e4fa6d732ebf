/**
  The table of registered store paths and the files below /miq/store
  (src/db.rs, and `clean_path` of src/build.rs).
 */
module Database {
  import opened Common

  /** A file or directory in the store: still being written, or a finished output. */
  datatype File = Partial(bytes: string) | Complete(bytes: string)

  datatype World = World(table: set<string>, files: map<string, File>)

  /** What the store knows about one path. */
  datatype Slot = Slot(registered: bool, file: Option<File>)

  function At(w: World, path: string): Slot {
    Slot(path in w.table, if path in w.files then Some(w.files[path]) else None)
  }

  function Put(w: World, path: string, s: Slot): World {
    World(
      if s.registered then w.table + {path} else w.table - {path},
      match s.file
      case Some(f) => w.files[path := f]
      case None => w.files - {path})
  }

  /** Writing one path leaves every other path as it was. */
  lemma PutAt(w: World, path: string, s: Slot, other: string)
    ensures At(Put(w, path, s), other) == if other == path then s else At(w, other)
  {
  }

  /** A store is determined by what it knows about each path. */
  lemma SameSlots(v: World, w: World)
    requires forall p :: At(v, p) == At(w, p)
    ensures v == w
  {
    forall p ensures (p in v.table <==> p in w.table) && (p in v.files <==> p in w.files) {
      assert At(v, p) == At(w, p);
    }
    forall p | p in v.files ensures v.files[p] == w.files[p] {
      assert At(v, p) == At(w, p);
    }
  }

  /** A registered path holds a finished output. */
  predicate SoundSlot(s: Slot) {
    s.registered ==> s.file.Some? && s.file.value.Complete?
  }

  /** What there is to read behind some slots: complete outputs, and also incomplete ones. */
  function ReadSlots<K>(slots: map<K, Slot>): map<K, File> {
    map d | d in slots && slots[d].file.Some? :: slots[d].file.value
  }

  lemma ReadComplete<K>(slots: map<K, Slot>, files: map<K, File>)
    requires slots.Keys == files.Keys
    requires forall d :: d in slots ==> slots[d].file == Some(files[d])
    ensures ReadSlots(slots) == files
  {
  }

  function Without(rows: seq<string>, path: string): (r: seq<string>)
    ensures forall p :: p in r <==> p in rows && p != path
    ensures path !in rows ==> r == rows
  {
    if rows == [] then []
    else if rows[0] == path then Without(rows[1..], path)
    else [rows[0]] + Without(rows[1..], path)
  }

  lemma {:induction false} WithoutKeepsDistinct(rows: seq<string>, path: string)
    requires NoDuplicates(rows)
    ensures NoDuplicates(Without(rows, path))
  {
    if rows != [] {
      var rest := Without(rows[1..], path);
      WithoutKeepsDistinct(rows[1..], path);
      assert rows[0] !in rows[1..] && rows[0] !in rest;
      assert Without(rows, path) == if rows[0] == path then rest else [rows[0]] + rest;
    }
  }

  /** How the operating system answers a request to delete a path. */
  datatype OsReply = Works | Refuses | Breaks(left: string)

  /** What deleting leaves of a file; nothing comes into being. */
  function Cleaned(file: Option<File>, os: OsReply): Option<File> {
    match os
    case Works => None
    case Refuses => file
    case Breaks(left) => if file.None? then None else Some(Partial(left))
  }

  function Removed(s: Slot, os: OsReply, dbWorks: bool): Slot {
    if os.Works? && dbWorks then Slot(false, None) else s.(file := Cleaned(s.file, os))
  }

  class DbConnection {
    var rows: seq<string>
    var files: map<string, File>

    /** The table has a primary key: no path is listed twice. */
    ghost predicate Valid()
      reads this
    {
      NoDuplicates(rows)
    }

    ghost function View(): World
      reads this
    {
      World((set r | r in rows), files)
    }

    /** Opens the database of an existing store. */
    constructor (rows: seq<string>, files: map<string, File>)
      requires NoDuplicates(rows)
      ensures Valid() && View() == World((set r | r in rows), files)
    {
      this.rows, this.files := rows, files;
    }

    method IsDbPath(path: string) returns (known: bool)
      ensures known <==> At(View(), path).registered
    {
      known := path in rows;
    }

    /** Registers a path; a path that is already listed is not listed again. */
    method Add(path: string)
      requires Valid()
      modifies this
      ensures Valid()
      ensures rows == if path in old(rows) then old(rows) else old(rows) + [path]
      ensures View() == Put(old(View()), path, old(At(View(), path)).(registered := true))
    {
      var known := IsDbPath(path);
      if !known {
        rows := rows + [path];
      }
    }

    /** Deletes a path, file or directory; a path that does not exist needs no deletion. */
    method CleanPath(path: string, os: OsReply) returns (ok: bool)
      modifies this`files
      ensures ok <==> os.Works?
      ensures View() == Put(old(View()), path, old(At(View(), path)).(file := Cleaned(old(At(View(), path)).file, os)))
    {
      match os {
        case Works =>
          if path in files {
            files := files - {path};
          }
          ok := true;
        case Refuses =>
          ok := false;
        case Breaks(left) =>
          if path in files {
            files := files[path := Partial(left)];
          }
          ok := false;
      }
    }

    /**
      Deletes the path and then its row, under one lock. When the deletion fails,
      or the row cannot be deleted afterwards, the row stays whatever is left of the path.
     */
    method Remove(path: string, os: OsReply, dbWorks: bool) returns (ok: bool)
      requires Valid()
      modifies this
      ensures Valid()
      ensures ok <==> os.Works? && dbWorks
      ensures rows == if ok then Without(old(rows), path) else old(rows)
      ensures View() == Put(old(View()), path, Removed(old(At(View(), path)), os, dbWorks))
    {
      var cleaned := CleanPath(path, os);
      if !cleaned || !dbWorks {
        return false;
      }
      WithoutKeepsDistinct(rows, path);
      rows := Without(rows, path);
      ok := true;
    }
  }
}
