/**
 The filesystem calls the atomic PEM writer makes. Each of them may fail at any time, and
 everyone else may change the named files whenever the writer lets them; a failed call has no
 effect, except that a failed write leaves a truncated temporary file. On a calm disk no call
 fails by itself and others act only where they are asked to.
 */
module FileSystem {
  import opened Wrappers
  import opened GoStrings

  /** A path callers can name, or one of the names os.CreateTemp makes up. */
  datatype Path = Named(name: string) | Temp(serial: nat)

  /** A regular file, or anything else; `directory` says whether it is a directory or leads to one. */
  datatype Node = File(content: Bytes, mode: nat, inode: nat) | Special(directory: bool)

  /** What Lstat tells about a node. */
  datatype Stat = Stat(regular: bool, mode: nat, inode: nat)

  type Files = map<Path, Node>

  /** os.FileMode.Perm: the nine permission bits. */
  function Perm(mode: nat): nat {
    mode % 0x200
  }

  function StatOf(node: Node): Stat {
    if node.File? then Stat(true, node.mode, node.inode) else Stat(false, 0, 0)
  }

  /** The two filesystems agree about path p. */
  predicate Same(a: Files, b: Files, p: Path) {
    (p in a <==> p in b) && (p in a ==> a[p] == b[p])
  }

  /**
   `files` is the disk. The ghost fields say who wrote what: `outside` is the disk as everyone
   else left it, `temps` are the temporary files of the writer that are still there, and
   `removalFailed` records that one of them could not be removed.
   */
  class FileSystem {
    const calm: bool
    var files: Files
    var serial: nat
    var inode: nat
    ghost var outside: Files
    ghost var temps: set<Path>
    ghost var removalFailed: bool

    ghost predicate Valid()
      reads this
    {
      && (forall p <- temps :: p.Temp? && p in files && p !in outside)
      && (forall n: nat :: Temp(n) in files || Temp(n) in outside ==> n < serial)
    }

    /** Apart from the given paths and the writer's temporary files, the disk is what others made it. */
    ghost predicate Untouched(except: set<Path>)
      reads this
    {
      forall p: Path :: p !in temps && p !in except ==> Same(files, outside, p)
    }

    constructor (files: Files, serial: nat, calm: bool)
      requires forall n: nat :: Temp(n) in files ==> n < serial
      ensures Valid() && Untouched({}) && temps == {} && !removalFailed
      ensures this.files == files && outside == files && this.calm == calm
    {
      this.calm := calm;
      this.files, this.serial, this.inode := files, serial, 0;
      outside, temps, removalFailed := files, {}, false;
    }

    /** Whether the next call fails, for whatever reason. */
    method Fails() returns (fails: bool)
      ensures calm ==> !fails
    {
      fails := *;
      fails := fails && !calm;
    }

    /** Someone else writes a named file. */
    method OthersWrite(name: string, node: Node)
      requires Valid() && Untouched({})
      modifies this`files, this`outside
      ensures Valid() && Untouched({})
      ensures files == old(files)[Named(name) := node] && outside == old(outside)[Named(name) := node]
    {
      files, outside := files[Named(name) := node], outside[Named(name) := node];
    }

    /** Everyone else changes named files as they like. */
    method Interfere()
      requires Valid() && Untouched({})
      modifies this`files, this`outside
      ensures Valid() && Untouched({})
      ensures forall p: Path :: p.Temp? ==> Same(files, old(files), p)
      ensures calm ==> files == old(files) && outside == old(outside)
    {
      if calm {
        return;
      }
      var changes: nat := *;
      while changes > 0
        invariant Valid() && Untouched({})
        invariant forall p: Path :: p.Temp? ==> Same(files, old(files), p)
      {
        var name: string := *;
        var node: Node := *;
        if * {
          files, outside := files[Named(name) := node], outside[Named(name) := node];
        } else {
          files, outside := files - {Named(name)}, outside - {Named(name)};
        }
        changes := changes - 1;
      }
    }

    method Lstat(p: Path) returns (r: Result<Option<Stat>, ()>)
      ensures r.Ok? ==> r.value == (if p in files then Some(StatOf(files[p])) else None)
      ensures calm ==> r.Ok?
    {
      var fails := Fails();
      if fails {
        return Err(());
      }
      r := Ok(if p in files then Some(StatOf(files[p])) else None);
    }

    /** os.Stat, which follows links, and IsDir. */
    method IsDirectory(p: Path) returns (r: Result<bool, ()>)
      ensures r.Ok? ==> p in files && r.value == (files[p].Special? && files[p].directory)
      ensures calm && p in files ==> r.Ok?
    {
      var fails := Fails();
      if fails {
        return Err(());
      }
      r := if p in files then Ok(files[p].Special? && files[p].directory) else Err(());
    }

    /** Open, fstat and read a file of at most `limit` bytes that must still be the expected one. */
    method ReadExpected(p: Path, expected: Stat, limit: nat) returns (r: Result<Node, ()>)
      ensures r.Ok? ==> p in files && files[p] == r.value && r.value.File? && r.value.inode == expected.inode
      ensures r.Ok? ==> |r.value.content| <= limit
      ensures calm && p in files && files[p].File? && files[p].inode == expected.inode && |files[p].content| <= limit ==> r.Ok?
    {
      var fails := Fails();
      if fails {
        return Err(());
      }
      if p !in files || !files[p].File? || files[p].inode != expected.inode || |files[p].content| > limit {
        return Err(());
      }
      r := Ok(files[p]);
    }

    /** os.ReadFile. */
    method ReadFile(p: Path) returns (r: Result<Bytes, ()>)
      ensures r.Ok? ==> p in files && files[p].File? && files[p].content == r.value
      ensures calm && p in files && files[p].File? ==> r.Ok?
    {
      var fails := Fails();
      if fails {
        return Err(());
      }
      r := if p in files && files[p].File? then Ok(files[p].content) else Err(());
    }

    method CreateTemp() returns (r: Result<Path, ()>)
      requires Valid()
      modifies this
      ensures Valid() && outside == old(outside) && removalFailed == old(removalFailed)
      ensures r.Err? ==> files == old(files) && temps == old(temps)
      ensures r.Ok? ==> r.value.Temp? && r.value !in old(files) && r.value !in old(temps)
      ensures r.Ok? ==> r.value in files && files[r.value].File? && files == old(files)[r.value := files[r.value]]
      ensures r.Ok? ==> temps == old(temps) + {r.value}
      ensures calm ==> r.Ok?
    {
      var fails := Fails();
      if fails {
        return Err(());
      }
      var p := Temp(serial);
      files := files[p := File([], 0x180, inode)];
      temps := temps + {p};
      serial, inode := serial + 1, inode + 1;
      r := Ok(p);
    }

    /** io.Copy into a temporary file: on failure some prefix has been written. */
    method Write(p: Path, content: Bytes) returns (ok: bool)
      requires Valid() && p in temps && files[p].File?
      modifies this`files
      ensures Valid() && p in files && files[p].File?
      ensures files == old(files)[p := files[p]]
      ensures ok ==> files[p].content == content
      ensures calm ==> ok
    {
      var fails := Fails();
      ok := !fails;
      var k: int := *;
      if !ok && 0 <= k <= |content| {
        files := files[p := files[p].(content := content[..k])];
        return;
      }
      if ok {
        files := files[p := files[p].(content := content)];
      }
    }

    method Chmod(p: Path, mode: nat) returns (ok: bool)
      requires Valid() && p in files && files[p].File?
      modifies this`files
      ensures Valid()
      ensures files == if ok then old(files)[p := old(files)[p].(mode := mode)] else old(files)
      ensures calm ==> ok
    {
      var fails := Fails();
      ok := !fails;
      if ok {
        files := files[p := files[p].(mode := mode)];
      }
    }

    /** fsync of a file or of directories: no effect the model sees, but it may fail. */
    method Sync() returns (ok: bool)
      ensures calm ==> ok
    {
      var fails := Fails();
      ok := !fails;
    }

    /** os.Rename replaces the target in one step or not at all. */
    method Rename(from: Path, to: Path) returns (ok: bool)
      requires Valid() && from in temps && to.Named?
      modifies this`files, this`temps
      ensures Valid()
      ensures ok ==> files == (old(files) - {from})[to := old(files)[from]] && temps == old(temps) - {from}
      ensures !ok ==> files == old(files) && temps == old(temps)
      ensures calm ==> ok
    {
      var fails := Fails();
      ok := !fails;
      if ok {
        files := (files - {from})[to := files[from]];
        temps := temps - {from};
      }
    }

    /** Removal of a temporary file, whose error is ignored by every caller. */
    method RemoveTemp(p: Path)
      requires Valid() && p in temps
      modifies this`files, this`temps, this`removalFailed
      ensures Valid()
      ensures removalFailed ==> old(removalFailed) || p in temps
      ensures !removalFailed ==> !old(removalFailed) && files == old(files) - {p} && temps == old(temps) - {p}
      ensures calm ==> removalFailed == old(removalFailed)
      ensures (files == old(files) && temps == old(temps)) || (files == old(files) - {p} && temps == old(temps) - {p})
    {
      var fails := Fails();
      if fails {
        removalFailed := true;
      } else {
        files := files - {p};
        temps := temps - {p};
      }
    }

    /** os.Remove of a target; a file that is already gone is no error to the caller. */
    method RemoveTarget(p: Path) returns (ok: bool)
      requires Valid() && p.Named?
      modifies this`files
      ensures Valid()
      ensures files == if ok then old(files) - {p} else old(files)
      ensures calm ==> ok
    {
      var fails := Fails();
      ok := !fails;
      if ok {
        files := files - {p};
      }
    }
  }
}
