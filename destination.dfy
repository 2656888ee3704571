/**
 * The destination directory `new_root` as the operations change it: the
 * sub-folders that exist in it, and, per folder, the names of the files this
 * run copied there, in copy order. `Root` stands for `new_root` itself.
 */
module Destination {

  /** The key under which copies into `new_root` itself are logged. */
  const Root: string := ""

  /** What a copy log records for folder `f` (nothing, for a folder it does not mention). */
  function Lookup(log: map<string, seq<string>>, f: string): seq<string> {
    if f in log then log[f] else []
  }

  class Destination {
    /** Names of the sub-folders of `new_root`. */
    var folders: set<string>
    /** For `Root` and every sub-folder: the file names copied into it so far. */
    var copies: map<string, seq<string>>

    ghost predicate Valid()
      reads this
    {
      Root !in folders && copies.Keys == folders + {Root}
    }

    /** What was copied into folder `f` (nothing, for a folder that does not exist). */
    function Copied(f: string): seq<string>
      reads this
    {
      Lookup(copies, f)
    }

    /** A destination whose sub-folders are `existing`, into which nothing has been copied yet. */
    constructor (existing: set<string>)
      requires Root !in existing
      ensures Valid() && folders == existing
      ensures forall f :: Copied(f) == []
    {
      folders := existing;
      copies := map f | f in existing + {Root} :: [];
    }

    /** `os.path.exists(os.path.join(new_root, name))` for a sub-folder name. */
    method Exists(name: string) returns (b: bool)
      requires Valid()
      ensures b <==> name in folders
    {
      b := name in folders;
    }

    /** `os.mkdir(os.path.join(new_root, name))`; the real call raises when the folder exists. */
    method MakeDir(name: string)
      requires Valid() && name != Root && name !in folders
      modifies this
      ensures Valid() && folders == old(folders) + {name}
      ensures forall f :: Lookup(copies, f) == Lookup(old(copies), f)
    {
      folders := folders + {name};
      copies := copies[name := []];
    }

    /** `shutil.copy(src, folder)` where `name` is the source's bare file name. */
    method Copy(name: string, into: string)
      requires Valid() && (into == Root || into in folders)
      modifies this
      ensures Valid() && folders == old(folders)
      ensures Lookup(copies, into) == Lookup(old(copies), into) + [name]
      ensures forall f :: f != into ==> Lookup(copies, f) == Lookup(old(copies), f)
    {
      copies := copies[into := copies[into] + [name]];
    }
  }
}
