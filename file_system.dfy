/** The directories and files the converters see and change. */
module FileSystem {
  import opened Paths

  class Disk {
    var dirs: set<string>
    var files: map<FilePath, seq<bv8>>

    /** Every file lies in a directory that exists. */
    ghost predicate Valid()
      reads this
    {
      forall p :: p in files ==> p.dir in dirs
    }

    constructor(dirs0: set<string>, files0: map<FilePath, seq<bv8>>)
      requires forall p :: p in files0 ==> p.dir in dirs0
      ensures Valid() && dirs == dirs0 && files == files0
    {
      dirs := dirs0;
      files := files0;
    }

    /** `Path(dir).mkdir(parents=True, exist_ok=True)`. */
    method MakeDirs(dir: string)
      requires Valid()
      modifies this
      ensures Valid() && dirs == old(dirs) + {dir} && files == old(files)
    {
      dirs := dirs + {dir};
    }

    /** Saving a file into an existing directory: creates or replaces it. */
    method WriteFile(path: FilePath, data: seq<bv8>)
      requires Valid() && path.dir in dirs
      modifies this
      ensures Valid() && files == old(files)[path := data] && dirs == old(dirs)
    {
      files := files[path := data];
    }

    /** `os.remove(path)` of an existing file. */
    method RemoveFile(path: FilePath)
      requires Valid() && path in files
      modifies this
      ensures Valid() && files == old(files) - {path} && dirs == old(dirs)
    {
      files := files - {path};
    }

    /** `Path(dir).rmdir()`: removes the directory when it exists and no
        file is left in it, and reports whether it did. */
    method RemoveDir(dir: string) returns (ok: bool)
      requires Valid()
      modifies this
      ensures ok <==> dir in old(dirs) && !HoldsFiles(old(files), dir)
      ensures Valid() && files == old(files) && dirs == if ok then old(dirs) - {dir} else old(dirs)
    {
      ok := dir in dirs && !exists p :: p in files && p.dir == dir;
      if ok {
        dirs := dirs - {dir};
      }
    }

    /** Unlinking every file of `dir`, then removing `dir`. */
    method ClearDir(dir: string)
      requires Valid()
      modifies this
      ensures Valid() && files == Without(old(files), dir) && dirs == old(dirs) - {dir}
    {
      files := map p | p in files && p.dir != dir :: files[p];
      dirs := dirs - {dir};
    }
  }

  /** Some file lies directly in `dir`. */
  predicate HoldsFiles(files: map<FilePath, seq<bv8>>, dir: string)
  {
    exists p :: p in files && p.dir == dir
  }

  /** The files outside `dir`. */
  function Without(files: map<FilePath, seq<bv8>>, dir: string): (r: map<FilePath, seq<bv8>>)
    ensures !HoldsFiles(r, dir)
    ensures forall p :: p in r <==> p in files && p.dir != dir
    ensures forall p :: p in r ==> r[p] == files[p]
  {
    map p | p in files && p.dir != dir :: files[p]
  }

  /** No path occurs twice. */
  predicate Distinct(paths: seq<FilePath>)
  {
    forall i, j :: 0 <= i < j < |paths| ==> paths[i] != paths[j]
  }

  lemma DistinctPrefix(paths: seq<FilePath>, n: nat)
    requires Distinct(paths) && n <= |paths|
    ensures Distinct(paths[..n])
  {
  }

  /** The files after `data[k]` is saved as `paths[k]`, for each k in turn. */
  function WriteAll(files: map<FilePath, seq<bv8>>, paths: seq<FilePath>, data: seq<seq<bv8>>): map<FilePath, seq<bv8>>
    requires |paths| == |data|
  {
    if paths == [] then files
    else WriteAll(files, paths[..|paths| - 1], data[..|data| - 1])[paths[|paths| - 1] := data[|data| - 1]]
  }

  /** After saving distinct paths in turn, each path holds its own data and
      every other file is as it was. */
  lemma WriteAllMeaning(files: map<FilePath, seq<bv8>>, paths: seq<FilePath>, data: seq<seq<bv8>>)
    requires |paths| == |data| && Distinct(paths)
    ensures forall k :: 0 <= k < |paths| ==> paths[k] in WriteAll(files, paths, data) && WriteAll(files, paths, data)[paths[k]] == data[k]
    ensures forall p :: p !in paths ==> (p in WriteAll(files, paths, data) <==> p in files)
    ensures forall p :: p !in paths && p in files ==> WriteAll(files, paths, data)[p] == files[p]
  {
    WriteAllSaves(files, paths, data);
    WriteAllKeeps(files, paths, data);
  }

  /** Each of distinct saved paths holds its own data. */
  lemma {:induction false} WriteAllSaves(files: map<FilePath, seq<bv8>>, paths: seq<FilePath>, data: seq<seq<bv8>>)
    requires |paths| == |data| && Distinct(paths)
    ensures forall k :: 0 <= k < |paths| ==> paths[k] in WriteAll(files, paths, data) && WriteAll(files, paths, data)[paths[k]] == data[k]
    decreases |paths|
  {
    if paths != [] {
      var n := |paths| - 1;
      var ps, ds := paths[..n], data[..n];
      WriteAllSaves(files, ps, ds);
      var w := WriteAll(files, ps, ds);
      assert WriteAll(files, paths, data) == w[paths[n] := data[n]];
      forall k | 0 <= k < |paths|
        ensures paths[k] in WriteAll(files, paths, data) && WriteAll(files, paths, data)[paths[k]] == data[k]
      {
        if k < n {
          assert paths[k] != paths[n];
          assert ps[k] == paths[k] && ds[k] == data[k];
        }
      }
    }
  }

  /** A path that is not saved is untouched. */
  lemma {:induction false} WriteAllKeeps(files: map<FilePath, seq<bv8>>, paths: seq<FilePath>, data: seq<seq<bv8>>)
    requires |paths| == |data|
    ensures forall p :: p !in paths ==> (p in WriteAll(files, paths, data) <==> p in files)
    ensures forall p :: p !in paths && p in files ==> WriteAll(files, paths, data)[p] == files[p]
    decreases |paths|
  {
    if paths != [] {
      var n := |paths| - 1;
      var ps, ds := paths[..n], data[..n];
      WriteAllKeeps(files, ps, ds);
      forall p | p !in paths
        ensures p !in ps && p != paths[n]
      {
        assert forall k :: 0 <= k < n ==> ps[k] == paths[k];
      }
    }
  }

  /** Saving one more file on top of a run of saves. */
  lemma WriteAllSnoc(files: map<FilePath, seq<bv8>>, paths: seq<FilePath>, data: seq<seq<bv8>>, p: FilePath, d: seq<bv8>)
    requires |paths| == |data|
    ensures WriteAll(files, paths + [p], data + [d]) == WriteAll(files, paths, data)[p := d]
  {
    assert (paths + [p])[..|paths|] == paths;
    assert (data + [d])[..|data|] == data;
  }
}
