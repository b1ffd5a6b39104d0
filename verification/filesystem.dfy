/** The abstract filesystem the shader cache lives on. `FileSystem.h` is not part of this
    model: its `exists`, `create_directory`, `remove_all` and `combine_path`, and the
    standard file streams, are given the meaning below. A path in `locked` stands for one
    the operating system refuses to create, delete or open for writing. */
module FileSystem {
  import opened Wrappers

  type Byte = x: int | 0 <= x < 0x100
  type Bytes = seq<Byte>
  type Path = string

  datatype Fs = Fs(files: map<Path, Bytes>, dirs: set<Path>, locked: set<Path>)

  /** `filesystem::exists`: a file or a directory. */
  predicate Exists(fs: Fs, p: Path) {
    p in fs.files || p in fs.dirs
  }

  /** What `tellg` reports after opening a stream at its end: the length of a file, or -1
      when the path cannot be opened as a file. */
  function Size(fs: Fs, p: Path): (n: int)
    ensures n >= 0 <==> p in fs.files
    ensures p in fs.files ==> n == |fs.files[p]|
  {
    if p in fs.files then |fs.files[p]| else -1
  }

  /** `p` lies at or below the directory path `dir`. */
  predicate Under(p: Path, dir: Path) {
    |dir| <= |p| && p[..|dir|] == dir
  }

  /** Paths outside `dir` are the same in both filesystems. */
  ghost predicate SameOutside(a: Fs, b: Fs, dir: Path) {
    && (forall p :: !Under(p, dir) ==> (p in a.files <==> p in b.files))
    && (forall p :: !Under(p, dir) && p in a.files ==> p in b.files && a.files[p] == b.files[p])
    && (forall p :: !Under(p, dir) ==> (p in a.dirs <==> p in b.dirs))
    && a.locked == b.locked
  }

  /** `combine_path`: one backslash between the parts, none added when `dir` already ends
      in one. */
  function Combine(dir: Path, name: Path): (p: Path)
    ensures Under(p, dir)
    ensures |p| >= |dir| + |name| && p[|p| - |name|..] == name
  {
    if |dir| > 0 && dir[|dir| - 1] == '\\' then dir + name else dir + "\\" + name
  }

  /** `filesystem::remove_all`: everything at or below `dir` goes, unless some of it is
      locked, in which case nothing is removed and the call reports failure. */
  function RemoveAll(fs: Fs, dir: Path): (r: Option<Fs>)
    ensures r.Some? <==> forall p :: p in fs.locked ==> !Under(p, dir)
    ensures r.Some? ==> forall p :: Exists(r.value, p) <==> Exists(fs, p) && !Under(p, dir)
    ensures r.Some? ==> SameOutside(fs, r.value, dir)
  {
    if exists p :: p in fs.locked && Under(p, dir) then None
    else Some(Fs(
      (map p | p in fs.files && !Under(p, dir) :: fs.files[p]),
      (set p | p in fs.dirs && !Under(p, dir)),
      fs.locked))
  }

  /** `filesystem::create_directory`: fails for a locked path or one that already exists. */
  function CreateDirectory(fs: Fs, dir: Path): (r: Option<Fs>)
    ensures r.Some? <==> dir !in fs.locked && !Exists(fs, dir)
    ensures r.Some? ==> r.value.dirs == fs.dirs + {dir} && r.value.files == fs.files && r.value.locked == fs.locked
  {
    if dir in fs.locked || Exists(fs, dir) then None
    else Some(fs.(dirs := fs.dirs + {dir}))
  }

  /** Opening a binary output stream on `p`, which `combine_path` composed inside the folder
      `dir`, and writing `data`: the file is created or truncated. Opening fails when the
      folder does not exist, and for a locked path or a directory. */
  function WriteFile(fs: Fs, dir: Path, p: Path, data: Bytes): (r: Option<Fs>)
    ensures r.Some? <==> dir in fs.dirs && p !in fs.locked && p !in fs.dirs
    ensures r.Some? ==> p in r.value.files && r.value.files[p] == data
    ensures r.Some? ==> forall q :: q != p ==> (q in r.value.files <==> q in fs.files)
    ensures r.Some? ==> forall q :: q != p && q in fs.files ==> r.value.files[q] == fs.files[q]
    ensures r.Some? ==> r.value.dirs == fs.dirs && r.value.locked == fs.locked
  {
    if dir !in fs.dirs || p in fs.locked || p in fs.dirs then None
    else Some(fs.(files := fs.files[p := data]))
  }

  /** Whatever is written reads back, at the length written. */
  lemma WriteThenRead(fs: Fs, dir: Path, p: Path, data: Bytes)
    requires dir in fs.dirs && p !in fs.locked && p !in fs.dirs
    ensures WriteFile(fs, dir, p, data).Some?
    ensures Size(WriteFile(fs, dir, p, data).value, p) == |data|
    ensures WriteFile(fs, dir, p, data).value.files[p] == data
  {
  }

  /** After a successful `remove_all`, nothing at or below the directory exists. */
  lemma RemoveAllEmpties(fs: Fs, dir: Path, p: Path)
    requires RemoveAll(fs, dir).Some? && Under(p, dir)
    ensures !Exists(RemoveAll(fs, dir).value, p)
  {
  }
}
