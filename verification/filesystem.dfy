/** The file system the extractor and the background writer both act on,
    reduced to a map from file path to contents plus the set of created
    directories. Path canonicalisation is not modelled: `Join` follows the
    joining rule of `Path.Combine` and `DirectoryName` takes everything before
    the last separator. */
module FileSystem {
  import opened Common

  newtype byte = x: int | 0 <= x < 256

  type Bytes = seq<byte>

  type Path = string

  const Separator: char := '/'

  datatype Disk = Disk(files: map<Path, Bytes>, dirs: set<Path>)

  /** `File.WriteAllBytes`: create or replace the file with exactly `data`. */
  function WriteAllBytes(d: Disk, path: Path, data: Bytes): (d': Disk)
    ensures path in d'.files && d'.files[path] == data
    ensures d'.files.Keys == d.files.Keys + {path}
    ensures forall p :: p in d.files && p != path ==> d'.files[p] == d.files[p]
    ensures d'.dirs == d.dirs
  {
    d.(files := d.files[path := data])
  }

  /** `Directory.CreateDirectory`: idempotent; an existing directory is kept. */
  function CreateDirectory(d: Disk, path: Path): (d': Disk)
    ensures d'.dirs == d.dirs + {path}
    ensures d'.files == d.files
  {
    d.(dirs := d.dirs + {path})
  }

  /** Nothing already on disk disappears between `d` and `d'`. */
  ghost predicate Grows(d: Disk, d': Disk) {
    d.files.Keys <= d'.files.Keys && d.dirs <= d'.dirs
  }

  /** `Path.Combine(root, rel)`: an empty side yields the other, a rooted
      `rel` replaces `root` altogether, and otherwise one separator joins
      the two unless `root` already ends with one. */
  function Join(root: Path, rel: Path): (p: Path)
    ensures |rel| == 0 ==> p == root
    ensures |rel| > 0 && (rel[0] == Separator || |root| == 0) ==> p == rel
    ensures |rel| > 0 && rel[0] != Separator && |root| > 0 ==>
      && |p| == |root| + |rel| + (if root[|root| - 1] == Separator then 0 else 1)
      && root <= p
      && (root[|root| - 1] != Separator ==> p[|root|] == Separator)
      && p[|p| - |rel|..] == rel
  {
    if |rel| == 0 then root
    else if rel[0] == Separator then rel
    else if |root| == 0 then rel
    else if root[|root| - 1] == Separator then root + rel
    else root + [Separator] + rel
  }

  /** `FileInfo.DirectoryName`: the path up to its last separator, or the
      root itself when that separator is the first character. */
  function DirectoryName(p: Path): (dir: Path)
    ensures |dir| <= |p|
    ensures Separator !in p ==> dir == ""
    ensures Separator in p ==>
      && ((dir == [Separator] && p[0] == Separator) || (0 < |dir| < |p| && dir <= p && p[|dir|] == Separator))
      && forall j :: |dir| < j < |p| ==> p[j] != Separator
  {
    var i := LastIndexOf(p, Separator);
    if i < 0 then
      assert forall j :: 0 <= j < |p| ==> p[j] != Separator;
      assert Separator !in p;
      ""
    else if i == 0 then [Separator]
    else p[..i]
  }

  /** Joining a directory without a trailing separator and a plain file name,
      then taking the directory name, gives the directory back. */
  lemma JoinThenDirectoryName(root: Path, name: Path)
    requires |root| > 0 && root[|root| - 1] != Separator
    requires |name| > 0 && Separator !in name
    ensures DirectoryName(Join(root, name)) == root
  {
    var p := Join(root, name);
    assert p == root + [Separator] + name;
    assert p[|root|] == Separator;
    assert forall j :: |root| < j < |p| ==> p[j] == name[j - |root| - 1];
  }
}
