/** What a process sees of a directory tree: total functions, so that a symbolic-link
    cycle gives the infinitely many paths it really has. */
module FileSystem {
  import opened Wrappers
  import opened Paths

  /** An os.DirEntry: its name and the type bits of lstat. */
  datatype DirEntry = DirEntry(name: string, isDir: bool, isSymlink: bool)

  /** The names in one directory are distinct and are single path elements. */
  predicate ValidListing(list: seq<DirEntry>) {
    && (forall i :: 0 <= i < |list| ==> GoodName(list[i].name))
    && (forall i, j :: 0 <= i < j < |list| ==> list[i].name != list[j].name)
  }

  type Listing = list: seq<DirEntry> | ValidListing(list) witness []

  /** readDir: os.ReadDir in its order, None on error. stat: os.Stat, Some(is a directory).
      resolve: filepath.EvalSymlinks. */
  datatype Tree = Tree(
    readDir: string -> Option<Listing>,
    stat: string -> Option<bool>,
    resolve: string -> Option<string>)

  /** The walk's test for a directory: the entry itself, or a link that stats as one. */
  predicate IsDirectory(tree: Tree, path: string, d: DirEntry) {
    d.isDir || (d.isSymlink && tree.stat(path) == Some(true))
  }
}
