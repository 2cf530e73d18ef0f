/**
  Which files the privacy scan reads (`should_scan_file` and `get_files`):
  a file is scanned when its lower-cased suffix is one of the source-code
  extensions and none of its path components is a directory to skip.
 */
module FileFilter {
  import opened Strings
  import opened Sequences

  /** `SCAN_EXTENSIONS`. */
  const ScanExtensions: set<string> := {
    ".ts", ".tsx", ".js", ".jsx", ".py", ".java", ".cs", ".go", ".rb", ".php",
    ".swift", ".kt", ".scala", ".rs", ".cpp", ".c", ".h"
  }

  /** `SKIP_DIRS`. */
  const SkipDirs: set<string> := {
    "node_modules", "vendor", "venv", ".venv", "__pycache__",
    "dist", "build", ".git", ".svn", "target", "bin", "obj"
  }

  /**
    A POSIX path as pathlib splits it: an anchor ("/" for an absolute path,
    "" for a relative one) and the names below it.
   */
  datatype Path = Path(anchor: string, names: seq<string>)
  {
    /** `path.parts`: the anchor, if any, then every name. */
    function Parts(): seq<string>
    {
      if anchor == "" then names else [anchor] + names
    }

    /** `path.name`: the final name, empty when there is none. */
    function Name(): string
    {
      if names == [] then "" else names[|names| - 1]
    }

    /** `str(path)`. */
    function Text(): string
    {
      if names == [] then (if anchor == "" then "." else anchor)
      else anchor + Join(names, '/')
    }
  }

  /** `s.rfind(c)`: the index of the last `c` in `s`, or -1 when there is none. */
  function LastIndexOf(s: string, c: char): (i: int)
    ensures -1 <= i < |s|
    ensures i >= 0 ==> s[i] == c
    ensures forall k :: i < k < |s| ==> s[k] != c
    decreases |s|
  {
    if s == [] then -1
    else if s[|s| - 1] == c then |s| - 1
    else LastIndexOf(s[..|s| - 1], c)
  }

  /**
    `path.suffix` for a final name: the text from its last dot, or nothing when
    that dot is the name's first or last character or the name has no dot.
   */
  function Suffix(name: string): (r: string)
    ensures r != [] <==>
      name != [] && name[|name| - 1] != '.' && exists k :: 1 <= k < |name| && name[k] == '.'
    ensures r != [] ==> 2 <= |r| < |name| && r == name[|name| - |r|..] && r[0] == '.' && '.' !in r[1..]
  {
    var i := LastIndexOf(name, '.');
    if 0 < i < |name| - 1 then name[i..] else ""
  }

  /** The `for part in path.parts` loop: some component is a directory to skip. */
  function HasSkippedPart(parts: seq<string>): (r: bool)
    ensures r <==> exists i :: 0 <= i < |parts| && parts[i] in SkipDirs
  {
    if parts == [] then false
    else if parts[0] in SkipDirs then true
    else HasSkippedPart(parts[1..])
  }

  /**
    `should_scan_file`: the lower-cased suffix is a scanned extension and no
    component at any depth, the anchor and the final name included, is a
    directory to skip.
   */
  function ShouldScanFile(path: Path): (r: bool)
    ensures r <==>
      Lower(Suffix(path.Name())) in ScanExtensions
      && forall i :: 0 <= i < |path.Parts()| ==> path.Parts()[i] !in SkipDirs
  {
    if Lower(Suffix(path.Name())) !in ScanExtensions then false
    else !HasSkippedPart(path.Parts())
  }

  /** A name without a dot after its first character has no suffix, so its file is never scanned. */
  lemma {:induction false} NoDotNotScanned(path: Path)
    requires forall k :: 1 <= k < |path.Name()| ==> path.Name()[k] != '.'
    ensures !ShouldScanFile(path)
  {
    assert Suffix(path.Name()) == [];
    assert Lower([]) == [];
  }

  /**
    `Main.\u212At` is scanned: Python lowers the Kelvin sign to `k`, so the
    suffix lowers to `.kt`.
   */
  lemma KelvinSuffixScanned()
    ensures ShouldScanFile(Path("", ["Main.\U{212A}t"]))
  {
    var name := "Main.\U{212A}t";
    assert LastIndexOf(name, '.') == 4;
    assert Suffix(name) == ".\U{212A}t";
    assert Lower(".\U{212A}t") == ".kt";
  }

  /** One entry of the recursive listing `root.rglob('*')`: a path and whether it is a regular file. */
  datatype Entry = Entry(path: Path, isFile: bool)

  /** The paths of a listing, in listing order. */
  function PathsOf(listing: seq<Entry>): seq<Path>
  {
    seq(|listing|, i requires 0 <= i < |listing| => listing[i].path)
  }

  /** The listed regular files that `keep` accepts, in listing order. */
  function FilesWhere(listing: seq<Entry>, keep: Path -> bool): (files: seq<Path>)
    ensures forall p :: p in files <==>
      exists i :: 0 <= i < |listing| && listing[i].path == p && listing[i].isFile && keep(p)
  {
    if listing == [] then []
    else
      var init := listing[..|listing| - 1];
      var last := listing[|listing| - 1];
      assert forall i :: 0 <= i < |init| ==> init[i] == listing[i];
      FilesWhere(init, keep) + (if last.isFile && keep(last.path) then [last.path] else [])
  }

  /** The selected files keep the order in which the listing yields them. */
  lemma {:induction false} FilesWhereInListingOrder(listing: seq<Entry>, keep: Path -> bool)
    ensures Subsequence(FilesWhere(listing, keep), PathsOf(listing))
  {
    if listing != [] {
      var init := listing[..|listing| - 1];
      var last := listing[|listing| - 1];
      FilesWhereInListingOrder(init, keep);
      assert PathsOf(listing) == PathsOf(init) + [last.path];
      SubsequenceExtend(FilesWhere(init, keep), PathsOf(init), last.path);
      if last.isFile && keep(last.path) {
        assert FilesWhere(listing, keep) == FilesWhere(init, keep) + [last.path];
      } else {
        assert FilesWhere(listing, keep) == FilesWhere(init, keep);
      }
    }
  }

  /**
    `get_files`: a root that is a file is yielded alone when it passes the
    filter; otherwise the yielded paths are exactly the listed regular files
    that pass it.
   */
  function GetFiles(root: Path, rootIsFile: bool, listing: seq<Entry>): (files: seq<Path>)
    ensures rootIsFile ==> (files == [root] <==> ShouldScanFile(root)) && (files == [] <==> !ShouldScanFile(root))
    ensures !rootIsFile ==> forall p :: p in files <==>
      exists i :: 0 <= i < |listing| && listing[i].path == p && listing[i].isFile && ShouldScanFile(p)
  {
    if rootIsFile then (if ShouldScanFile(root) then [root] else [])
    else FilesWhere(listing, ShouldScanFile)
  }
}
