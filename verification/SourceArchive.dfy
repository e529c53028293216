/**
  The archive validator of the source store, and the extraction whose success
  it has to guarantee on any file system that tells apart at least what case
  folding tells apart.
 */
module SourceArchive {
  import opened Wrappers
  import opened ArchivePaths

  type Bytes = seq<bv8>

  const MAX_ARCHIVE_BYTES := 10 * 1024 * 1024
  const MAX_EXPANDED_BYTES := 50 * 1024 * 1024
  const MAX_FILES := 2_000
  const CHUNK := 64 * 1024

  datatype Error =
    | BadSize | BadZip | UnsafePath | Encrypted | NotPlainFile | DuplicatePath | TooManyFiles | TooLarge
    | ParentIsFile | NoFiles | WorkspaceConflict | WouldOverwrite | OutsideRoot
    | ForeignProject | DigestMismatch | BadEntrypoint | NoSource | NoEntrypoint

  // ------------------------------------------------------------------ archives

  datatype FileKind = Unspecified | Regular | Folder | Link | Special

  /** `payload` is what reading the entry yields, or None if it cannot be read. */
  datatype Entry = Entry(filename: string, encrypted: bool, kind: FileKind, declared: nat, payload: Option<Bytes>)

  datatype Archive = Archive(size: nat, entries: Option<seq<Entry>>)

  datatype File = File(path: Path, payload: Option<Bytes>)

  /** `names` tells for every key seen whether it was a directory. */
  datatype Listing = Listing(files: seq<File>, names: map<Folded, bool>, total: nat)

  predicate IsDirectory(e: Entry) {
    e.filename != "" && e.filename[|e.filename| - 1] == '/'
  }

  function ScanOne(fold: char -> string, l: Listing, e: Entry): Result<Listing, Error> {
    match ArchivePath(e.filename)
    case None => Err(UnsafePath)
    case Some(path) =>
      var key := FoldKey(fold, path);
      if e.encrypted then Err(Encrypted)
      else if e.kind == Link || e.kind == Special then Err(NotPlainFile)
      else if key in l.names then Err(DuplicatePath)
      else if IsDirectory(e) then Ok(l.(names := l.names[key := true]))
      else if |l.files| >= MAX_FILES then Err(TooManyFiles)
      else if l.total + e.declared > MAX_EXPANDED_BYTES then Err(TooLarge)
      else Ok(Listing(l.files + [File(path, e.payload)], l.names[key := false], l.total + e.declared))
  }

  function ScanUpTo(fold: char -> string, entries: seq<Entry>, n: nat): Result<Listing, Error>
    requires n <= |entries|
  {
    if n == 0 then Ok(Listing([], map[], 0))
    else
      match ScanUpTo(fold, entries, n - 1)
      case Err(e) => Err(e)
      case Ok(l) => ScanOne(fold, l, entries[n - 1])
  }

  /** A proper ancestor of the path is listed as a file. */
  predicate ParentConflict(fold: char -> string, names: map<Folded, bool>, path: Path) {
    exists k | 0 < k < |path| :: FoldKey(fold, path[..k]) in names && !names[FoldKey(fold, path[..k])]
  }

  /** The bytes the first `n` files expand to. */
  function ActualUpTo(files: seq<File>, n: nat): (r: Result<nat, Error>)
    requires n <= |files|
    ensures r.Ok? ==> r.value <= MAX_EXPANDED_BYTES
  {
    if n == 0 then Ok(0)
    else
      match ActualUpTo(files, n - 1)
      case Err(e) => Err(e)
      case Ok(actual) =>
        if files[n - 1].payload.None? then Err(BadZip)
        else if actual + |files[n - 1].payload.value| > MAX_EXPANDED_BYTES then Err(TooLarge)
        else Ok(actual + |files[n - 1].payload.value|)
  }

  function ArchiveFiles(fold: char -> string, archive: Archive, verifyPayload: bool): Result<seq<File>, Error> {
    if archive.entries.None? then Err(BadZip)
    else
      match ScanUpTo(fold, archive.entries.value, |archive.entries.value|)
      case Err(e) => Err(e)
      case Ok(l) =>
        if exists f | f in l.files :: ParentConflict(fold, l.names, f.path) then Err(ParentIsFile)
        else if l.files == [] then Err(NoFiles)
        else if verifyPayload && ActualUpTo(l.files, |l.files|).Err? then Err(ActualUpTo(l.files, |l.files|).error)
        else Ok(l.files)
  }

  // ------------------------------------------------------------------ what acceptance means

  ghost predicate KeysDiffer(fold: char -> string, files: seq<File>) {
    forall i, j | 0 <= i < j < |files| :: FoldKey(fold, files[i].path) != FoldKey(fold, files[j].path)
  }

  ghost predicate NoFileAbove(fold: char -> string, files: seq<File>) {
    forall i, j, k | 0 <= i < |files| && 0 <= j < |files| && 0 < k < |files[i].path| ::
      FoldKey(fold, files[i].path[..k]) != FoldKey(fold, files[j].path)
  }

  /** No two files share a key, none lies under another, and together they fit. */
  ghost predicate Extractable(fold: char -> string, files: seq<File>) {
    KeysDiffer(fold, files) && NoFileAbove(fold, files) && ActualUpTo(files, |files|).Ok?
  }

  ghost predicate Filed(fold: char -> string, l: Listing) {
    && KeysDiffer(fold, l.files)
    && |l.files| <= MAX_FILES
    && forall i | 0 <= i < |l.files| ::
         FoldKey(fold,
                 l.files[i].path) in l.names && !l.names[FoldKey(fold, l.files[i].path)] && AllPlain(l.files[i].path)
  }

  lemma {:induction false} ScanFiles(fold: char -> string, entries: seq<Entry>, n: nat)
    requires n <= |entries| && ScanUpTo(fold, entries, n).Ok?
    ensures Filed(fold, ScanUpTo(fold, entries, n).value)
  {
    hide ArchivePath, FoldKey, AllPlain, IsDirectory;
    if n > 0 {
      ScanFiles(fold, entries, n - 1);
      var e := entries[n - 1];
      if ArchivePath(e.filename).Some? {
        ArchivePathsExactly(e.filename, ArchivePath(e.filename).value);
      }
    }
  }

  /** An accepted archive is extractable, and accepted again without reading its payloads. */
  lemma AcceptedIsExtractable(fold: char -> string, archive: Archive)
    requires ArchiveFiles(fold, archive, true).Ok?
    ensures var files := ArchiveFiles(fold, archive, true).value;
            && ArchiveFiles(fold, archive, false) == Ok(files)
            && files != [] && |files| <= MAX_FILES && Extractable(fold, files)
            && forall f | f in files :: AllPlain(f.path)
  {
    hide FoldKey, ScanUpTo, ActualUpTo, AllPlain;
    var n := |archive.entries.value|;
    ScanFiles(fold, archive.entries.value, n);
    var l := ScanUpTo(fold, archive.entries.value, n).value;
    forall i, j, k | 0 <= i < |l.files| && 0 <= j < |l.files| && 0 < k < |l.files[i].path|
      ensures FoldKey(fold, l.files[i].path[..k]) != FoldKey(fold, l.files[j].path) {
      assert l.files[i] in l.files;
    }
  }

  // ------------------------------------------------------------------ which archives are accepted

  predicate EntryOk(e: Entry) {
    ArchivePath(e.filename).Some? && !e.encrypted && e.kind != Link && e.kind != Special
  }

  function PathOf(e: Entry): Path {
    if ArchivePath(e.filename).Some? then ArchivePath(e.filename).value else []
  }

  /** The files among the first `n` entries, in archive order. */
  function FilesUpTo(entries: seq<Entry>, n: nat): seq<File>
    requires n <= |entries|
  {
    if n == 0 then []
    else
      var e := entries[n - 1];
      FilesUpTo(entries, n - 1) + if IsDirectory(e) then [] else [File(PathOf(e), e.payload)]
  }

  /** Their sizes as declared in the archive. */
  function DeclaredUpTo(entries: seq<Entry>, n: nat): nat
    requires n <= |entries|
  {
    if n == 0 then 0
    else DeclaredUpTo(entries, n - 1) + if IsDirectory(entries[n - 1]) then 0 else entries[n - 1].declared
  }

  ghost predicate EntriesOk(fold: char -> string, entries: seq<Entry>, n: nat)
    requires n <= |entries|
  {
    && (forall i | 0 <= i < n :: EntryOk(entries[i]))
    && (forall i, j | 0 <= i < j < n :: FoldKey(fold, PathOf(entries[i])) != FoldKey(fold, PathOf(entries[j])))
    && |FilesUpTo(entries, n)| <= MAX_FILES && DeclaredUpTo(entries, n) <= MAX_EXPANDED_BYTES
  }

  /** The names seen are the keys of the first `n` entries, each with its kind. */
  ghost predicate NamesOf(fold: char -> string, entries: seq<Entry>, n: nat, names: map<Folded, bool>)
    requires n <= |entries|
  {
    && (forall i | 0 <= i < n ::
          FoldKey(fold,
                  PathOf(entries[i])) in names && names[FoldKey(fold, PathOf(entries[i]))] == IsDirectory(entries[i]))
    && forall key | key in names :: exists i | 0 <= i < n :: FoldKey(fold, PathOf(entries[i])) == key
  }

  lemma {:induction false} ScanExactly(fold: char -> string, entries: seq<Entry>, n: nat)
    requires n <= |entries|
    ensures ScanUpTo(fold, entries, n).Ok? <==> EntriesOk(fold, entries, n)
    ensures var r := ScanUpTo(fold, entries, n);
            r.Ok? ==> && r.value.files == FilesUpTo(entries, n) && r.value.total == DeclaredUpTo(entries, n)
                      && NamesOf(fold, entries, n, r.value.names)
  {
    hide FoldKey, ArchivePath, IsDirectory;
    if n > 0 {
      ScanExactly(fold, entries, n - 1);
      if EntriesOk(fold, entries, n - 1) {
        var l := ScanUpTo(fold, entries, n - 1).value;
        OneMoreScanned(fold, entries, n, l);
      }
    }
  }

  /** One more entry is acceptable exactly when it is sound, its key is new, and it fits. */
  lemma OneMoreEntryOk(fold: char -> string, entries: seq<Entry>, n: nat)
    requires 0 < n <= |entries| && EntriesOk(fold, entries, n - 1)
    ensures EntriesOk(fold, entries, n)
       <==> && EntryOk(entries[n - 1])
            && (forall i | 0 <= i < n - 1 :: FoldKey(fold, PathOf(entries[i])) != FoldKey(fold, PathOf(entries[n - 1])))
            && |FilesUpTo(entries, n)| <= MAX_FILES && DeclaredUpTo(entries, n) <= MAX_EXPANDED_BYTES
    ensures |FilesUpTo(entries, n - 1)| <= MAX_FILES && DeclaredUpTo(entries, n - 1) <= MAX_EXPANDED_BYTES
  {
    hide FoldKey, PathOf, EntryOk, IsDirectory, FilesUpTo, DeclaredUpTo;
  }

  lemma OneMoreName(fold: char -> string, entries: seq<Entry>, n: nat, names: map<Folded, bool>)
    requires 0 < n <= |entries| && NamesOf(fold, entries, n - 1, names)
    ensures var key := FoldKey(fold, PathOf(entries[n - 1]));
            && (key in names <==> exists i | 0 <= i < n - 1 :: FoldKey(fold, PathOf(entries[i])) == key)
            && (key !in names ==> NamesOf(fold, entries, n, names[key := IsDirectory(entries[n - 1])]))
  {
    hide FoldKey, PathOf, IsDirectory;
  }

  lemma OneMoreScanned(fold: char -> string, entries: seq<Entry>, n: nat, l: Listing)
    requires 0 < n <= |entries| && EntriesOk(fold, entries, n - 1)
    requires l.files == FilesUpTo(entries, n - 1) && l.total == DeclaredUpTo(entries, n - 1)
    requires NamesOf(fold, entries, n - 1, l.names)
    ensures ScanOne(fold, l, entries[n - 1]).Ok? <==> EntriesOk(fold, entries, n)
    ensures var r := ScanOne(fold, l, entries[n - 1]);
            r.Ok? ==> && r.value.files == FilesUpTo(entries, n) && r.value.total == DeclaredUpTo(entries, n)
                      && NamesOf(fold, entries, n, r.value.names)
  {
    hide FoldKey, ArchivePath, IsDirectory, EntriesOk, NamesOf;
    OneMoreEntryOk(fold, entries, n);
    OneMoreName(fold, entries, n, l.names);
  }

  /** Some file lies under an entry that is not a directory. */
  ghost predicate FileUnderFile(fold: char -> string, entries: seq<Entry>) {
    exists i, j, k | && 0 <= i < |entries| && 0 <= j < |entries| && 0 < k < |PathOf(entries[i])|
                     && !IsDirectory(entries[i]) && !IsDirectory(entries[j]) ::
      FoldKey(fold, PathOf(entries[i])[..k]) == FoldKey(fold, PathOf(entries[j]))
  }

  lemma {:induction false} FilesAreEntries(entries: seq<Entry>, n: nat, f: File)
    requires n <= |entries|
    ensures f in FilesUpTo(entries, n)
       <==> exists i | 0 <= i < n :: !IsDirectory(entries[i]) && f == File(PathOf(entries[i]), entries[i].payload)
  {
    hide IsDirectory, PathOf;
    if n > 0 { FilesAreEntries(entries, n - 1, f); }
  }

  lemma ConflictIsFileUnderFile(fold: char -> string, entries: seq<Entry>, names: map<Folded, bool>)
    requires NamesOf(fold, entries, |entries|, names)
    ensures (exists f | f in FilesUpTo(entries, |entries|) :: ParentConflict(fold, names, f.path))
       <==> FileUnderFile(fold, entries)
  {
    hide FoldKey, PathOf, IsDirectory;
    var files := FilesUpTo(entries, |entries|);
    if exists f | f in files :: ParentConflict(fold, names, f.path) {
      var f :| f in files && ParentConflict(fold, names, f.path);
      FilesAreEntries(entries, |entries|, f);
    }
    if FileUnderFile(fold, entries) {
      var i, j, k :| && 0 <= i < |entries| && 0 <= j < |entries| && 0 < k < |PathOf(entries[i])|
                     && !IsDirectory(entries[i]) && !IsDirectory(entries[j])
                     && FoldKey(fold, PathOf(entries[i])[..k]) == FoldKey(fold, PathOf(entries[j]));
      var f := File(PathOf(entries[i]), entries[i].payload);
      FilesAreEntries(entries, |entries|, f);
      assert ParentConflict(fold, names, f.path);
    }
  }

  /** Exactly which archives are accepted, and as which files. */
  lemma AcceptsExactly(fold: char -> string, archive: Archive)
    ensures ArchiveFiles(fold, archive, true).Ok?
       <==> && archive.entries.Some?
            && var entries := archive.entries.value;
               var files := FilesUpTo(entries, |entries|);
               && EntriesOk(fold, entries, |entries|) && !FileUnderFile(fold, entries)
               && files != [] && ActualUpTo(files, |files|).Ok?
    ensures ArchiveFiles(fold, archive, true).Ok? ==>
              ArchiveFiles(fold, archive, true).value == FilesUpTo(archive.entries.value, |archive.entries.value|)
  {
    hide ScanUpTo, EntriesOk, FileUnderFile, ParentConflict, NamesOf, ActualUpTo;
    if archive.entries.Some? {
      var entries := archive.entries.value;
      ScanExactly(fold, entries, |entries|);
      var r := ScanUpTo(fold, entries, |entries|);
      if r.Ok? { ConflictIsFileUnderFile(fold, entries, r.value.names); }
    }
  }

  // ------------------------------------------------------------------ file systems

  /** A place in the workspace, as the file system identifies it. */
  datatype Spot = Spot(parts: Path)

  datatype Node = DirectoryNode | FileNode(content: Bytes) | LinkNode

  type Tree = map<Spot, Node>

  function At(key: Part -> Part, p: Path): Spot {
    Spot(seq(|p|, i requires 0 <= i < |p| => key(p[i])))
  }

  /** Names the file system takes for one fold alike. */
  ghost predicate Distinguishes(fold: char -> string, key: Part -> Part) {
    forall a, b :: key(a) == key(b) ==> FoldText(fold, a.text) == FoldText(fold, b.text)
  }

  lemma CaseSensitiveDistinguishes(fold: char -> string)
    ensures Distinguishes(fold, (p: Part) => p)
  {
  }

  lemma CaseFoldingDistinguishes(fold: char -> string)
    ensures Distinguishes(fold, (p: Part) => Part(FoldText(fold, p.text)))
  {
  }

  lemma OneSpotOneKey(fold: char -> string, key: Part -> Part, p: Path, q: Path)
    requires Distinguishes(fold, key) && At(key, p) == At(key, q)
    ensures |p| == |q| && FoldKey(fold, p) == FoldKey(fold, q)
  {
    var a, b := At(key, p).parts, At(key, q).parts;
    assert |a| == |p| && |b| == |q|;
    forall i | 0 <= i < |p| ensures FoldText(fold, p[i].text) == FoldText(fold, q[i].text) {
      assert a[i] == key(p[i]) && b[i] == key(q[i]);
    }
    KeyFollowsParts(fold, p, q);
  }

  // ------------------------------------------------------------------ extraction

  /** The tree so far, the bytes written, and the error that stopped the extraction. */
  datatype Extraction = Extraction(tree: Tree, expanded: nat, error: Option<Error>)

  /** Directories for the first `k` ancestors of the path. */
  function MakeParents(key: Part -> Part, x: Extraction, p: Path, k: nat): Extraction
    requires k <= |p|
  {
    if k == 0 then x
    else
      var made := MakeParents(key, x, p, k - 1);
      var at := At(key, p[..k]);
      if made.error.Some? then made
      else if at in made.tree && made.tree[at] != DirectoryNode then made.(error := Some(WorkspaceConflict))
      else made.(tree := made.tree[at := DirectoryNode])
  }

  function ExtractOne(key: Part -> Part, x: Extraction, f: File): Extraction {
    if f.path == [] then x.(error := Some(OutsideRoot))
    else
      var made := MakeParents(key, x, f.path, |f.path| - 1);
      var at := At(key, f.path);
      if made.error.Some? then made
      else if at in made.tree then made.(error := Some(WouldOverwrite))
      else if f.payload.None? then made.(error := Some(BadZip))
      else if made.expanded + |f.payload.value| > MAX_EXPANDED_BYTES then made.(error := Some(TooLarge))
      else Extraction(made.tree[at := FileNode(f.payload.value)], made.expanded + |f.payload.value|, None)
  }

  function ExtractUpTo(key: Part -> Part, tree: Tree, files: seq<File>, n: nat): Extraction
    requires n <= |files|
  {
    if n == 0 then Extraction(tree, 0, None)
    else
      var x := ExtractUpTo(key, tree, files, n - 1);
      if x.error.Some? then x else ExtractOne(key, x, files[n - 1])
  }

  // ------------------------------------------------------------------ the extracted tree

  ghost predicate IsFile(key: Part -> Part, files: seq<File>, n: nat, at: Spot)
    requires n <= |files|
  {
    exists i | 0 <= i < n :: at == At(key, files[i].path)
  }

  ghost predicate IsAncestor(key: Part -> Part, p: Path, k: nat, at: Spot)
    requires k <= |p|
  {
    exists m | 0 < m <= k :: at == At(key, p[..m])
  }

  ghost predicate IsFolder(key: Part -> Part, files: seq<File>, n: nat, at: Spot)
    requires n <= |files|
  {
    exists i | 0 <= i < n && files[i].path != [] :: IsAncestor(key, files[i].path, |files[i].path| - 1, at)
  }

  /** The tree holds the first `n` files with their contents, their ancestor directories, and nothing else. */
  ghost predicate HoldsExactly(key: Part -> Part, files: seq<File>, n: nat, tree: Tree)
    requires n <= |files|
  {
    && (forall at :: at in tree <==> IsFile(key, files, n, at) || IsFolder(key, files, n, at))
    && (forall at | IsFolder(key, files, n, at) :: tree[at] == DirectoryNode)
    && forall i | 0 <= i < n ::
         files[i].payload.Some? && At(key, files[i].path) in tree
         && tree[At(key, files[i].path)] == FileNode(files[i].payload.value)
  }

  /** Where no ancestor is taken by something else, the ancestors are added and nothing else changes. */
  lemma {:induction false} ParentsAreMade(key: Part -> Part, x: Extraction, p: Path, k: nat)
    requires k <= |p| && x.error.None?
    requires forall at | IsAncestor(key, p, k, at) && at in x.tree :: x.tree[at] == DirectoryNode
    ensures var made := MakeParents(key, x, p, k);
            && made.error.None? && made.expanded == x.expanded
            && (forall at :: at in made.tree <==> at in x.tree || IsAncestor(key, p, k, at))
            && (forall at | at in made.tree ::
                  made.tree[at] == if IsAncestor(key, p, k, at) then DirectoryNode else x.tree[at])
  {
    hide At;
    if k > 0 {
      forall at ensures IsAncestor(key, p, k, at) <==> IsAncestor(key, p, k - 1, at) || at == At(key, p[..k]) {
      }
      ParentsAreMade(key, x, p, k - 1);
    }
  }

  /** The next file's ancestors are free or directories, and its own place is free. */
  lemma PlaceIsFree(fold: char -> string, key: Part -> Part, files: seq<File>, n: nat, tree: Tree)
    requires Distinguishes(fold, key) && KeysDiffer(fold, files) && NoFileAbove(fold, files)
    requires n < |files| && files[n].path != [] && HoldsExactly(key, files, n, tree)
    ensures forall at | IsAncestor(key, files[n].path, |files[n].path| - 1, at) && at in tree ::
              tree[at] == DirectoryNode
    ensures At(key, files[n].path) !in tree
    ensures !IsAncestor(key, files[n].path, |files[n].path| - 1, At(key, files[n].path))
  {
    hide At, FoldKey, Distinguishes;
    var p := files[n].path;
    forall i, m | 0 <= i < n && 0 < m < |p| ensures At(key, p[..m]) != At(key, files[i].path) {
      if At(key, p[..m]) == At(key, files[i].path) { OneSpotOneKey(fold, key, p[..m], files[i].path); }
    }
    forall i | 0 <= i < n ensures At(key, files[i].path) != At(key, p) {
      if At(key, files[i].path) == At(key, p) { OneSpotOneKey(fold, key, files[i].path, p); }
    }
    forall i, m | 0 <= i <= n && 0 < m < |files[i].path| ensures At(key, files[i].path[..m]) != At(key, p) {
      if At(key, files[i].path[..m]) == At(key, p) { OneSpotOneKey(fold, key, files[i].path[..m], p); }
    }
  }

  lemma {:induction false} FilesAreExtracted(fold: char -> string, key: Part -> Part, files: seq<File>, n: nat)
    requires Distinguishes(fold, key) && Extractable(fold, files)
    requires n <= |files| && forall i | 0 <= i < n :: files[i].path != []
    ensures var x := ExtractUpTo(key, map[], files, n);
            x.error.None? && ActualUpTo(files, n) == Ok(x.expanded) && HoldsExactly(key, files, n, x.tree)
  {
    hide At, FoldKey, Distinguishes, KeysDiffer, NoFileAbove, HoldsExactly, MakeParents;
    if n == 0 {
      NothingHeld(key, files);
    } else {
      FilesAreExtracted(fold, key, files, n - 1);
      var x := ExtractUpTo(key, map[], files, n - 1);
      var p := files[n - 1].path;
      PlaceIsFree(fold, key, files, n - 1, x.tree);
      ParentsAreMade(key, x, p, |p| - 1);
      PrefixFits(files, n, |files|);
      OneMoreHeld(key, files, n, x.tree, MakeParents(key, x, p, |p| - 1).tree);
    }
  }

  lemma NothingHeld(key: Part -> Part, files: seq<File>)
    ensures HoldsExactly(key, files, 0, map[])
  {
  }

  lemma {:induction false} PrefixFits(files: seq<File>, m: nat, n: nat)
    requires m <= n <= |files| && ActualUpTo(files, n).Ok?
    ensures ActualUpTo(files, m).Ok?
  {
    if m < n { PrefixFits(files, m, n - 1); }
  }

  lemma OneMoreHeld(key: Part -> Part, files: seq<File>, n: nat, before: Tree, made: Tree)
    requires 0 < n <= |files| && files[n - 1].path != [] && files[n - 1].payload.Some?
    requires HoldsExactly(key, files, n - 1, before)
    requires At(key, files[n - 1].path) !in before
    requires !IsAncestor(key, files[n - 1].path, |files[n - 1].path| - 1, At(key, files[n - 1].path))
    requires forall at | IsAncestor(key, files[n - 1].path, |files[n - 1].path| - 1, at) && at in before ::
               before[at] == DirectoryNode
    requires forall at ::
               at in made <==> at in before || IsAncestor(key, files[n - 1].path, |files[n - 1].path| - 1, at)
    requires forall at | at in made ::
               made[at] == if IsAncestor(key, files[n - 1].path, |files[n - 1].path| - 1, at) then DirectoryNode
                           else before[at]
    ensures HoldsExactly(key, files, n, made[At(key, files[n - 1].path) := FileNode(files[n - 1].payload.value)])
  {
    hide At, IsAncestor;
    var f := files[n - 1];
    var tree := made[At(key, f.path) := FileNode(f.payload.value)];
    forall at ensures IsFile(key, files, n, at) <==> IsFile(key, files, n - 1, at) || at == At(key, f.path) {
    }
    forall at ensures IsFolder(key, files, n, at)
       <==> IsFolder(key, files, n - 1, at) || IsAncestor(key, f.path, |f.path| - 1, at) {
    }
  }

  lemma {:induction false} StoppedStaysStopped(key: Part -> Part, tree: Tree, files: seq<File>, m: nat, n: nat)
    requires m <= n <= |files| && ExtractUpTo(key, tree, files, m).error.Some?
    ensures ExtractUpTo(key, tree, files, n) == ExtractUpTo(key, tree, files, m)
  {
    if m < n { StoppedStaysStopped(key, tree, files, m, n - 1); }
  }

  /**
    An accepted archive extracts into an empty workspace, to exactly its files
    and their ancestor directories, if and only if no file is named by a lone dot.
   */
  lemma AcceptedExtractsExactly(fold: char -> string, key: Part -> Part, archive: Archive)
    requires Distinguishes(fold, key) && ArchiveFiles(fold, archive, true).Ok?
    ensures var files := ArchiveFiles(fold, archive, true).value;
            var x := ExtractUpTo(key, map[], files, |files|);
            && (x.error.None? <==> forall f | f in files :: f.path != [])
            && (x.error.None? ==> HoldsExactly(key, files, |files|, x.tree))
            && (x.error.Some? ==> x.error == Some(OutsideRoot))
  {
    hide Distinguishes, ArchiveFiles, Extractable, HoldsExactly, MakeParents;
    AcceptedIsExtractable(fold, archive);
    var files := ArchiveFiles(fold, archive, true).value;
    if forall f | f in files :: f.path != [] {
      FilesAreExtracted(fold, key, files, |files|);
    } else {
      var i := FirstDot(files);
      FilesAreExtracted(fold, key, files, i);
      StoppedStaysStopped(key, map[], files, i + 1, |files|);
    }
  }

  lemma FirstDot(files: seq<File>) returns (i: nat)
    requires exists f | f in files :: f.path == []
    ensures i < |files| && files[i].path == [] && forall j | 0 <= j < i :: files[j].path != []
  {
    i := 0;
    while files[i].path != []
      invariant i < |files| && forall j | 0 <= j < i :: files[j].path != []
      decreases |files| - i
    {
      assert exists j | i < j < |files| :: files[j].path == [] by {
        var f :| f in files && f.path == [];
        var j :| 0 <= j < |files| && files[j] == f;
      }
      i := i + 1;
    }
  }
}
