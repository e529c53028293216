/** The content-addressed store: accepting an archive and materializing it into a workspace. */
module SourceStore {
  import opened Wrappers
  import opened ArchivePaths
  import opened SourceArchive

  type ProjectId = nat

  /** A digest that never collides. */
  datatype Digest = Digest(content: Archive)
  datatype Stored = Stored(project: ProjectId, digest: Digest)
  type Objects = map<Stored, Archive>

  // ------------------------------------------------------------------ validating

  lemma {:induction false} ScanErrorStands(fold: char -> string, entries: seq<Entry>, m: nat, n: nat)
    requires m <= n <= |entries| && ScanUpTo(fold, entries, m).Err?
    ensures ScanUpTo(fold, entries, n) == ScanUpTo(fold, entries, m)
  {
    hide ScanOne;
    if m < n { ScanErrorStands(fold, entries, m, n - 1); }
  }

  lemma {:induction false} ActualErrorStands(files: seq<File>, m: nat, n: nat)
    requires m <= n <= |files| && ActualUpTo(files, m).Err?
    ensures ActualUpTo(files, n) == ActualUpTo(files, m)
  {
    if m < n { ActualErrorStands(files, m, n - 1); }
  }

  method ListEntries(fold: char -> string, entries: seq<Entry>) returns (result: Result<Listing, Error>)
    ensures result == ScanUpTo(fold, entries, |entries|)
  {
    hide ArchivePath, FoldKey;
    var files: seq<File>, names: map<Folded, bool>, total: nat := [], map[], 0;
    for i := 0 to |entries|
      invariant ScanUpTo(fold, entries, i) == Ok(Listing(files, names, total))
    {
      var info := entries[i];
      if ScanUpTo(fold, entries, i + 1).Err? {
        ScanErrorStands(fold, entries, i + 1, |entries|);
      }
      var path := ArchivePath(info.filename);
      if path.None? {
        return Err(UnsafePath);
      }
      if info.encrypted {
        return Err(Encrypted);
      }
      if info.kind == Link || info.kind == Special {
        return Err(NotPlainFile);
      }
      var key := FoldKey(fold, path.value);
      if key in names {
        return Err(DuplicatePath);
      }
      names := names[key := IsDirectory(info)];
      if IsDirectory(info) {
        continue;
      }
      if |files| >= MAX_FILES {
        return Err(TooManyFiles);
      }
      total := total + info.declared;
      if total > MAX_EXPANDED_BYTES {
        return Err(TooLarge);
      }
      files := files + [File(path.value, info.payload)];
    }
    return Ok(Listing(files, names, total));
  }

  /** Walks up from every file. */
  method FindParentConflict(fold: char -> string, files: seq<File>, names: map<Folded, bool>) returns (found: bool)
    ensures found <==> exists f | f in files :: ParentConflict(fold, names, f.path)
  {
    hide FoldKey;
    for i := 0 to |files|
      invariant forall j | 0 <= j < i :: !ParentConflict(fold, names, files[j].path)
    {
      var path := files[i].path;
      var length := |path|;
      while length > 1
        invariant length <= |path| && (path != [] ==> length > 0)
        invariant forall k | 0 < length <= k < |path| ::
                    !(FoldKey(fold, path[..k]) in names && !names[FoldKey(fold, path[..k])])
      {
        length := length - 1;
        var parent := FoldKey(fold, path[..length]);
        if parent in names && !names[parent] {
          assert ParentConflict(fold, names, files[i].path);
          return true;
        }
      }
    }
    return false;
  }

  /** Reads every payload in chunks and stops as soon as the limit is passed. */
  method ReadPayloads(files: seq<File>) returns (result: Result<nat, Error>)
    ensures result == ActualUpTo(files, |files|)
  {
    var actual := 0;
    for i := 0 to |files|
      invariant ActualUpTo(files, i) == Ok(actual)
    {
      if files[i].payload.None? {
        ActualErrorStands(files, i + 1, |files|);
        return Err(BadZip);
      }
      var payload, before := files[i].payload.value, actual;
      var offset := 0;
      while offset < |payload|
        invariant offset <= |payload| && actual == before + offset <= MAX_EXPANDED_BYTES
      {
        var chunk := if offset + CHUNK < |payload| then payload[offset..offset + CHUNK] else payload[offset..];
        actual := actual + |chunk|;
        if actual > MAX_EXPANDED_BYTES {
          ActualErrorStands(files, i + 1, |files|);
          return Err(TooLarge);
        }
        offset := offset + |chunk|;
      }
    }
    return Ok(actual);
  }

  method ArchiveEntries(fold: char -> string, archive: Archive, verifyPayload: bool)
    returns (result: Result<seq<File>, Error>)
    ensures result == ArchiveFiles(fold, archive, verifyPayload)
  {
    hide ScanUpTo, ActualUpTo, ParentConflict;
    if archive.entries.None? {
      return Err(BadZip);
    }
    var listed := ListEntries(fold, archive.entries.value);
    if listed.Err? {
      return Err(listed.error);
    }
    var conflict := FindParentConflict(fold, listed.value.files, listed.value.names);
    if conflict {
      return Err(ParentIsFile);
    }
    if listed.value.files == [] {
      return Err(NoFiles);
    }
    if verifyPayload {
      var actual := ReadPayloads(listed.value.files);
      if actual.Err? {
        return Err(actual.error);
      }
    }
    return Ok(listed.value.files);
  }

  // ------------------------------------------------------------------ workspaces

  class Workspace {
    const key: Part -> Part
    var nodes: Tree

    constructor (key: Part -> Part)
      ensures this.key == key && nodes == map[]
    {
      this.key, nodes := key, map[];
    }

    method SafeArchiveParent(path: Path) returns (error: Option<Error>)
      requires path != []
      modifies this
      ensures forall expanded :: Extraction(nodes, expanded, error)
                == MakeParents(key, Extraction(old(nodes), expanded, None), path, |path| - 1)
    {
      hide At;
      error := None;
      var k := 0;
      while k < |path| - 1
        invariant k <= |path| - 1
        invariant forall expanded :: Extraction(nodes, expanded, None)
                    == MakeParents(key, Extraction(old(nodes), expanded, None), path, k)
      {
        k := k + 1;
        var current := At(key, path[..k]);
        if current in nodes && nodes[current] != DirectoryNode {
          forall expanded ensures Extraction(nodes, expanded, Some(WorkspaceConflict))
                                  == MakeParents(key, Extraction(old(nodes), expanded, None), path, |path| - 1) {
            ConflictStands(key, Extraction(old(nodes), expanded, None), path, k, |path| - 1);
          }
          return Some(WorkspaceConflict);
        }
        nodes := nodes[current := DirectoryNode];
      }
    }

    /** Copies the payload in chunks; the target appears only when all of it is written. */
    method AtomicWriteStream(target: Spot, source: Bytes, remaining: int) returns (copied: nat, error: Option<Error>)
      modifies this
      ensures if |source| == 0 || |source| <= remaining
              then error.None? && copied == |source| && nodes == old(nodes)[target := FileNode(source)]
              else error == Some(TooLarge) && nodes == old(nodes)
    {
      copied := 0;
      var output: Bytes := [];
      while copied < |source|
        invariant copied <= |source| && output == source[..copied] && (copied == 0 || copied <= remaining)
      {
        var chunk := if copied + CHUNK < |source| then source[copied..copied + CHUNK] else source[copied..];
        copied := copied + |chunk|;
        if copied > remaining {
          return copied, Some(TooLarge);
        }
        output := output + chunk;
      }
      assert source[..copied] == source;
      nodes := nodes[target := FileNode(output)];
      error := None;
    }

    method ExtractArchive(fold: char -> string, archive: Archive) returns (result: Result<seq<File>, Error>)
      modifies this
      ensures nodes == Extracted(fold, key, old(nodes), archive).0
      ensures result == Extracted(fold, key, old(nodes), archive).1
    {
      hide At, MakeParents, ArchiveFiles;
      var files := ArchiveEntries(fold, archive, false);
      if files.Err? {
        return files;
      }
      var expanded: nat := 0;
      for i := 0 to |files.value|
        invariant ExtractUpTo(key, old(nodes), files.value, i) == Extraction(nodes, expanded, None)
        invariant expanded <= MAX_EXPANDED_BYTES
      {
        var f := files.value[i];
        ghost var before := Extraction(nodes, expanded, None);
        if ExtractOne(key, before, f).error.Some? {
          StoppedStaysStopped(key, old(nodes), files.value, i + 1, |files.value|);
        }
        if f.path == [] {
          return Err(OutsideRoot);
        }
        var conflict := SafeArchiveParent(f.path);
        assert Extraction(nodes, expanded, conflict) == MakeParents(key, before, f.path, |f.path| - 1);
        if conflict.Some? {
          return Err(conflict.value);
        }
        var destination := At(key, f.path);
        if destination in nodes {
          return Err(WouldOverwrite);
        }
        if f.payload.None? {
          return Err(BadZip);
        }
        var copied, error := AtomicWriteStream(destination, f.payload.value, MAX_EXPANDED_BYTES - expanded);
        if error.Some? {
          return Err(error.value);
        }
        expanded := expanded + copied;
      }
      return files;
    }
  }

  /** The workspace and the outcome after extracting. */
  function Extracted(fold: char -> string, key: Part -> Part, tree: Tree, archive: Archive)
    : (Tree, Result<seq<File>, Error>)
  {
    match ArchiveFiles(fold, archive, false)
    case Err(e) => (tree, Err(e))
    case Ok(files) =>
      var x := ExtractUpTo(key, tree, files, |files|);
      (x.tree, if x.error.Some? then Err(x.error.value) else Ok(files))
  }

  lemma {:induction false} ConflictStands(key: Part -> Part, x: Extraction, p: Path, m: nat, n: nat)
    requires m <= n <= |p| && MakeParents(key, x, p, m).error.Some?
    ensures MakeParents(key, x, p, n) == MakeParents(key, x, p, m)
  {
    if m < n { ConflictStands(key, x, p, m, n - 1); }
  }

  // ------------------------------------------------------------------ the store

  function PutOutcome(fold: char -> string, project: ProjectId, archive: Archive): Result<Stored, Error> {
    if archive.size == 0 || archive.size > MAX_ARCHIVE_BYTES then Err(BadSize)
    else
      match ArchiveFiles(fold, archive, true)
      case Err(e) => Err(e)
      case Ok(_) => Ok(Stored(project, Digest(archive)))
  }

  predicate Listed(files: seq<File>, entrypoint: Path) {
    exists f | f in files :: Show(f.path) == Show(entrypoint)
  }

  /** The checks before extraction yield the stored archive and the entrypoint. */
  function Verified(objects: Objects, project: ProjectId, source: Stored, digest: Digest, entrypoint: string)
    : Result<(Archive, Path), Error>
  {
    if source.project != project then Err(ForeignProject)
    else if digest != source.digest then Err(DigestMismatch)
    else
      match Entrypoint(entrypoint)
      case None => Err(BadEntrypoint)
      case Some(relative) =>
        var place := Stored(project, digest);
        if place !in objects then Err(NoSource)
        else if objects[place].size > MAX_ARCHIVE_BYTES then Err(BadSize)
        else if Digest(objects[place]) != digest then Err(DigestMismatch)
        else Ok((objects[place], relative))
  }

  function Materialized(fold: char -> string, key: Part -> Part, objects: Objects, tree: Tree, project: ProjectId,
                        source: Stored, digest: Digest, entrypoint: string): (Tree, Result<Path, Error>)
  {
    match Verified(objects, project, source, digest, entrypoint)
    case Err(e) => (tree, Err(e))
    case Ok(verified) =>
      var extracted := Extracted(fold, key, tree, verified.0);
      (extracted.0,
       match extracted.1
       case Err(e) => Err(e)
       case Ok(files) => if Listed(files, verified.1) then Ok(verified.1) else Err(NoEntrypoint))
  }

  class LocalSourceStore {
    const fold: char -> string
    var objects: Objects

    constructor (fold: char -> string)
      ensures this.fold == fold && objects == map[]
    {
      this.fold, objects := fold, map[];
    }

    method PutArchive(project: ProjectId, archive: Archive) returns (result: Result<Stored, Error>)
      modifies this
      ensures result == PutOutcome(fold, project, archive)
      ensures objects == if result.Ok? then old(objects)[result.value := archive] else old(objects)
    {
      if archive.size == 0 || archive.size > MAX_ARCHIVE_BYTES {
        return Err(BadSize);
      }
      var files := ArchiveEntries(fold, archive, true);
      if files.Err? {
        return Err(files.error);
      }
      var place := Stored(project, Digest(archive));
      objects := objects[place := archive];
      return Ok(place);
    }

    method Materialize(project: ProjectId, source: Stored, digest: Digest, entrypoint: string, workspace: Workspace)
      returns (result: Result<Path, Error>)
      modifies workspace
      ensures workspace.nodes
           == Materialized(fold, workspace.key, objects, old(workspace.nodes), project, source, digest, entrypoint).0
      ensures result
           == Materialized(fold, workspace.key, objects, old(workspace.nodes), project, source, digest, entrypoint).1
    {
      hide Entrypoint, Extracted, Listed;
      var verified := Verified(objects, project, source, digest, entrypoint);
      if verified.Err? {
        return Err(verified.error);
      }
      var files := workspace.ExtractArchive(fold, verified.value.0);
      if files.Err? {
        return Err(files.error);
      }
      if !Listed(files.value, verified.value.1) {
        return Err(NoEntrypoint);
      }
      return Ok(verified.value.1);
    }
  }

  // ------------------------------------------------------------------ acceptance and materialization

  lemma EntrypointIsPlain(entrypoint: string)
    requires Entrypoint(entrypoint).Some?
    ensures var p := Entrypoint(entrypoint).value;
            AllPlain(p) && p != [] && Show(p) == entrypoint && Parts(entrypoint) == p
  {
    var p := Entrypoint(entrypoint).value;
    PartsHaveNoSlash(entrypoint);
    PartsAreNotEmpty(entrypoint);
  }

  lemma {:induction false} PartsAreNotEmpty(s: string)
    ensures forall part | part in Parts(s) :: part.text != ""
  {
    var k := Slash(s);
    if k < |s| { PartsAreNotEmpty(s[k + 1..]); }
  }

  /**
    An accepted archive materializes into an empty workspace exactly when no
    file is named by a lone dot; then the workspace holds its files, their
    ancestor directories and nothing else, and the entrypoint is one of the files.
   */
  lemma AcceptedMaterializesExactly(fold: char -> string, key: Part -> Part, objects: Objects, project: ProjectId,
                                    archive: Archive, entrypoint: string)
    requires Distinguishes(fold, key) && PutOutcome(fold, project, archive).Ok?
    requires var place := Stored(project, Digest(archive)); place in objects && objects[place] == archive
    requires Entrypoint(entrypoint).Some?
    requires Listed(ArchiveFiles(fold, archive, true).value, Entrypoint(entrypoint).value)
    ensures var files := ArchiveFiles(fold, archive, true).value;
            var source := PutOutcome(fold, project, archive).value;
            var outcome := Materialized(fold, key, objects, map[], project, source, source.digest, entrypoint);
            && (outcome.1.Ok? <==> forall f | f in files :: f.path != [])
            && (outcome.1.Ok? ==> && outcome.1.value == Entrypoint(entrypoint).value
                                  && HoldsExactly(key, files, |files|, outcome.0)
                                  && At(key,
                                        outcome.1.value) in outcome.0 && outcome.0[At(key, outcome.1.value)].FileNode?)
            && (outcome.1.Err? ==> outcome.1 == Err(OutsideRoot))
  {
    hide ArchiveFiles, Entrypoint, Extractable, HoldsExactly, Distinguishes, At, Show, AllPlain, ExtractUpTo;
    AcceptedIsExtractable(fold, archive);
    AcceptedExtractsExactly(fold, key, archive);
    var files := ArchiveFiles(fold, archive, true).value;
    var relative := Entrypoint(entrypoint).value;
    var f :| f in files && Show(f.path) == Show(relative);
    if f.path != [] {
      EntrypointIsPlain(entrypoint);
      ShownOnce(f.path, relative);
      var i :| 0 <= i < |files| && files[i] == f;
      if ExtractUpTo(key, map[], files, |files|).error.None? {
        HeldFile(key, files, i, ExtractUpTo(key, map[], files, |files|).tree);
      }
    }
  }

  lemma ShownOnce(p: Path, q: Path)
    requires p != [] && q != [] && AllPlain(p) && AllPlain(q) && Show(p) == Show(q)
    ensures p == q
  {
    JoinSplits(p);
    JoinSplits(q);
  }

  lemma HeldFile(key: Part -> Part, files: seq<File>, i: nat, tree: Tree)
    requires i < |files| && HoldsExactly(key, files, |files|, tree)
    ensures At(key, files[i].path) in tree && tree[At(key, files[i].path)].FileNode?
  {
  }

  /** A concrete archive that is accepted and can never be materialized. */
  lemma DotEntryIsNeverMaterialized(fold: char -> string, key: Part -> Part, tree: Tree)
    ensures var archive := Archive(1, Some([Entry(".", false, Regular, 0, Some([]))]));
            && PutOutcome(fold, 0, archive).Ok?
            && Extracted(fold, key, tree, archive) == (tree, Err(OutsideRoot))
  {
    hide ArchivePath, ScanUpTo, FoldKey;
    var entries := [Entry(".", false, Regular, 0, Some([]))];
    var f := File([], Some([]));
    ScanDot(fold, entries);
    assert ActualUpTo([f], 1) == Ok(0) by {
      assert ActualUpTo([f], 0) == Ok(0);
    }
    assert ExtractUpTo(key, tree, [f], 1) == Extraction(tree, 0, Some(OutsideRoot)) by {
      assert ExtractUpTo(key, tree, [f], 0) == Extraction(tree, 0, None);
    }
  }

  lemma ScanDot(fold: char -> string, entries: seq<Entry>)
    requires entries == [Entry(".", false, Regular, 0, Some([]))]
    ensures ScanUpTo(fold, entries, 1) == Ok(Listing([File([], Some([]))], map[FoldKey(fold, []) := false], 0))
  {
    hide ArchivePath, FoldKey;
    var here: Path := [];
    ArchivePathsExactly(".", here);
    assert ArchivePath(".") == Some(here);
    var empty := Listing([], map[], 0);
    assert ScanUpTo(fold, entries, 0) == Ok(empty);
    assert ScanUpTo(fold, entries, 1) == ScanOne(fold, empty, entries[0]);
    assert ScanOne(fold, empty,
                   entries[0]) == Ok(Listing([] + [File(here, Some([]))], map[FoldKey(fold, here) := false], 0));
    assert [] + [File(here, Some([]))] == [File(here, Some([]))];
  }
}
