/** Which materializations succeed against a store that was only ever filled by accepted archives. */
module SourceRoundTrip {
  import opened Wrappers
  import opened PythonText
  import opened ArchivePaths
  import opened SourceArchive
  import opened SourceStore

  // ------------------------------------------------------------------ entries and entrypoints

  /** An accepted entry is a directory exactly when its name is a path followed by a slash. */
  lemma DirectoriesEndInSlash(e: Entry, p: Path)
    requires ArchivePath(e.filename) == Some(p)
    ensures IsDirectory(e) <==> e.filename == Show(p) + "/"
    ensures !IsDirectory(e) <==> e.filename == Show(p)
  {
    ArchivePathsExactly(e.filename, p);
    if p != [] {
      JoinIsHarmless(p);
    }
  }

  /** The text of a plain non-empty path, without outer white space. */
  predicate NamesFile(value: string, p: Path) {
    && p != [] && AllPlain(p) && value == Show(p) && value != ""
    && !IsSpace(value[0]) && !IsSpace(value[|value| - 1])
  }

  lemma EntrypointsExactly(value: string, p: Path)
    ensures Entrypoint(value) == Some(p) <==> NamesFile(value, p)
  {
    hide IsSpace;
    if Entrypoint(value) == Some(p) {
      EntrypointIsPlain(value);
    } else if NamesFile(value, p) {
      JoinSplits(p);
      JoinIsHarmless(p);
    }
  }

  /** The bytes the first `n` files expand to, as far as they can be read. */
  function Total(files: seq<File>, n: nat): nat
    requires n <= |files|
  {
    if n == 0 then 0
    else Total(files, n - 1) + if files[n - 1].payload.Some? then |files[n - 1].payload.value| else 0
  }

  /** Payloads are accepted exactly when all can be read and together they fit. */
  lemma {:induction false} PayloadsFitExactly(files: seq<File>, n: nat)
    requires n <= |files|
    ensures ActualUpTo(files, n).Ok?
       <==> (forall i | 0 <= i < n :: files[i].payload.Some?) && Total(files, n) <= 50 * 1024 * 1024
    ensures ActualUpTo(files, n).Ok? ==> ActualUpTo(files, n).value == Total(files, n)
  {
    if n > 0 {
      PayloadsFitExactly(files, n - 1);
    }
  }

  /** Where entries declare their true sizes, the scan counts exactly what the payload check counts. */
  lemma {:induction false} HonestSizesAgree(entries: seq<Entry>, n: nat)
    requires n <= |entries|
    requires forall i | 0 <= i < n && !IsDirectory(entries[i]) ::
               entries[i].payload.Some? && |entries[i].payload.value| == entries[i].declared
    ensures DeclaredUpTo(entries, n) == Total(FilesUpTo(entries, n), |FilesUpTo(entries, n)|)
  {
    hide IsDirectory, PathOf;
    if n > 0 {
      HonestSizesAgree(entries, n - 1);
      var files, e := FilesUpTo(entries, n - 1), entries[n - 1];
      if IsDirectory(e) {
        assert FilesUpTo(entries, n) == files;
      } else {
        TotalOfPrefix(files, File(PathOf(e), e.payload), |files|);
      }
    }
  }

  lemma {:induction false} TotalOfPrefix(files: seq<File>, f: File, n: nat)
    requires n <= |files|
    ensures Total(files + [f], n) == Total(files, n)
  {
    if n > 0 {
      TotalOfPrefix(files, f, n - 1);
    }
  }

  /** The characters and names a path component may have. */
  lemma PlainExactly(part: Part)
    ensures Plain(part)
       <==> part.text !in {"", ".", ".."} && forall c | c in part.text :: c >= ' ' && c !in ['/', '\\', ':']
  {
    assert forall i | 0 <= i < |part.text| :: part.text[i] in part.text;
  }

  // ------------------------------------------------------------------ workspaces that are not empty

  lemma {:induction false} ParentsKeep(key: Part -> Part, x: Extraction, p: Path, k: nat)
    requires k <= |p|
    ensures forall at | at in x.tree :: at in MakeParents(key, x, p, k).tree
                                        && MakeParents(key, x, p, k).tree[at] == x.tree[at]
  {
    hide At;
    if k > 0 {
      ParentsKeep(key, x, p, k - 1);
    }
  }

  /** Whatever the workspace held before, and however the extraction ends, nothing of it is lost or replaced. */
  lemma {:induction false} ExtractionKeepsTheWorkspace(key: Part -> Part, tree: Tree, files: seq<File>, n: nat)
    requires n <= |files|
    ensures forall at | at in tree :: at in ExtractUpTo(key, tree, files, n).tree
                                      && ExtractUpTo(key, tree, files, n).tree[at] == tree[at]
  {
    hide At, MakeParents;
    if n > 0 {
      ExtractionKeepsTheWorkspace(key, tree, files, n - 1);
      var x, p := ExtractUpTo(key, tree, files, n - 1), files[n - 1].path;
      if p != [] {
        ParentsKeep(key, x, p, |p| - 1);
      }
    }
  }

  // ------------------------------------------------------------------ the store

  /** An archive is stored exactly if its size is in bounds and its listing and payloads are accepted. */
  lemma PutsExactly(fold: char -> string, project: ProjectId, archive: Archive)
    ensures PutOutcome(fold, project, archive).Ok?
       <==> 1 <= archive.size <= 10 * 1024 * 1024 && ArchiveFiles(fold, archive, true).Ok?
    ensures PutOutcome(fold, project, archive).Ok? ==>
              PutOutcome(fold, project, archive).value == Stored(project, Digest(archive))
  {
    hide ArchiveFiles;
  }

  /** Everything stored was accepted, under its own project and digest. */
  ghost predicate OnlyAccepted(fold: char -> string, objects: Objects) {
    forall place | place in objects :: PutOutcome(fold, place.project, objects[place]) == Ok(place)
  }

  lemma PutKeepsAccepted(fold: char -> string, objects: Objects, project: ProjectId, archive: Archive)
    requires OnlyAccepted(fold, objects) && PutOutcome(fold, project, archive).Ok?
    ensures OnlyAccepted(fold, objects[PutOutcome(fold, project, archive).value := archive])
  {
    hide ArchiveFiles;
  }

  /** The refusals before extraction, in order; each leaves the workspace as it was. */
  lemma RefusalsExactly(fold: char -> string, key: Part -> Part, objects: Objects, tree: Tree, project: ProjectId,
                        source: Stored, digest: Digest, entrypoint: string)
    requires OnlyAccepted(fold, objects)
    ensures var outcome := Materialized(fold, key, objects, tree, project, source, digest, entrypoint);
            if source.project != project then outcome == (tree, Err(ForeignProject))
            else if source.digest != digest then outcome == (tree, Err(DigestMismatch))
            else if !exists p :: NamesFile(entrypoint, p) then outcome == (tree, Err(BadEntrypoint))
            else if source !in objects then outcome == (tree, Err(NoSource))
            else outcome.0 == Extracted(fold, key, tree, objects[source]).0
  {
    hide ArchiveFiles, Extracted, Entrypoint, NamesFile, Listed;
    EntrypointNames(entrypoint);
  }

  lemma EntrypointNames(entrypoint: string)
    ensures Entrypoint(entrypoint).Some? <==> exists p :: NamesFile(entrypoint, p)
  {
    hide Entrypoint, NamesFile;
    if Entrypoint(entrypoint).Some? {
      EntrypointsExactly(entrypoint, Entrypoint(entrypoint).value);
    }
    if p :| NamesFile(entrypoint, p) {
      EntrypointsExactly(entrypoint, p);
    }
  }

  /**
    Exactly when a run gets its project: the reference is its own and the one
    asked for, the archive was stored, the entrypoint names one of its files, and
    no file is named by a lone dot. The workspace then holds the archive's files
    and their ancestors, and nothing else.
   */
  lemma MaterializesExactly(fold: char -> string, key: Part -> Part, objects: Objects, project: ProjectId,
                            source: Stored, digest: Digest, entrypoint: string)
    requires Distinguishes(fold, key) && OnlyAccepted(fold, objects)
    ensures var outcome := Materialized(fold, key, objects, map[], project, source, digest, entrypoint);
            && (outcome.1.Ok?
                <==> && source == Stored(project, digest) && source in objects
                     && var files := ArchiveFiles(fold, objects[source], true).value;
                        && (exists f | f in files :: NamesFile(entrypoint, f.path))
                        && forall f | f in files :: f.path != [])
            && (outcome.1.Ok? ==>
                  var files := ArchiveFiles(fold, objects[source], true).value;
                  && NamesFile(entrypoint, outcome.1.value) && HoldsExactly(key, files, |files|, outcome.0))
  {
    hide ArchiveFiles, Extracted, Entrypoint, Listed, NamesFile, HoldsExactly, Distinguishes;
    if source == Stored(project, digest) && source in objects {
      ExtractedExactly(fold, key, objects[source]);
      EntrypointNames(entrypoint);
      var files := ArchiveFiles(fold, objects[source], true).value;
      if Entrypoint(entrypoint).Some? {
        var p := Entrypoint(entrypoint).value;
        EntrypointsExactly(entrypoint, p);
        AcceptedIsExtractable(fold, objects[source]);
        ListedExactly(files, entrypoint, p);
      }
    }
  }

  lemma ListedExactly(files: seq<File>, entrypoint: string, p: Path)
    requires NamesFile(entrypoint, p) && forall f | f in files :: AllPlain(f.path)
    ensures (forall f | f in files :: f.path != []) ==>
              (Listed(files, p) <==> exists f | f in files :: NamesFile(entrypoint, f.path))
  {
    hide AllPlain, Show, IsSpace;
    if (forall f | f in files :: f.path != []) && Listed(files, p) {
      var f :| f in files && Show(f.path) == Show(p);
      ShownOnce(f.path, p);
      assert NamesFile(entrypoint, f.path);
    }
  }

  lemma ExtractedExactly(fold: char -> string, key: Part -> Part, archive: Archive)
    requires Distinguishes(fold, key) && ArchiveFiles(fold, archive, true).Ok?
    ensures var files := ArchiveFiles(fold, archive, true).value;
            var extracted := Extracted(fold, key, map[], archive);
            && (extracted.1.Ok? <==> forall f | f in files :: f.path != [])
            && (extracted.1.Ok? ==> extracted.1 == Ok(files) && HoldsExactly(key, files, |files|, extracted.0))
  {
    hide ArchiveFiles, HoldsExactly, Distinguishes, ExtractUpTo, Extractable;
    AcceptedIsExtractable(fold, archive);
    AcceptedExtractsExactly(fold, key, archive);
  }
}
