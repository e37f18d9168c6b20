/**
  Which files a scan covers, in terms of the request and the directories, and what a scan of
  a single file reports.
*/
module ScanScope {
  import opened LogText
  import opened Listing
  import opened Blacklist
  import opened ScanPipeline
  import opened ScanPromises

  // ------------------------------------------------------------------
  // The files of a scan
  // ------------------------------------------------------------------

  // Main result: a scan of single files covers the files that the request names, and the
  // yara scan none of them when no rule compiled.
  lemma SingleFilesScanned(w: World, paths: seq<string>, all: bool, f: string)
    ensures Scanned(w, paths, false, all, f) <==> f in paths
    ensures YaraScanned(w, paths, false, all, f) <==> w.rules != [] && f in paths
  {
    if f in paths {
      var i :| 0 <= i < |paths| && paths[i] == f;
      assert f in FilesOf(w, paths[i], false, all);
      assert w.rules != [] ==> f in YaraFilesOf(w, paths[i], false, all);
    }
    if Scanned(w, paths, false, all, f) {
      var i :| 0 <= i < |paths| && f in FilesOf(w, paths[i], false, all);
      assert paths[i] in paths;
    }
    if YaraScanned(w, paths, false, all, f) {
      var i :| 0 <= i < |paths| && f in YaraFilesOf(w, paths[i], false, all);
      assert paths[i] in paths;
    }
  }

  // A path of the request that is a directory with f below it.
  ghost predicate FileBelow(w: World, path: string, f: string) {
    w.dirs(path).Some? && IsFilePath(path, w.dirs(path).value, f)
  }

  // A path of the request that is a directory with f directly in it.
  ghost predicate FileOnTop(w: World, path: string, f: string) {
    w.dirs(path).Some? && exists name :: name in w.dirs(path).value.files && f == PathOf(path, [name])
  }

  lemma FolderFiles(w: World, path: string, f: string)
    ensures f in FilesOf(w, path, true, true) <==> FileBelow(w, path, f)
    ensures f in FilesOf(w, path, true, false) <==> FileOnTop(w, path, f)
  {
    if w.dirs(path).Some? {
      ListingMember(path, w.dirs(path).value, f);
      TopListingExact(path, w.dirs(path).value);
    }
  }

  // Main result: a recursive folder scan covers exactly the files below the named
  // directories, and one without subdirectories those directly in them; both scanners alike.
  lemma FoldersScanned(w: World, paths: seq<string>, f: string)
    ensures Scanned(w, paths, true, true, f) <==> exists path :: path in paths && FileBelow(w, path, f)
    ensures Scanned(w, paths, true, false, f) <==> exists path :: path in paths && FileOnTop(w, path, f)
    ensures YaraScanned(w, paths, true, true, f) <==> Scanned(w, paths, true, true, f)
    ensures YaraScanned(w, paths, true, false, f) <==> Scanned(w, paths, true, false, f)
  {
    InSomePath(w, paths, true, f);
    InSomePath(w, paths, false, f);
    YaraScannedIs(w, paths, true, true, f);
    YaraScannedIs(w, paths, true, false, f);
    forall path
      ensures f in FilesOf(w, path, true, true) <==> FileBelow(w, path, f)
      ensures f in FilesOf(w, path, true, false) <==> FileOnTop(w, path, f)
    {
      FolderFiles(w, path, f);
    }
  }

  lemma InSomePath(w: World, paths: seq<string>, all: bool, f: string)
    ensures Scanned(w, paths, true, all, f) <==> exists path :: path in paths && f in FilesOf(w, path, true, all)
  {
    if path :| path in paths && f in FilesOf(w, path, true, all) {
      var i :| 0 <= i < |paths| && paths[i] == path;
      assert f in FilesOf(w, paths[i], true, all);
    }
    if Scanned(w, paths, true, all, f) {
      var i :| 0 <= i < |paths| && f in FilesOf(w, paths[i], true, all);
      assert paths[i] in paths;
    }
  }

  // ------------------------------------------------------------------
  // A single file
  // ------------------------------------------------------------------

  // Main result: the hash scan of one file has that file as its only key, and true exactly
  // when its digest is in the server's table.
  lemma SingleFileVerdict(w: World, path: string, all: bool)
    requires '@' !in path
    ensures HashScan(w, [path], false, all).Keys == {path}
    ensures HashScan(w, [path], false, all)[path] <==> Listed(w.hashRows, w.digest(path))
  {
    forall f
      ensures Scanned(w, [path], false, all, f) <==> f == path
    {
      SingleFilesScanned(w, [path], all, f);
    }
    HashScanExactIff(w, [path], false, all);
    var m := HashScan(w, [path], false, all);
    assert path in m;
    assert forall k :: k in m ==> k == path;
  }

  // The yara scan of one file has that file as its only key when some rule compiled, with
  // the names of the rules that match; otherwise it has none.
  lemma SingleFileRules(w: World, path: string, all: bool)
    requires '@' !in path && Splittable(NamesOf(w, path), '-') && forall n :: n in NamesOf(w, path) ==> '\n' !in n
    ensures w.rules == [] ==> YaraScan(w, [path], false, all) == map[]
    ensures w.rules != [] ==> YaraScan(w, [path], false, all) == map[path := NamesOf(w, path)]
  {
    var m := YaraScan(w, [path], false, all);
    forall k
      ensures k in m <==> w.rules != [] && k == path
      ensures k in m ==> m[k] == NamesOf(w, k)
    {
      SingleFileKey(w, path, all, k);
    }
  }

  lemma SingleFileKey(w: World, path: string, all: bool, k: string)
    requires '@' !in path && Splittable(NamesOf(w, path), '-') && forall n :: n in NamesOf(w, path) ==> '\n' !in n
    ensures var m := YaraScan(w, [path], false, all);
            (k in m <==> w.rules != [] && k == path) && (k in m ==> m[k] == NamesOf(w, k))
  {
    forall f
      ensures YaraScanned(w, [path], false, all, f) <==> w.rules != [] && f == path
    {
      SingleFilesScanned(w, [path], all, f);
    }
    CleanYaraRules(w, [path], false, all, k);
    SurvivorsIff(w, path);
  }
}
