/**
  What the scan types promise each other and the client: the yara map, the quick and full
  scans, and the lookup of each yara entry in the hash map.
*/
module ScanPromises {
  import opened LogText
  import opened Listing
  import opened ScanPipeline

  // ------------------------------------------------------------------
  // The yara map
  // ------------------------------------------------------------------

  function NamesOf(w: World, file: string): seq<string> {
    RuleNames(w, file, w.rules)
  }

  function RulesTextIn(w: World): string -> string {
    file => RulesText(NamesOf(w, file))
  }

  lemma {:induction false} JoinFree(parts: seq<string>, sep: char, c: char)
    requires c != sep
    ensures c !in Join(parts, sep) <==> forall p :: p in parts ==> c !in p
  {
    if |parts| > 1 {
      JoinFree(parts[1..], sep, c);
      assert parts == [parts[0]] + parts[1..];
    }
  }

  lemma {:induction false} SplitFree(s: string, sep: char, c: char)
    requires c !in s
    ensures forall p :: p in Split(s, sep) ==> c !in p
    decreases |s|
  {
    if s != "" && Find(s, sep) < |s| {
      SplitFree(s[Find(s, sep) + 1..], sep, c);
    }
  }

  // No rule that matches a scanned file has a newline in its name.
  ghost predicate PlainRules(w: World, paths: seq<string>, isFolder: bool, all: bool) {
    forall f, n :: YaraScanned(w, paths, isFolder, all, f) && n in NamesOf(w, f) ==> '\n' !in n
  }

  // Without compiled rules the scan of single files reports nothing.
  predicate YaraRuns(w: World, isFolder: bool) {
    isFolder || w.rules != []
  }

  lemma YaraLogIs(w: World, path: string, isFolder: bool, all: bool)
    ensures YaraLog(w, path, isFolder, all)
            == if YaraRuns(w, isFolder) then LogOf(w, path, isFolder, all, RulesTextIn(w)) else ""
  {
    var files := YaraFilesOf(w, path, isFolder, all);
    PutAllIs(files, RuleNamesIn(w));
    assert Entries(YaraDict(w, path, isFolder, all), RulesText) == Written(Dedup(files), RulesTextIn(w));
  }

  lemma {:induction false} YaraScanLoads(w: World, paths: seq<string>, isFolder: bool, all: bool)
    ensures YaraScan(w, paths, isFolder, all)
            == if YaraRuns(w, isFolder) then LoadLogs(w, paths, isFolder, all, RulesTextIn(w), RulesOf) else map[]
    decreases |paths|
  {
    if paths != [] {
      YaraScanLoads(w, paths[..|paths| - 1], isFolder, all);
      YaraLogIs(w, paths[|paths| - 1], isFolder, all);
    }
  }

  lemma YaraScannedIs(w: World, paths: seq<string>, isFolder: bool, all: bool, f: string)
    ensures YaraScanned(w, paths, isFolder, all, f) <==> YaraRuns(w, isFolder) && Scanned(w, paths, isFolder, all, f)
  {
    if YaraRuns(w, isFolder) {
      assert forall i :: 0 <= i < |paths| ==>
               YaraFilesOf(w, paths[i], isFolder, all) == FilesOf(w, paths[i], isFolder, all);
    }
  }

  lemma PlainIsOneLine(w: World, paths: seq<string>, isFolder: bool, all: bool)
    requires YaraRuns(w, isFolder)
    ensures PlainRules(w, paths, isFolder, all) <==> OneLine(Lines(w, paths, isFolder, all), RulesTextIn(w))
  {
    forall f
      ensures f in Lines(w, paths, isFolder, all) <==> YaraScanned(w, paths, isFolder, all, f)
      ensures '\n' !in RulesTextIn(w)(f) <==> forall n :: n in NamesOf(w, f) ==> '\n' !in n
    {
      LinesMember(w, paths, isFolder, all, f);
      YaraScannedIs(w, paths, isFolder, all, f);
      JoinFree(NamesOf(w, f), '-', '\n');
    }
  }

  // The rules that a source gives its key.
  function RulesFrom(w: World, s: Source): seq<string> {
    RulesOf(s.piece.Value(RulesText(NamesOf(w, s.file))))
  }

  // For paths with any characters: the keys of the yara map are the names that some scanned
  // file is read as, and the rules of a key are those of its last source.
  lemma YaraScanRules(w: World, paths: seq<string>, isFolder: bool, all: bool, k: string)
    requires PlainRules(w, paths, isFolder, all)
    ensures var m, source := YaraScan(w, paths, isFolder, all), SourceOf(Lines(w, paths, isFolder, all), k);
            && (k in m <==> YaraRuns(w, isFolder) && source.Some?)
            && (k in m <==> exists f :: YaraScanned(w, paths, isFolder, all, f) && k in NamesIn(f, '@'))
            && (k in m ==> m[k] == RulesFrom(w, source.value))
  {
    YaraScanLoads(w, paths, isFolder, all);
    forall f
      ensures YaraScanned(w, paths, isFolder, all, f) <==> YaraRuns(w, isFolder) && Scanned(w, paths, isFolder, all, f)
    {
      YaraScannedIs(w, paths, isFolder, all, f);
    }
    if YaraRuns(w, isFolder) {
      PlainIsOneLine(w, paths, isFolder, all);
      LoadLogsValue(w, paths, isFolder, all, RulesTextIn(w), RulesOf, k);
    }
  }

  ghost predicate YaraMapExact(w: World, paths: seq<string>, isFolder: bool, all: bool, m: map<string, seq<string>>) {
    forall k :: YaraExactAt(w, paths, isFolder, all, m, k)
  }

  // A scanned file has the list of its rules, and no other name is a key.
  ghost predicate YaraExactAt(w: World, paths: seq<string>, isFolder: bool, all: bool,
                              m: map<string, seq<string>>, k: string) {
    (k in m <==> YaraScanned(w, paths, isFolder, all, k)) && (k in m ==> m[k] == NamesOf(w, k))
  }

  // Whatever was scanned, no key of the map contains '@' and no rule name a newline.
  lemma {:induction false} YaraMapClean(w: World, paths: seq<string>, isFolder: bool, all: bool, k: string)
    requires k in YaraScan(w, paths, isFolder, all)
    ensures '@' !in k && forall n :: n in YaraScan(w, paths, isFolder, all)[k] ==> '\n' !in n
    decreases |paths|
  {
    var init := paths[..|paths| - 1];
    var m, entries := YaraScan(w, init, isFolder, all), Records(YaraLog(w, paths[|paths| - 1], isFolder, all), '@');
    if k in m {
      YaraMapClean(w, init, isFolder, all, k);
    }
    LoadOneClean(m, entries, k);
  }

  lemma {:induction false} LoadOneClean(m: map<string, seq<string>>, entries: seq<Entry>, k: string)
    requires k in m ==> '@' !in k && forall n :: n in m[k] ==> '\n' !in n
    requires forall e :: e in entries ==> Loggable(e, '@')
    requires k in LoadOne(m, entries, RulesOf)
    ensures '@' !in k && forall n :: n in LoadOne(m, entries, RulesOf)[k] ==> '\n' !in n
    decreases |entries|
  {
    if entries != [] {
      var init, e := entries[..|entries| - 1], entries[|entries| - 1];
      assert e in entries;
      SplitFree(e.value, '-', '\n');
      if e.name != k {
        LoadOneClean(m, init, k);
      }
    }
  }

  // What is left of the names of a file after the log.
  function Survivors(w: World, file: string): seq<string> {
    RulesOf(RulesText(NamesOf(w, file)))
  }

  lemma SurvivorsIff(w: World, file: string)
    ensures Survivors(w, file) == NamesOf(w, file) <==> Splittable(NamesOf(w, file), '-')
    ensures RulesFrom(w, Self(file)) == Survivors(w, file)
  {
    SplitJoinIff(NamesOf(w, file), '-');
    var text := RulesText(NamesOf(w, file));
    assert "" + text == text;
  }

  lemma CleanYaraRules(w: World, paths: seq<string>, isFolder: bool, all: bool, k: string)
    requires PlainRules(w, paths, isFolder, all)
    requires forall f :: YaraScanned(w, paths, isFolder, all, f) ==> '@' !in f
    ensures var m := YaraScan(w, paths, isFolder, all);
            && (k in m <==> YaraScanned(w, paths, isFolder, all, k))
            && (k in m ==> m[k] == Survivors(w, k))
  {
    YaraScanRules(w, paths, isFolder, all, k);
    YaraScannedIs(w, paths, isFolder, all, k);
    if YaraRuns(w, isFolder) {
      forall f | Scanned(w, paths, isFolder, all, f)
        ensures '@' !in f
      {
        YaraScannedIs(w, paths, isFolder, all, f);
      }
      CleanSource(w, paths, isFolder, all, k);
      SurvivorsIff(w, k);
    }
  }

  // Main result: the yara map has exactly the scanned files as keys and gives each the list
  // of the rules that match it, empty lists included, if and only if no scanned path
  // contains '@', no rule name contains '-' or a newline, and no list ends in an empty name.
  lemma {:induction false} YaraScanExactIff(w: World, paths: seq<string>, isFolder: bool, all: bool)
    ensures YaraMapExact(w, paths, isFolder, all, YaraScan(w, paths, isFolder, all))
            <==> && PlainRules(w, paths, isFolder, all)
                 && (forall k :: YaraScanned(w, paths, isFolder, all, k) ==> '@' !in k)
                 && forall k :: YaraScanned(w, paths, isFolder, all, k) ==> Splittable(NamesOf(w, k), '-')
  {
    if YaraMapExact(w, paths, isFolder, all, YaraScan(w, paths, isFolder, all)) {
      ExactIsClean(w, paths, isFolder, all);
    }
    if PlainRules(w, paths, isFolder, all) && forall k :: YaraScanned(w, paths, isFolder, all, k) ==> '@' !in k {
      CleanYaraIff(w, paths, isFolder, all);
    }
  }

  lemma CleanYaraIff(w: World, paths: seq<string>, isFolder: bool, all: bool)
    requires PlainRules(w, paths, isFolder, all)
    requires forall k :: YaraScanned(w, paths, isFolder, all, k) ==> '@' !in k
    ensures YaraMapExact(w, paths, isFolder, all, YaraScan(w, paths, isFolder, all))
            <==> forall k :: YaraScanned(w, paths, isFolder, all, k) ==> Splittable(NamesOf(w, k), '-')
  {
    forall k
      ensures YaraExactAt(w, paths, isFolder, all, YaraScan(w, paths, isFolder, all), k)
              <==> (YaraScanned(w, paths, isFolder, all, k) ==> Splittable(NamesOf(w, k), '-'))
    {
      CleanYaraRules(w, paths, isFolder, all, k);
      SurvivorsIff(w, k);
    }
  }

  lemma ExactIsClean(w: World, paths: seq<string>, isFolder: bool, all: bool)
    requires YaraMapExact(w, paths, isFolder, all, YaraScan(w, paths, isFolder, all))
    ensures PlainRules(w, paths, isFolder, all) && forall k :: YaraScanned(w, paths, isFolder, all, k) ==> '@' !in k
  {
    forall k | YaraScanned(w, paths, isFolder, all, k)
      ensures '@' !in k && forall n :: n in NamesOf(w, k) ==> '\n' !in n
    {
      assert YaraExactAt(w, paths, isFolder, all, YaraScan(w, paths, isFolder, all), k);
      YaraMapClean(w, paths, isFolder, all, k);
    }
  }

  // Main result: for every scan type, path list and world, each key of the yara map is a
  // key of the hash map, whatever the paths look like, as long as no rule name contains a
  // newline; so the client's lookup never fails.
  lemma LookupSucceeds(w: World, paths: seq<string>, isFolder: bool, all: bool, k: string)
    requires PlainRules(w, paths, isFolder, all)
    requires k in YaraScan(w, paths, isFolder, all)
    ensures k in HashScan(w, paths, isFolder, all)
  {
    YaraScanRules(w, paths, isFolder, all, k);
    HashScanVerdicts(w, paths, isFolder, all, k);
  }

  // ------------------------------------------------------------------
  // Quick and full scans
  // ------------------------------------------------------------------

  // parseConfigData: the quick paths are appended to the full ones.
  method ParseConfigData(quick: seq<string>, full: seq<string>)
    returns (quickPaths: seq<string>, fullPaths: seq<string>)
    ensures quickPaths == quick && fullPaths == full + quick
  {
    quickPaths := quick;
    fullPaths := full;
    var i := 0;
    while i < |quickPaths|
      invariant 0 <= i <= |quickPaths|
      invariant fullPaths == full + quickPaths[..i]
    {
      fullPaths := fullPaths + [quickPaths[i]];
      i := i + 1;
    }
  }

  lemma {:induction false} LogPrefix(w: World, path: string, text: string -> string)
    ensures Records(LogOf(w, path, true, false, text), '@') <= Records(LogOf(w, path, true, true, text), '@')
  {
    var top, files := FilesOf(w, path, true, false), FilesOf(w, path, true, true);
    TopIsPrefix(path, w.dirs(path));
    DedupPrefix(top, files[|top|..]);
    var a, b := Dedup(top), Dedup(files);
    assert top + files[|top|..] == files && b == a + b[|a|..];
    WrittenAppend(a, b[|a|..], text);
    LogAppend(Written(a, text), Written(b[|a|..], text), '@');
    LogIsWholeLines(Written(a, text), '@');
    RecordsPrefix(Log(Written(a, text), '@'), Log(Written(b[|a|..], text), '@'), '@');
  }

  lemma NamesPrefix(a: seq<Entry>, b: seq<Entry>, k: string)
    requires a <= b && k in Names(a)
    ensures k in Names(b)
  {
    var i :| 0 <= i < |a| && Names(a)[i] == k;
    assert Names(b)[i] == k;
  }

  // No requires: the shorter log is a prefix of the longer one, so nothing it is read as is
  // lost, whatever the paths and the values look like.
  lemma {:induction false} LoadLogsCovers<V>(w: World, quick: seq<string>, full: seq<string>, text: string -> string,
                                             parse: string -> V, k: string)
    requires k in LoadLogs(w, quick, true, false, text, parse)
    ensures k in LoadLogs(w, full + quick, true, true, text, parse)
    decreases |quick|
  {
    var init, path := quick[..|quick| - 1], quick[|quick| - 1];
    assert full + quick == (full + init) + [path];
    var q, f := LoadLogs(w, init, true, false, text, parse), LoadLogs(w, full + init, true, true, text, parse);
    var some, more := Records(LogOf(w, path, true, false, text), '@'), Records(LogOf(w, path, true, true, text), '@');
    LoadOneKeys(q, some, parse, k);
    LoadOneKeys(f, more, parse, k);
    assert (full + quick)[..|full + quick| - 1] == full + init;
    if k in q {
      LoadLogsCovers(w, init, full, text, parse, k);
    } else {
      LogPrefix(w, path, text);
      NamesPrefix(some, more, k);
    }
  }

  // Main result, key half: for any configured path lists, any paths and any rule names,
  // every file in a map of the quick scan is in the same map of the full scan.
  lemma FullCoversQuick(w: World, quick: seq<string>, full: seq<string>, k: string)
    ensures k in HashScan(w, quick, true, false) ==> k in HashScan(w, full + quick, true, true)
    ensures k in YaraScan(w, quick, true, false) ==> k in YaraScan(w, full + quick, true, true)
  {
    HashScanLoads(w, quick, true, false);
    HashScanLoads(w, full + quick, true, true);
    YaraScanLoads(w, quick, true, false);
    YaraScanLoads(w, full + quick, true, true);
    if k in HashScan(w, quick, true, false) {
      LoadLogsCovers(w, quick, full, HashTextIn(w), IsOne, k);
    }
    if k in YaraScan(w, quick, true, false) {
      LoadLogsCovers(w, quick, full, RulesTextIn(w), RulesOf, k);
    }
  }
}
