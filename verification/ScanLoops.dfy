/**
  The loops of the two scanners, of the server's list lookup, and of the backend that reads
  the logs, each proved against the function that ScanPipeline reasons about.
*/
module ScanLoops {
  import opened LogText
  import opened Listing
  import opened Blacklist
  import opened ScanPipeline
  import opened VirusTable
  import HashQuestion

  // RequestHandler::hashScan of the server: one answer per hash, in order.
  method ServerHashScan(table: Table, hashes: seq<string>) returns (res: seq<int>)
    ensures |res| == |hashes|
    ensures forall i :: 0 <= i < |hashes| ==> res[i] == if Listed(table.rows, hashes[i]) then 1 else 0
    ensures res == HashQuestion.Statuses(table.rows, hashes)
  {
    res := [];
    var i := 0;
    while i < |hashes|
      invariant 0 <= i == |res| <= |hashes|
      invariant forall j :: 0 <= j < i ==> res[j] == if Listed(table.rows, hashes[j]) then 1 else 0
      invariant forall j :: 0 <= j < i ==> res[j] == HashQuestion.Statuses(table.rows, hashes)[j]
    {
      CountIffListed(table.rows, hashes[i]);
      var malicious := table.IsMalicious(hashes[i]);
      res := res + [if malicious then 1 else 0];
      i := i + 1;
    }
  }

  // scan_dir: digests in the order of the listing, one question to the server, and the
  // answers zipped back onto the files.
  method ScanDir(w: World, table: Table, path: string, subFiles: bool) returns (results: Dict<int>)
    requires table.rows == w.hashRows
    ensures results == HashDict(w, path, true, subFiles)
  {
    var files := GetDirFiles(path, w.dirs(path), subFiles);
    var hashes: seq<string> := [];
    var i := 0;
    while i < |files|
      invariant 0 <= i == |hashes| <= |files|
      invariant forall j :: 0 <= j < i ==> hashes[j] == w.digest(files[j])
    {
      hashes := hashes + [w.digest(files[i])];
      i := i + 1;
    }
    var data := ServerHashScan(table, hashes);
    forall j | 0 <= j < |files|
      ensures data[j] == Status(w, files[j])
    {
      CountIffListed(w.hashRows, w.digest(files[j]));
    }
    results := ZipResults(files, data, StatusIn(w));
  }

  // The loop over files and answers in pairs, which stops at the shorter list.
  method ZipResults(files: seq<string>, data: seq<int>, ghost f: string -> int) returns (results: Dict<int>)
    requires |data| == |files| && forall j :: 0 <= j < |files| ==> data[j] == f(files[j])
    ensures results == PutAll([], files, f)
  {
    results := [];
    var i := 0;
    while i < |files| && i < |data|
      invariant 0 <= i <= |files|
      invariant results == PutAll([], files[..i], f)
    {
      PutAllStep(files, f, i);
      results := Put(results, files[i], data[i]);
      i := i + 1;
    }
    assert files[..|files|] == files;
  }

  lemma PutAllStep<V>(files: seq<string>, f: string -> V, i: nat)
    requires i < |files|
    ensures PutAll([], files[..i + 1], f) == Put(PutAll([], files[..i], f), files[i], f(files[i]))
  {
    assert files[..i + 1][..|files[..i + 1]| - 1] == files[..i];
  }

  // scan_file of the hash scanner.
  method ScanFile(w: World, table: Table, path: string, all: bool) returns (results: Dict<int>)
    requires table.rows == w.hashRows
    ensures results == HashDict(w, path, false, all)
  {
    var data := ServerHashScan(table, [w.digest(path)]);
    CountIffListed(w.hashRows, w.digest(path));
    results := Put([], path, data[0]);
    PutOne(path, StatusIn(w));
  }

  lemma PutOne<V>(k: string, f: string -> V)
    ensures PutAll([], [k], f) == Put([], k, f(k))
  {
    assert [k][..0] == [];
    assert PutAll([], [k][..0], f) == [];
  }

  // main of hash-scanner.py: the log it leaves.
  method HashScanner(w: World, table: Table, path: string, isFolder: bool, all: bool) returns (text: string)
    requires table.rows == w.hashRows
    ensures text == HashLog(w, path, isFolder, all)
  {
    var results;
    if isFolder {
      results := ScanDir(w, table, path, all);
    } else {
      results := ScanFile(w, table, path, all);
    }
    text := WriteLog(Entries(results, StatusText), '@');
  }

  // scan_file of the yara scanner: a first loop collects the matches, a second one the names.
  method ScanRules(w: World, file: string) returns (results: seq<string>)
    ensures results == RuleNames(w, file, w.rules)
  {
    var matches := CollectMatches(w, file);
    results := [];
    var i := 0;
    while i < |matches|
      invariant 0 <= i <= |matches|
      invariant results == MatchNames(matches[..i])
    {
      assert matches[..i + 1] == matches[..i] + [matches[i]];
      results := results + [matches[i].name];
      i := i + 1;
    }
    assert matches[..|matches|] == matches;
  }

  // A rule file and the name of the first of its rules that matched.
  datatype RuleMatch = RuleMatch(ruleFile: string, name: string)

  function MatchNames(matches: seq<RuleMatch>): (r: seq<string>)
    ensures |r| == |matches| && forall i :: 0 <= i < |r| ==> r[i] == matches[i].name
  {
    seq(|matches|, i requires 0 <= i < |matches| => matches[i].name)
  }

  lemma RuleNamesStep(w: World, file: string, i: nat, names: seq<string>)
    requires i < |w.rules|
    ensures var name, rest := w.matching(w.rules[i], file), RuleNames(w, file, w.rules[i + 1..]);
            names + RuleNames(w, file, w.rules[i..]) == if name.Some? then names + [name.value] + rest else names + rest
  {
    assert w.rules[i..][1..] == w.rules[i + 1..];
    var name, rest := w.matching(w.rules[i], file), RuleNames(w, file, w.rules[i + 1..]);
    if name.Some? {
      Regroup(names, [name.value], rest);
    } else {
      assert [] + rest == rest;
    }
  }

  method CollectMatches(w: World, file: string) returns (matches: seq<RuleMatch>)
    ensures MatchNames(matches) == RuleNames(w, file, w.rules)
  {
    matches := [];
    var i := 0;
    while i < |w.rules|
      invariant 0 <= i <= |w.rules|
      invariant MatchNames(matches) + RuleNames(w, file, w.rules[i..]) == RuleNames(w, file, w.rules)
    {
      RuleNamesStep(w, file, i, MatchNames(matches));
      var name := w.matching(w.rules[i], file);
      if name.Some? {
        assert MatchNames(matches + [RuleMatch(w.rules[i], name.value)]) == MatchNames(matches) + [name.value];
        matches := matches + [RuleMatch(w.rules[i], name.value)];
      }
      i := i + 1;
    }
    assert MatchNames(matches) + [] == MatchNames(matches);
  }

  // scan of the yara scanner.
  method ScanYara(w: World, path: string, isFolder: bool, all: bool) returns (results: Dict<seq<string>>)
    ensures results == YaraDict(w, path, isFolder, all)
  {
    results := [];
    if isFolder {
      var files := GetDirFiles(path, w.dirs(path), all);
      var i := 0;
      while i < |files|
        invariant 0 <= i <= |files|
        invariant results == PutAll([], files[..i], RuleNamesIn(w))
      {
        var names := ScanRules(w, files[i]);
        PutAllStep(files, RuleNamesIn(w), i);
        results := Put(results, files[i], names);
        i := i + 1;
      }
      assert files[..|files|] == files;
    } else if w.rules != [] {
      var names := ScanRules(w, path);
      results := Put(results, path, names);
      PutOne(path, RuleNamesIn(w));
    }
  }

  // main of scanner.py: the log it leaves.
  method YaraScanner(w: World, path: string, isFolder: bool, all: bool) returns (text: string)
    ensures text == YaraLog(w, path, isFolder, all)
  {
    var results := ScanYara(w, path, isFolder, all);
    text := WriteLog(Entries(results, RulesText), '@');
  }

  // What the inner loop still has to collect, with the part it has just read.
  function PartsLeft(ok: bool, part: string, rest: string): seq<string> {
    if ok then [part] + Split(rest, '-') else []
  }

  // One getline on '-' over what is left of a value.
  method NextPart(ss: TextStream, prev: string) returns (ok: bool, part: string)
    requires !ss.fail && (ss.eof ==> ss.rest == "")
    modifies ss
    ensures ok == !ss.fail && (ss.eof ==> ss.rest == "")
    ensures ok ==> |ss.rest| < |old(ss.rest)|
    ensures Split(old(ss.rest), '-') == PartsLeft(ok, part, ss.rest)
  {
    part := ss.GetLine('-', prev);
    ok := !ss.fail;
  }

  // The inner loop of yaraScan in the backend.
  method SplitValue(data: string) returns (rules: seq<string>)
    ensures rules == RulesOf(data)
  {
    rules := [];
    if |data| == 0 {
      return;
    }
    var ss := new TextStream(data);
    var ok, rule := NextPart(ss, "");
    while ok
      invariant ok == !ss.fail && fresh(ss) && (ss.eof ==> ss.rest == "")
      invariant Split(data, '-') == rules + PartsLeft(ok, rule, ss.rest)
      decreases ok, |ss.rest|
    {
      Regroup(rules, [rule], Split(ss.rest, '-'));
      rules := rules + [rule];
      ok, rule := NextPart(ss, rule);
    }
  }

  lemma LoadOneStep<V>(m: map<string, V>, entries: seq<Entry>, parse: string -> V, i: nat)
    requires i < |entries|
    ensures LoadOne(m, entries[..i + 1], parse)
            == LoadOne(m, entries[..i], parse)[entries[i].name := parse(entries[i].value)]
  {
    assert entries[..i + 1][..|entries[..i + 1]| - 1] == entries[..i];
  }

  lemma InsertedStep(names: seq<string>, entries: seq<Entry>, i: nat)
    requires i < |entries|
    ensures var before := Inserted(names, entries[..i]);
            Inserted(names, entries[..i + 1]) == if IsOne(entries[i].value) then before + [entries[i].name] else before
  {
    assert entries[..i + 1][..|entries[..i + 1]| - 1] == entries[..i];
  }

  // One turn of the loop over the records of a hash log.
  method LoadHash(m: map<string, bool>, e: Entry, viruses: Viruses) returns (results: map<string, bool>)
    requires viruses.Valid()
    modifies viruses
    ensures viruses.Valid() && results == m[e.name := IsOne(e.value)]
    ensures viruses.tried == if IsOne(e.value) then old(viruses.tried) + [e.name] else old(viruses.tried)
  {
    if e.value == "1" {
      results := m[e.name := true];
      var ok := viruses.Update(e.name);
    } else {
      results := m[e.name := false];
    }
  }

  method LoadHashes(m: map<string, bool>, text: string, viruses: Viruses) returns (results: map<string, bool>)
    requires viruses.Valid()
    modifies viruses
    ensures viruses.Valid() && results == LoadOne(m, Records(text, '@'), IsOne)
    ensures viruses.tried == old(viruses.tried) + Flagged(Records(text, '@'))
  {
    ghost var names := viruses.tried;
    var entries := ReadRecords(text, '@');
    results := m;
    var i := 0;
    while i < |entries|
      invariant 0 <= i <= |entries| && viruses.Valid()
      invariant results == LoadOne(m, entries[..i], IsOne)
      invariant viruses.tried == Inserted(names, entries[..i])
    {
      LoadOneStep(m, entries, IsOne, i);
      InsertedStep(names, entries, i);
      results := LoadHash(results, entries[i], viruses);
      i := i + 1;
    }
    assert entries[..|entries|] == entries;
    InsertedIs(names, entries);
  }

  method LoadRules(m: map<string, seq<string>>, text: string) returns (results: map<string, seq<string>>)
    ensures results == LoadOne(m, Records(text, '@'), RulesOf)
  {
    var entries := ReadRecords(text, '@');
    results := m;
    var i := 0;
    while i < |entries|
      invariant 0 <= i <= |entries|
      invariant results == LoadOne(m, entries[..i], RulesOf)
    {
      LoadOneStep(m, entries, RulesOf, i);
      var rules := SplitValue(entries[i].value);
      results := results[entries[i].name := rules];
      i := i + 1;
    }
    assert entries[..|entries|] == entries;
  }

  lemma HashScanStep(w: World, paths: seq<string>, isFolder: bool, all: bool, i: nat)
    requires i < |paths|
    ensures HashScan(w, paths[..i + 1], isFolder, all)
            == LoadOne(HashScan(w, paths[..i], isFolder, all), Records(HashLog(w, paths[i], isFolder, all), '@'), IsOne)
  {
    assert paths[..i + 1][..|paths[..i + 1]| - 1] == paths[..i];
  }

  lemma YaraScanStep(w: World, paths: seq<string>, isFolder: bool, all: bool, i: nat)
    requires i < |paths|
    ensures YaraScan(w, paths[..i + 1], isFolder, all)
            == LoadOne(YaraScan(w, paths[..i], isFolder, all),
                       Records(YaraLog(w, paths[i], isFolder, all), '@'), RulesOf)
  {
    assert paths[..i + 1][..|paths[..i + 1]| - 1] == paths[..i];
  }

  lemma FlaggedByStep(names: seq<string>, w: World, paths: seq<string>, isFolder: bool, all: bool, i: nat)
    requires i < |paths|
    ensures names + FlaggedBy(w, paths[..i + 1], isFolder, all)
            == names + FlaggedBy(w, paths[..i], isFolder, all)
               + Flagged(Records(HashLog(w, paths[i], isFolder, all), '@'))
  {
    assert paths[..i + 1][..|paths[..i + 1]| - 1] == paths[..i];
    Regroup(names, FlaggedBy(w, paths[..i], isFolder, all), Flagged(Records(HashLog(w, paths[i], isFolder, all), '@')));
  }

  // PeriodicScanHandler::hashScan.
  method BackendHashScan(w: World, table: Table, viruses: Viruses, paths: seq<string>, isFolder: bool, all: bool)
    returns (results: map<string, bool>)
    requires table.rows == w.hashRows && viruses.Valid()
    modifies viruses
    ensures viruses.Valid() && results == HashScan(w, paths, isFolder, all)
    ensures viruses.tried == old(viruses.tried) + FlaggedBy(w, paths, isFolder, all)
  {
    ghost var names := viruses.tried;
    results := map[];
    var i := 0;
    assert names + FlaggedBy(w, paths[..0], isFolder, all) == names;
    while i < |paths|
      invariant 0 <= i <= |paths| && viruses.Valid()
      invariant results == HashScan(w, paths[..i], isFolder, all)
      invariant viruses.tried == names + FlaggedBy(w, paths[..i], isFolder, all)
    {
      var log := HashScanner(w, table, paths[i], isFolder, all);
      HashScanStep(w, paths, isFolder, all, i);
      FlaggedByStep(names, w, paths, isFolder, all, i);
      results := LoadHashes(results, log, viruses);
      i := i + 1;
    }
    assert paths[..|paths|] == paths;
  }

  // PeriodicScanHandler::yaraScan.
  method BackendYaraScan(w: World, paths: seq<string>, isFolder: bool, all: bool)
    returns (results: map<string, seq<string>>)
    ensures results == YaraScan(w, paths, isFolder, all)
  {
    results := map[];
    var i := 0;
    while i < |paths|
      invariant 0 <= i <= |paths|
      invariant results == YaraScan(w, paths[..i], isFolder, all)
    {
      var log := YaraScanner(w, paths[i], isFolder, all);
      YaraScanStep(w, paths, isFolder, all, i);
      results := LoadRules(results, log);
      i := i + 1;
    }
    assert paths[..|paths|] == paths;
  }
}
