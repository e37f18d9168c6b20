/**
  What the scanners write, in plain text and in which order: the lines of the logs, the rule
  names of a file, and the order of files and paths.
*/
module ScanTexts {
  import opened Options
  import opened LogText
  import opened Listing
  import opened Blacklist
  import opened ScanPipeline
  import opened ScanPromises

  // ------------------------------------------------------------------
  // Lines
  // ------------------------------------------------------------------

  lemma LogOfOne(e: Entry, delim: char)
    ensures Log([e], delim) == e.name + [delim] + e.value + "\n"
  {
    assert [e][1..] == [];
    assert Log([], delim) == "";
  }

  // The log of a hash scan of one file, and of a yara scan of it when some rule compiled.
  lemma SingleFileLogs(w: World, path: string, all: bool)
    ensures HashLog(w, path, false, all)
            == path + "@" + (if Listed(w.hashRows, w.digest(path)) then "1" else "0") + "\n"
    ensures w.rules != [] ==> YaraLog(w, path, false, all) == path + "@" + Join(NamesOf(w, path), '-') + "\n"
    ensures w.rules == [] ==> YaraLog(w, path, false, all) == ""
  {
    DedupOne(path);
    LineOf(path, HashTextIn(w));
    LineOf(path, RulesTextIn(w));
    HashLogIs(w, path, false, all);
    YaraLogIs(w, path, false, all);
    CountIffListed(w.hashRows, w.digest(path));
  }

  lemma LineOf(path: string, text: string -> string)
    ensures Log(Written([path], text), '@') == path + "@" + text(path) + "\n"
  {
    assert Written([path], text) == [Entry(path, text(path))];
    LogOfOne(Entry(path, text(path)), '@');
  }

  lemma DedupOne(path: string)
    ensures Dedup([path]) == [path]
  {
    assert [path][..0] == [];
    assert Dedup([]) == [];
  }

  // The names of a list between separators.
  lemma JoinText(a: string, b: string, more: seq<string>)
    ensures Join([], '-') == "" && Join([a], '-') == a
    ensures Join([a, b] + more, '-') == a + "-" + Join([b] + more, '-')
  {
    assert [a, b] + more == [a] + ([b] + more);
    JoinCons(a, [b] + more, '-');
  }

  // ------------------------------------------------------------------
  // Rule names
  // ------------------------------------------------------------------

  // Each rule file adds the name of its match, or nothing, in the order of the rule files.
  lemma {:induction false} RuleNamesInOrder(w: World, file: string, a: seq<string>, b: seq<string>)
    ensures RuleNames(w, file, a + b) == RuleNames(w, file, a) + RuleNames(w, file, b)
  {
    if a == [] {
      assert a + b == b;
    } else {
      assert (a + b)[1..] == a[1..] + b;
      RuleNamesInOrder(w, file, a[1..], b);
      Regroup(match w.matching(a[0], file) case Some(name) => [name] case None => [],
              RuleNames(w, file, a[1..]), RuleNames(w, file, b));
    }
  }

  lemma RuleNamesOfOne(w: World, file: string, rule: string)
    ensures RuleNames(w, file, [rule]) == match w.matching(rule, file) case Some(name) => [name] case None => []
  {
    assert [rule][1..] == [];
    assert RuleNames(w, file, []) == [];
  }

  // A name is reported exactly when some compiled rule matches the file under it.
  lemma {:induction false} RuleNamesMember(w: World, file: string, rules: seq<string>, name: string)
    ensures name in RuleNames(w, file, rules) <==> exists r :: r in rules && w.matching(r, file) == Some(name)
  {
    if rules != [] {
      assert rules == [rules[0]] + rules[1..];
      RuleNamesMember(w, file, rules[1..], name);
    }
  }

  // ------------------------------------------------------------------
  // Order
  // ------------------------------------------------------------------

  function FirstAt(files: seq<string>, f: string): nat
    requires f in files
  {
    if files[0] == f then 0 else 1 + FirstAt(files[1..], f)
  }

  lemma {:induction false} FirstAtInit(files: seq<string>, f: string, last: string)
    requires f in files + [last]
    ensures FirstAt(files + [last], f) == if f in files then FirstAt(files, f) else |files|
    ensures f in files ==> FirstAt(files, f) < |files|
  {
    if files != [] && files[0] != f {
      assert (files + [last])[1..] == files[1..] + [last];
      assert files == [files[0]] + files[1..];
      FirstAtInit(files[1..], f, last);
    }
  }

  // A dictionary keeps each file once, where it came first.
  lemma {:induction false} DedupOrder(files: seq<string>)
    ensures forall f :: f in Dedup(files) <==> f in files
    ensures forall i :: 0 <= i < |Dedup(files)| ==> Dedup(files)[i] in files
    ensures forall i, j :: 0 <= i < j < |Dedup(files)| ==>
              FirstAt(files, Dedup(files)[i]) < FirstAt(files, Dedup(files)[j])
    decreases |files|
  {
    forall f
      ensures f in Dedup(files) <==> f in files
    {
      DedupMember(files, f);
    }
    assert forall i :: 0 <= i < |Dedup(files)| ==> Dedup(files)[i] in Dedup(files);
    if files != [] {
      var init, last := files[..|files| - 1], files[|files| - 1];
      assert files == init + [last];
      DedupOrder(init);
      forall i, j | 0 <= i < j < |Dedup(files)|
        ensures FirstAt(files, Dedup(files)[i]) < FirstAt(files, Dedup(files)[j])
      {
        FirstAtInit(init, Dedup(files)[i], last);
        FirstAtInit(init, Dedup(files)[j], last);
      }
    }
  }

  // The logs are read path after path.
  lemma {:induction false} LinesInOrder(w: World, a: seq<string>, b: seq<string>, isFolder: bool, all: bool)
    ensures Lines(w, a + b, isFolder, all) == Lines(w, a, isFolder, all) + Lines(w, b, isFolder, all)
    decreases |b|
  {
    if b == [] {
      assert a + b == a;
    } else {
      assert (a + b)[..|a + b| - 1] == a + b[..|b| - 1];
      LinesInOrder(w, a, b[..|b| - 1], isFolder, all);
      Regroup(Lines(w, a, isFolder, all), Lines(w, b[..|b| - 1], isFolder, all),
              Dedup(FilesOf(w, b[|b| - 1], isFolder, all)));
    }
  }

  // The lines of one path are the files of its listing, or the file itself.
  lemma LinesOfOne(w: World, path: string, isFolder: bool, all: bool)
    ensures Lines(w, [path], isFolder, all)
            == if isFolder then Dedup(ListFiles(path, w.dirs(path), all)) else [path]
  {
    assert [path][..0] == [];
    assert Lines(w, [], isFolder, all) == [];
    DedupOne(path);
  }
}
