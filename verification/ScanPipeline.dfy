/**
  File scans from the directory walk to the maps of the scan response: the Python scanners
  collect one result per file, write a log, and the backend reads each log into a map.
*/
module ScanPipeline {
  import opened Options
  import opened LogText
  import opened Listing
  import opened Blacklist

  // The world during a scan: directories and file contents do not change, every file that
  // is listed can be read, and each of the compiled rules matches a file or does not.
  datatype World = World(
    dirs: string -> Option<Dir>,
    digest: string -> string,
    rules: seq<string>,
    matching: (string, string) -> Option<string>,
    hashRows: seq<Row>)

  // ------------------------------------------------------------------
  // Python dictionaries: insertion order, one entry per key
  // ------------------------------------------------------------------

  datatype Binding<V> = Binding(key: string, value: V)

  type Dict<V> = seq<Binding<V>>

  function Put<V>(d: Dict<V>, k: string, v: V): Dict<V> {
    if d == [] then [Binding(k, v)] else if d[0].key == k then [Binding(k, v)] + d[1..] else [d[0]] + Put(d[1..], k, v)
  }

  function PutAll<V>(d: Dict<V>, files: seq<string>, f: string -> V): Dict<V>
    decreases |files|
  {
    if files == [] then d
    else Put(PutAll(d, files[..|files| - 1], f), files[|files| - 1], f(files[|files| - 1]))
  }

  // The entries written to the log.
  function Entries<V>(d: Dict<V>, render: V -> string): (r: seq<Entry>)
    ensures |r| == |d| && forall i :: 0 <= i < |r| ==> r[i] == Entry(d[i].key, render(d[i].value))
  {
    seq(|d|, i requires 0 <= i < |d| => Entry(d[i].key, render(d[i].value)))
  }

  lemma {:induction false} PutMembers<V>(d: Dict<V>, k: string, v: V, b: Binding<V>)
    ensures b in Put(d, k, v) ==> b == Binding(k, v) || b in d
    ensures b == Binding(k, v) || (b in d && b.key != k) ==> b in Put(d, k, v)
  {
    if d != [] {
      assert d == [d[0]] + d[1..];
      PutMembers(d[1..], k, v, b);
    }
  }

  // The keys of a dictionary filled in this order: each one where it came first.
  function Dedup(files: seq<string>): seq<string>
    decreases |files|
  {
    if files == [] then []
    else AddKey(Dedup(files[..|files| - 1]), files[|files| - 1])
  }

  function AddKey(keys: seq<string>, k: string): seq<string> {
    if k in keys then keys else keys + [k]
  }

  function Bindings<V>(keys: seq<string>, f: string -> V): (r: Dict<V>)
    ensures |r| == |keys| && forall i :: 0 <= i < |r| ==> r[i] == Binding(keys[i], f(keys[i]))
  {
    seq(|keys|, i requires 0 <= i < |keys| => Binding(keys[i], f(keys[i])))
  }

  lemma {:induction false} PutBinding<V>(keys: seq<string>, f: string -> V, k: string)
    ensures Put(Bindings(keys, f), k, f(k)) == Bindings(AddKey(keys, k), f)
  {
    if keys != [] {
      var tail := keys[1..];
      assert Bindings(keys, f)[1..] == Bindings(tail, f) && keys == [keys[0]] + tail;
      if keys[0] != k {
        PutBinding(tail, f, k);
        BindingsCons(keys[0], AddKey(tail, k), f);
        assert AddKey(keys, k) == [keys[0]] + AddKey(tail, k);
      } else {
        BindingsCons(k, tail, f);
      }
    }
  }

  lemma BindingsCons<V>(k: string, keys: seq<string>, f: string -> V)
    ensures Bindings([k] + keys, f) == [Binding(k, f(k))] + Bindings(keys, f)
  {
  }

  // A dictionary whose values are a function of the keys.
  lemma {:induction false} PutAllIs<V>(files: seq<string>, f: string -> V)
    ensures PutAll([], files, f) == Bindings(Dedup(files), f)
    decreases |files|
  {
    if files != [] {
      PutAllIs(files[..|files| - 1], f);
      PutBinding(Dedup(files[..|files| - 1]), f, files[|files| - 1]);
    }
  }

  lemma {:induction false} DedupMember(files: seq<string>, k: string)
    ensures k in Dedup(files) <==> k in files
    decreases |files|
  {
    if files != [] {
      var init := files[..|files| - 1];
      assert files == init + [files[|files| - 1]];
      DedupMember(init, k);
    }
  }

  lemma {:induction false} DedupPrefix(a: seq<string>, b: seq<string>)
    ensures Dedup(a) <= Dedup(a + b)
    decreases |b|
  {
    if b == [] {
      assert a + b == a;
    } else {
      assert (a + b)[..|a + b| - 1] == a + b[..|b| - 1];
      DedupPrefix(a, b[..|b| - 1]);
    }
  }

  // ------------------------------------------------------------------
  // The maps of the backend: later records overwrite earlier ones, across all logs
  // ------------------------------------------------------------------

  function LoadOne<V>(m: map<string, V>, entries: seq<Entry>, parse: string -> V): map<string, V>
    decreases |entries|
  {
    if entries == [] then m
    else
      var e := entries[|entries| - 1];
      LoadOne(m, entries[..|entries| - 1], parse)[e.name := parse(e.value)]
  }

  lemma {:induction false} LoadOneKeys<V>(m: map<string, V>, entries: seq<Entry>, parse: string -> V, k: string)
    ensures k in LoadOne(m, entries, parse) <==> k in m || k in Names(entries)
    decreases |entries|
  {
    if entries == [] {
      assert Names(entries) == [];
    } else {
      var init, e := entries[..|entries| - 1], entries[|entries| - 1];
      LoadOneKeys(m, init, parse, k);
      assert Names(entries) == Names(init) + [e.name];
    }
  }

  lemma {:induction false} LoadOneAppends<V>(m: map<string, V>, a: seq<Entry>, b: seq<Entry>, parse: string -> V)
    ensures LoadOne(m, a + b, parse) == LoadOne(LoadOne(m, a, parse), b, parse)
    decreases |b|
  {
    if b == [] {
      assert a + b == a;
    } else {
      assert (a + b)[..|a + b| - 1] == a + b[..|b| - 1];
      LoadOneAppends(m, a, b[..|b| - 1], parse);
    }
  }

  lemma NamesMember(entries: seq<Entry>, k: string)
    ensures k in Names(entries) <==> exists e :: e in entries && e.name == k
  {
    if e :| e in entries && e.name == k {
      var i :| 0 <= i < |entries| && entries[i] == e;
      assert Names(entries)[i] == k;
    }
    if k in Names(entries) {
      var i :| 0 <= i < |entries| && Names(entries)[i] == k;
      assert entries[i] in entries;
    }
  }

  // The value of the last record with a name: the one that stays in the map.
  function LastValue(entries: seq<Entry>, k: string): Option<string>
    decreases |entries|
  {
    if entries == [] then None
    else if entries[|entries| - 1].name == k then Some(entries[|entries| - 1].value)
    else LastValue(entries[..|entries| - 1], k)
  }

  lemma {:induction false} LoadOneIsLast<V>(entries: seq<Entry>, parse: string -> V, k: string)
    ensures var m := LoadOne(map[], entries, parse);
            && (k in m <==> LastValue(entries, k).Some?)
            && (k in m ==> m[k] == parse(LastValue(entries, k).value))
    decreases |entries|
  {
    if entries != [] {
      LoadOneIsLast(entries[..|entries| - 1], parse, k);
    }
  }

  lemma {:induction false} LastValueAppends(a: seq<Entry>, b: seq<Entry>, k: string)
    ensures LastValue(a + b, k) == if LastValue(b, k).Some? then LastValue(b, k) else LastValue(a, k)
    decreases |b|
  {
    if b == [] {
      assert a + b == a;
    } else {
      assert (a + b)[..|a + b| - 1] == a + b[..|b| - 1];
      LastValueAppends(a, b[..|b| - 1], k);
    }
  }

  // ------------------------------------------------------------------
  // Which file decides the value of a key
  // ------------------------------------------------------------------

  function LastPiece(pieces: seq<Piece>, k: string): Option<Piece> {
    if pieces == [] then None
    else
      var later := LastPiece(pieces[1..], k);
      if later.Some? then later else if pieces[0].name == k then Some(pieces[0]) else None
  }

  // A piece of the line of a file.
  datatype Source = Source(piece: Piece, file: string)

  // The last piece, in lines with these names, that is read as a record for k.
  function SourceOf(files: seq<string>, k: string): Option<Source>
    decreases |files|
  {
    if files == [] then None
    else
      match LastPiece(PiecesOf(files[|files| - 1], '@'), k)
      case Some(piece) => Some(Source(piece, files[|files| - 1]))
      case None => SourceOf(files[..|files| - 1], k)
  }

  // The lines of a log, with values that are a function of the file.
  function Written(files: seq<string>, text: string -> string): (r: seq<Entry>)
    ensures |r| == |files| && forall i :: 0 <= i < |r| ==> r[i] == Entry(files[i], text(files[i]))
  {
    seq(|files|, i requires 0 <= i < |files| => Entry(files[i], text(files[i])))
  }

  lemma {:induction false} LastOfRendered(pieces: seq<Piece>, value: string, k: string)
    ensures LastValue(Rendered(pieces, value), k)
            == match LastPiece(pieces, k) case Some(piece) => Some(piece.Value(value)) case None => None
  {
    if pieces != [] {
      LastOfRendered(pieces[1..], value, k);
      var first := Entry(pieces[0].name, pieces[0].Value(value));
      LastValueAppends([first], Rendered(pieces[1..], value), k);
      assert [first][..0] == [];
    }
  }

  lemma {:induction false} LastOfWritten(files: seq<string>, text: string -> string, k: string)
    ensures LastValue(Expand(Written(files, text), '@'), k)
            == match SourceOf(files, k)
               case Some(s) => Some(s.piece.Value(text(s.file)))
               case None => None
    decreases |files|
  {
    if files != [] {
      var init, file := files[..|files| - 1], files[|files| - 1];
      LastOfWritten(init, text, k);
      ExpandLast(init, file, text);
      assert files == init + [file];
      LastOfLine(Expand(Written(init, text), '@'), PiecesOf(file, '@'), text(file), k);
    }
  }

  // One more line.
  lemma LastOfLine(before: seq<Entry>, pieces: seq<Piece>, value: string, k: string)
    ensures LastValue(before + Rendered(pieces, value), k)
            == match LastPiece(pieces, k) case Some(piece) => Some(piece.Value(value)) case None => LastValue(before, k)
  {
    LastValueAppends(before, Rendered(pieces, value), k);
    LastOfRendered(pieces, value, k);
  }

  lemma ExpandLast(init: seq<string>, file: string, text: string -> string)
    ensures Expand(Written(init + [file], text), '@')
            == Expand(Written(init, text), '@') + Rendered(PiecesOf(file, '@'), text(file))
  {
    var e := Entry(file, text(file));
    assert Written(init + [file], text) == Written(init, text) + [e];
    ExpandAppend(Written(init, text), [e], '@');
    ExpandCons(e, [], '@');
    assert Rendered(PiecesOf(file, '@'), text(file)) + [] == Rendered(PiecesOf(file, '@'), text(file));
  }

  lemma {:induction false} LastPieceNamed(pieces: seq<Piece>, k: string)
    ensures LastPiece(pieces, k).Some? <==> k in PieceNames(pieces)
    ensures LastPiece(pieces, k).Some? ==> LastPiece(pieces, k).value in pieces && LastPiece(pieces, k).value.name == k
  {
    if pieces != [] {
      LastPieceNamed(pieces[1..], k);
    }
  }

  lemma {:induction false} SourceIn(files: seq<string>, k: string)
    requires SourceOf(files, k).Some?
    ensures var s := SourceOf(files, k).value;
            s.file in files && k in NamesIn(s.file, '@') && LastPiece(PiecesOf(s.file, '@'), k) == Some(s.piece)
    decreases |files|
  {
    var init, file := files[..|files| - 1], files[|files| - 1];
    assert files == init + [file];
    LastPieceNamed(PiecesOf(file, '@'), k);
    if LastPiece(PiecesOf(file, '@'), k).None? {
      SourceIn(init, k);
    }
  }

  lemma {:induction false} SourceFound(files: seq<string>, k: string, f: string)
    requires f in files && k in NamesIn(f, '@')
    ensures SourceOf(files, k).Some?
    decreases |files|
  {
    var init, file := files[..|files| - 1], files[|files| - 1];
    assert files == init + [file];
    LastPieceNamed(PiecesOf(file, '@'), k);
    if f != file {
      SourceFound(init, k, f);
    }
  }

  // A file whose name has no '@' decides for itself.
  function Self(file: string): Source {
    Source(Piece(file, "", true), file)
  }

  lemma SelfPiece(file: string, k: string)
    requires '@' !in file
    ensures LastPiece(PiecesOf(file, '@'), k) == if k == file then Some(Self(file).piece) else None
    ensures NamesIn(file, '@') == [file]
  {
    PiecesWhole(file, '@');
    PieceNamesCons(Self(file).piece, []);
    assert LastPiece([Self(file).piece], k) == if k == file then Some(Self(file).piece) else None;
  }

  // ------------------------------------------------------------------
  // The two scanners
  // ------------------------------------------------------------------

  // The files of one path of a scan request.
  function FilesOf(w: World, path: string, isFolder: bool, all: bool): seq<string> {
    if isFolder then ListFiles(path, w.dirs(path), all) else [path]
  }

  // The yara scanner reports nothing for a single file when no rule compiled.
  function YaraFilesOf(w: World, path: string, isFolder: bool, all: bool): seq<string> {
    if !isFolder && w.rules == [] then [] else FilesOf(w, path, isFolder, all)
  }

  // 1 when the server's table has the digest of the file, else 0.
  function Status(w: World, file: string): int {
    if CountRows(w.hashRows, w.digest(file)) >= 1 then 1 else 0
  }

  function StatusText(status: int): string {
    if status == 1 then "1" else "0"
  }

  function RuleNames(w: World, file: string, rules: seq<string>): seq<string> {
    if rules == [] then []
    else
      (match w.matching(rules[0], file) case Some(name) => [name] case None => []) + RuleNames(w, file, rules[1..])
  }

  function StatusIn(w: World): string -> int {
    file => Status(w, file)
  }

  function RuleNamesIn(w: World): string -> seq<string> {
    file => RuleNames(w, file, w.rules)
  }

  function HashDict(w: World, path: string, isFolder: bool, all: bool): Dict<int> {
    PutAll([], FilesOf(w, path, isFolder, all), StatusIn(w))
  }

  function YaraDict(w: World, path: string, isFolder: bool, all: bool): Dict<seq<string>> {
    PutAll([], YaraFilesOf(w, path, isFolder, all), RuleNamesIn(w))
  }

  function HashLog(w: World, path: string, isFolder: bool, all: bool): string {
    Log(Entries(HashDict(w, path, isFolder, all), StatusText), '@')
  }

  function YaraLog(w: World, path: string, isFolder: bool, all: bool): string {
    Log(Entries(YaraDict(w, path, isFolder, all), RulesText), '@')
  }

  function RulesText(names: seq<string>): string {
    Join(names, '-')
  }

  function IsOne(value: string): bool {
    value == "1"
  }

  function RulesOf(value: string): seq<string> {
    Split(value, '-')
  }

  function HashScan(w: World, paths: seq<string>, isFolder: bool, all: bool): map<string, bool>
    decreases |paths|
  {
    if paths == [] then map[]
    else
      LoadOne(HashScan(w, paths[..|paths| - 1], isFolder, all),
              Records(HashLog(w, paths[|paths| - 1], isFolder, all), '@'), IsOne)
  }

  function YaraScan(w: World, paths: seq<string>, isFolder: bool, all: bool): map<string, seq<string>>
    decreases |paths|
  {
    if paths == [] then map[]
    else
      LoadOne(YaraScan(w, paths[..|paths| - 1], isFolder, all),
              Records(YaraLog(w, paths[|paths| - 1], isFolder, all), '@'), RulesOf)
  }

  // ------------------------------------------------------------------
  // What the scans promise
  // ------------------------------------------------------------------

  ghost predicate Scanned(w: World, paths: seq<string>, isFolder: bool, all: bool, file: string) {
    exists i :: 0 <= i < |paths| && file in FilesOf(w, paths[i], isFolder, all)
  }

  ghost predicate YaraScanned(w: World, paths: seq<string>, isFolder: bool, all: bool, file: string) {
    exists i :: 0 <= i < |paths| && file in YaraFilesOf(w, paths[i], isFolder, all)
  }

  lemma ScannedLast(w: World, paths: seq<string>, isFolder: bool, all: bool, file: string)
    requires paths != []
    ensures Scanned(w, paths, isFolder, all, file)
            <==> Scanned(w, paths[..|paths| - 1], isFolder, all, file)
                 || file in FilesOf(w, paths[|paths| - 1], isFolder, all)
    ensures YaraScanned(w, paths, isFolder, all, file)
            <==> YaraScanned(w, paths[..|paths| - 1], isFolder, all, file)
                 || file in YaraFilesOf(w, paths[|paths| - 1], isFolder, all)
  {
    var init := paths[..|paths| - 1];
    assert forall i :: 0 <= i < |init| ==> init[i] == paths[i];
  }

  // The lines of all logs of a scan, path after path.
  function Lines(w: World, paths: seq<string>, isFolder: bool, all: bool): seq<string>
    decreases |paths|
  {
    if paths == [] then []
    else
      Lines(w, paths[..|paths| - 1], isFolder, all) + Dedup(FilesOf(w, paths[|paths| - 1], isFolder, all))
  }

  lemma {:induction false} LinesMember(w: World, paths: seq<string>, isFolder: bool, all: bool, file: string)
    ensures file in Lines(w, paths, isFolder, all) <==> Scanned(w, paths, isFolder, all, file)
    decreases |paths|
  {
    if paths != [] {
      LinesMember(w, paths[..|paths| - 1], isFolder, all, file);
      ScannedLast(w, paths, isFolder, all, file);
      DedupMember(FilesOf(w, paths[|paths| - 1], isFolder, all), file);
    }
  }

  function HashTextIn(w: World): string -> string {
    file => StatusText(Status(w, file))
  }

  function LogOf(w: World, path: string, isFolder: bool, all: bool, text: string -> string): string {
    Log(Written(Dedup(FilesOf(w, path, isFolder, all)), text), '@')
  }

  // The map read from the logs of all paths, with values that are a function of the file.
  function LoadLogs<V>(w: World, paths: seq<string>, isFolder: bool, all: bool,
                       text: string -> string, parse: string -> V): map<string, V>
    decreases |paths|
  {
    if paths == [] then map[]
    else
      LoadOne(LoadLogs(w, paths[..|paths| - 1], isFolder, all, text, parse),
              Records(LogOf(w, paths[|paths| - 1], isFolder, all, text), '@'), parse)
  }

  lemma HashLogIs(w: World, path: string, isFolder: bool, all: bool)
    ensures HashLog(w, path, isFolder, all) == LogOf(w, path, isFolder, all, HashTextIn(w))
    ensures Records(HashLog(w, path, isFolder, all), '@')
            == Expand(Written(Dedup(FilesOf(w, path, isFolder, all)), HashTextIn(w)), '@')
  {
    var files := FilesOf(w, path, isFolder, all);
    PutAllIs(files, StatusIn(w));
    assert Entries(HashDict(w, path, isFolder, all), StatusText) == Written(Dedup(files), HashTextIn(w));
    RecordsAreExpanded(Written(Dedup(files), HashTextIn(w)), '@');
  }

  lemma {:induction false} HashScanLoads(w: World, paths: seq<string>, isFolder: bool, all: bool)
    ensures HashScan(w, paths, isFolder, all) == LoadLogs(w, paths, isFolder, all, HashTextIn(w), IsOne)
    decreases |paths|
  {
    if paths != [] {
      HashScanLoads(w, paths[..|paths| - 1], isFolder, all);
      HashLogIs(w, paths[|paths| - 1], isFolder, all);
    }
  }

  lemma WrittenAppend(a: seq<string>, b: seq<string>, text: string -> string)
    ensures Written(a + b, text) == Written(a, text) + Written(b, text)
  {
  }

  lemma ExpandWritten(a: seq<string>, b: seq<string>, text: string -> string)
    ensures Expand(Written(a + b, text), '@') == Expand(Written(a, text), '@') + Expand(Written(b, text), '@')
  {
    WrittenAppend(a, b, text);
    ExpandAppend(Written(a, text), Written(b, text), '@');
  }

  ghost predicate OneLine(files: seq<string>, text: string -> string) {
    forall f :: f in files ==> '\n' !in text(f)
  }

  // All logs together are read as one log with the lines of all of them.
  lemma {:induction false} LoadLogsIs<V>(w: World, paths: seq<string>, isFolder: bool, all: bool,
                                         text: string -> string, parse: string -> V)
    requires OneLine(Lines(w, paths, isFolder, all), text)
    ensures LoadLogs(w, paths, isFolder, all, text, parse)
            == LoadOne(map[], Expand(Written(Lines(w, paths, isFolder, all), text), '@'), parse)
    decreases |paths|
  {
    if paths != [] {
      var init, path := paths[..|paths| - 1], paths[|paths| - 1];
      var before, files := Lines(w, init, isFolder, all), Dedup(FilesOf(w, path, isFolder, all));
      assert forall f :: f in before || f in files ==> f in before + files;
      LoadLogsIs(w, init, isFolder, all, text, parse);
      RecordsAreExpanded(Written(files, text), '@');
      ExpandWritten(before, files, text);
      LoadOneAppends(map[], Expand(Written(before, text), '@'), Expand(Written(files, text), '@'), parse);
    }
  }

  // For paths with any characters: the keys are the names that some scanned file is read as,
  // and the value of a key is read from the line of its last source.
  lemma {:induction false} LoadLogsValue<V>(w: World, paths: seq<string>, isFolder: bool, all: bool,
                                            text: string -> string, parse: string -> V, k: string)
    requires OneLine(Lines(w, paths, isFolder, all), text)
    ensures var m := LoadLogs(w, paths, isFolder, all, text, parse);
            var source := SourceOf(Lines(w, paths, isFolder, all), k);
            && (k in m <==> source.Some?)
            && (k in m <==> exists f :: Scanned(w, paths, isFolder, all, f) && k in NamesIn(f, '@'))
            && (k in m ==> m[k] == parse(source.value.piece.Value(text(source.value.file))))
  {
    var files := Lines(w, paths, isFolder, all);
    LoadLogsIs(w, paths, isFolder, all, text, parse);
    LoadOneIsLast(Expand(Written(files, text), '@'), parse, k);
    LastOfWritten(files, text, k);
    if SourceOf(files, k).Some? {
      SourceIn(files, k);
      LinesMember(w, paths, isFolder, all, SourceOf(files, k).value.file);
    }
    if f :| Scanned(w, paths, isFolder, all, f) && k in NamesIn(f, '@') {
      LinesMember(w, paths, isFolder, all, f);
      SourceFound(files, k, f);
    }
  }

  // What decides a verdict: the digest of a file, or nothing but the names.
  datatype Decider = Own(file: string) | Fixed(verdict: bool)

  function DeciderOf(s: Source): Decider {
    if !s.piece.own then Fixed(s.piece.prefix == "1")
    else if s.piece.prefix == "" then Own(s.file)
    else Fixed(false)
  }

  ghost predicate Verdict(w: World, d: Decider) {
    match d
    case Own(file) => Listed(w.hashRows, w.digest(file))
    case Fixed(verdict) => verdict
  }

  lemma VerdictIs(w: World, s: Source)
    ensures IsOne(s.piece.Value(HashTextIn(w)(s.file))) <==> Verdict(w, DeciderOf(s))
  {
    CountIffListed(w.hashRows, w.digest(s.file));
    var text := HashTextIn(w)(s.file);
    assert |s.piece.prefix + text| == |s.piece.prefix| + 1;
    assert s.piece.prefix == "" ==> s.piece.prefix + text == text;
  }

  // Main result, for paths with any characters: the map of a hash scan has exactly the names
  // that some scanned file is read as, and the verdict on a name is that of its last source.
  lemma {:induction false} HashScanVerdicts(w: World, paths: seq<string>, isFolder: bool, all: bool, k: string)
    ensures var m, source := HashScan(w, paths, isFolder, all), SourceOf(Lines(w, paths, isFolder, all), k);
            && (k in m <==> source.Some?)
            && (k in m <==> exists f :: Scanned(w, paths, isFolder, all, f) && k in NamesIn(f, '@'))
            && (k in m ==> (m[k] <==> Verdict(w, DeciderOf(source.value))))
  {
    HashScanLoads(w, paths, isFolder, all);
    LoadLogsValue(w, paths, isFolder, all, HashTextIn(w), IsOne, k);
    var source := SourceOf(Lines(w, paths, isFolder, all), k);
    if source.Some? {
      VerdictIs(w, source.value);
    }
  }

  // What a hash scan is for: a verdict on every scanned file and on nothing else.
  ghost predicate HashMapExact(w: World, paths: seq<string>, isFolder: bool, all: bool, m: map<string, bool>) {
    && (forall k :: k in m <==> Scanned(w, paths, isFolder, all, k))
    && (forall k :: k in m ==> (m[k] <==> Listed(w.hashRows, w.digest(k))))
  }

  // Main result, from the walk through the digests, the server's table, the log and its
  // reader: the map of a hash scan has exactly the scanned files as keys, and true exactly
  // for those whose digest is in the table, if and only if no scanned path contains '@'.
  lemma {:induction false} HashScanExactIff(w: World, paths: seq<string>, isFolder: bool, all: bool)
    ensures HashMapExact(w, paths, isFolder, all, HashScan(w, paths, isFolder, all))
            <==> forall file :: Scanned(w, paths, isFolder, all, file) ==> '@' !in file
  {
    if forall file :: Scanned(w, paths, isFolder, all, file) ==> '@' !in file {
      CleanScan(w, paths, isFolder, all);
    } else {
      var file :| Scanned(w, paths, isFolder, all, file) && '@' in file;
      HashKeyClean(w, paths, isFolder, all, file);
    }
  }

  lemma CleanScan(w: World, paths: seq<string>, isFolder: bool, all: bool)
    requires forall file :: Scanned(w, paths, isFolder, all, file) ==> '@' !in file
    ensures HashMapExact(w, paths, isFolder, all, HashScan(w, paths, isFolder, all))
  {
    forall k
      ensures var m := HashScan(w, paths, isFolder, all);
              && (k in m <==> Scanned(w, paths, isFolder, all, k))
              && (k in m ==> (m[k] <==> Listed(w.hashRows, w.digest(k))))
    {
      CleanScanVerdict(w, paths, isFolder, all, k);
    }
  }

  lemma HashKeyClean(w: World, paths: seq<string>, isFolder: bool, all: bool, k: string)
    requires '@' in k
    ensures k !in HashScan(w, paths, isFolder, all)
  {
    HashScanVerdicts(w, paths, isFolder, all, k);
    if k in HashScan(w, paths, isFolder, all) {
      var f :| Scanned(w, paths, isFolder, all, f) && k in NamesIn(f, '@');
      LastPieceNamed(PiecesOf(f, '@'), k);
    }
  }

  lemma CleanScanVerdict(w: World, paths: seq<string>, isFolder: bool, all: bool, k: string)
    requires forall file :: Scanned(w, paths, isFolder, all, file) ==> '@' !in file
    ensures var m := HashScan(w, paths, isFolder, all);
            && (k in m <==> Scanned(w, paths, isFolder, all, k))
            && (k in m ==> (m[k] <==> Listed(w.hashRows, w.digest(k))))
  {
    HashScanVerdicts(w, paths, isFolder, all, k);
    CleanSource(w, paths, isFolder, all, k);
  }

  lemma CleanSource(w: World, paths: seq<string>, isFolder: bool, all: bool, k: string)
    requires forall file :: Scanned(w, paths, isFolder, all, file) ==> '@' !in file
    ensures SourceOf(Lines(w, paths, isFolder, all), k)
            == if Scanned(w, paths, isFolder, all, k) then Some(Self(k)) else None
  {
    forall f | Scanned(w, paths, isFolder, all, f) && k in NamesIn(f, '@')
      ensures f == k
    {
      SelfPiece(f, k);
    }
    SoleSource(w, paths, isFolder, all, k);
  }

  // A key that no scanned file but itself is read as.
  lemma {:induction false} SoleSource(w: World, paths: seq<string>, isFolder: bool, all: bool, k: string)
    requires forall f :: Scanned(w, paths, isFolder, all, f) && k in NamesIn(f, '@') ==> f == k
    ensures SourceOf(Lines(w, paths, isFolder, all), k)
            == if Scanned(w, paths, isFolder, all, k) && '@' !in k then Some(Self(k)) else None
  {
    var files := Lines(w, paths, isFolder, all);
    LinesMember(w, paths, isFolder, all, k);
    if SourceOf(files, k).Some? {
      SourceIn(files, k);
      LinesMember(w, paths, isFolder, all, SourceOf(files, k).value.file);
      LastPieceNamed(PiecesOf(k, '@'), k);
    }
    if '@' !in k {
      SelfPiece(k, k);
      if k in files {
        SourceFound(files, k, k);
      }
    }
  }
}
