/**
  Whether the quick scan and the full scan say the same about a file.  Both maps are read
  from logs in which a path with '@' is taken for a record of another file, so the answer
  depends on which line of each log decides the file.
*/
module ScanAgreement {
  import opened Options
  import opened LogText
  import opened Listing
  import opened Blacklist
  import opened ScanPipeline
  import opened ScanPromises

  function QuickSource(w: World, quick: seq<string>, k: string): Option<Source> {
    SourceOf(Lines(w, quick, true, false), k)
  }

  function FullSource(w: World, quick: seq<string>, full: seq<string>, k: string): Option<Source> {
    SourceOf(Lines(w, full + quick, true, true), k)
  }

  // Which lines there are depends on the directories alone.
  lemma {:induction false} LinesFromDirs(w: World, v: World, paths: seq<string>, all: bool)
    requires w.dirs == v.dirs
    ensures Lines(w, paths, true, all) == Lines(v, paths, true, all)
    decreases |paths|
  {
    if paths != [] {
      LinesFromDirs(w, v, paths[..|paths| - 1], all);
    }
  }

  // ------------------------------------------------------------------
  // Verdicts
  // ------------------------------------------------------------------

  ghost predicate HashAgree(w: World, quick: seq<string>, full: seq<string>, k: string) {
    var q, f := HashScan(w, quick, true, false), HashScan(w, full + quick, true, true);
    k in q ==> k in f && f[k] == q[k]
  }

  predicate SameDecider(w: World, quick: seq<string>, full: seq<string>, k: string) {
    var q, f := QuickSource(w, quick, k), FullSource(w, quick, full, k);
    q.Some? ==> f.Some? && DeciderOf(q.value) == DeciderOf(f.value)
  }

  // The exact condition in one world.
  lemma HashAgreeIs(w: World, quick: seq<string>, full: seq<string>, k: string)
    ensures HashAgree(w, quick, full, k)
            <==> var q, f := QuickSource(w, quick, k), FullSource(w, quick, full, k);
                 q.Some? ==> f.Some? && (Verdict(w, DeciderOf(q.value)) <==> Verdict(w, DeciderOf(f.value)))
  {
    HashScanVerdicts(w, quick, true, false, k);
    HashScanVerdicts(w, full + quick, true, true, k);
    FullCoversQuick(w, quick, full, k);
  }

  // A world in which the digest of a file is its path, and at most one path is listed.
  function OneListed(w: World, listed: seq<string>): World {
    w.(digest := (file: string) => file, hashRows := if listed == [] then [] else [Row(1, listed[0], "", "")])
  }

  lemma VerdictsDiffer(w: World, d: Decider, e: Decider) returns (v: World)
    requires d != e
    ensures v.dirs == w.dirs && !(Verdict(v, d) <==> Verdict(v, e))
  {
    match d {
      case Own(file) =>
        v := OneListed(w, if e == Fixed(true) then [] else [file]);
        assert e != Fixed(true) ==> v.hashRows[0].value == file;
      case Fixed(verdict) =>
        v := OneListed(w, if e.Own? && !verdict then [e.file] else []);
        assert e.Own? && !verdict ==> v.hashRows[0].value == e.file;
    }
  }

  // Main result, verdict half: for given directories, quick and full scan agree on a name
  // for every digest and every table if and only if both verdicts come from the digest of
  // the same file, or both are fixed by text of paths and are the same.
  lemma {:induction false} HashAgreeIff(w: World, quick: seq<string>, full: seq<string>, k: string)
    ensures (forall v: World :: v.dirs == w.dirs ==> HashAgree(v, quick, full, k)) <==> SameDecider(w, quick, full, k)
  {
    var q, f := QuickSource(w, quick, k), FullSource(w, quick, full, k);
    forall v: World | v.dirs == w.dirs
      ensures SameDecider(w, quick, full, k) ==> HashAgree(v, quick, full, k)
    {
      LinesFromDirs(w, v, quick, false);
      LinesFromDirs(w, v, full + quick, true);
      HashAgreeIs(v, quick, full, k);
    }
    if !SameDecider(w, quick, full, k) {
      var v := w;
      if f.Some? {
        v := VerdictsDiffer(w, DeciderOf(q.value), DeciderOf(f.value));
      }
      LinesFromDirs(w, v, quick, false);
      LinesFromDirs(w, v, full + quick, true);
      HashAgreeIs(v, quick, full, k);
      assert !HashAgree(v, quick, full, k);
    }
  }

  // ------------------------------------------------------------------
  // Rules
  // ------------------------------------------------------------------

  ghost predicate YaraAgree(w: World, quick: seq<string>, full: seq<string>, k: string) {
    var q, f := YaraScan(w, quick, true, false), YaraScan(w, full + quick, true, true);
    k in q ==> k in f && f[k] == q[k]
  }

  // What decides a list of rules: the matches of a file after some text of its path, or
  // nothing but a path.
  datatype RuleDecider = Matches(prefix: string, file: string) | Names(names: seq<string>)

  function RuleDeciderOf(s: Source): RuleDecider {
    if s.piece.own then Matches(s.piece.prefix, s.file) else Names(RulesOf(s.piece.prefix))
  }

  predicate SameRuleDecider(w: World, quick: seq<string>, full: seq<string>, k: string) {
    var q, f := QuickSource(w, quick, k), FullSource(w, quick, full, k);
    q.Some? ==> f.Some? && RuleDeciderOf(q.value) == RuleDeciderOf(f.value)
  }

  lemma QuickIsScannedByFull(w: World, quick: seq<string>, full: seq<string>, k: string)
    requires Scanned(w, quick, true, false, k)
    ensures Scanned(w, full + quick, true, true, k)
  {
    var i :| 0 <= i < |quick| && k in FilesOf(w, quick[i], true, false);
    TopIsPrefix(quick[i], w.dirs(quick[i]));
    assert (full + quick)[|full| + i] == quick[i];
    assert k in FilesOf(w, (full + quick)[|full| + i], true, true);
  }

  lemma PlainQuick(w: World, quick: seq<string>, full: seq<string>)
    requires PlainRules(w, full + quick, true, true)
    ensures PlainRules(w, quick, true, false)
  {
    forall f | YaraScanned(w, quick, true, false, f)
      ensures YaraScanned(w, full + quick, true, true, f)
    {
      YaraScannedIs(w, quick, true, false, f);
      QuickIsScannedByFull(w, quick, full, f);
      YaraScannedIs(w, full + quick, true, true, f);
    }
  }

  lemma YaraAgreeIs(w: World, quick: seq<string>, full: seq<string>, k: string)
    requires PlainRules(w, full + quick, true, true)
    ensures YaraAgree(w, quick, full, k)
            <==> var q, f := QuickSource(w, quick, k), FullSource(w, quick, full, k);
                 q.Some? ==> f.Some? && RulesFrom(w, q.value) == RulesFrom(w, f.value)
  {
    PlainQuick(w, quick, full);
    YaraScanRules(w, quick, true, false, k);
    YaraScanRules(w, full + quick, true, true, k);
  }

  // A world with one rule, which matches one file under this name.
  function Probe(w: World, file: string, name: string): World {
    w.(rules := [""], matching := (rule: string, f: string) => if f == file then Some(name) else None)
  }

  lemma ProbeNames(w: World, file: string, name: string, f: string)
    ensures NamesOf(Probe(w, file, name), f) == if f == file then [name] else []
  {
    var p := Probe(w, file, name);
    assert p.rules[1..] == [];
    assert RuleNames(p, f, []) == [];
  }

  // What a source gives in that world.
  function Probed(s: Source, file: string, name: string): seq<string> {
    if !s.piece.own then RulesOf(s.piece.prefix)
    else if s.file == file then RulesOf(s.piece.prefix + name)
    else RulesOf(s.piece.prefix)
  }

  lemma ProbeRules(w: World, file: string, name: string, s: Source)
    ensures RulesFrom(Probe(w, file, name), s) == Probed(s, file, name)
  {
    ProbeNames(w, file, name, s.file);
    assert s.piece.prefix + "" == s.piece.prefix;
  }

  lemma SplitInjective(a: string, b: string, x: char, y: char)
    requires x != '-' && y != '-' && RulesOf(a + [x]) == RulesOf(b + [y])
    ensures a == b && x == y
  {
    JoinSplit(a + [x], '-');
    JoinSplit(b + [y], '-');
    assert a == (a + [x])[..|a + [x]| - 1] && b == (b + [y])[..|b + [y]| - 1];
    assert (a + [x])[|a|] == x && (b + [y])[|b|] == y;
  }

  // Two sources with different deciders are told apart by a file and one of two names.
  lemma ProbesDiffer(s: Source, t: Source) returns (file: string, name: string)
    requires RuleDeciderOf(s) != RuleDeciderOf(t)
    ensures name in ["a", "b"] && Probed(s, file, name) != Probed(t, file, name)
  {
    file := if s.piece.own then s.file else t.file;
    name := if Probed(s, file, "a") != Probed(t, file, "a") then "a" else "b";
    if name == "b" {
      var p, r := s.piece.prefix, t.piece.prefix;
      if RulesOf(p + ['a']) == RulesOf(p + ['b']) {
        SplitInjective(p, p, 'a', 'b');
      }
      if RulesOf(r + ['a']) == RulesOf(r + ['b']) {
        SplitInjective(r, r, 'a', 'b');
      }
      if RulesOf(p + ['a']) == RulesOf(r + ['a']) {
        SplitInjective(p, r, 'a', 'a');
      }
    }
  }

  lemma RulesDiffer(w: World, s: Source, t: Source) returns (v: World)
    requires RuleDeciderOf(s) != RuleDeciderOf(t)
    ensures v.dirs == w.dirs && RulesFrom(v, s) != RulesFrom(v, t)
    ensures forall f, n :: n in NamesOf(v, f) ==> '\n' !in n
  {
    var file, name := ProbesDiffer(s, t);
    v := Probe(w, file, name);
    ProbeRules(w, file, name, s);
    ProbeRules(w, file, name, t);
    forall f
      ensures NamesOf(v, f) == if f == file then [name] else []
    {
      ProbeNames(w, file, name, f);
    }
  }

  // Main result, the same for the rules: they agree for every set of rules whose names have
  // no newline if and only if both lists are the matches of the same file after the same
  // text, or both are fixed by text of paths and are the same.
  lemma {:induction false} YaraAgreeIff(w: World, quick: seq<string>, full: seq<string>, k: string)
    ensures (forall v: World :: v.dirs == w.dirs && PlainRules(v, full + quick, true, true) ==>
               YaraAgree(v, quick, full, k))
            <==> SameRuleDecider(w, quick, full, k)
  {
    var q, f := QuickSource(w, quick, k), FullSource(w, quick, full, k);
    forall v: World | v.dirs == w.dirs && PlainRules(v, full + quick, true, true)
      ensures SameRuleDecider(w, quick, full, k) ==> YaraAgree(v, quick, full, k)
    {
      LinesFromDirs(w, v, quick, false);
      LinesFromDirs(w, v, full + quick, true);
      YaraAgreeIs(v, quick, full, k);
    }
    if !SameRuleDecider(w, quick, full, k) {
      FullHasSource(w, quick, full, k);
      var v := RulesDiffer(w, q.value, f.value);
      LinesFromDirs(w, v, quick, false);
      LinesFromDirs(w, v, full + quick, true);
      YaraAgreeIs(v, quick, full, k);
      assert !YaraAgree(v, quick, full, k);
    }
  }

  lemma FullHasSource(w: World, quick: seq<string>, full: seq<string>, k: string)
    requires QuickSource(w, quick, k).Some?
    ensures FullSource(w, quick, full, k).Some?
  {
    HashScanVerdicts(w, quick, true, false, k);
    HashScanVerdicts(w, full + quick, true, true, k);
    FullCoversQuick(w, quick, full, k);
  }

  // ------------------------------------------------------------------
  // When the condition holds, and an input for which it does not
  // ------------------------------------------------------------------

  // It holds for a file that no other file of the full scan is read as; in particular for
  // all files when no scanned path contains '@'.
  lemma OwnLineAgrees(w: World, quick: seq<string>, full: seq<string>, k: string)
    requires forall f :: Scanned(w, full + quick, true, true, f) && k in NamesIn(f, '@') ==> f == k
    ensures HashAgree(w, quick, full, k)
    ensures PlainRules(w, full + quick, true, true) ==> YaraAgree(w, quick, full, k)
  {
    forall f | Scanned(w, quick, true, false, f)
      ensures Scanned(w, full + quick, true, true, f)
    {
      QuickIsScannedByFull(w, quick, full, f);
    }
    SoleSource(w, quick, true, false, k);
    SoleSource(w, full + quick, true, true, k);
    HashAgreeIs(w, quick, full, k);
    if PlainRules(w, full + quick, true, true) {
      YaraAgreeIs(w, quick, full, k);
    }
  }

  // A listed file next to a directory whose name is that file's name, '@' and more: the
  // quick scan finds the file, and the full scan overwrites its verdict.
  lemma SubdirectoryHidesVerdict(w: World)
    requires w.dirs("r") == Some(Dir(["x"], [Sub("x@z", false, Dir(["f"], []))]))
    requires Listed(w.hashRows, w.digest("r/x"))
    ensures var q, f := HashScan(w, ["r"], true, false), HashScan(w, ["r"], true, true);
            "r/x" in q && "r/x" in f && q["r/x"] && !f["r/x"]
  {
    var top := Dir(["x"], [Sub("x@z", false, Dir(["f"], []))]);
    assert JoinPath("r", "x") == "r/x";
    assert ListFiles("r", Some(top), false) == JoinAll("r", ["x"]) == ["r/x"];
    HiddenListing();
    OneListing(w, false, ["r/x"]);
    OneListing(w, true, ["r/x", "r/x@z/f"]);
    HiddenSources();
    HashScanVerdicts(w, ["r"], true, false, "r/x");
    HashScanVerdicts(w, ["r"], true, true, "r/x");
  }

  lemma HiddenListing()
    ensures ListFiles("r", Some(Dir(["x"], [Sub("x@z", false, Dir(["f"], []))])), true) == ["r/x", "r/x@z/f"]
  {
    var sub := Dir(["f"], []);
    var top := Dir(["x"], [Sub("x@z", false, sub)]);
    assert JoinPath("r", "x@z") == "r/x@z" && JoinPath("r", "x") == "r/x" && JoinPath("r/x@z", "f") == "r/x@z/f";
    assert WalkSubs("r/x@z", sub, 0) == [];
    assert WalkFrom("r/x@z", sub) == [Item("r/x@z", ["f"])];
    assert WalkSubs("r", top, 1) == [];
    assert WalkSubs("r", top, 0) == [Item("r/x@z", ["f"])];
    assert WalkFrom("r", top) == [Item("r", ["x"]), Item("r/x@z", ["f"])];
    assert JoinAll("r", ["x"]) == ["r/x"];
    assert JoinAll("r/x@z", ["f"]) == ["r/x@z/f"];
    var items := [Item("r/x@z", ["f"])];
    assert items[1..] == [];
    assert Flatten(items) == ["r/x@z/f"] + Flatten([]);
    FlattenFirst(Item("r", ["x"]), items);
  }

  lemma OneListing(w: World, all: bool, files: seq<string>)
    requires ListFiles("r", w.dirs("r"), all) == files && Dedup(files) == files
    ensures Lines(w, ["r"], true, all) == files
  {
    assert ["r"][..0] == [];
    assert Lines(w, [], true, all) == [];
  }

  lemma {:induction false} HiddenSources()
    ensures SourceOf(["r/x"], "r/x") == Some(Self("r/x"))
    ensures SourceOf(["r/x", "r/x@z/f"], "r/x") == Some(Source(Piece("r/x", "z/f@", true), "r/x@z/f"))
  {
    SelfPiece("r/x", "r/x");
    assert "r/x@z/f" == "r/x" + ['@'] + "z/f";
    PiecesOnce("r/x", "z/f", '@');
    var pieces := [Piece("r/x", "z/f@", true)];
    assert pieces[1..] == [];
    assert "z/f" + ['@'] == "z/f@";
    assert LastPiece(pieces, "r/x") == Some(pieces[0]);
  }
}
