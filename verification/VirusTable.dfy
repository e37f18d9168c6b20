/**
  The backend's own table of viruses: the reader of the hash log inserts the name of every
  record with the value 1, on each scan again.
*/
module VirusTable {
  import opened Options
  import opened LogText
  import opened Blacklist
  import opened ScanPipeline

  datatype VirusRow = VirusRow(name: string, dateAdded: string)

  // The rows that some inserts leave; `answers(i)` is the time stamp of the i-th insert into
  // the table, or None when the database refuses it.
  function RowsOf(tried: seq<string>, answers: nat -> Option<string>): seq<VirusRow>
    decreases |tried|
  {
    if tried == [] then []
    else
      var last := |tried| - 1;
      RowsOf(tried[..last], answers)
      + match answers(last) case Some(date) => [VirusRow(tried[last], date)] case None => []
  }

  class Viruses {
    const answers: nat -> Option<string>
    var rows: seq<VirusRow>
    var tried: seq<string>  // the names of all inserts

    ghost predicate Valid()
      reads this
    {
      rows == RowsOf(tried, answers)
    }

    constructor (answers: nat -> Option<string>)
      ensures Valid() && tried == []
    {
      this.answers, rows, tried := answers, [], [];
    }

    // Helper::updateVirusTables.
    method Update(name: string) returns (ok: bool)
      requires Valid()
      modifies this
      ensures Valid() && tried == old(tried) + [name]
      ensures ok == answers(|old(tried)|).Some?
      ensures rows == if ok then old(rows) + [VirusRow(name, answers(|old(tried)|).value)] else old(rows)
    {
      var answer := answers(|tried|);
      assert (tried + [name])[..|tried|] == tried;
      tried := tried + [name];
      ok := answer.Some?;
      if ok {
        rows := rows + [VirusRow(name, answer.value)];
      }
    }
  }

  // A name is in the table exactly when some insert of it was accepted.
  lemma {:induction false} RowsMember(tried: seq<string>, answers: nat -> Option<string>, name: string)
    ensures (exists r :: r in RowsOf(tried, answers) && r.name == name)
            <==> exists i :: 0 <= i < |tried| && tried[i] == name && answers(i).Some?
    decreases |tried|
  {
    if tried != [] {
      var last := |tried| - 1;
      var before := RowsOf(tried[..last], answers);
      RowsMember(tried[..last], answers, name);
      if answers(last).Some? && tried[last] == name {
        assert VirusRow(name, answers(last).value) in RowsOf(tried, answers);
      }
      if r :| r in before && r.name == name {
        assert r in RowsOf(tried, answers);
        var i :| 0 <= i < last && tried[..last][i] == name && answers(i).Some?;
        assert tried[i] == name;
      }
      if r :| r in RowsOf(tried, answers) && r.name == name {
        assert r in before || (answers(last).Some? && r.name == tried[last]);
      }
      if i :| 0 <= i < last && tried[i] == name && answers(i).Some? {
        assert tried[..last][i] == name;
      }
    }
  }

  // The names that the records of one log insert.
  function Flagged(entries: seq<Entry>): seq<string>
    decreases |entries|
  {
    if entries == [] then []
    else
      var e := entries[|entries| - 1];
      Flagged(entries[..|entries| - 1]) + if IsOne(e.value) then [e.name] else []
  }

  // The table as the loop over the records leaves it.
  function Inserted(names: seq<string>, entries: seq<Entry>): seq<string>
    decreases |entries|
  {
    if entries == [] then names
    else
      var e, before := entries[|entries| - 1], Inserted(names, entries[..|entries| - 1]);
      if IsOne(e.value) then before + [e.name] else before
  }

  lemma {:induction false} InsertedIs(names: seq<string>, entries: seq<Entry>)
    ensures Inserted(names, entries) == names + Flagged(entries)
    decreases |entries|
  {
    if entries == [] {
      assert names + [] == names;
    } else {
      var init, e := entries[..|entries| - 1], entries[|entries| - 1];
      InsertedIs(names, init);
      Regroup(names, Flagged(init), if IsOne(e.value) then [e.name] else []);
    }
  }

  // What a hash scan inserts.
  function FlaggedBy(w: World, paths: seq<string>, isFolder: bool, all: bool): seq<string>
    decreases |paths|
  {
    if paths == [] then []
    else
      FlaggedBy(w, paths[..|paths| - 1], isFolder, all)
      + Flagged(Records(HashLog(w, paths[|paths| - 1], isFolder, all), '@'))
  }

  lemma {:induction false} FlaggedAppends(a: seq<Entry>, b: seq<Entry>)
    ensures Flagged(a + b) == Flagged(a) + Flagged(b)
    decreases |b|
  {
    if b == [] {
      assert a + b == a;
    } else {
      assert (a + b)[..|a + b| - 1] == a + b[..|b| - 1];
      FlaggedAppends(a, b[..|b| - 1]);
    }
  }

  lemma FlaggedOfOne(e: Entry)
    ensures Flagged([e]) == if e.value == "1" then [e.name] else []
  {
    assert [e][..0] == [];
    assert Flagged([]) == [];
  }

  lemma {:induction false} FlaggedMember(entries: seq<Entry>, k: string)
    ensures k in Flagged(entries) <==> Entry(k, "1") in entries
    decreases |entries|
  {
    if entries != [] {
      var init := entries[..|entries| - 1];
      assert entries == init + [entries[|entries| - 1]];
      FlaggedMember(init, k);
    }
  }

  // All logs of a scan insert what one log with the lines of all of them would.
  lemma {:induction false} FlaggedByIs(w: World, paths: seq<string>, isFolder: bool, all: bool)
    ensures FlaggedBy(w, paths, isFolder, all)
            == Flagged(Expand(Written(Lines(w, paths, isFolder, all), HashTextIn(w)), '@'))
    decreases |paths|
  {
    if paths != [] {
      var init, path := paths[..|paths| - 1], paths[|paths| - 1];
      var before, files := Lines(w, init, isFolder, all), Dedup(FilesOf(w, path, isFolder, all));
      FlaggedByIs(w, init, isFolder, all);
      HashLogIs(w, path, isFolder, all);
      ExpandWritten(before, files, HashTextIn(w));
      FlaggedAppends(Expand(Written(before, HashTextIn(w)), '@'), Expand(Written(files, HashTextIn(w)), '@'));
    }
  }

  lemma {:induction false} RenderedMember(pieces: seq<Piece>, value: string, e: Entry)
    ensures e in Rendered(pieces, value) <==> exists p :: p in pieces && e == Entry(p.name, p.Value(value))
  {
    if pieces != [] {
      RenderedMember(pieces[1..], value, e);
      assert pieces == [pieces[0]] + pieces[1..];
    }
  }

  // A piece of a file's line with the name k and the value 1.
  predicate Flags(w: World, file: string, p: Piece, k: string) {
    p in PiecesOf(file, '@') && p.name == k && IsOne(p.Value(HashTextIn(w)(file)))
  }

  lemma {:induction false} FlaggedInLines(w: World, files: seq<string>, k: string)
    ensures Entry(k, "1") in Expand(Written(files, HashTextIn(w)), '@')
            <==> exists f, p :: f in files && Flags(w, f, p, k)
    decreases |files|
  {
    if files != [] {
      var init, file := files[..|files| - 1], files[|files| - 1];
      assert files == init + [file];
      FlaggedInLines(w, init, k);
      ExpandLast(init, file, HashTextIn(w));
      RenderedMember(PiecesOf(file, '@'), HashTextIn(w)(file), Entry(k, "1"));
      if p :| p in PiecesOf(file, '@') && Entry(k, "1") == Entry(p.name, p.Value(HashTextIn(w)(file))) {
        assert Flags(w, file, p, k);
      }
    }
  }

  // Main result, for paths with any characters: a name is inserted exactly when a piece of
  // some scanned file's line has it, and that piece is a verdict of 1.
  lemma FlaggedByMember(w: World, paths: seq<string>, isFolder: bool, all: bool, k: string)
    ensures k in FlaggedBy(w, paths, isFolder, all)
            <==> exists f, p :: && Scanned(w, paths, isFolder, all, f) && p in PiecesOf(f, '@') && p.name == k
                                && Verdict(w, DeciderOf(Source(p, f)))
  {
    var files := Lines(w, paths, isFolder, all);
    FlaggedByIs(w, paths, isFolder, all);
    FlaggedMember(Expand(Written(files, HashTextIn(w)), '@'), k);
    FlaggedInLines(w, files, k);
    forall f, p | p in PiecesOf(f, '@')
      ensures f in files <==> Scanned(w, paths, isFolder, all, f)
      ensures Flags(w, f, p, k) <==> p.name == k && Verdict(w, DeciderOf(Source(p, f)))
    {
      LinesMember(w, paths, isFolder, all, f);
      VerdictIs(w, Source(p, f));
    }
  }

  // What the inserts are for: the scanned files whose digest is listed, and no other name.
  ghost predicate FlagsExact(w: World, paths: seq<string>, isFolder: bool, all: bool) {
    forall k :: k in FlaggedBy(w, paths, isFolder, all)
                <==> Scanned(w, paths, isFolder, all, k) && Listed(w.hashRows, w.digest(k))
  }

  // A piece whose verdict of 1 is text of a path.
  ghost predicate SaysOne(f: string, p: Piece) {
    p in PiecesOf(f, '@') && DeciderOf(Source(p, f)) == Fixed(true)
  }

  // Main result: it is so exactly when no listed path contains '@', and no path has text
  // that reads as a verdict of 1 on anything but a scanned and listed file.
  lemma {:induction false} FlagsExactIff(w: World, paths: seq<string>, isFolder: bool, all: bool)
    ensures FlagsExact(w, paths, isFolder, all)
            <==> && (forall f :: Scanned(w, paths, isFolder, all, f) && Listed(w.hashRows, w.digest(f)) ==> '@' !in f)
                 && (forall f, p :: Scanned(w, paths, isFolder, all, f) && SaysOne(f, p) ==>
                       Scanned(w, paths, isFolder, all, p.name) && Listed(w.hashRows, w.digest(p.name)))
  {
    if FlagsExact(w, paths, isFolder, all) {
      forall f | Scanned(w, paths, isFolder, all, f) && Listed(w.hashRows, w.digest(f))
        ensures '@' !in f
      {
        FlaggedByMember(w, paths, isFolder, all, f);
      }
      forall f, p | Scanned(w, paths, isFolder, all, f) && SaysOne(f, p)
        ensures Scanned(w, paths, isFolder, all, p.name) && Listed(w.hashRows, w.digest(p.name))
      {
        FlaggedByMember(w, paths, isFolder, all, p.name);
      }
    }
    if && (forall f :: Scanned(w, paths, isFolder, all, f) && Listed(w.hashRows, w.digest(f)) ==> '@' !in f)
       && (forall f, p :: Scanned(w, paths, isFolder, all, f) && SaysOne(f, p) ==>
             Scanned(w, paths, isFolder, all, p.name) && Listed(w.hashRows, w.digest(p.name)))
    {
      forall k
        ensures k in FlaggedBy(w, paths, isFolder, all)
                <==> Scanned(w, paths, isFolder, all, k) && Listed(w.hashRows, w.digest(k))
      {
        PlainFlags(w, paths, isFolder, all, k);
      }
    }
  }

  lemma {:induction false} PlainFlags(w: World, paths: seq<string>, isFolder: bool, all: bool, k: string)
    requires forall f :: Scanned(w, paths, isFolder, all, f) && Listed(w.hashRows, w.digest(f)) ==> '@' !in f
    requires forall f, p :: Scanned(w, paths, isFolder, all, f) && SaysOne(f, p) ==>
               Scanned(w, paths, isFolder, all, p.name) && Listed(w.hashRows, w.digest(p.name))
    ensures k in FlaggedBy(w, paths, isFolder, all)
            <==> Scanned(w, paths, isFolder, all, k) && Listed(w.hashRows, w.digest(k))
  {
    FlaggedByMember(w, paths, isFolder, all, k);
    if f, p :| && Scanned(w, paths, isFolder, all, f) && p in PiecesOf(f, '@') && p.name == k
               && Verdict(w, DeciderOf(Source(p, f)))
    {
      TrueVerdict(w, f, p);
    }
    if Scanned(w, paths, isFolder, all, k) && Listed(w.hashRows, w.digest(k)) {
      OwnVerdict(w, k);
    }
  }

  // A verdict of 1 is text of the path, or the file's own name if that has no '@'.
  lemma {:induction false} TrueVerdict(w: World, f: string, p: Piece)
    ensures p in PiecesOf(f, '@') && Verdict(w, DeciderOf(Source(p, f))) ==>
              && (SaysOne(f, p) || Listed(w.hashRows, w.digest(f)))
              && ('@' !in f ==> p.name == f && !SaysOne(f, p))
  {
    if '@' !in f {
      PiecesWhole(f, '@');
    }
  }

  lemma OwnVerdict(w: World, k: string)
    requires '@' !in k && Listed(w.hashRows, w.digest(k))
    ensures var p := Self(k).piece; p in PiecesOf(k, '@') && p.name == k && Verdict(w, DeciderOf(Source(p, k)))
  {
    PiecesWhole(k, '@');
  }
}
