/**
  The two blacklist tables of the server: the daily feeds insert what is new, the save
  requests insert unconditionally, and the scans count matching rows.
*/
module Blacklist {
  datatype Row = Row(id: nat, value: string, dateAdded: string, source: string)

  // The lines a feed yields: getIP keeps every line, getHash drops the comments.
  datatype Feed = BlocklistDe | BazaarAbuseCh {
    predicate Keeps(line: string) {
      this == BlocklistDe || line == "" || line[0] != '#'
    }

    // The DEFAULT of the Source column.
    function Source(): string {
      match this
      case BlocklistDe => "Blocklist.de"
      case BazaarAbuseCh => "bazaar.abuse.ch"
    }
  }

  // SELECT COUNT(*) ... WHERE value = v
  function CountRows(rows: seq<Row>, v: string): nat {
    if rows == [] then 0 else (if rows[0].value == v then 1 else 0) + CountRows(rows[1..], v)
  }

  ghost predicate Listed(rows: seq<Row>, v: string) {
    exists i :: 0 <= i < |rows| && rows[i].value == v
  }

  lemma {:induction false} CountIffListed(rows: seq<Row>, v: string)
    ensures CountRows(rows, v) >= 1 <==> Listed(rows, v)
  {
    if rows != [] {
      CountIffListed(rows[1..], v);
      if Listed(rows[1..], v) {
        var i :| 0 <= i < |rows[1..]| && rows[1..][i].value == v;
        assert rows[i + 1].value == v;
      }
      if Listed(rows, v) && rows[0].value != v {
        var i :| 0 <= i < |rows| && rows[i].value == v;
        assert rows[1..][i - 1].value == v;
      }
    }
  }

  // AUTOINCREMENT goes on after the largest id ever used; no row is ever deleted.
  function MaxId(rows: seq<Row>): nat
    decreases |rows|
  {
    if rows == [] then 0
    else
      var id, before := rows[|rows| - 1].id, MaxId(rows[..|rows| - 1]);
      if id > before then id else before
  }

  function Insert(rows: seq<Row>, value: string, dateAdded: string, source: string): seq<Row> {
    rows + [Row(MaxId(rows) + 1, value, dateAdded, source)]
  }

  lemma InsertMaxId(rows: seq<Row>, value: string, dateAdded: string, source: string)
    ensures MaxId(Insert(rows, value, dateAdded, source)) == MaxId(rows) + 1
  {
    assert Insert(rows, value, dateAdded, source)[..|rows|] == rows;
  }

  // What a feed run leaves: each kept line is inserted unless it is there already.
  function FeedInto(rows: seq<Row>, feed: Feed, lines: seq<string>, date: string): seq<Row>
    decreases |lines|
  {
    if lines == [] then rows
    else
      FeedLineInto(FeedInto(rows, feed, lines[..|lines| - 1], date), feed, lines[|lines| - 1], date)
  }

  function FeedLineInto(rows: seq<Row>, feed: Feed, line: string, date: string): seq<Row> {
    if feed.Keeps(line) && CountRows(rows, line) == 0 then Insert(rows, line, date, feed.Source()) else rows
  }

  class Table {
    var rows: seq<Row>

    constructor ()
      ensures rows == []
    {
      rows := [];
    }

    // IPisMalicious and HASHisMalicious: the callback stores the count, and one is enough.
    method IsMalicious(v: string) returns (malicious: bool)
      ensures malicious <==> Listed(rows, v)
    {
      var ans := CountRows(rows, v);
      CountIffListed(rows, v);
      malicious := ans >= 1;
    }

    // addIP and addHASH; the database may refuse the insert.
    method Add(value: string, dateAdded: string, source: string, accepted: bool) returns (ok: bool)
      modifies this
      ensures ok == accepted
      ensures rows == if accepted then Insert(old(rows), value, dateAdded, source) else old(rows)
    {
      if !accepted {
        return false;
      }
      rows := Insert(rows, value, dateAdded, source);
      ok := true;
    }

    // One turn of the loop below.
    method FeedLine(feed: Feed, line: string, date: string)
      modifies this
      ensures rows == FeedLineInto(old(rows), feed, line, date)
    {
      if feed.Keeps(line) {
        var known := IsMalicious(line);
        CountIffListed(rows, line);
        if !known {
          rows := Insert(rows, line, date, feed.Source());
        }
      }
    }

    // blocklistTask and BazzarTask.
    method FeedTask(feed: Feed, lines: seq<string>, date: string)
      modifies this
      ensures rows == FeedInto(old(rows), feed, lines, date)
    {
      var i := 0;
      while i < |lines|
        invariant 0 <= i <= |lines|
        invariant rows == FeedInto(old(rows), feed, lines[..i], date)
      {
        assert lines[..i + 1][..|lines[..i + 1]| - 1] == lines[..i];
        FeedLine(feed, lines[i], date);
        i := i + 1;
      }
      assert lines[..|lines|] == lines;
    }
  }

  // ------------------------------------------------------------------
  // What a feed run adds
  // ------------------------------------------------------------------

  // The first position of a value in a list of lines, or the length.
  function FirstIndex(lines: seq<string>, v: string): (k: nat)
    ensures k <= |lines| && (forall j :: 0 <= j < k ==> lines[j] != v)
    ensures k < |lines| ==> lines[k] == v
    decreases |lines|
  {
    if lines == [] then 0
    else
      var k := FirstIndex(lines[..|lines| - 1], v);
      if k < |lines| - 1 then k else if lines[|lines| - 1] == v then k else k + 1
  }

  // A row that a feed run may have appended at position i.
  ghost predicate Appended(rows: seq<Row>, feed: Feed, lines: seq<string>, date: string, i: nat, row: Row) {
    && i >= |rows| && row == Row(MaxId(rows) + 1 + i - |rows|, row.value, date, feed.Source())
    && feed.Keeps(row.value) && !Listed(rows, row.value) && row.value in lines
  }

  lemma {:induction false} FeedAppends(rows: seq<Row>, feed: Feed, lines: seq<string>, date: string)
    ensures var after := FeedInto(rows, feed, lines, date);
            && rows <= after && MaxId(after) == MaxId(rows) + |after| - |rows|
            && (forall i :: |rows| <= i < |after| ==> Appended(rows, feed, lines, date, i, after[i]))
    decreases |lines|
  {
    if lines != [] {
      var init, line := lines[..|lines| - 1], lines[|lines| - 1];
      FeedAppends(rows, feed, init, date);
      var before, after := FeedInto(rows, feed, init, date), FeedInto(rows, feed, lines, date);
      CountIffListed(before, line);
      InsertMaxId(before, line, date, feed.Source());
      ListedGrows(rows, before, line);
      forall i | |rows| <= i < |after|
        ensures Appended(rows, feed, lines, date, i, after[i])
      {
        if i < |before| {
          assert after[i] == before[i] && Appended(rows, feed, init, date, i, before[i]);
        }
      }
    }
  }

  lemma ListedGrows(rows: seq<Row>, after: seq<Row>, v: string)
    requires rows <= after
    ensures Listed(rows, v) ==> Listed(after, v)
  {
    if Listed(rows, v) {
      var i :| 0 <= i < |rows| && rows[i].value == v;
      assert after[i].value == v;
    }
  }

  lemma {:induction false} FeedLists(rows: seq<Row>, feed: Feed, lines: seq<string>, date: string, v: string)
    requires v in lines && feed.Keeps(v)
    ensures Listed(FeedInto(rows, feed, lines, date), v)
    decreases |lines|
  {
    var init, line := lines[..|lines| - 1], lines[|lines| - 1];
    var before, after := FeedInto(rows, feed, init, date), FeedInto(rows, feed, lines, date);
    CountIffListed(before, line);
    ListedGrows(before, after, v);
    if v in init {
      FeedLists(rows, feed, init, date, v);
    } else if |after| > |before| {
      assert after[|before|].value == v;
    }
  }

  lemma {:induction false} FeedInOrder(rows: seq<Row>, feed: Feed, lines: seq<string>, date: string, i: nat, j: nat)
    requires |rows| <= i < j < |FeedInto(rows, feed, lines, date)|
    ensures var after := FeedInto(rows, feed, lines, date);
            FirstIndex(lines, after[i].value) < FirstIndex(lines, after[j].value)
    decreases |lines|
  {
    if lines != [] {
      var init, line := lines[..|lines| - 1], lines[|lines| - 1];
      var before, after := FeedInto(rows, feed, init, date), FeedInto(rows, feed, lines, date);
      FeedAppends(rows, feed, init, date);
      assert Appended(rows, feed, init, date, i, before[i]);
      if j < |before| {
        FeedInOrder(rows, feed, init, date, i, j);
      } else {
        CountIffListed(before, line);
        if line in init {
          FeedLists(rows, feed, init, date, line);
        }
      }
    }
  }

  // Main result: a feed run leaves the old rows as they are and appends exactly the kept
  // lines that were not listed, each once, in the order of first occurrence, numbered on.
  lemma FeedAddsNew(rows: seq<Row>, feed: Feed, lines: seq<string>, date: string)
    ensures var after := FeedInto(rows, feed, lines, date);
            && rows <= after
            && (forall i :: |rows| <= i < |after| ==> Appended(rows, feed, lines, date, i, after[i]))
            && (forall i, j :: |rows| <= i < j < |after| ==>
                  FirstIndex(lines, after[i].value) < FirstIndex(lines, after[j].value))
            && (forall v :: v in lines && feed.Keeps(v) ==> Listed(after, v))
  {
    FeedAppends(rows, feed, lines, date);
    var after := FeedInto(rows, feed, lines, date);
    forall i, j | |rows| <= i < j < |after|
      ensures FirstIndex(lines, after[i].value) < FirstIndex(lines, after[j].value)
    {
      FeedInOrder(rows, feed, lines, date, i, j);
    }
    forall v | v in lines && feed.Keeps(v)
      ensures Listed(after, v)
    {
      FeedLists(rows, feed, lines, date, v);
    }
  }

  // A feed run over a table that lists every kept line changes nothing.
  lemma {:induction false} NothingNew(rows: seq<Row>, feed: Feed, lines: seq<string>, date: string)
    requires forall v :: v in lines && feed.Keeps(v) ==> Listed(rows, v)
    ensures FeedInto(rows, feed, lines, date) == rows
    decreases |lines|
  {
    if lines != [] {
      NothingNew(rows, feed, lines[..|lines| - 1], date);
      CountIffListed(rows, lines[|lines| - 1]);
    }
  }

  // Main result: running the same feed again, on any later day, changes nothing.
  lemma SecondRunChangesNothing(rows: seq<Row>, feed: Feed, lines: seq<string>, date: string, later: string)
    ensures var once := FeedInto(rows, feed, lines, date); FeedInto(once, feed, lines, later) == once
  {
    FeedAddsNew(rows, feed, lines, date);
    NothingNew(FeedInto(rows, feed, lines, date), feed, lines, later);
  }

  // ------------------------------------------------------------------
  // Any mix of feed runs, direct inserts and queries
  // ------------------------------------------------------------------

  datatype Operation =
    | RunFeed(feed: Feed, lines: seq<string>, date: string)
    | Save(value: string, dateAdded: string, source: string, accepted: bool)
    | Query(value: string)

  function Perform(rows: seq<Row>, op: Operation): seq<Row> {
    match op
    case RunFeed(feed, lines, date) => FeedInto(rows, feed, lines, date)
    case Save(value, dateAdded, source, accepted) => if accepted then Insert(rows, value, dateAdded, source) else rows
    case Query(_) => rows
  }

  function PerformAll(rows: seq<Row>, ops: seq<Operation>): seq<Row>
    decreases |ops|
  {
    if ops == [] then rows else Perform(PerformAll(rows, ops[..|ops| - 1]), ops[|ops| - 1])
  }

  ghost predicate Inserts(op: Operation, v: string) {
    match op
    case RunFeed(feed, lines, _) => v in lines && feed.Keeps(v)
    case Save(value, _, _, accepted) => accepted && value == v
    case Query(_) => false
  }

  lemma PerformLists(rows: seq<Row>, op: Operation, v: string)
    ensures Listed(Perform(rows, op), v) <==> Listed(rows, v) || Inserts(op, v)
  {
    var after := Perform(rows, op);
    if op.RunFeed? {
      FeedAddsNew(rows, op.feed, op.lines, op.date);
    }
    assert rows <= after;
    if Listed(rows, v) {
      var i :| 0 <= i < |rows| && rows[i].value == v;
      assert after[i].value == v;
    }
    if Listed(after, v) && !Listed(rows, v) {
      var i :| 0 <= i < |after| && after[i].value == v;
      assert i >= |rows|;
    }
    if op.Save? && op.accepted {
      assert after[|rows|].value == op.value;
    }
  }

  // Main result: a query is positive exactly when the value was in the table at the start
  // or some earlier operation inserted it.
  lemma {:induction false} QueryIffInserted(rows: seq<Row>, ops: seq<Operation>, v: string)
    ensures CountRows(PerformAll(rows, ops), v) >= 1
            <==> Listed(rows, v) || exists k :: 0 <= k < |ops| && Inserts(ops[k], v)
    decreases |ops|
  {
    CountIffListed(PerformAll(rows, ops), v);
    if ops != [] {
      var init, op := ops[..|ops| - 1], ops[|ops| - 1];
      QueryIffInserted(rows, init, v);
      CountIffListed(PerformAll(rows, init), v);
      PerformLists(PerformAll(rows, init), op, v);
      if k :| 0 <= k < |ops| && Inserts(ops[k], v) {
        assert k < |init| ==> Inserts(init[k], v);
      }
      if k :| 0 <= k < |init| && Inserts(init[k], v) {
        assert Inserts(ops[k], v);
      }
    }
  }

  // ------------------------------------------------------------------
  // The two feeds by the first character of a line
  // ------------------------------------------------------------------

  // Main result: after a run of the address feed every line of it is listed; after one of the
  // hash feed every line is but for those that start with '#'; nothing else is new.
  lemma FeedsByLine(rows: seq<Row>, lines: seq<string>, date: string, v: string)
    ensures Listed(FeedInto(rows, BlocklistDe, lines, date), v) <==> Listed(rows, v) || v in lines
    ensures Listed(FeedInto(rows, BazaarAbuseCh, lines, date), v)
            <==> Listed(rows, v) || (v in lines && (v == "" || v[0] != '#'))
  {
    PerformLists(rows, RunFeed(BlocklistDe, lines, date), v);
    PerformLists(rows, RunFeed(BazaarAbuseCh, lines, date), v);
  }

  // The rows that a run adds carry the day of the run and the name of the feed.
  lemma FeedRows(rows: seq<Row>, lines: seq<string>, date: string, i: nat)
    requires |rows| <= i
    ensures var after := FeedInto(rows, BlocklistDe, lines, date);
            i < |after| ==> after[i].dateAdded == date && after[i].source == "Blocklist.de"
    ensures var after := FeedInto(rows, BazaarAbuseCh, lines, date);
            i < |after| ==> after[i].dateAdded == date && after[i].source == "bazaar.abuse.ch"
  {
    FeedAppends(rows, BlocklistDe, lines, date);
    FeedAppends(rows, BazaarAbuseCh, lines, date);
    var ips, hashes := FeedInto(rows, BlocklistDe, lines, date), FeedInto(rows, BazaarAbuseCh, lines, date);
    assert i < |ips| ==> Appended(rows, BlocklistDe, lines, date, i, ips[i]);
    assert i < |hashes| ==> Appended(rows, BazaarAbuseCh, lines, date, i, hashes[i]);
  }

  // A save appends one row with what it was given, under an id that no row has.
  lemma SaveAppends(rows: seq<Row>, value: string, dateAdded: string, source: string, accepted: bool)
    ensures var after := Perform(rows, Save(value, dateAdded, source, accepted));
            && (!accepted ==> after == rows)
            && (accepted ==>
                  && |after| == |rows| + 1 && after[..|rows|] == rows
                  && after[|rows|].value == value && after[|rows|].dateAdded == dateAdded
                  && after[|rows|].source == source
                  && forall i :: 0 <= i < |rows| ==> rows[i].id < after[|rows|].id)
  {
    MaxIdBounds(rows);
  }

  lemma {:induction false} MaxIdBounds(rows: seq<Row>)
    ensures forall i :: 0 <= i < |rows| ==> rows[i].id <= MaxId(rows)
    decreases |rows|
  {
    if rows != [] {
      MaxIdBounds(rows[..|rows| - 1]);
      assert forall i :: 0 <= i < |rows| - 1 ==> rows[..|rows| - 1][i] == rows[i];
    }
  }
}
