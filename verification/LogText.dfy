/**
  The text logs by which the Python scanners hand their results to the backend, and the
  `getline` loops that read them.  A record is a name, a delimiter, a value and a newline.
*/
module LogText {
  lemma Regroup<T>(a: seq<T>, b: seq<T>, c: seq<T>)
    ensures (a + b) + c == a + (b + c)
  {
  }

  datatype Entry = Entry(name: string, value: string)

  // Position of the first c, or the length.
  function Find(s: string, c: char): (k: nat)
    ensures k <= |s| && c !in s[..k]
    ensures k < |s| ==> s[k] == c
  {
    if s == [] then 0 else if s[0] == c then 0 else 1 + Find(s[1..], c)
  }

  lemma {:induction false} FindIn(a: string, c: char, b: string)
    requires c !in a
    ensures Find(a + [c] + b, c) == |a|
  {
    if a != [] {
      FindIn(a[1..], c, b);
      assert (a + [c] + b)[1..] == a[1..] + [c] + b;
    }
  }

  lemma {:induction false} FindNone(s: string, c: char)
    ensures Find(s, c) == |s| <==> c !in s
  {
    if s != [] {
      FindNone(s[1..], c);
    }
  }

  // ------------------------------------------------------------------
  // Lists of names in one value: sep.join(parts), and the getline loop over it
  // ------------------------------------------------------------------

  function Join(parts: seq<string>, sep: char): string {
    if |parts| == 0 then "" else if |parts| == 1 then parts[0] else parts[0] + [sep] + Join(parts[1..], sep)
  }

  function Split(s: string, sep: char): (parts: seq<string>)
    ensures forall p :: p in parts ==> sep !in p
    decreases |s|
  {
    if s == "" then []
    else
      var k := Find(s, sep);
      [s[..k]] + if k == |s| then [] else Split(s[k + 1..], sep)
  }

  predicate Free(parts: seq<string>, sep: char) {
    forall p :: p in parts ==> sep !in p
  }

  // What is left of a list of parts: a last part that is empty leaves no trace.
  function Kept(parts: seq<string>): seq<string>
    requires parts != []
  {
    if parts[|parts| - 1] == "" then parts[..|parts| - 1] else parts
  }

  lemma KeptCons(part: string, tail: seq<string>)
    requires tail != []
    ensures Kept([part] + tail) == [part] + Kept(tail)
  {
    assert ([part] + tail)[..|tail|] == [part] + tail[..|tail| - 1];
  }

  lemma JoinCons(part: string, tail: seq<string>, sep: char)
    requires tail != []
    ensures Join([part] + tail, sep) == part + [sep] + Join(tail, sep)
  {
    assert ([part] + tail)[1..] == tail;
  }

  lemma {:induction false} SplitJoin(parts: seq<string>, sep: char)
    requires parts != [] && Free(parts, sep)
    ensures Split(Join(parts, sep), sep) == Kept(parts)
  {
    var part, tail := parts[0], parts[1..];
    if tail == [] {
      SplitOnly(part, sep);
    } else {
      assert parts == [part] + tail;
      JoinCons(part, tail, sep);
      SplitFirst(part, Join(tail, sep), sep);
      SplitJoin(tail, sep);
      KeptCons(part, tail);
    }
  }

  lemma SplitOnly(part: string, sep: char)
    requires sep !in part
    ensures Split(part, sep) == if part == "" then [] else [part]
  {
    FindNone(part, sep);
    assert part[..|part|] == part;
  }

  lemma SplitFirst(part: string, rest: string, sep: char)
    requires sep !in part
    ensures Split(part + [sep] + rest, sep) == [part] + Split(rest, sep)
  {
    var s := part + [sep] + rest;
    FindIn(part, sep, rest);
    assert s[..|part|] == part && s[|part| + 1..] == rest;
  }

  predicate Splittable(parts: seq<string>, sep: char) {
    Free(parts, sep) && (parts != [] ==> parts[|parts| - 1] != "")
  }

  // Main result: a list of names survives exactly when no name contains the separator and
  // the last one is not empty; the empty list does survive.
  lemma SplitJoinIff(parts: seq<string>, sep: char)
    ensures Split(Join(parts, sep), sep) == parts <==> Splittable(parts, sep)
  {
    if parts != [] && Free(parts, sep) {
      SplitJoin(parts, sep);
    }
  }

  lemma JoinInjective(a: seq<string>, b: seq<string>, sep: char)
    requires Splittable(a, sep) && Splittable(b, sep) && Join(a, sep) == Join(b, sep)
    ensures a == b
  {
    SplitJoinIff(a, sep);
    SplitJoinIff(b, sep);
  }

  // The other direction: a text that does not end with the separator is not changed.
  lemma {:induction false} JoinSplit(s: string, sep: char)
    requires s != "" && s[|s| - 1] != sep
    ensures Split(s, sep) != [] && Join(Split(s, sep), sep) == s
    decreases |s|
  {
    FindNone(s, sep);
    if sep in s {
      var before, after := CutAt(s, sep);
      assert after != "" && s[|s| - 1] == after[|after| - 1];
      SplitFirst(before, after, sep);
      JoinSplit(after, sep);
      JoinCons(before, Split(after, sep), sep);
    } else {
      SplitOnly(s, sep);
    }
  }

  // ------------------------------------------------------------------
  // Logs
  // ------------------------------------------------------------------

  function Line(e: Entry, delim: char): string {
    e.name + [delim] + e.value + "\n"
  }

  function Log(entries: seq<Entry>, delim: char): string {
    if entries == [] then "" else Line(entries[0], delim) + Log(entries[1..], delim)
  }

  predicate Loggable(e: Entry, delim: char) {
    delim !in e.name && '\n' !in e.value
  }

  // What `while (getline(in, name, delim), getline(in, value, '\n'))` reads from a text:
  // only the second call decides, and it fails when nothing is left after the delimiter.
  function Records(text: string, delim: char): (entries: seq<Entry>)
    ensures forall e :: e in entries ==> Loggable(e, delim)
    decreases |text|
  {
    var k := Find(text, delim);
    if k == |text| || k + 1 == |text| then []
    else
      var rest := text[k + 1..];
      var j := Find(rest, '\n');
      [Entry(text[..k], rest[..j])] + if j == |rest| then [] else Records(rest[j + 1..], delim)
  }

  // One turn of the loop, on a text cut where the two calls cut it.
  lemma {:induction false} RecordsStep(name: string, value: string, delim: char, more: string)
    requires delim !in name && '\n' !in value
    ensures Records(name + [delim] + (value + ['\n'] + more), delim) == [Entry(name, value)] + Records(more, delim)
  {
    var rest := value + ['\n'] + more;
    var text := name + [delim] + rest;
    FindIn(name, delim, rest);
    assert text[..|name|] == name && text[|name| + 1..] == rest;
    FindIn(value, '\n', more);
    assert rest[..|value|] == value && rest[|value| + 1..] == more;
  }

  // The ways a text can end: without a delimiter or right after one there is no record, and
  // a last value needs no newline.
  lemma RecordsEnd(name: string, value: string, delim: char)
    requires delim !in name && '\n' !in value
    ensures Records(name, delim) == [] && Records(name + [delim], delim) == []
    ensures value != "" ==> Records(name + [delim] + value, delim) == [Entry(name, value)]
  {
    FindNone(name, delim);
    FindIn(name, delim, "");
    assert name + [delim] + "" == name + [delim];
    FindIn(name, delim, value);
    FindNone(value, '\n');
    var text := name + [delim] + value;
    assert text[..|name|] == name && text[|name| + 1..] == value && value[..|value|] == value;
  }

  lemma LineShape(e: Entry, delim: char, more: string)
    ensures Line(e, delim) + more == e.name + [delim] + (e.value + ['\n'] + more)
  {
  }

  lemma RecordsOfLine(e: Entry, delim: char, more: string)
    requires Loggable(e, delim)
    ensures Records(Line(e, delim) + more, delim) == [e] + Records(more, delim)
  {
    LineShape(e, delim, more);
    RecordsStep(e.name, e.value, delim, more);
  }

  lemma {:induction false} RecordsOfLog(entries: seq<Entry>, delim: char)
    requires forall e :: e in entries ==> Loggable(e, delim)
    ensures Records(Log(entries, delim), delim) == entries
  {
    if entries != [] {
      RecordsOfLine(entries[0], delim, Log(entries[1..], delim));
      RecordsOfLog(entries[1..], delim);
    }
  }

  // Main result: the reader gets back the entries that were written exactly when no name
  // contains the delimiter and no value a newline.  A newline in a name does no harm.
  lemma LogRoundTripIff(entries: seq<Entry>, delim: char)
    ensures Records(Log(entries, delim), delim) == entries <==> forall e :: e in entries ==> Loggable(e, delim)
  {
    if forall e :: e in entries ==> Loggable(e, delim) {
      RecordsOfLog(entries, delim);
    }
  }

  function Names(entries: seq<Entry>): seq<string> {
    seq(|entries|, i requires 0 <= i < |entries| => entries[i].name)
  }

  lemma NamesCons(e: Entry, rest: seq<Entry>)
    ensures Names([e] + rest) == [e.name] + Names(rest)
  {
  }

  lemma NamesAppend(a: seq<Entry>, b: seq<Entry>)
    ensures Names(a + b) == Names(a) + Names(b)
  {
  }

  // One record that the reader takes out of one written line.  The value of the record is
  // the prefix, followed by the value of the line if the record is the line's last.
  datatype Piece = Piece(name: string, prefix: string, own: bool) {
    function Value(value: string): string {
      if own then prefix + value else prefix
    }
  }

  // How the reader cuts a line with this name: at the first delimiter, and if the rest of
  // the name contains a newline again after that newline.
  function PiecesOf(name: string, delim: char): (pieces: seq<Piece>)
    ensures forall p :: p in pieces ==> delim !in p.name
    decreases |name|
  {
    var k := Find(name, delim);
    if k == |name| then [Piece(name, "", true)]
    else
      var rest := name[k + 1..];
      var j := Find(rest, '\n');
      if j == |rest| then [Piece(name[..k], rest + [delim], true)]
      else [Piece(name[..k], rest[..j], false)] + PiecesOf(rest[j + 1..], delim)
  }

  function Rendered(pieces: seq<Piece>, value: string): seq<Entry> {
    if pieces == [] then []
    else [Entry(pieces[0].name, pieces[0].Value(value))] + Rendered(pieces[1..], value)
  }

  function PieceNames(pieces: seq<Piece>): seq<string> {
    if pieces == [] then [] else [pieces[0].name] + PieceNames(pieces[1..])
  }

  // The names that the reader takes out of one written name.
  function NamesIn(name: string, delim: char): seq<string> {
    PieceNames(PiecesOf(name, delim))
  }

  lemma {:induction false} NamesOfRendered(pieces: seq<Piece>, value: string)
    ensures Names(Rendered(pieces, value)) == PieceNames(pieces)
  {
    if pieces != [] {
      NamesOfRendered(pieces[1..], value);
      NamesCons(Entry(pieces[0].name, pieces[0].Value(value)), Rendered(pieces[1..], value));
    }
  }

  lemma RenderedCons(piece: Piece, pieces: seq<Piece>, value: string)
    ensures Rendered([piece] + pieces, value) == [Entry(piece.name, piece.Value(value))] + Rendered(pieces, value)
  {
    assert ([piece] + pieces)[1..] == pieces;
  }

  // A name that contains the delimiter, cut there and at the next newline.
  lemma CutTwice(first: string, second: string, last: string, value: string, delim: char, more: string)
    ensures Line(Entry(first + [delim] + (second + ['\n'] + last), value), delim) + more
            == first + [delim] + (second + ['\n'] + (Line(Entry(last, value), delim) + more))
  {
    var line := Line(Entry(last, value), delim);
    assert Line(Entry(first + [delim] + (second + ['\n'] + last), value), delim)
        == first + [delim] + (second + ['\n'] + line);
  }

  // The same when no newline follows the delimiter.
  lemma CutOnce(first: string, rest: string, value: string, delim: char, more: string)
    ensures Line(Entry(first + [delim] + rest, value), delim) + more
            == first + [delim] + ((rest + [delim] + value) + ['\n'] + more)
  {
    assert Line(Entry(first + [delim] + rest, value), delim) == first + [delim] + ((rest + [delim] + value) + ['\n']);
  }

  lemma PieceNamesCons(piece: Piece, pieces: seq<Piece>)
    ensures PieceNames([piece] + pieces) == [piece.name] + PieceNames(pieces)
  {
    assert ([piece] + pieces)[1..] == pieces;
  }

  lemma PiecesWhole(name: string, delim: char)
    requires delim !in name
    ensures PiecesOf(name, delim) == [Piece(name, "", true)]
  {
    FindNone(name, delim);
  }

  lemma {:induction false} PiecesTwice(first: string, second: string, last: string, delim: char)
    requires delim !in first && '\n' !in second
    ensures PiecesOf(first + [delim] + (second + ['\n'] + last), delim)
            == [Piece(first, second, false)] + PiecesOf(last, delim)
  {
    var rest := second + ['\n'] + last;
    var name := first + [delim] + rest;
    FindIn(first, delim, rest);
    FindIn(second, '\n', last);
    assert name[..|first|] == first && name[|first| + 1..] == rest;
    assert rest[..|second|] == second && rest[|second| + 1..] == last;
  }

  lemma {:induction false} PiecesOnce(first: string, rest: string, delim: char)
    requires delim !in first && '\n' !in rest
    ensures PiecesOf(first + [delim] + rest, delim) == [Piece(first, rest + [delim], true)]
  {
    var name := first + [delim] + rest;
    FindIn(first, delim, rest);
    FindNone(rest, '\n');
    assert name[..|first|] == first && name[|first| + 1..] == rest;
  }

  lemma {:induction false} RecordsOfPieces(name: string, value: string, delim: char, more: string)
    requires '\n' !in value && delim != '\n'
    ensures Records(Line(Entry(name, value), delim) + more, delim)
            == Rendered(PiecesOf(name, delim), value) + Records(more, delim)
    decreases |name|, 1
  {
    var k := Find(name, delim);
    FindNone(name, delim);
    if k == |name| {
      RecordsOfLine(Entry(name, value), delim, more);
      PiecesWhole(name, delim);
      RenderedCons(Piece(name, "", true), [], value);
      assert "" + value == value;
    } else {
      var first, rest := name[..k], name[k + 1..];
      assert name == first + [delim] + rest;
      RecordsOfCutLine(first, rest, value, delim, more);
    }
  }

  lemma {:induction false} RecordsOfCutLine(first: string, rest: string, value: string, delim: char, more: string)
    requires '\n' !in value && delim != '\n' && delim !in first
    ensures var name := first + [delim] + rest;
            Records(Line(Entry(name, value), delim) + more, delim)
            == Rendered(PiecesOf(name, delim), value) + Records(more, delim)
    decreases |rest| + 1, 0
  {
    var j := Find(rest, '\n');
    FindNone(rest, '\n');
    if j < |rest| {
      var second, last := rest[..j], rest[j + 1..];
      assert rest == second + ['\n'] + last;
      RecordsOfPieces(last, value, delim, more);
      RecordsCutTwice(first, second, last, value, delim, more);
    } else {
      RecordsCutOnce(first, rest, value, delim, more);
    }
  }

  lemma {:induction false} RecordsCutTwice(first: string, second: string, last: string, value: string, delim: char,
                                           more: string)
    requires delim !in first && '\n' !in second
    requires Records(Line(Entry(last, value), delim) + more, delim)
             == Rendered(PiecesOf(last, delim), value) + Records(more, delim)
    ensures var name := first + [delim] + (second + ['\n'] + last);
            Records(Line(Entry(name, value), delim) + more, delim)
            == Rendered(PiecesOf(name, delim), value) + Records(more, delim)
  {
    CutTwice(first, second, last, value, delim, more);
    PiecesTwice(first, second, last, delim);
    RecordsStep(first, second, delim, Line(Entry(last, value), delim) + more);
    RenderedCons(Piece(first, second, false), PiecesOf(last, delim), value);
    Regroup([Entry(first, second)], Rendered(PiecesOf(last, delim), value), Records(more, delim));
  }

  lemma RecordsCutOnce(first: string, rest: string, value: string, delim: char, more: string)
    requires delim !in first && '\n' !in rest && '\n' !in value && delim != '\n'
    ensures var name := first + [delim] + rest;
            Records(Line(Entry(name, value), delim) + more, delim)
            == Rendered(PiecesOf(name, delim), value) + Records(more, delim)
  {
    var all := rest + [delim] + value;
    assert '\n' !in all;
    CutOnce(first, rest, value, delim, more);
    PiecesOnce(first, rest, delim);
    RecordsStep(first, all, delim, more);
    assert Rendered([Piece(first, rest + [delim], true)], value) == [Entry(first, all)];
  }

  // What the reader makes of the lines of a log, line by line.
  function Expand(entries: seq<Entry>, delim: char): seq<Entry> {
    if entries == [] then []
    else Rendered(PiecesOf(entries[0].name, delim), entries[0].value) + Expand(entries[1..], delim)
  }

  lemma ExpandCons(e: Entry, rest: seq<Entry>, delim: char)
    ensures Expand([e] + rest, delim) == Rendered(PiecesOf(e.name, delim), e.value) + Expand(rest, delim)
  {
    assert ([e] + rest)[1..] == rest;
  }

  lemma {:induction false} ExpandAppend(a: seq<Entry>, b: seq<Entry>, delim: char)
    ensures Expand(a + b, delim) == Expand(a, delim) + Expand(b, delim)
  {
    if a == [] {
      assert a + b == b;
    } else {
      var e, tail := a[0], a[1..];
      assert a == [e] + tail;
      Regroup([e], tail, b);
      ExpandCons(e, tail, delim);
      ExpandCons(e, tail + b, delim);
      ExpandAppend(tail, b, delim);
      Regroup(Rendered(PiecesOf(e.name, delim), e.value), Expand(tail, delim), Expand(b, delim));
    }
  }

  // Main result: whatever characters the names contain, the records of a log are the pieces
  // of its lines, as long as no value contains a newline.
  lemma {:induction false} RecordsAreExpanded(entries: seq<Entry>, delim: char)
    requires delim != '\n' && forall e :: e in entries ==> '\n' !in e.value
    ensures Records(Log(entries, delim), delim) == Expand(entries, delim)
  {
    if entries != [] {
      RecordsAreExpanded(entries[1..], delim);
      RecordsOfPieces(entries[0].name, entries[0].value, delim, Log(entries[1..], delim));
    }
  }

  lemma {:induction false} ExpandNames(a: seq<Entry>, b: seq<Entry>, delim: char)
    requires Names(a) == Names(b)
    ensures Names(Expand(a, delim)) == Names(Expand(b, delim))
  {
    assert |a| == |Names(a)| == |b|;
    if a != [] {
      assert Names(a)[0] == Names(b)[0];
      assert Names(a[1..]) == Names(a)[1..] && Names(b[1..]) == Names(b)[1..];
      ExpandNames(a[1..], b[1..], delim);
      var pieces := PiecesOf(a[0].name, delim);
      NamesOfRendered(pieces, a[0].value);
      NamesOfRendered(pieces, b[0].value);
      NamesAppend(Rendered(pieces, a[0].value), Expand(a[1..], delim));
      NamesAppend(Rendered(pieces, b[0].value), Expand(b[1..], delim));
    }
  }

  // Which names come out of a log depends on the names written and not on the values.
  lemma NamesIgnoreValues(a: seq<Entry>, b: seq<Entry>, delim: char)
    requires Names(a) == Names(b) && delim != '\n'
    requires forall e :: e in a + b ==> '\n' !in e.value
    ensures Names(Records(Log(a, delim), delim)) == Names(Records(Log(b, delim), delim))
  {
    assert forall e :: e in a || e in b ==> e in a + b;
    RecordsAreExpanded(a, delim);
    RecordsAreExpanded(b, delim);
    ExpandNames(a, b, delim);
  }

  predicate WholeLines(text: string) {
    text == "" || text[|text| - 1] == '\n'
  }

  lemma CutAt(text: string, c: char) returns (before: string, after: string)
    requires c in text
    ensures text == before + [c] + after && c !in before
  {
    FindNone(text, c);
    var k := Find(text, c);
    before, after := text[..k], text[k + 1..];
  }

  // A text of whole lines with a delimiter in it, cut where the two calls cut it.
  lemma CutText(text: string, delim: char) returns (first: string, second: string, last: string)
    requires WholeLines(text) && delim in text && delim != '\n'
    ensures delim !in first && '\n' !in second && WholeLines(last)
    ensures text == first + [delim] + (second + ['\n'] + last)
  {
    var rest;
    first, rest := CutAt(text, delim);
    WholeTail(first + [delim], rest);
    second, last := CutAt(rest, '\n');
    if last != "" {
      WholeTail(second + ['\n'], last);
    }
  }

  lemma WholeTail(a: string, b: string)
    requires WholeLines(a + b) && a != "" && (b == "" ==> a[|a| - 1] != '\n')
    ensures b != "" && b[|b| - 1] == '\n'
  {
    assert b == "" ==> a + b == a;
  }

  lemma TextAfterCut(first: string, second: string, last: string, delim: char, more: string)
    ensures first + [delim] + (second + ['\n'] + last) + more == first + [delim] + (second + ['\n'] + (last + more))
  {
  }

  // A text of whole lines keeps its records when more is added after it.
  lemma {:induction false} RecordsPrefix(text: string, more: string, delim: char)
    requires WholeLines(text) && delim != '\n'
    ensures Records(text, delim) <= Records(text + more, delim)
    decreases |text|
  {
    FindNone(text, delim);
    if delim in text {
      var first, second, last := CutText(text, delim);
      TextAfterCut(first, second, last, delim, more);
      RecordsStep(first, second, delim, last);
      RecordsStep(first, second, delim, last + more);
      RecordsPrefix(last, more, delim);
    }
  }

  lemma {:induction false} LogAppend(a: seq<Entry>, b: seq<Entry>, delim: char)
    ensures Log(a + b, delim) == Log(a, delim) + Log(b, delim)
  {
    if a == [] {
      assert a + b == b;
    } else {
      LogAppend(a[1..], b, delim);
      assert (a + b)[1..] == a[1..] + b && (a + b)[0] == a[0];
      Regroup(Line(a[0], delim), Log(a[1..], delim), Log(b, delim));
    }
  }

  lemma {:induction false} LogIsWholeLines(entries: seq<Entry>, delim: char)
    ensures WholeLines(Log(entries, delim))
  {
    if entries != [] {
      LogIsWholeLines(entries[1..], delim);
    }
  }

  // ------------------------------------------------------------------
  // The reader's loop
  // ------------------------------------------------------------------

  class TextStream {
    var rest: string
    var eof: bool
    var fail: bool

    constructor (text: string)
      ensures rest == text && !eof && !fail
    {
      rest, eof, fail := text, false, false;
    }

    // std::getline: a stream that is not good fails and leaves the string alone; running
    // into the end sets eof, and also fail if no character was taken.
    method GetLine(delim: char, prev: string) returns (line: string)
      modifies this
      ensures old(eof) || old(fail) ==> fail && eof == old(eof) && rest == old(rest) && line == prev
      ensures !old(eof) && !old(fail) ==>
                var k := Find(old(rest), delim);
                line == old(rest)[..k]
                && (if k == |old(rest)| then eof && (fail <==> old(rest) == "") && rest == ""
                    else !eof && !fail && rest == old(rest)[k + 1..])
    {
      if eof || fail {
        fail := true;
        return prev;
      }
      var k := Find(rest, delim);
      line := rest[..k];
      if k == |rest| {
        eof, fail, rest := true, rest == "", "";
      } else {
        rest := rest[k + 1..];
      }
    }
  }

  // What is still to be read from a stream.
  ghost function Pending(rest: string, eof: bool, delim: char): seq<Entry> {
    if eof then [] else Records(rest, delim)
  }

  // Both calls in the condition of the loop; the record counts when `ok`.
  method ReadRecord(input: TextStream, delim: char, name0: string, value0: string)
    returns (ok: bool, name: string, value: string)
    requires !input.fail
    modifies input
    ensures ok == !input.fail
    ensures ok ==> !old(input.eof) && |input.rest| < |old(input.rest)|
    ensures Pending(old(input.rest), old(input.eof), delim)
            == if ok then [Entry(name, value)] + Pending(input.rest, input.eof, delim) else []
  {
    name := input.GetLine(delim, name0);
    value := input.GetLine('\n', value0);
    ok := !input.fail;
  }

  // The loop all log readers share, up to what they do with a record.
  method ReadRecords(text: string, delim: char) returns (entries: seq<Entry>)
    ensures entries == Records(text, delim)
  {
    entries := [];
    var input := new TextStream(text);
    var ok, name, value := ReadRecord(input, delim, "", "");
    assert entries + Records(text, delim) == Records(text, delim);
    while ok
      invariant ok == !input.fail && fresh(input)
      invariant Records(text, delim)
                == entries + if ok then [Entry(name, value)] + Pending(input.rest, input.eof, delim) else []
      decreases ok, |input.rest|
    {
      Regroup(entries, [Entry(name, value)], Pending(input.rest, input.eof, delim));
      entries := entries + [Entry(name, value)];
      ok, name, value := ReadRecord(input, delim, name, value);
    }
  }

  method WriteLog(entries: seq<Entry>, delim: char) returns (text: string)
    ensures text == Log(entries, delim)
  {
    text := "";
    var i := 0;
    while i < |entries|
      invariant 0 <= i <= |entries|
      invariant text + Log(entries[i..], delim) == Log(entries, delim)
    {
      text := text + Line(entries[i], delim);
      i := i + 1;
    }
  }
}
