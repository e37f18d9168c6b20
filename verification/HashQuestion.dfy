/**
  The question of the hash scanner to the server, from its JSON text to the reply: the text
  is ASCII, so the frame that Python sends is the one the server reads, and both texts
  determine what they stand for.
*/
module HashQuestion {
  import opened Wire
  import opened Blacklist
  import opened Session

  // hashlib's hexdigest of a SHA-256.
  predicate HexDigest(s: string) {
    |s| == 64 && forall i :: 0 <= i < |s| ==> '0' <= s[i] <= '9' || 'a' <= s[i] <= 'f'
  }

  function Quoted(hash: string): string {
    "\"" + hash + "\""
  }

  function QuotedList(hashes: seq<string>): string {
    if |hashes| == 0 then "" else if |hashes| == 1 then Quoted(hashes[0])
    else Quoted(hashes[0]) + ", " + QuotedList(hashes[1..])
  }

  // The text that sendPacket builds.
  function HashesText(hashes: seq<string>): string {
    "{\"hashes\":[" + QuotedList(hashes) + "]}"
  }

  function Digit(status: int): string {
    if status == 1 then "1" else "0"
  }

  function DigitList(statuses: seq<int>): string {
    if |statuses| == 0 then "" else if |statuses| == 1 then Digit(statuses[0])
    else Digit(statuses[0]) + "," + DigitList(statuses[1..])
  }

  // The text of a HashScanResponse, with the keys in the order of the JSON library.
  function StatusesText(statuses: seq<int>): string {
    "{\"res\":[" + DigitList(statuses) + "],\"status\":213}"
  }

  predicate Plain(text: string) {
    forall i :: 0 <= i < |text| ==> text[i] < 128 as char
  }

  function Points(text: string): (r: seq<CodePoint>)
    ensures |r| == |text| && forall i :: 0 <= i < |r| ==> r[i] == text[i] as int
  {
    seq(|text|, i requires 0 <= i < |text| => text[i] as int)
  }

  function Bytes(text: string): seq<Byte> {
    Utf8OfPoints(Points(text))
  }

  lemma PlainBytes(text: string)
    requires Plain(text)
    ensures Ascii(Points(text)) && Bytes(text) == Points(text)
  {
    PointsLength(Points(text));
  }

  lemma {:induction false} QuotedListPlain(hashes: seq<string>)
    requires forall h :: h in hashes ==> HexDigest(h)
    ensures Plain(QuotedList(hashes))
  {
    if hashes != [] {
      assert HexDigest(hashes[0]);
      QuotedListPlain(hashes[1..]);
    }
  }

  lemma {:induction false} DigitListPlain(statuses: seq<int>)
    ensures Plain(DigitList(statuses))
  {
    if statuses != [] {
      DigitListPlain(statuses[1..]);
    }
  }

  // What a scan can ask: digests, in a text that fits into a frame.
  ghost predicate Askable(hashes: seq<string>) {
    (forall h :: h in hashes ==> HexDigest(h)) && |HashesText(hashes)| < INT_LIMIT
  }

  // Main result: every question of the scanner is sent as the frame the server expects.
  lemma QuestionIsFrame(hashes: seq<string>)
    requires Askable(hashes)
    ensures var text := HashesText(hashes);
            |Bytes(text)| == |text| && PythonBytes(113, Points(text)) == Frame(Message(113, Bytes(text)))
  {
    QuotedListPlain(hashes);
    PlainBytes(HashesText(hashes));
    PythonFrameIff(113, Points(HashesText(hashes)));
  }

  // ------------------------------------------------------------------
  // The texts determine the lists
  // ------------------------------------------------------------------

  lemma QuotedFirst(hashes: seq<string>)
    requires hashes != [] && HexDigest(hashes[0])
    ensures var q := QuotedList(hashes);
            && |q| >= 66 && q[1..65] == hashes[0]
            && (|hashes| == 1 <==> |q| == 66) && (|hashes| > 1 ==> |q| >= 68 && q[68..] == QuotedList(hashes[1..]))
  {
    var q, first := QuotedList(hashes), Quoted(hashes[0]);
    assert |first| == 66 && first[1..65] == hashes[0];
    if |hashes| > 1 {
      assert q == first + ", " + QuotedList(hashes[1..]);
      assert q[..66] == first;
    }
  }

  lemma {:induction false} QuotedListInjective(a: seq<string>, b: seq<string>)
    requires forall h :: h in a || h in b ==> HexDigest(h)
    requires QuotedList(a) == QuotedList(b)
    ensures a == b
  {
    if a != [] {
      QuotedFirst(a);
    }
    if b != [] {
      QuotedFirst(b);
    }
    if a != [] && b != [] {
      if |a| > 1 {
        QuotedListInjective(a[1..], b[1..]);
      }
      assert a == [a[0]] + a[1..] && b == [b[0]] + b[1..];
    }
  }

  predicate IsStatus(status: int) {
    status == 0 || status == 1
  }

  lemma DigitFirst(statuses: seq<int>)
    requires statuses != []
    ensures var d := DigitList(statuses);
            && |d| >= 1 && (d[0] == '1' <==> statuses[0] == 1)
            && (|statuses| == 1 <==> |d| == 1) && (|statuses| > 1 ==> d[2..] == DigitList(statuses[1..]))
  {
  }

  lemma {:induction false} DigitListInjective(a: seq<int>, b: seq<int>)
    requires forall s :: s in a || s in b ==> IsStatus(s)
    requires DigitList(a) == DigitList(b)
    ensures a == b
  {
    if a != [] {
      DigitFirst(a);
    }
    if b != [] {
      DigitFirst(b);
    }
    if a != [] && b != [] {
      assert IsStatus(a[0]) && IsStatus(b[0]);
      if |a| > 1 {
        DigitListInjective(a[1..], b[1..]);
      }
      assert a == [a[0]] + a[1..] && b == [b[0]] + b[1..];
    }
  }

  lemma SameMiddle(before: string, a: string, b: string, after: string)
    requires before + a + after == before + b + after
    ensures a == b
  {
    var s, t := before + a + after, before + b + after;
    assert a == s[|before|..|s| - |after|] && b == t[|before|..|t| - |after|];
  }

  lemma BytesInjective(s: string, t: string)
    requires Plain(s) && Plain(t) && Bytes(s) == Bytes(t)
    ensures s == t
  {
    PlainBytes(s);
    PlainBytes(t);
    forall i | 0 <= i < |s|
      ensures s[i] == t[i]
    {
      assert Points(s)[i] == Points(t)[i];
    }
  }

  lemma SameHashes(a: seq<string>, b: seq<string>)
    requires forall h :: h in a || h in b ==> HexDigest(h)
    requires HashesText(a) == HashesText(b)
    ensures a == b
  {
    SameMiddle("{\"hashes\":[", QuotedList(a), QuotedList(b), "]}");
    QuotedListInjective(a, b);
  }

  lemma SameStatuses(a: seq<int>, b: seq<int>)
    requires forall s :: s in a || s in b ==> IsStatus(s)
    requires StatusesText(a) == StatusesText(b)
    ensures a == b
  {
    SameMiddle("{\"res\":[", DigitList(a), DigitList(b), "],\"status\":213}");
    DigitListInjective(a, b);
  }

  // No two lists have the same bytes, so any two parsers that invert the texts agree.
  lemma QuestionDecodes(a: seq<string>, b: seq<string>)
    requires forall h :: h in a || h in b ==> HexDigest(h)
    requires Bytes(HashesText(a)) == Bytes(HashesText(b))
    ensures a == b
  {
    QuotedListPlain(a);
    QuotedListPlain(b);
    BytesInjective(HashesText(a), HashesText(b));
    SameHashes(a, b);
  }

  lemma StatusesPlain(statuses: seq<int>)
    ensures Plain(StatusesText(statuses))
  {
    DigitListPlain(statuses);
  }

  lemma AnswerDecodes(a: seq<int>, b: seq<int>)
    requires forall s :: s in a || s in b ==> IsStatus(s)
    requires Bytes(StatusesText(a)) == Bytes(StatusesText(b))
    ensures a == b
  {
    StatusesPlain(a);
    StatusesPlain(b);
    BytesInjective(StatusesText(a), StatusesText(b));
    SameStatuses(a, b);
  }

  // ------------------------------------------------------------------
  // One question over the connection
  // ------------------------------------------------------------------

  function Statuses(rows: seq<Row>, hashes: seq<string>): (r: seq<int>)
    ensures |r| == |hashes|
    ensures forall i :: 0 <= i < |r| ==> r[i] == if CountRows(rows, hashes[i]) >= 1 then 1 else 0
  {
    seq(|hashes|, i requires 0 <= i < |hashes| => if CountRows(rows, hashes[i]) >= 1 then 1 else 0)
  }

  lemma {:induction false} ListLengths(rows: seq<Row>, hashes: seq<string>)
    requires forall h :: h in hashes ==> HexDigest(h)
    ensures 2 * |DigitList(Statuses(rows, hashes))| <= |QuotedList(hashes)|
  {
    if hashes != [] {
      assert Statuses(rows, hashes)[1..] == Statuses(rows, hashes[1..]);
      assert HexDigest(hashes[0]);
      ListLengths(rows, hashes[1..]);
    }
  }

  // The server's handler of the question, between a parser and a printer of JSON: it leaves
  // the table alone and answers each hash by its own row count.
  ghost predicate AnswersHashes<B>(h: Handlers<B, seq<Row>>) {
    forall rows, hashes :: Askable(hashes) ==>
      && h.parses(113, Bytes(HashesText(hashes)))
      && h.server(rows, 113, Bytes(HashesText(hashes))).0 == rows
      && h.server(rows, 113, Bytes(HashesText(hashes))).1 == Bytes(StatusesText(Statuses(rows, hashes)))
  }

  lemma AnswerFits(rows: seq<Row>, hashes: seq<string>)
    requires Askable(hashes)
    ensures Fits(Message(213, Bytes(StatusesText(Statuses(rows, hashes)))))
  {
    ListLengths(rows, hashes);
    StatusesPlain(Statuses(rows, hashes));
    PlainBytes(StatusesText(Statuses(rows, hashes)));
  }

  lemma AnswerIs<B>(h: Handlers<B, seq<Row>>, rows: seq<Row>, hashes: seq<string>)
    requires AnswersHashes(h) && Askable(hashes)
    ensures var question := Message(113, Bytes(HashesText(hashes)));
            && !ServerThrows(h, question)
            && ServerAnswer(h, rows, question) == (rows, Message(213, Bytes(StatusesText(Statuses(rows, hashes)))))
  {
    var answer := h.server(rows, 113, Bytes(HashesText(hashes)));
    assert answer.0 == rows;
  }

  // Main result: what the scanner sends makes the server's connection loop send back exactly
  // one frame, with the status of each hash in the order of the question.
  lemma AskOverWire<B>(h: Handlers<B, seq<Row>>, rows: seq<Row>, hashes: seq<string>)
    requires AnswersHashes(h) && Askable(hashes)
    ensures var answer := Message(213, Bytes(StatusesText(Statuses(rows, hashes))));
            && Fits(answer)
            && ServerConnection(h, rows, PythonBytes(113, Points(HashesText(hashes)))) == (rows, Frame(answer))
            && ReadFrame(Frame(answer)) == Got(answer, [])
  {
    var question := Message(113, Bytes(HashesText(hashes)));
    QuestionIsFrame(hashes);
    AnswerIs(h, rows, hashes);
    AnswerFits(rows, hashes);
    OneExchange(h, rows, question);
  }

  lemma OneExchange<B, S>(h: Handlers<B, S>, s: S, m: Message)
    requires Fits(m) && !ServerThrows(h, m)
    ensures var (s1, reply) := ServerAnswer(h, s, m);
            ServerConnection(h, s, Frame(m)) == (s1, Frame(reply)) && ReadFrame(Frame(reply)) == Got(reply, [])
  {
    var (s1, reply) := ServerAnswer(h, s, m);
    assert Frame(m) + [] == Frame(m) && Frame(reply) + [] == Frame(reply);
    ServerConnectionStep(h, s, m, []);
    FrameRoundTrip(reply, []);
  }

  // ------------------------------------------------------------------
  // Where each item stands in its text
  // ------------------------------------------------------------------

  lemma {:induction false} QuotedSuffix(hashes: seq<string>, i: nat)
    requires (forall h :: h in hashes ==> HexDigest(h)) && i < |hashes|
    ensures var q := QuotedList(hashes);
            |q| == 68 * |hashes| - 2 && 68 * i < |q| && q[68 * i..] == QuotedList(hashes[i..])
  {
    var q, tail := QuotedList(hashes), hashes[1..];
    QuotedStart(hashes);
    if |hashes| > 1 {
      QuotedSuffix(tail, if i == 0 then 0 else i - 1);
      if i > 0 {
        assert tail[i - 1..] == hashes[i..];
        SuffixOfSuffix(q, 68, 68 * (i - 1));
      }
    }
    assert hashes[0..] == hashes && q[0..] == q;
  }

  lemma SuffixOfSuffix(s: string, m: nat, n: nat)
    requires m + n <= |s|
    ensures s[m..][n..] == s[m + n..]
  {
  }

  lemma QuotedStart(hashes: seq<string>)
    requires hashes != [] && HexDigest(hashes[0])
    ensures var q := QuotedList(hashes);
            && |q| >= 66 && q[0] == q[65] == '"' && q[1..65] == hashes[0] && (|hashes| == 1 <==> |q| == 66)
            && (|hashes| > 1 ==> |q| >= 68 && q[66..68] == ", " && q[68..] == QuotedList(hashes[1..]))
  {
    QuotedFirst(hashes);
    var q, first := QuotedList(hashes), Quoted(hashes[0]);
    assert |first| == 66 && first[0] == first[65] == '"';
    if |hashes| > 1 {
      assert q == first + ", " + QuotedList(hashes[1..]);
      assert q[..66] == first && q[66..68] == ", ";
      assert q[0] == first[0] && q[65] == first[65];
    }
  }

  // Main result: the text of a question is a key, and the digests in order, each in quotes.
  lemma QuestionText(hashes: seq<string>, i: nat)
    requires forall h :: h in hashes ==> HexDigest(h)
    ensures var t := HashesText(hashes);
            && |t| >= 13 && t[..11] == "{\"hashes\":[" && t[|t| - 2..] == "]}"
            && (hashes == [] ==> |t| == 13) && (hashes != [] ==> |t| == 68 * |hashes| + 11)
            && (i < |hashes| ==>
                  && t[68 * i + 11] == t[68 * i + 76] == '"' && t[68 * i + 12..68 * i + 76] == hashes[i]
                  && (i + 1 < |hashes| ==> t[68 * i + 77..68 * i + 79] == ", "))
  {
    var q := QuotedList(hashes);
    InFrame("{\"hashes\":[", q, "]}");
    if hashes != [] {
      QuotedSuffix(hashes, 0);
    }
    if i < |hashes| {
      DigestInText(hashes, i, HashesText(hashes));
    }
  }

  lemma DigestInText(hashes: seq<string>, i: nat, t: string)
    requires (forall h :: h in hashes ==> HexDigest(h)) && i < |hashes|
    requires var q := QuotedList(hashes);
             |t| >= 11 + |q| && forall k :: 0 <= k < |q| ==> t[11 + k] == q[k]
    ensures |t| >= 68 * i + 77 && t[68 * i + 11] == t[68 * i + 76] == '"' && t[68 * i + 12..68 * i + 76] == hashes[i]
    ensures i + 1 < |hashes| ==> |t| >= 68 * i + 79 && t[68 * i + 77..68 * i + 79] == ", "
  {
    QuotedSuffix(hashes, i);
    QuotedStart(hashes[i..]);
    var rest := QuotedList(hashes[i..]);
    assert forall k :: 0 <= k < |rest| ==> rest[k] == t[68 * i + 11 + k];
    assert t[68 * i + 12..68 * i + 76] == rest[1..65];
    if i + 1 < |hashes| {
      assert t[68 * i + 77..68 * i + 79] == rest[66..68];
    }
  }

  lemma InFrame(before: string, middle: string, after: string)
    ensures var t := before + middle + after;
            && |t| == |before| + |middle| + |after| && t[..|before|] == before && t[|t| - |after|..] == after
            && forall k :: 0 <= k < |middle| ==> t[|before| + k] == middle[k]
  {
  }

  lemma {:induction false} DigitSuffix(statuses: seq<int>, i: nat)
    requires i < |statuses|
    ensures var d := DigitList(statuses);
            |d| == 2 * |statuses| - 1 && d[2 * i..] == DigitList(statuses[i..])
  {
    var d, tail := DigitList(statuses), statuses[1..];
    if |statuses| > 1 {
      DigitFirst(statuses);
      DigitSuffix(tail, if i == 0 then 0 else i - 1);
      assert d == Digit(statuses[0]) + "," + DigitList(tail);
      if i > 0 {
        assert tail[i - 1..] == statuses[i..];
        SuffixOfSuffix(d, 2, 2 * (i - 1));
      }
    }
    assert statuses[0..] == statuses && d[0..] == d;
  }

  lemma DigitAt(statuses: seq<int>, i: nat)
    requires i < |statuses|
    ensures var d := DigitList(statuses);
            && |d| == 2 * |statuses| - 1 && d[2 * i] == (if statuses[i] == 1 then '1' else '0')
            && (i + 1 < |statuses| ==> d[2 * i + 1] == ',')
  {
    DigitSuffix(statuses, i);
    var d, rest := DigitList(statuses), DigitList(statuses[i..]);
    DigitFirst(statuses[i..]);
    assert d[2 * i] == rest[0];
    if i + 1 < |statuses| {
      assert rest == Digit(statuses[i]) + "," + DigitList(statuses[i..][1..]);
      assert d[2 * i + 1] == rest[1];
    }
  }

  // The text of an answer has one digit for each status, in order.
  lemma AnswerText(statuses: seq<int>, i: nat)
    requires i < |statuses|
    ensures var t := StatusesText(statuses);
            && |t| == 2 * |statuses| + 22 && t[..8] == "{\"res\":[" && t[|t| - 15..] == "],\"status\":213}"
            && t[2 * i + 8] == (if statuses[i] == 1 then '1' else '0')
            && (i + 1 < |statuses| ==> t[2 * i + 9] == ',')
  {
    DigitAt(statuses, i);
    InFrame("{\"res\":[", DigitList(statuses), "],\"status\":213}");
  }
}
