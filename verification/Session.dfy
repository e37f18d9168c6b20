/**
  The request loops: one client connection of the backend, and the server connections that
  the backend opens for the requests it passes on.
*/
module Session {
  import opened Options
  import opened Wire

  const ERROR: Byte := 1

  // The requests of the backend's switch; 109 and 111 are not among them.
  predicate IsRequestRelevant(id: Byte) {
    id in {100, 102, 101, 105, 106, 112, 113, 115, 114, 107, 108, 103, 104, 110}
  }

  // The requests of the server's switch.
  predicate IsServerRequest(id: Byte) {
    id in {112, 113, 114, 115}
  }

  // The status constant that each handler puts into its response, request by request.
  function ResponseCode(id: Byte): Byte
    requires IsRequestRelevant(id)
  {
    match id
    case 100 => 200  // SCAN_RESPONSE
    case 101 => 201  // SUSPICIOUS_PROCESSES_LIST_RESPONSE
    case 102 => 202  // SUSPENDED_PROCESSES_LIST_REESPONSE
    case 103 => 203  // UPDATE_BLOCKED_TABLE_RESPONSE
    case 104 => 204  // UPDATE_VIRUS_TABLE_RESPONSE
    case 105 => 205  // FREE_PROCESS_RESPONSE
    case 106 => 206  // BLOCK_PROCESS_RESPONSE
    case 107 => 207  // KILL_PROCESS_RESPONSE
    case 108 => 208  // PERIODIC_SCAN_TIME_RESPONSE
    case 110 => 210  // GET_CURRENT_SCAN_FREQUENCY_RESPONSE
    case 112 => 212  // IP_SCAN_RESPONSE
    case 113 => 213  // HASH_SCAN_RESPONSE
    case 114 => 214  // SAVING_IP_RESPONSE
    case _ => 215    // SAVING_HASH_RESPONSE
  }

  type Body = b: seq<Byte> | |b| < INT_LIMIT witness []

  // The handlers, as functions from their state and the request body to their new state and
  // the response body.  `parses` says which bodies the JSON deserializers accept.
  datatype Handlers<!B, !S> = Handlers(
    parses: (Byte, seq<Byte>) -> bool,
    backend: (B, Byte, seq<Byte>) -> (B, Body),
    server: (S, Byte, seq<Byte>) -> (S, Body),
    irrelevant: Body)

  function ErrorReply<B, S>(h: Handlers<B, S>): Message {
    Message(ERROR, h.irrelevant)
  }

  // ------------------------------------------------------------------
  // The server
  // ------------------------------------------------------------------

  function ServerAnswer<B, S>(h: Handlers<B, S>, s: S, m: Message): (r: (S, Message))
    ensures Fits(r.1)
  {
    if !IsServerRequest(m.code) then (s, ErrorReply(h))
    else
      var (s', body) := h.server(s, m.code, m.body);
      (s', Message(ResponseCode(m.code), body))
  }

  predicate ServerThrows<B, S>(h: Handlers<B, S>, m: Message) {
    IsServerRequest(m.code) && !h.parses(m.code, m.body)
  }

  // One connection: the final state and the bytes sent back.
  function ServerConnection<B, S>(h: Handlers<B, S>, s: S, input: seq<Byte>): (S, seq<Byte>)
    decreases |input|
  {
    match ReadFrame(input)
    case Got(m, rest) =>
      if ServerThrows(h, m) then (s, [])
      else
        var (s1, reply) := ServerAnswer(h, s, m);
        var (s2, out) := ServerConnection(h, s1, rest);
        (s2, Frame(reply) + out)
    case _ => (s, [])
  }

  // ------------------------------------------------------------------
  // The backend
  // ------------------------------------------------------------------

  // What one client connection leaves behind: the bytes sent to the client, and the bytes
  // sent to the server over all its connections.
  datatype Trace<B, S> = Trace(backend: B, server: S, out: seq<Byte>, toServer: seq<Byte>)

  // One request passed on: what goes to the client and what went to the server.
  datatype Exchange<S> = Exchange(server: S, out: seq<Byte>, toServer: seq<Byte>)

  // handleServerRequest: nothing is sent to the client when the server cannot be reached.
  function Proxy<B, S>(h: Handlers<B, S>, s: S, m: Message, up: bool): Exchange<S>
    requires Fits(m)
  {
    if !up then Exchange(s, [], [])
    else
      var (s1, answer) := ServerConnection(h, s, Frame(m));
      match ReadFrame(answer)
      case Got(reply, _) => ReadIsVerbatim(answer); Exchange(s1, Frame(reply), Frame(m))
      case _ => Exchange(s1, [], Frame(m))
  }

  predicate BackendThrows<B, S>(h: Handlers<B, S>, m: Message) {
    IsRequestRelevant(m.code) && m.code <= 111 && !h.parses(m.code, m.body)
  }

  function Dispatch<B, S>(h: Handlers<B, S>, b: B, s: S, m: Message, up: bool): Trace<B, S>
    requires Fits(m)
  {
    if !IsRequestRelevant(m.code) then Trace(b, s, Frame(ErrorReply(h)), [])
    else if m.code <= 111 then
      var (b', body) := h.backend(b, m.code, m.body);
      Trace(b', s, Frame(Message(ResponseCode(m.code), body)), [])
    else
      var x := Proxy(h, s, m, up);
      Trace(b, x.server, x.out, x.toServer)
  }

  // `up(i)` says whether the server accepts a connection during request i.
  function Serve<B, S>(h: Handlers<B, S>, b: B, s: S, input: seq<Byte>, up: nat -> bool, i: nat): Trace<B, S>
    decreases |input|
  {
    match ReadFrame(input)
    case Got(m, rest) =>
      ReadIsVerbatim(input);
      if BackendThrows(h, m) then Trace(b, s, [], [])
      else
        var step := Dispatch(h, b, s, m, up(i));
        var end := Serve(h, step.backend, step.server, rest, up, i + 1);
        end.(out := step.out + end.out, toServer := step.toServer + end.toServer)
    case _ => Trace(b, s, [], [])
  }

  // ------------------------------------------------------------------
  // The loops
  // ------------------------------------------------------------------

  lemma Regroup(a: seq<Byte>, b: seq<Byte>, c: seq<Byte>)
    ensures (a + b) + c == a + (b + c)
  {
  }

  // `sent` is what the connection has answered so far, `all` what it answers in the end.
  method BackendHandler<B, S>(h: Handlers<B, S>, s: S, sc: Socket) returns (s': S)
    modifies sc
    ensures s' == ServerConnection(h, s, old(sc.input)).0
    ensures sc.output == old(sc.output) + ServerConnection(h, s, old(sc.input)).1
  {
    s' := s;
    ghost var sent: seq<Byte> := [];
    ghost var all := ServerConnection(h, s, sc.input);
    assert sent + all.1 == all.1;
    while true
      invariant sc.output == old(sc.output) + sent
      invariant all == (ServerConnection(h, s', sc.input).0, sent + ServerConnection(h, s', sc.input).1)
      decreases |sc.input|
    {
      var packet, frame := GetAllTheSocket(sc);
      if packet == None || ServerThrows(h, packet.value) {
        assert sent + [] == sent;
        return;
      }
      var msg;
      s', msg := ServerReply(h, s', packet.value);
      sc.SendData(msg);
      Regroup(old(sc.output), sent, msg[..]);
      Regroup(sent, msg[..], ServerConnection(h, s', sc.input).1);
      sent := sent + msg[..];
    }
  }

  // The body of that loop: isRequestRelevant, then handleRequest and serializeResponse.
  method ServerReply<B, S>(h: Handlers<B, S>, s: S, m: Message) returns (s': S, msg: array<Byte>)
    ensures s' == ServerAnswer(h, s, m).0 && msg[..] == Frame(ServerAnswer(h, s, m).1)
    ensures fresh(msg)
  {
    s' := s;
    if !IsServerRequest(m.code) {
      msg := SerializeResponse(h.irrelevant, ERROR);
    } else {
      var result := h.server(s, m.code, m.body);
      s' := result.0;
      msg := SerializeResponse(result.1, ResponseCode(m.code));
    }
  }

  method HandleServerRequest<B, S>(h: Handlers<B, S>, s: S, client: Socket, m: Message, frame: array<Byte>, up: bool)
    returns (s': S)
    requires Fits(m) && frame[..] == Frame(m)
    modifies client`output
    ensures s' == Proxy(h, s, m, up).server
    ensures client.output == old(client.output) + Proxy(h, s, m, up).out
  {
    s' := s;
    if up {
      var server := new Socket(frame[..]);
      s' := BackendHandler(h, s, server);
      assert server.output == ServerConnection(h, s, Frame(m)).1;
      var answer := new Socket(server.output);
      var reply, copy := GetAllTheSocket(answer);
      if reply.Some? {
        client.SendData(copy);
      }
    }
  }

  // The body of the loop below, after the packet is read.
  method HandlePacket<B, S>(h: Handlers<B, S>, b: B, s: S, client: Socket, m: Message, frame: array<Byte>, up: bool)
    returns (b': B, s': S)
    requires Fits(m) && frame[..] == Frame(m)
    modifies client`output
    ensures b' == Dispatch(h, b, s, m, up).backend && s' == Dispatch(h, b, s, m, up).server
    ensures client.output == old(client.output) + Dispatch(h, b, s, m, up).out
  {
    b', s' := b, s;
    if !IsRequestRelevant(m.code) {
      var msg := SerializeResponse(h.irrelevant, ERROR);
      client.SendData(msg);
    } else if m.code <= 111 {
      var result := h.backend(b, m.code, m.body);
      b' := result.0;
      var msg := SerializeResponse(result.1, ResponseCode(m.code));
      client.SendData(msg);
    } else {
      s' := HandleServerRequest(h, s, client, m, frame, up);
    }
  }

  lemma ServeStep<B, S>(h: Handlers<B, S>, b: B, s: S, input: seq<Byte>, up: nat -> bool, i: nat)
    requires ReadFrame(input).Got? && !BackendThrows(h, ReadFrame(input).m) && Fits(ReadFrame(input).m)
    ensures var step := Dispatch(h, b, s, ReadFrame(input).m, up(i));
            var end := Serve(h, step.backend, step.server, ReadFrame(input).rest, up, i + 1);
            Serve(h, b, s, input, up, i)
            == Trace(end.backend, end.server, step.out + end.out, step.toServer + end.toServer)
  {
  }

  method ClientHandler<B, S>(h: Handlers<B, S>, b: B, s: S, client: Socket, up: nat -> bool) returns (b': B, s': S)
    modifies client
    ensures b' == Serve(h, b, s, old(client.input), up, 0).backend
    ensures s' == Serve(h, b, s, old(client.input), up, 0).server
    ensures client.output == old(client.output) + Serve(h, b, s, old(client.input), up, 0).out
  {
    b', s' := b, s;
    var i := 0;
    ghost var sent: seq<Byte> := [];
    ghost var all := Serve(h, b, s, client.input, up, 0);
    assert sent + all.out == all.out;
    while true
      invariant client.output == old(client.output) + sent
      invariant var rest := Serve(h, b', s', client.input, up, i);
        all.backend == rest.backend && all.server == rest.server && all.out == sent + rest.out
      decreases |client.input|
    {
      ghost var input := client.input;
      var packet, frame := GetAllTheSocket(client);
      if packet == None || BackendThrows(h, packet.value) {
        assert sent + [] == sent;
        return;
      }
      ServeStep(h, b', s', input, up, i);
      ghost var step := Dispatch(h, b', s', packet.value, up(i));
      b', s' := HandlePacket(h, b', s', client, packet.value, frame, up(i));
      i := i + 1;
      Regroup(old(client.output), sent, step.out);
      Regroup(sent, step.out, Serve(h, b', s', client.input, up, i).out);
      sent := sent + step.out;
    }
  }

  // ------------------------------------------------------------------
  // A whole session
  // ------------------------------------------------------------------

  predicate Proxied(m: Message) {
    IsRequestRelevant(m.code) && m.code > 111
  }

  // The requests of a session that are answered: all but those for a server that is down.
  function Answered(reqs: seq<Message>, up: nat -> bool, i: nat): seq<Message> {
    if reqs == [] then []
    else (if Proxied(reqs[0]) && !up(i) then [] else [reqs[0]]) + Answered(reqs[1..], up, i + 1)
  }

  function OnlyProxied(ms: seq<Message>): seq<Message> {
    if ms == [] then [] else (if Proxied(ms[0]) then [ms[0]] else []) + OnlyProxied(ms[1..])
  }

  // The replies at the positions of the proxied requests.
  function RepliesToProxied(reqs: seq<Message>, replies: seq<Message>): seq<Message>
    requires |reqs| == |replies|
  {
    if reqs == [] then []
    else (if Proxied(reqs[0]) then [replies[0]] else []) + RepliesToProxied(reqs[1..], replies[1..])
  }

  // Code of the reply the protocol promises.
  function ExpectedCode(m: Message): int {
    if IsRequestRelevant(m.code) then m.code + 100 else ERROR
  }

  ghost predicate WellFormed<B, S>(h: Handlers<B, S>, reqs: seq<Message>) {
    forall m :: m in reqs ==> Fits(m) && (IsRequestRelevant(m.code) ==> h.parses(m.code, m.body))
  }

  // What the client has in hand after `reqs`: one reply per answered request, in order, and
  // the part of the conversation that went through the server is the one that a direct
  // connection to the server would have had.
  ghost predicate Faithful<B, S>(h: Handlers<B, S>, s: S, answered: seq<Message>, t: Trace<B, S>,
                                 replies: seq<Message>) {
    && |replies| == |answered|
    && (forall m :: m in replies + answered ==> Fits(m))
    && (forall k :: 0 <= k < |answered| ==> replies[k].code == ExpectedCode(answered[k]))
    && t.out == Encode(replies)
    && (forall m :: m in OnlyProxied(answered) + RepliesToProxied(answered, replies) ==> Fits(m))
    && t.toServer == Encode(OnlyProxied(answered))
    && ServerConnection(h, s, t.toServer) == (t.server, Encode(RepliesToProxied(answered, replies)))
  }

  lemma ProxyIsServer<B, S>(h: Handlers<B, S>, s: S, m: Message)
    requires Fits(m) && !ServerThrows(h, m)
    ensures var (s1, reply) := ServerAnswer(h, s, m);
            Proxy(h, s, m, true) == Exchange(s1, Frame(reply), Frame(m))
  {
    var (s1, reply) := ServerAnswer(h, s, m);
    FrameRoundTrip(m, []);
    FrameRoundTrip(reply, []);
    assert Frame(m) + [] == Frame(m) && Frame(reply) + [] == Frame(reply);
    assert ServerConnection(h, s1, []) == (s1, []);
  }

  lemma ServerConnectionStep<B, S>(h: Handlers<B, S>, s: S, m: Message, rest: seq<Byte>)
    requires Fits(m) && !ServerThrows(h, m)
    ensures var (s1, reply) := ServerAnswer(h, s, m);
            var (s2, out) := ServerConnection(h, s1, rest);
            ServerConnection(h, s, Frame(m) + rest) == (s2, Frame(reply) + out)
  {
    FrameRoundTrip(m, rest);
  }

  // Main result: for every stream of well-formed requests, and however the server comes and
  // goes, the client gets exactly one frame per answered request, in order, with code
  // request + 100, or 1 for an irrelevant id; requests 112 to 115 reach the server byte for
  // byte and its replies come back byte for byte.
  lemma {:induction false} SessionIsFaithful<B, S>(h: Handlers<B, S>, b: B, s: S, reqs: seq<Message>,
                                                   up: nat -> bool, i: nat)
    returns (replies: seq<Message>)
    requires WellFormed(h, reqs)
    ensures Faithful(h, s, Answered(reqs, up, i), Serve(h, b, s, Encode(reqs), up, i), replies)
  {
    if reqs == [] {
      replies := [];
      return;
    }
    var m := reqs[0];
    var step := Dispatch(h, b, s, m, up(i));
    EncodedStep(h, b, s, reqs, up, i);
    var others := SessionIsFaithful(h, step.backend, step.server, reqs[1..], up, i + 1);
    var end := Serve(h, step.backend, step.server, Encode(reqs[1..]), up, i + 1);
    if Proxied(m) && !up(i) {
      replies := others;
      assert [] + end.out == end.out && [] + end.toServer == end.toServer;
      assert [] + Answered(reqs[1..], up, i + 1) == Answered(reqs[1..], up, i + 1);
    } else {
      var reply := StepReplies(h, b, s, m, up(i));
      FaithfulCons(h, s, m, reply, step, Answered(reqs[1..], up, i + 1), end, others);
      replies := [reply] + others;
    }
  }

  // The first request of an encoded stream.
  lemma {:induction false} EncodedStep<B, S>(h: Handlers<B, S>, b: B, s: S, reqs: seq<Message>, up: nat -> bool, i: nat)
    requires WellFormed(h, reqs) && reqs != []
    ensures var step := Dispatch(h, b, s, reqs[0], up(i));
            var end := Serve(h, step.backend, step.server, Encode(reqs[1..]), up, i + 1);
            Serve(h, b, s, Encode(reqs), up, i)
            == Trace(end.backend, end.server, step.out + end.out, step.toServer + end.toServer)
  {
    FrameRoundTrip(reqs[0], Encode(reqs[1..]));
    ServeStep(h, b, s, Encode(reqs), up, i);
  }

  // What answering one request does.
  lemma StepReplies<B, S>(h: Handlers<B, S>, b: B, s: S, m: Message, up: bool) returns (reply: Message)
    requires Fits(m) && (Proxied(m) ==> up) && (IsRequestRelevant(m.code) ==> h.parses(m.code, m.body))
    ensures Fits(reply) && reply.code == ExpectedCode(m) && !ServerThrows(h, m)
    ensures var step := Dispatch(h, b, s, m, up);
            && step.out == Frame(reply)
            && (Proxied(m) ==> step.toServer == Frame(m) && (step.server, reply) == ServerAnswer(h, s, m))
            && (!Proxied(m) ==> step.toServer == [] && step.server == s)
  {
    if Proxied(m) {
      ProxyIsServer(h, s, m);
      reply := ServerAnswer(h, s, m).1;
    } else if IsRequestRelevant(m.code) {
      reply := Message(ResponseCode(m.code), h.backend(b, m.code, m.body).1);
    } else {
      reply := ErrorReply(h);
    }
  }

  // One more answered request in front of a faithful rest.
  lemma FaithfulCons<B, S>(h: Handlers<B, S>, s: S, m: Message, reply: Message, step: Trace<B, S>,
                           answered: seq<Message>, end: Trace<B, S>, others: seq<Message>)
    requires Fits(m) && Fits(reply) && reply.code == ExpectedCode(m) && !ServerThrows(h, m)
    requires Faithful(h, step.server, answered, end, others)
    requires step.out == Frame(reply)
    requires if Proxied(m) then step.toServer == Frame(m) && (step.server, reply) == ServerAnswer(h, s, m)
             else step.toServer == [] && step.server == s
    ensures Faithful(h, s, [m] + answered,
                     Trace(end.backend, end.server, step.out + end.out, step.toServer + end.toServer), [reply] + others)
  {
    ProxiedCons(m, reply, answered, others);
    EncodeCons(reply, others);
    if Proxied(m) {
      EncodeCons(m, OnlyProxied(answered));
      EncodeCons(reply, RepliesToProxied(answered, others));
      ServerConnectionStep(h, s, m, end.toServer);
    } else {
      assert [] + end.toServer == end.toServer;
    }
  }

  lemma EncodeCons(m: Message, ms: seq<Message>)
    requires Fits(m) && forall x :: x in ms ==> Fits(x)
    ensures Encode([m] + ms) == Frame(m) + Encode(ms)
  {
    assert ([m] + ms)[1..] == ms;
  }

  lemma ProxiedCons(m: Message, reply: Message, answered: seq<Message>, others: seq<Message>)
    requires |answered| == |others|
    ensures OnlyProxied([m] + answered) == if Proxied(m) then [m] + OnlyProxied(answered) else OnlyProxied(answered)
    ensures RepliesToProxied([m] + answered, [reply] + others)
            == if Proxied(m) then [reply] + RepliesToProxied(answered, others) else RepliesToProxied(answered, others)
  {
    assert ([m] + answered)[1..] == answered && ([reply] + others)[1..] == others;
  }

  // The server is up whenever a request is passed on.
  ghost predicate UpWhenNeeded(reqs: seq<Message>, up: nat -> bool, i: nat) {
    forall k :: 0 <= k < |reqs| && Proxied(reqs[k]) ==> up(i + k)
  }

  lemma {:induction false} AllUpAnswersAll(reqs: seq<Message>, up: nat -> bool, i: nat)
    requires UpWhenNeeded(reqs, up, i)
    ensures Answered(reqs, up, i) == reqs
  {
    if reqs != [] {
      assert Proxied(reqs[0]) ==> up(i + 0);
      forall k | 0 <= k < |reqs[1..]| && Proxied(reqs[1..][k])
        ensures up(i + 1 + k)
      {
        assert reqs[1..][k] == reqs[k + 1] && i + 1 + k == i + (k + 1);
      }
      AllUpAnswersAll(reqs[1..], up, i + 1);
    }
  }

  lemma {:induction false} AnswersAreFewer(reqs: seq<Message>, up: nat -> bool, i: nat)
    ensures |Answered(reqs, up, i)| <= |reqs|
  {
    if reqs != [] {
      AnswersAreFewer(reqs[1..], up, i + 1);
    }
  }

  lemma {:induction false} DownMissesOne(reqs: seq<Message>, up: nat -> bool, i: nat, k: nat)
    requires k < |reqs| && Proxied(reqs[k]) && !up(i + k)
    ensures |Answered(reqs, up, i)| < |reqs|
  {
    AnswersAreFewer(reqs[1..], up, i + 1);
    if k > 0 {
      DownMissesOne(reqs[1..], up, i + 1, k - 1);
    }
  }

  // There is one reply per request exactly when the server is up for each proxied request.
  lemma OneReplyEachIff(reqs: seq<Message>, up: nat -> bool, i: nat)
    ensures |Answered(reqs, up, i)| == |reqs| <==> UpWhenNeeded(reqs, up, i)
    ensures UpWhenNeeded(reqs, up, i) ==> Answered(reqs, up, i) == reqs
  {
    if UpWhenNeeded(reqs, up, i) {
      AllUpAnswersAll(reqs, up, i);
    } else {
      var k: nat :| k < |reqs| && Proxied(reqs[k]) && !up(i + k);
      DownMissesOne(reqs, up, i, k);
    }
  }

  // The client's view: it can read its input stream, in one way only, as these replies.
  lemma {:induction false} ClientReads<B, S>(h: Handlers<B, S>, b: B, s: S, reqs: seq<Message>, up: nat -> bool)
    requires WellFormed(h, reqs)
    ensures var got := ReadAll(Serve(h, b, s, Encode(reqs), up, 0).out);
            && got.Some?
            && (|got.value| == |reqs| <==> UpWhenNeeded(reqs, up, 0))
            && (UpWhenNeeded(reqs, up, 0) ==>
                  forall k :: 0 <= k < |reqs| ==> got.value[k].code == ExpectedCode(reqs[k]))
  {
    var replies := SessionIsFaithful(h, b, s, reqs, up, 0);
    OneReplyEachIff(reqs, up, 0);
    RepliesAreRead(h, s, Answered(reqs, up, 0), Serve(h, b, s, Encode(reqs), up, 0), replies);
  }

  lemma RepliesAreRead<B, S>(h: Handlers<B, S>, s: S, answered: seq<Message>, t: Trace<B, S>, replies: seq<Message>)
    requires Faithful(h, s, answered, t, replies)
    ensures ReadAll(t.out) == Some(replies) && |replies| == |answered|
    ensures forall k :: 0 <= k < |answered| ==> replies[k].code == ExpectedCode(answered[k])
  {
    StreamRoundTrip(replies);
  }

  // A malformed body ends the session: the client keeps the replies it has, and no later
  // request is answered.
  lemma {:induction false} MalformedEndsSession<B, S>(h: Handlers<B, S>, b: B, s: S, reqs: seq<Message>, bad: Message,
                                                      rest: seq<Byte>, up: nat -> bool, i: nat)
    requires WellFormed(h, reqs) && Fits(bad) && BackendThrows(h, bad)
    ensures Serve(h, b, s, Encode(reqs) + Frame(bad) + rest, up, i) == Serve(h, b, s, Encode(reqs), up, i)
  {
    if reqs == [] {
      FrameRoundTrip(bad, rest);
      assert Encode(reqs) + Frame(bad) + rest == Frame(bad) + rest;
    } else {
      var m, later := reqs[0], Encode(reqs[1..]) + Frame(bad) + rest;
      assert Encode(reqs) + Frame(bad) + rest == Frame(m) + later;
      FrameRoundTrip(m, later);
      FrameRoundTrip(m, Encode(reqs[1..]));
      var step := Dispatch(h, b, s, m, up(i));
      MalformedEndsSession(h, step.backend, step.server, reqs[1..], bad, rest, up, i + 1);
    }
  }
}
