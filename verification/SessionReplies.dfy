/**
  What a client gets back for a stream of well-formed requests, request by request and by
  request number: which handler answers, in which state, and with which code.
*/
module SessionReplies {
  import opened Wire
  import opened Session

  // Where some requests lead, and the replies to them.
  datatype Conversation<B, S> = Conversation(backend: B, server: S, replies: seq<Message>)

  predicate ForServer(id: Byte) {
    112 <= id <= 115
  }

  predicate ForBackend(id: Byte) {
    100 <= id <= 108 || id == 110
  }

  // One request, by its number; only one for a server that is down has no reply.
  function Turn<B, S>(h: Handlers<B, S>, b: B, s: S, m: Message, up: bool): (c: Conversation<B, S>)
    ensures forall r :: r in c.replies ==> Fits(r)
  {
    if ForBackend(m.code) then
      var (b', body) := h.backend(b, m.code, m.body);
      Conversation(b', s, [Message(m.code + 100, body)])
    else if !ForServer(m.code) then Conversation(b, s, [Message(1, h.irrelevant)])
    else if !up then Conversation(b, s, [])
    else
      var (s', body) := h.server(s, m.code, m.body);
      Conversation(b, s', [Message(m.code + 100, body)])
  }

  // Each request meets the states that the ones before it left behind.
  function Converse<B, S>(h: Handlers<B, S>, b: B, s: S, reqs: seq<Message>, up: nat -> bool, i: nat)
    : Conversation<B, S>
  {
    if reqs == [] then Conversation(b, s, [])
    else
      var turn := Turn(h, b, s, reqs[0], up(i));
      var rest := Converse(h, turn.backend, turn.server, reqs[1..], up, i + 1);
      rest.(replies := turn.replies + rest.replies)
  }

  // The bodies that their handlers can parse.
  ghost predicate Parsable<B, S>(h: Handlers<B, S>, reqs: seq<Message>) {
    forall m :: m in reqs ==> Fits(m) && (ForBackend(m.code) || ForServer(m.code) ==> h.parses(m.code, m.body))
  }

  // The request numbers and the reply codes, written out.
  lemma ByNumber<B, S>(h: Handlers<B, S>, m: Message)
    ensures IsRequestRelevant(m.code) <==> ForBackend(m.code) || ForServer(m.code)
    ensures IsServerRequest(m.code) <==> ForServer(m.code)
    ensures Proxied(m) <==> ForServer(m.code)
    ensures ExpectedCode(m) == if ForBackend(m.code) || ForServer(m.code) then m.code + 100 else 1
    ensures BackendThrows(h, m) <==> ForBackend(m.code) && !h.parses(m.code, m.body)
    ensures ServerThrows(h, m) <==> ForServer(m.code) && !h.parses(m.code, m.body)
  {
  }

  lemma StepByNumber<B, S>(h: Handlers<B, S>, b: B, s: S, m: Message, up: bool)
    requires Fits(m) && (ForBackend(m.code) || ForServer(m.code) ==> h.parses(m.code, m.body))
    ensures var step, turn := Dispatch(h, b, s, m, up), Turn(h, b, s, m, up);
            step.backend == turn.backend && step.server == turn.server && step.out == Encode(turn.replies)
  {
    ByNumber(h, m);
    var turn := Turn(h, b, s, m, up);
    if turn.replies != [] {
      assert turn.replies == [turn.replies[0]];
      EncodeOne(turn.replies[0]);
    }
    if ForServer(m.code) && up {
      ProxyIsServer(h, s, m);
    }
  }

  lemma EncodeOne(reply: Message)
    requires Fits(reply)
    ensures Encode([reply]) == Frame(reply)
  {
    EncodeCons(reply, []);
    assert [reply] + [] == [reply] && Frame(reply) + Encode([]) == Frame(reply);
  }

  lemma EncodeTurn(replies: seq<Message>, others: seq<Message>)
    requires |replies| <= 1 && (forall r :: r in replies ==> Fits(r)) && forall r :: r in others ==> Fits(r)
    ensures forall r :: r in replies + others ==> Fits(r)
    ensures Encode(replies + others) == Encode(replies) + Encode(others)
  {
    if replies == [] {
      assert replies + others == others;
    } else {
      assert replies == [replies[0]];
      EncodeOne(replies[0]);
      EncodeCons(replies[0], others);
    }
  }

  // Main result: for every stream of well-formed requests, and however the server comes and
  // goes, the bytes sent to the client are the frames of these replies, each with the body
  // that its handler computed in the state that the requests before it left behind.
  lemma {:induction false} SessionReplies<B, S>(h: Handlers<B, S>, b: B, s: S, reqs: seq<Message>,
                                                up: nat -> bool, i: nat)
    requires Parsable(h, reqs)
    ensures var t, c := Serve(h, b, s, Encode(reqs), up, i), Converse(h, b, s, reqs, up, i);
            && t.backend == c.backend && t.server == c.server
            && (forall r :: r in c.replies ==> Fits(r)) && t.out == Encode(c.replies)
  {
    if reqs != [] {
      assert reqs[0] in reqs;
      ParsableIsWellFormed(h, reqs);
      EncodedStep(h, b, s, reqs, up, i);
      StepByNumber(h, b, s, reqs[0], up(i));
      var turn := Turn(h, b, s, reqs[0], up(i));
      SessionReplies(h, turn.backend, turn.server, reqs[1..], up, i + 1);
      EncodeTurn(turn.replies, Converse(h, turn.backend, turn.server, reqs[1..], up, i + 1).replies);
    }
  }

  lemma ParsableIsWellFormed<B, S>(h: Handlers<B, S>, reqs: seq<Message>)
    requires Parsable(h, reqs)
    ensures WellFormed(h, reqs)
  {
    forall m | m in reqs
      ensures IsRequestRelevant(m.code) ==> h.parses(m.code, m.body)
    {
      ByNumber(h, m);
    }
  }

  // The same for a connection to the server itself, where every other number is irrelevant.
  function TurnAtServer<B, S>(h: Handlers<B, S>, s: S, m: Message): (c: (S, Message))
    ensures Fits(c.1)
  {
    if ForServer(m.code) then
      var (s', body) := h.server(s, m.code, m.body);
      (s', Message(m.code + 100, body))
    else (s, Message(1, h.irrelevant))
  }

  function ConverseDirectly<B, S>(h: Handlers<B, S>, s: S, reqs: seq<Message>): (S, seq<Message>) {
    if reqs == [] then (s, [])
    else
      var turn := TurnAtServer(h, s, reqs[0]);
      var rest := ConverseDirectly(h, turn.0, reqs[1..]);
      (rest.0, [turn.1] + rest.1)
  }

  lemma {:induction false} ServerReplies<B, S>(h: Handlers<B, S>, s: S, reqs: seq<Message>)
    requires Parsable(h, reqs)
    ensures var c := ConverseDirectly(h, s, reqs);
            (forall r :: r in c.1 ==> Fits(r)) && ServerConnection(h, s, Encode(reqs)) == (c.0, Encode(c.1))
  {
    if reqs != [] {
      var m := reqs[0];
      var turn := TurnAtServer(h, s, m);
      assert m in reqs;
      ServerTurn(h, s, m);
      ServerConnectionStep(h, s, m, Encode(reqs[1..]));
      ServerReplies(h, turn.0, reqs[1..]);
      EncodeCons(turn.1, ConverseDirectly(h, turn.0, reqs[1..]).1);
    }
  }

  lemma ServerTurn<B, S>(h: Handlers<B, S>, s: S, m: Message)
    requires ForServer(m.code) ==> h.parses(m.code, m.body)
    ensures !ServerThrows(h, m) && ServerAnswer(h, s, m) == TurnAtServer(h, s, m)
  {
    ByNumber(h, m);
  }

  // A stream that breaks off inside a frame: what came before it is answered all the same.
  lemma {:induction false} PartialFrame<B, S>(h: Handlers<B, S>, b: B, s: S, reqs: seq<Message>, tail: seq<Byte>,
                                              up: nat -> bool, i: nat)
    requires Parsable(h, reqs) && !ReadFrame(tail).Got?
    ensures Serve(h, b, s, Encode(reqs) + tail, up, i) == Serve(h, b, s, Encode(reqs), up, i)
  {
    if reqs == [] {
      assert Encode(reqs) + tail == tail;
    } else {
      var m, rest := reqs[0], Encode(reqs[1..]);
      assert m in reqs;
      ByNumber(h, m);
      ParsableIsWellFormed(h, reqs);
      Regroup(Frame(m), rest, tail);
      FrameRoundTrip(m, rest + tail);
      ServeStep(h, b, s, Frame(m) + (rest + tail), up, i);
      EncodedStep(h, b, s, reqs, up, i);
      var step := Dispatch(h, b, s, m, up(i));
      PartialFrame(h, step.backend, step.server, reqs[1..], tail, up, i + 1);
    }
  }
}
