/** What the answers to a list of packets come to, whatever the packets are. */
module MqttSession {
  import opened Bytes

  /** What handling one packet comes to: the connection ends, nothing to report, or a message. */
  datatype Outcome = Fatal | Handled | Message(topic: bytes, payload: bytes)

  /** An outcome, and what is sent because of the packet. */
  datatype Answer = Answer(outcome: Outcome, sent: seq<bytes>)

  // ---- All packets --------------------------------------------------------------------

  /** Packets handled in order up to the one that ends the connection. */
  datatype Session = Session(messages: seq<(bytes, bytes)>, sent: seq<bytes>, alive: bool)

  function Reported(outcome: Outcome): seq<(bytes, bytes)> {
    if outcome.Message? then [(outcome.topic, outcome.payload)] else []
  }

  function Then(a: Session, b: Session): Session {
    if a.alive then Session(a.messages + b.messages, a.sent + b.sent, b.alive) else a
  }

  function One(a: Answer): Session {
    Session(Reported(a.outcome), a.sent, a.outcome != Fatal)
  }

  function Handle(answers: seq<Answer>): Session {
    if answers == [] then Session([], [], true) else Then(One(answers[0]), Handle(answers[1..]))
  }

  lemma ThenAssociative(a: Session, b: Session, c: Session)
    ensures Then(Then(a, b), c) == Then(a, Then(b, c))
  {}

  lemma StartsEmpty(s: Session)
    ensures Then(Session([], [], true), s) == s
  {
    assert [] + s.messages == s.messages && [] + s.sent == s.sent;
  }

  /** Handling a list: nothing to do, or its first answer and then the rest. */
  lemma HandleFirst(done: Session, todo: seq<Answer>)
    requires done.alive
    ensures Then(done, Handle(todo)) == if todo == [] then done else Then(Then(done, One(todo[0])), Handle(todo[1..]))
  {
    if todo == [] {
      assert done.messages + [] == done.messages && done.sent + [] == done.sent;
    } else {
      ThenAssociative(done, One(todo[0]), Handle(todo[1..]));
    }
  }

  // ---- One message at a time ----------------------------------------------------------

  /** What asking for the next message comes to: an outcome to report, what is sent, what is left. */
  datatype Receipt = Receipt(outcome: Option<Outcome>, sent: seq<bytes>, rest: seq<Answer>)

  function Next(answers: seq<Answer>): Receipt {
    if answers == [] then Receipt(None, [], [])
    else if answers[0].outcome != Handled then Receipt(Some(answers[0].outcome), answers[0].sent, answers[1..])
    else After(answers[0].sent, Next(answers[1..]))
  }

  /** A receipt for which something has been sent before. */
  function After(sent: seq<bytes>, r: Receipt): Receipt {
    r.(sent := sent + r.sent)
  }

  lemma AfterNothing(r: Receipt)
    ensures After([], r) == r
  {
    assert [] + r.sent == r.sent;
  }

  lemma AfterBoth(a: seq<bytes>, b: seq<bytes>, r: Receipt)
    ensures After(a, After(b, r)) == After(a + b, r)
  {
    assert a + (b + r.sent) == (a + b) + r.sent;
  }

  function AsSession(r: Receipt): Session {
    Session(if r.outcome.Some? then Reported(r.outcome.value) else [], r.sent, r.outcome != Some(Fatal))
  }

  lemma {:induction false} NextIsShorter(answers: seq<Answer>)
    ensures var r := Next(answers);
            && r.outcome != Some(Handled)
            && (r.outcome == None ==> r.rest == [])
            && (r.outcome.Some? ==> |r.rest| < |answers|)
    decreases |answers|
  {
    if answers != [] {
      NextIsShorter(answers[1..]);
    }
  }

  /** Handling all packets is handling them up to the next message, and then the rest. */
  lemma {:induction false} HandleNext(done: Session, answers: seq<Answer>)
    requires done.alive
    ensures Then(done, Handle(answers)) == Then(Then(done, AsSession(Next(answers))), Handle(Next(answers).rest))
    decreases |answers|
  {
    HandleFirst(done, answers);
    if answers == [] {
      HandleFirst(Then(done, AsSession(Next(answers))), []);
      HandleFirst(done, []);
      assert done.messages + [] == done.messages && done.sent + [] == done.sent;
    } else if answers[0].outcome == Handled {
      HandleNext(Then(done, One(answers[0])), answers[1..]);
      SilentFirst(done, answers[0].sent, Next(answers[1..]));
    }
  }

  lemma SilentFirst(done: Session, sent: seq<bytes>, r: Receipt)
    requires done.alive
    ensures Then(done, AsSession(After(sent, r))) == Then(Then(done, One(Answer(Handled, sent))), AsSession(r))
  {
    assert done.messages + [] == done.messages;
    assert done.sent + (sent + r.sent) == (done.sent + sent) + r.sent;
  }

  /** After a step: more to handle on the way to the goal, or the goal itself. */
  predicate Progress(goal: Session, outcome: Option<Outcome>, next: Session, rest: seq<Answer>, before: nat) {
    if outcome.Some? && outcome.value.Message? then
      next.alive && Then(next, Handle(rest)) == goal && |rest| < before
    else
      goal == next && next.alive == outcome.None? && (outcome.None? ==> rest == [])
  }

  /** One message handed over: what has been handled, and what that leaves of the goal. */
  lemma HandleStep(done: Session, goal: Session, todo: seq<Answer>)
    requires done.alive && Then(done, Handle(todo)) == goal
    ensures var r := Next(todo);
            var next := Then(done, AsSession(r));
            && next.sent == done.sent + r.sent
            && next.messages == done.messages + (if r.outcome.Some? then Reported(r.outcome.value) else [])
            && Progress(goal, r.outcome, next, r.rest, |todo|)
  {
    HandleNext(done, todo);
    NextIsShorter(todo);
    if Next(todo).outcome.None? {
      HandleFirst(Then(done, AsSession(Next(todo))), []);
    }
  }
}
