/** Yes/no dialogs are answered later than they are raised: the answer is queued, and
    given by the pump between slices. */
module DialogQueue {
  import opened Options

  /** A dialog's callback, by its number. */
  type Callback = nat

  /** An answer given: the button pressed. */
  datatype Answer = Answer(callback: Callback, button: int)

  /** What a callback does when answered: it may raise more dialogs, some without a
      callback. It may depend on everything answered before it. */
  type Reaction = (seq<Answer>, Callback) -> seq<Option<Callback>>

  datatype Queue = Queue(pending: seq<Callback>, answered: seq<Answer>)

  /** The callbacks among the dialogs raised; one without a callback is dropped. */
  function Kept(raised: seq<Option<Callback>>): seq<Callback> {
    if raised == [] then []
    else (match raised[0] case Some(c) => [c] case None => []) + Kept(raised[1..])
  }

  lemma NoneAfter(callback: Option<Callback>)
    ensures Kept([callback]) == match callback case Some(c) => [c] case None => []
  {
    assert Kept([callback][1..]) == [];
  }

  lemma KeptStep(pending: seq<Callback>, raised: seq<Option<Callback>>, i: nat)
    requires i < |raised|
    ensures pending + Kept(raised[i..]) == pending + Kept([raised[i]]) + Kept(raised[i + 1..])
  {
    NoneAfter(raised[i]);
    assert raised[i..][0] == raised[i] && raised[i..][1..] == raised[i + 1..];
    var a, b := Kept([raised[i]]), Kept(raised[i + 1..]);
    assert pending + (a + b) == pending + a + b;
  }

  function Raise(q: Queue, raised: seq<Option<Callback>>): Queue {
    q.(pending := q.pending + Kept(raised))
  }

  /** Answers the given callbacks in order; what they raise waits. */
  function AnswerAll(q: Queue, answering: seq<Callback>, react: Reaction): Queue
    decreases |answering|
  {
    if answering == [] then q
    else
      var answered := q.(answered := q.answered + [Answer(answering[0], 1)]);
      AnswerAll(Raise(answered, react(q.answered, answering[0])), answering[1..], react)
  }

  function Pump(q: Queue, react: Reaction): Queue {
    AnswerAll(Queue([], q.answered), q.pending, react)
  }

  /** What the machine does to the dialogs: raises some outside a pump, or pumps. */
  datatype Event = Raising(dialogs: seq<Option<Callback>>) | Pumping

  function Run(q: Queue, events: seq<Event>, react: Reaction): Queue
    decreases |events|
  {
    if events == [] then q
    else Run(match events[0] case Raising(ds) => Raise(q, ds) case Pumping => Pump(q, react), events[1..], react)
  }

  // ---- each is answered once, in the order raised ------------------------

  function Callbacks(answered: seq<Answer>): (cs: seq<Callback>)
    ensures |cs| == |answered| && forall i | 0 <= i < |cs| :: cs[i] == answered[i].callback
  {
    seq(|answered|, i requires 0 <= i < |answered| => answered[i].callback)
  }

  /** The dialogs raised by answering these, in the order they are raised. */
  function RaisedBy(answered: seq<Answer>, answering: seq<Callback>, react: Reaction): seq<Callback>
    decreases |answering|
  {
    if answering == [] then []
    else Kept(react(answered, answering[0])) + RaisedBy(answered + [Answer(answering[0], 1)], answering[1..], react)
  }

  function Pressed(answering: seq<Callback>): (a: seq<Answer>)
    ensures |a| == |answering|
  {
    seq(|answering|, i requires 0 <= i < |answering| => Answer(answering[i], 1))
  }

  /** One pump answers exactly what was pending when it began, in order, each with 1, and
      leaves exactly what the answers raised: it ends however many dialogs each raises. */
  lemma {:induction false} AnswerAllExactly(q: Queue, answering: seq<Callback>, react: Reaction)
    ensures AnswerAll(q, answering, react)
            == Queue(q.pending + RaisedBy(q.answered, answering, react), q.answered + Pressed(answering))
    decreases |answering|
  {
    if answering == [] {
      assert Pressed(answering) == [];
    } else {
      var next := Raise(q.(answered := q.answered + [Answer(answering[0], 1)]), react(q.answered, answering[0]));
      AnswerAllExactly(next, answering[1..], react);
      assert q.answered + [Answer(answering[0], 1)] + Pressed(answering[1..]) == q.answered + Pressed(answering);
      var first, rest := Kept(react(q.answered, answering[0])), RaisedBy(next.answered, answering[1..], react);
      assert q.pending + first + rest == q.pending + (first + rest);
    }
  }

  lemma PumpExactly(q: Queue, react: Reaction)
    ensures Pump(q, react) == Queue(RaisedBy(q.answered, q.pending, react), q.answered + Pressed(q.pending))
  {
    AnswerAllExactly(Queue([], q.answered), q.pending, react);
    assert [] + RaisedBy(q.answered, q.pending, react) == RaisedBy(q.answered, q.pending, react);
  }

  /** Every dialog raised with a callback, in order, over a run: those from outside and
      those the answers raised. */
  function RaisedIn(q: Queue, events: seq<Event>, react: Reaction): seq<Callback>
    decreases |events|
  {
    if events == [] then []
    else match events[0]
         case Raising(ds) => Kept(ds) + RaisedIn(Raise(q, ds), events[1..], react)
         case Pumping => RaisedBy(q.answered, q.pending, react) + RaisedIn(Pump(q, react), events[1..], react)
  }

  /** Over every run, the dialogs answered followed by those still pending are those that
      were pending, then those raised, in order: none lost, none answered twice. */
  lemma {:induction false} AnsweredThenPending(q: Queue, events: seq<Event>, react: Reaction)
    ensures var r := Run(q, events, react);
            Callbacks(r.answered) + r.pending == Callbacks(q.answered) + q.pending + RaisedIn(q, events, react)
    decreases |events|
  {
    if events != [] {
      var rest := events[1..];
      match events[0] {
        case Raising(ds) =>
          AnsweredThenPending(Raise(q, ds), rest, react);
          Regroup(Callbacks(q.answered), q.pending, Kept(ds), RaisedIn(Raise(q, ds), rest, react));
        case Pumping =>
          var p := Pump(q, react);
          AnsweredThenPending(p, rest, react);
          PumpExactly(q, react);
          assert Callbacks(p.answered) == Callbacks(q.answered) + q.pending;
          Regroup(Callbacks(q.answered), q.pending, p.pending, RaisedIn(p, rest, react));
      }
    }
  }

  lemma Regroup(a: seq<Callback>, b: seq<Callback>, c: seq<Callback>, d: seq<Callback>)
    ensures a + (b + c) + d == a + b + (c + d) && a + b + c + d == a + b + (c + d)
  {
  }

  /** And every answer is the second button. */
  lemma {:induction false} AlwaysDeclined(q: Queue, events: seq<Event>, react: Reaction)
    requires forall a | a in q.answered :: a.button == 1
    ensures forall a | a in Run(q, events, react).answered :: a.button == 1
    decreases |events|
  {
    if events != [] {
      match events[0] {
        case Raising(ds) => AlwaysDeclined(Raise(q, ds), events[1..], react);
        case Pumping =>
          PumpExactly(q, react);
          AlwaysDeclined(Pump(q, react), events[1..], react);
      }
    }
  }

  // ---- the program's queue -----------------------------------------------

  class HostUi {
    const react: Reaction
    var pending: seq<Callback>
    var answered: seq<Answer>

    constructor (react: Reaction)
      ensures State() == Queue([], []) && this.react == react
    {
      this.react, pending, answered := react, [], [];
    }

    function State(): Queue
      reads this
    {
      Queue(pending, answered)
    }

    /** Raising a dialog answers nothing: the callback only waits. */
    method ShowYesNoDialog(callback: Option<Callback>)
      modifies this`pending
      ensures State() == Raise(old(State()), [callback]) && answered == old(answered)
    {
      if callback.Some? {
        pending := pending + [callback.value];
      }
      NoneAfter(callback);
    }

    /** Calls one back with 1; it may raise more. */
    method Call(callback: Callback)
      modifies this
      ensures State() == Raise(old(State()).(answered := old(answered) + [Answer(callback, 1)]), react(old(answered), callback))
    {
      var raised := react(answered, callback);
      answered := answered + [Answer(callback, 1)];
      for i := 0 to |raised|
        invariant answered == old(answered) + [Answer(callback, 1)]
        invariant pending + Kept(raised[i..]) == old(pending) + Kept(raised)
      {
        KeptStep(pending, raised, i);
        ShowYesNoDialog(raised[i]);
      }
    }

    /** The queue is taken away before any of it is answered. */
    method PumpHostUi()
      modifies this
      ensures State() == Pump(old(State()), react)
    {
      if pending == [] {
        return;
      }
      var answering := pending;
      pending := [];
      for i := 0 to |answering|
        invariant AnswerAll(State(), answering[i..], react) == Pump(old(State()), react)
      {
        assert answering[i..][0] == answering[i] && answering[i..][1..] == answering[i + 1..];
        Call(answering[i]);
      }
    }
  }
}
