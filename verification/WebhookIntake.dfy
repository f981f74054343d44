/** Webhook intake as a step system: any number of concurrent deliveries, each a lookup and then an insert. */
module WebhookIntake {
  import opened Common

  /** A stored event; only what identifies it. */
  datatype Event = Event(ref: string, key: Option<string>)

  /** How far a delivery is; the last four are final. `Refused` failed on the unique constraint, `Crashed`
      on any other call before the insert. */
  datatype Phase = Arrived | Missed | Duplicate(event: nat) | Inserted(event: nat) | Refused | Crashed

  datatype Delivery = Delivery(ref: string, key: Option<string>, phase: Phase)

  datatype State = State(events: seq<Event>, deliveries: seq<Delivery>)

  datatype Action = Arrives(ref: string, key: Option<string>) | Looks(d: nat) | Inserts(d: nat) | Crashes(d: nat)

  /** The event that a lookup by connector reference and key finds. */
  function FindFirst(events: seq<Event>, ref: string, key: Option<string>): (r: Option<nat>)
    ensures r.Some? ==> r.value < |events| && events[r.value] == Event(ref, key)
    ensures r.None? ==> forall i :: 0 <= i < |events| ==> events[i] != Event(ref, key)
  {
    if events == [] then None
    else
      var r := FindFirst(events[..|events| - 1], ref, key);
      if r.Some? then r else if events[|events| - 1] == Event(ref, key) then Some(|events| - 1) else None
  }

  /** Only a key that is neither missing nor empty is looked up. */
  function Looked(events: seq<Event>, d: Delivery): Phase {
    if d.key.None? || d.key.value == "" then Missed
    else match FindFirst(events, d.ref, d.key)
      case Some(i) => Duplicate(i)
      case None => Missed
  }

  /** The store's unique constraint on reference and key; a missing key never clashes. */
  predicate Clashes(events: seq<Event>, d: Delivery) {
    d.key.Some? && FindFirst(events, d.ref, d.key).Some?
  }

  function Reach(s: State, d: nat, phase: Phase): State
    requires d < |s.deliveries|
  {
    s.(deliveries := s.deliveries[d := s.deliveries[d].(phase := phase)])
  }

  function Step(constraint: bool, s: State, a: Action): State {
    match a
    case Arrives(ref, key) => s.(deliveries := s.deliveries + [Delivery(ref, key, Arrived)])
    case Looks(d) =>
      if d < |s.deliveries| && s.deliveries[d].phase == Arrived
      then Reach(s, d, Looked(s.events, s.deliveries[d])) else s
    case Inserts(d) =>
      if d >= |s.deliveries| || s.deliveries[d].phase != Missed then s
      else if constraint && Clashes(s.events, s.deliveries[d]) then Reach(s, d, Refused)
      else Reach(s, d, Inserted(|s.events|)).(events := s.events + [Event(s.deliveries[d].ref, s.deliveries[d].key)])
    case Crashes(d) =>
      if d < |s.deliveries| && (s.deliveries[d].phase == Arrived || s.deliveries[d].phase == Missed)
      then Reach(s, d, Crashed) else s
  }

  datatype History = Start(events: seq<Event>) | Then(past: History, a: Action)

  function StateOf(constraint: bool, h: History): State {
    match h
    case Start(events) => State(events, [])
    case Then(past, a) => Step(constraint, StateOf(constraint, past), a)
  }

  ghost predicate UniqueKeys(events: seq<Event>) {
    forall i, j :: 0 <= i < j < |events| && events[i].key.Some? ==> events[i] != events[j]
  }

  ghost predicate StartsUnique(h: History) {
    match h case Start(events) => UniqueKeys(events) case Then(past, _) => StartsUnique(past)
  }

  /** What the phase of a delivery says about the events. */
  predicate Settled(events: seq<Event>, d: Delivery) {
    match d.phase
    case Duplicate(i) => d.key.Some? && i < |events| && events[i] == Event(d.ref, d.key)
    case Inserted(i) => i < |events| && events[i] == Event(d.ref, d.key)
    case Refused => Clashes(events, d)
    case _ => true
  }

  ghost predicate OwnInserts(deliveries: seq<Delivery>) {
    forall i, j :: 0 <= i < j < |deliveries| && deliveries[i].phase.Inserted? && deliveries[j].phase.Inserted? ==>
      deliveries[i].phase.event != deliveries[j].phase.event
  }

  ghost predicate Inv(s: State) {
    && UniqueKeys(s.events)
    && (forall d :: 0 <= d < |s.deliveries| ==> Settled(s.events, s.deliveries[d]))
    && OwnInserts(s.deliveries)
  }

  lemma InsertKeepsInv(s: State, d: nat)
    requires Inv(s)
    ensures Inv(Step(true, s, Inserts(d)))
  {
  }

  /** However deliveries interleave, at most one event exists for a connector reference and key, and every
      delivery that has finished inserted its own event, names the event that was there before it, or failed
      on the unique constraint because that event exists. */
  lemma {:induction false} IntakeIsIdempotent(h: History)
    requires StartsUnique(h)
    ensures Inv(StateOf(true, h))
  {
    if h.Start? {
    } else {
      IntakeIsIdempotent(h.past);
      var s := StateOf(true, h.past);
      match h.a {
        case Inserts(d) => InsertKeepsInv(s, d);
        case _ =>
      }
    }
  }

  /** Of all deliveries with one key, at most one inserts. */
  lemma OneWinner(h: History, c: nat, d: nat)
    requires StartsUnique(h) && c < d < |StateOf(true, h).deliveries|
    ensures var x := StateOf(true, h).deliveries[c]; var y := StateOf(true, h).deliveries[d];
            x.phase.Inserted? && y.phase.Inserted? && x.key.Some? ==> (x.ref, x.key) != (y.ref, y.key)
  {
    IntakeIsIdempotent(h);
    var s := StateOf(true, h);
    assert Settled(s.events, s.deliveries[c]) && Settled(s.events, s.deliveries[d]);
  }

  predicate Answered(d: Delivery) {
    d.phase.Duplicate? || d.phase.Inserted?
  }

  /** All deliveries with one key that finish without an exception answer with the same event. */
  lemma SameAnswer(h: History, c: nat, d: nat)
    requires StartsUnique(h) && c < |StateOf(true, h).deliveries| && d < |StateOf(true, h).deliveries|
    ensures var x := StateOf(true, h).deliveries[c]; var y := StateOf(true, h).deliveries[d];
            Answered(x) && Answered(y) && x.key.Some? && (x.ref, x.key) == (y.ref, y.key) ==>
              x.phase.event == y.phase.event
  {
    IntakeIsIdempotent(h);
    var s := StateOf(true, h);
    assert Settled(s.events, s.deliveries[c]) && Settled(s.events, s.deliveries[d]);
  }

  /** A sender that tries again after the constraint refused it is told the event. */
  lemma SecondTryIsDuplicate(h: History, c: nat)
    requires StartsUnique(h) && c < |StateOf(true, h).deliveries|
    requires StateOf(true, h).deliveries[c].phase == Refused && StateOf(true, h).deliveries[c].key != Some("")
    ensures var s := StateOf(true, h); var d := |s.deliveries|;
            var again := StateOf(true, Then(Then(h, Arrives(s.deliveries[c].ref, s.deliveries[c].key)), Looks(d)));
            && d < |again.deliveries| && again.deliveries[d].phase.Duplicate?
            && again.deliveries[d].phase.event < |again.events|
            && again.events[again.deliveries[d].phase.event] == Event(s.deliveries[c].ref, s.deliveries[c].key)
  {
    IntakeIsIdempotent(h);
    var s := StateOf(true, h);
    assert Settled(s.events, s.deliveries[c]);
    var arrived := StateOf(true, Then(h, Arrives(s.deliveries[c].ref, s.deliveries[c].key)));
    assert arrived.deliveries[|s.deliveries|] == Delivery(s.deliveries[c].ref, s.deliveries[c].key, Arrived);
  }

  // ----- overlapping deliveries -----

  ghost predicate Extends(h: History, earlier: History) {
    h == earlier || (h.Then? && Extends(h.past, earlier))
  }

  predicate SameSender(d: Delivery, e: Delivery) {
    d.ref == e.ref && d.key == e.key
  }

  /** Events and deliveries are only added, and a delivery keeps its reference and key. */
  lemma {:induction false} HistoryGrows(h: History, earlier: History)
    requires Extends(h, earlier)
    ensures var s := StateOf(true, earlier); var t := StateOf(true, h);
            && s.events <= t.events && |s.deliveries| <= |t.deliveries|
            && forall d :: 0 <= d < |s.deliveries| ==> SameSender(s.deliveries[d], t.deliveries[d])
  {
    if h == earlier {
    } else {
      HistoryGrows(h.past, earlier);
    }
  }

  /** A delivery whose lookup found nothing is refused iff an event with its key was inserted since then. */
  lemma RefusedIffOvertaken(h: History, looked: History, d: nat)
    requires looked.Then? && looked.a == Looks(d) && Extends(h, looked)
    requires d < |StateOf(true, looked.past).deliveries| && StateOf(true, looked.past).deliveries[d].phase == Arrived
    requires StateOf(true, looked.past).deliveries[d].key.Some?
    requires StateOf(true, looked.past).deliveries[d].key != Some("")
    requires StateOf(true, looked).deliveries[d].phase == Missed
    requires d < |StateOf(true, h).deliveries| && StateOf(true, h).deliveries[d].phase == Missed
    ensures var s := StateOf(true, looked); var t := StateOf(true, h);
            Step(true, t, Inserts(d)).deliveries[d].phase == Refused <==>
            exists i :: |s.events| <= i < |t.events| && t.events[i] == Event(t.deliveries[d].ref, t.deliveries[d].key)
  {
    HistoryGrows(h, looked);
    var s, t := StateOf(true, looked), StateOf(true, h);
    var event := Event(t.deliveries[d].ref, t.deliveries[d].key);
    assert SameSender(s.deliveries[d], t.deliveries[d]);
    assert forall i :: 0 <= i < |s.events| ==> t.events[i] == s.events[i] && s.events[i] != event;
  }

  /** Two deliveries with one key arrive, and both look before either inserts. */
  function BothLooked(ref: string, key: string): History {
    Then(Then(Then(Then(Start([]), Arrives(ref, Some(key))), Arrives(ref, Some(key))), Looks(0)), Looks(1))
  }

  lemma BothMiss(constraint: bool, ref: string, key: string)
    requires key != ""
    ensures StartsUnique(BothLooked(ref, key))
    ensures var missed := Delivery(ref, Some(key), Missed);
            StateOf(constraint, BothLooked(ref, key)) == State([], [missed, missed])
  {
    var arrived, missed := Delivery(ref, Some(key), Arrived), Delivery(ref, Some(key), Missed);
    var h := Then(Start([]), Arrives(ref, Some(key)));
    assert StateOf(constraint, h) == State([], [arrived]);
    h := Then(h, Arrives(ref, Some(key)));
    assert StateOf(constraint, h) == State([], [arrived, arrived]) && StartsUnique(h);
    h := Then(h, Looks(0));
    assert StateOf(constraint, h) == State([], [missed, arrived]) && StartsUnique(h);
  }

  /** Then the second fails on the constraint, although the first is its duplicate. */
  lemma OverlapIsRefused(ref: string, key: string) returns (h: History)
    requires key != ""
    ensures StartsUnique(h)
    ensures StateOf(true, h) == State([Event(ref, Some(key))],
                                      [Delivery(ref, Some(key), Inserted(0)), Delivery(ref, Some(key), Refused)])
  {
    BothMiss(true, ref, key);
    h := Then(BothLooked(ref, key), Inserts(0));
    assert StateOf(true, h).events == [Event(ref, Some(key))];
    h := Then(h, Inserts(1));
  }

  /** The lookup alone is not enough: without the constraint both insert, and leave two events with one key. */
  lemma LookupIsNotEnough(ref: string, key: string) returns (h: History)
    requires key != ""
    ensures StartsUnique(h) && !UniqueKeys(StateOf(false, h).events)
  {
    BothMiss(false, ref, key);
    h := Then(BothLooked(ref, key), Inserts(0));
    assert StateOf(false, h).events == [Event(ref, Some(key))];
    h := Then(h, Inserts(1));
    assert StateOf(false, h).events == [Event(ref, Some(key)), Event(ref, Some(key))];
    assert StateOf(false, h).events[0] == StateOf(false, h).events[1];
  }
}
