/**
The application-level input owner of src/input.rs: the ring of keys acquired
between frames, the rotation between key sources, and the one-finger pointer
stream derived from a multi-touch panel.
*/
module Input {
  import opened Wrappers

  const PENDING_KEY_EVENTS := 16

  type Key = nat

  datatype KeySource = CardKb | Tab5Keyboard | Usb

  datatype KeyEvent = KeyEvent(source: KeySource, key: Key)

  function SourceAfter(source: KeySource): KeySource {
    match source
    case CardKb => Tab5Keyboard
    case Tab5Keyboard => Usb
    case Usb => CardKb
  }

  // --- one poll of the sources ------------------------------------------

  /** What polling the dedicated keyboard may report. */
  datatype Tab5Poll = Quiet | Typed(key: Key) | Lost

  /** What each attached device would answer if it were polled now. */
  datatype Offers = Offers(cardkb: Option<Key>, tab5: Tab5Poll, usb: Option<Key>)

  /** Which of the two removable keyboards are attached; the USB host always is. */
  datatype Attached = Attached(cardkb: bool, tab5: bool)

  /** The key `source` would deliver. */
  function Ready(source: KeySource, attached: Attached, offers: Offers): Option<Key> {
    match source
    case CardKb => if attached.cardkb then offers.cardkb else None
    case Tab5Keyboard => if attached.tab5 && offers.tab5.Typed? then Some(offers.tab5.key) else None
    case Usb => offers.usb
  }

  /** How many steps of the rotation lead from `from` to `to`. */
  function Distance(from: KeySource, to: KeySource): (steps: nat)
    ensures steps < 3
  {
    if from == to then 0 else if SourceAfter(from) == to then 1 else 2
  }

  /** The source served by a poll that finds the ring empty: the ready one the rotation reaches first. */
  ghost predicate Serves(next: KeySource, attached: Attached, offers: Offers, source: KeySource) {
    && Ready(source, attached, offers).Some?
    && forall other :: Distance(next, other) < Distance(next, source) ==> Ready(other, attached, offers).None?
  }

  /** One poll, as seen by fairness: an event that waits in the ring, always from USB, goes first. */
  datatype Turn = Turn(pending: bool, attached: Attached, offers: Offers)

  /** Where the rotation stands after a poll. */
  function NextAfter(next: KeySource, served: Option<KeySource>): KeySource {
    if served.Some? then SourceAfter(served.value) else next
  }

  ghost predicate TurnServes(next: KeySource, turn: Turn, served: Option<KeySource>) {
    if turn.pending then served == Some(Usb)
    else if served.Some? then Serves(next, turn.attached, turn.offers, served.value)
    else forall source :: Ready(source, turn.attached, turn.offers).None?
  }

  /** `served[i]` is the source turn `i` delivered from, if any. */
  ghost predicate IsRun(next: KeySource, turns: seq<Turn>, served: seq<Option<KeySource>>)
    decreases |turns|
  {
    && |served| == |turns|
    && (turns != [] ==>
        && TurnServes(next, turns[0], served[0])
        && IsRun(NextAfter(next, served[0]), turns[1..], served[1..]))
  }

  /** Where the rotation stands after these polls. */
  function NextAt(next: KeySource, served: seq<Option<KeySource>>): KeySource
    decreases |served|
  {
    if served == [] then next else NextAt(NextAfter(next, served[0]), served[1..])
  }

  lemma {:induction false} RunGoesOn(next: KeySource, turns: seq<Turn>, served: seq<Option<KeySource>>, turn: Turn,
                                     last: Option<KeySource>)
    requires IsRun(next, turns, served) && TurnServes(NextAt(next, served), turn, last)
    ensures IsRun(next, turns + [turn], served + [last])
    ensures NextAt(next, served + [last]) == NextAfter(NextAt(next, served), last)
    decreases |turns|
  {
    if turns != [] {
      RunGoesOn(NextAfter(next, served[0]), turns[1..], served[1..], turn, last);
      assert (turns + [turn])[1..] == turns[1..] + [turn] && (served + [last])[1..] == served[1..] + [last];
    }
  }

  /** A source that has a key at each of the next three polls, none of which finds an event waiting in the
      ring, is served by one of them: in as many polls as the rotation takes to reach it. */
  lemma {:induction false} ServedWithinThreePolls(next: KeySource, turns: seq<Turn>, served: seq<Option<KeySource>>,
                                                  source: KeySource)
    requires IsRun(next, turns, served) && |turns| > Distance(next, source)
    requires forall i :: 0 <= i <= Distance(next, source) ==>
               !turns[i].pending && Ready(source, turns[i].attached, turns[i].offers).Some?
    ensures exists i :: 0 <= i <= Distance(next, source) && served[i] == Some(source)
    decreases |turns|
  {
    if served[0] != Some(source) {
      assert Ready(source, turns[0].attached, turns[0].offers).Some?;
      assert Distance(next, served[0].value) <= Distance(next, source);
      var rest := SourceAfter(served[0].value);
      assert Distance(rest, source) < Distance(next, source);
      ServedWithinThreePolls(rest, turns[1..], served[1..], source);
      var i :| 0 <= i <= Distance(rest, source) && served[1..][i] == Some(source);
      assert served[i + 1] == Some(source);
    }
  }

  // --- when the rotation is fair ------------------------------------------

  /** How many of these turns come before the first that finds an event waiting. */
  function Streak(turns: seq<Turn>): (count: nat)
    ensures count <= |turns|
  {
    if turns == [] || turns[0].pending then 0 else 1 + Streak(turns[1..])
  }

  /** From turn `i` on, where the rotation begins at `next` or, after a waiting event, at CardKB, enough polls
      in a row find the ring empty for the rotation to reach the source. */
  ghost predicate ChanceAt(next: KeySource, turns: seq<Turn>, source: KeySource, i: nat) {
    && i < |turns| && (i == 0 || turns[i - 1].pending)
    && Streak(turns[i..]) > Distance(if i == 0 then next else CardKb, source)
  }

  ghost predicate AllReady(turns: seq<Turn>) {
    forall i, source :: 0 <= i < |turns| ==> Ready(source, turns[i].attached, turns[i].offers).Some?
  }

  lemma ChanceShifts(next: KeySource, turns: seq<Turn>, source: KeySource, after: KeySource, i: nat)
    requires turns != [] && source != Usb
    requires after == if turns[0].pending then CardKb else SourceAfter(next)
    requires turns[0].pending || next != source
    ensures turns[0].pending ==>
              !ChanceAt(next, turns, source, 0)
                  && (ChanceAt(next, turns, source, i + 1) <==> ChanceAt(after, turns[1..], source, i))
    ensures !turns[0].pending ==>
              if i == 0 then ChanceAt(next, turns, source, 0) <==> ChanceAt(after, turns[1..], source, 0)
              else ChanceAt(next, turns, source, i + 1) <==> ChanceAt(after, turns[1..], source, i)
    ensures !turns[0].pending ==> !ChanceAt(next, turns, source, 1)
  {
    var rest := turns[1..];
    assert turns[0..] == turns && rest[0..] == rest;
    if i < |rest| {
      assert turns[i + 1..] == rest[i..];
    }
  }

  lemma ChanceMovesOn(next: KeySource, turns: seq<Turn>, source: KeySource, after: KeySource)
    requires turns != [] && source != Usb
    requires after == if turns[0].pending then CardKb else SourceAfter(next)
    requires turns[0].pending || next != source
    ensures (exists i: nat :: ChanceAt(next, turns, source, i))
              <==> exists i: nat :: ChanceAt(after, turns[1..], source, i)
  {
    if i: nat :| ChanceAt(next, turns, source, i) {
      var k: nat := if i == 0 then 0 else i - 1;
      ChanceShifts(next, turns, source, after, k);
      assert ChanceAt(after, turns[1..], source, k);
    }
    if k: nat :| ChanceAt(after, turns[1..], source, k) {
      ChanceShifts(next, turns, source, after, k);
      assert ChanceAt(next, turns, source, if k == 0 && !turns[0].pending then 0 else k + 1);
    }
  }

  /** With every source always ready, one other than USB is served if and only if somewhere enough polls in a
      row find the ring empty: one after a waiting event for CardKB, two for the Tab5 keyboard. Where fewer
      do, it can be held off for ever. */
  lemma {:induction false} ServedExactlyWhenTheRingRests(next: KeySource, turns: seq<Turn>,
                                                         served: seq<Option<KeySource>>, source: KeySource)
    requires IsRun(next, turns, served) && AllReady(turns) && source != Usb
    ensures Some(source) in served <==> exists i: nat :: ChanceAt(next, turns, source, i)
    decreases |turns|
  {
    if turns != [] {
      var rest, restServed := turns[1..], served[1..];
      assert served == [served[0]] + restServed;
      assert turns[0..] == turns;
      if !turns[0].pending {
        assert Ready(next, turns[0].attached, turns[0].offers).Some? && Distance(next, next) == 0;
        assert served[0] == Some(next);
      }
      if served[0] == Some(source) {
        assert ChanceAt(next, turns, source, 0);
      } else {
        ChanceMovesOn(next, turns, source, NextAfter(next, served[0]));
        ServedExactlyWhenTheRingRests(NextAfter(next, served[0]), rest, restServed, source);
      }
    }
  }

  /** So a split USB keyboard that leaves an event in the ring before every second poll keeps the Tab5
      keyboard unserved for as long as the run goes on. */
  lemma PendingKeysStarveASource(turns: seq<Turn>, served: seq<Option<KeySource>>)
    requires IsRun(CardKb, turns, served) && AllReady(turns)
    requires forall i :: 0 <= i < |turns| ==> (turns[i].pending <==> i % 2 == 1)
    ensures Some(Tab5Keyboard) !in served
  {
    ServedExactlyWhenTheRingRests(CardKb, turns, served, Tab5Keyboard);
    forall i: nat | i < |turns| && (i == 0 || turns[i - 1].pending)
      ensures Streak(turns[i..]) <= 1
    {
      var rest := turns[i..];
      assert |rest| > 1 ==> rest[1..][0] == turns[i + 1] && turns[i + 1].pending;
    }
  }

  // --- the primary touch stream -------------------------------------------

  /** One active contact: its tracking id and position. */
  datatype Contact = Contact(id: nat, x: nat, y: nat)

  /** What happens to the stream: the panel is polled, or its owner cancels the gesture. */
  datatype TouchEvent = Polled(contacts: seq<Contact>) | Cancel

  /** What the stream reports. */
  datatype Phase = Idle | Pressed(contact: Contact) | Moved(contact: Contact) | Released | Cancelled

  datatype TouchState = TouchState(id: Option<nat>, blocked: bool)

  const FRESH := TouchState(None, false)

  /** The first contact carrying `id`, as an index, or the number of contacts. */
  function IndexOf(contacts: seq<Contact>, id: nat): (index: nat)
    ensures index <= |contacts|
    ensures index < |contacts| ==> contacts[index].id == id
    ensures forall i :: 0 <= i < index ==> contacts[i].id != id
  {
    if contacts == [] || contacts[0].id == id then 0 else 1 + IndexOf(contacts[1..], id)
  }

  function TouchStep(state: TouchState, event: TouchEvent): (TouchState, Phase) {
    match event
    case Cancel => (TouchState(None, true), Cancelled)
    case Polled(contacts) =>
      if state.blocked then
        (state.(blocked := contacts != []), Idle)
      else if state.id.Some? then
        var index := IndexOf(contacts, state.id.value);
        if index < |contacts| then (state, Moved(contacts[index])) else (FRESH, Released)
      else if contacts == [] then
        (state, Idle)
      else
        (TouchState(Some(contacts[0].id), false), Pressed(contacts[0]))
  }

  function StateAfter(events: seq<TouchEvent>): TouchState {
    if events == [] then FRESH else TouchStep(StateAfter(events[..|events| - 1]), events[|events| - 1]).0
  }

  /** What the stream reports for event `i` of a run. */
  function PhaseAt(events: seq<TouchEvent>, i: nat): Phase
    requires i < |events|
  {
    TouchStep(StateAfter(events[..i]), events[i]).1
  }

  /** Event `start` pressed `contact`'s finger and every event after it, up to `end`, moved it. */
  ghost predicate Dragging(events: seq<TouchEvent>, start: nat, end: nat, id: nat)
    requires end <= |events|
  {
    && start < end
    && PhaseAt(events, start).Pressed? && PhaseAt(events, start).contact.id == id
    && forall k :: start < k < end ==> PhaseAt(events, k).Moved? && PhaseAt(events, k).contact.id == id
  }

  /** No contact-free poll since the cancellation at `start`. */
  ghost predicate Held(events: seq<TouchEvent>, start: nat, end: nat)
    requires end <= |events|
  {
    && start < end
    && events[start].Cancel?
    && forall k :: start < k < end ==> events[k] != Polled([])
  }

  /** A stream that is held was held an event earlier, unless it was cancelled only now. */
  lemma HeldBefore(events: seq<TouchEvent>, n: nat)
    requires 0 < n <= |events|
    ensures forall start: nat :: start < n - 1 && Held(events, start, n) ==> Held(events, start, n - 1)
  {
  }

  /** What the two fields remember: a finger is held exactly since its press, and the stream is
      blocked exactly while a cancellation has not been followed by an empty poll. */
  lemma {:induction false} TouchMemory(events: seq<TouchEvent>, n: nat)
    requires n <= |events|
    ensures var state := StateAfter(events[..n]);
            && (state.id.Some? ==> !state.blocked && exists start: nat :: Dragging(events, start, n, state.id.value))
            && (state.blocked <==> exists start: nat :: Held(events, start, n))
  {
    if n > 0 {
      TouchMemory(events, n - 1);
      assert events[..n][..n - 1] == events[..n - 1];
      var before, now := StateAfter(events[..n - 1]), StateAfter(events[..n]);
      if now.id.Some? {
        if before.id.Some? {
          var start: nat :| Dragging(events, start, n - 1, before.id.value);
          assert Dragging(events, start, n, now.id.value);
        } else {
          assert Dragging(events, n - 1, n, now.id.value);
        }
      }
      if now.blocked {
        if events[n - 1].Cancel? {
          assert Held(events, n - 1, n);
        } else {
          var start: nat :| Held(events, start, n - 1);
          assert Held(events, start, n);
        }
      } else {
        HeldBefore(events, n);
      }
    }
  }

  /** Over any run: a move or a release belongs to the press that opened the gesture, with nothing
      but moves of that same finger in between; a press never interrupts an open gesture; and after
      a cancellation no press is reported until the panel was seen with every contact lifted. */
  lemma {:induction false} TouchPhasesWellFormed(events: seq<TouchEvent>, i: nat)
    requires i < |events|
    ensures PhaseAt(events, i).Moved? ==>
              exists start: nat :: Dragging(events, start, i, PhaseAt(events, i).contact.id)
    ensures PhaseAt(events, i).Released? ==>
              exists start: nat, id :: Dragging(events, start, i, id) && forall c :: c in events[i].contacts ==>
                c.id != id
    ensures PhaseAt(events, i).Pressed? ==>
              && !(exists start: nat, id :: Dragging(events, start, i, id))
              && !(exists start: nat :: Held(events, start, i))
  {
    TouchMemory(events, i);
    var state := StateAfter(events[..i]);
    if PhaseAt(events, i).Released? {
      var start: nat :| Dragging(events, start, i, state.id.value);
    }
    if PhaseAt(events, i).Pressed? {
      forall start: nat, id: nat
        ensures !Dragging(events, start, i, id)
      {
        if Dragging(events, start, i, id) {
          DraggingIsRemembered(events, start, i, id);
        }
      }
    }
  }

  /** A finger is held, or a cancellation still waits for every finger to lift. */
  ghost predicate HeldBy(events: seq<TouchEvent>, i: nat, id: nat)
    requires i <= |events|
  {
    exists start: nat :: Dragging(events, start, i, id)
  }

  ghost predicate Waits(events: seq<TouchEvent>, i: nat)
    requires i <= |events|
  {
    exists start: nat :: Held(events, start, i)
  }

  /** The first contact with its id. */
  predicate FirstOf(contacts: seq<Contact>, contact: Contact) {
    exists k :: 0 <= k < |contacts| && contacts[k] == contact && forall j :: 0 <= j < k ==> contacts[j].id != contact.id
  }

  /** Over any run, both ways: a poll reports a press of its first contact exactly when there is one, no finger
      is held and no cancellation waits; a move of the held finger's own contact exactly when it is among the
      contacts; a release exactly when a finger is held and is not among them; a cancellation reports itself. */
  lemma TouchPhasesExact(events: seq<TouchEvent>, i: nat, contact: Contact)
    requires i < |events|
    ensures PhaseAt(events, i) == Cancelled <==> events[i].Cancel?
    ensures PhaseAt(events, i) == Pressed(contact) <==>
              && events[i].Polled? && events[i].contacts != [] && contact == events[i].contacts[0]
              && !Waits(events, i) && forall id: nat :: !HeldBy(events, i, id)
    ensures PhaseAt(events, i) == Moved(contact) <==>
              events[i].Polled? && FirstOf(events[i].contacts, contact) && HeldBy(events, i, contact.id)
    ensures PhaseAt(events, i) == Released <==>
              events[i].Polled?
              && exists id: nat :: HeldBy(events, i, id) && forall c :: c in events[i].contacts ==> c.id != id
  {
    HoldingIsRemembered(events, i);
    var state := StateAfter(events[..i]);
    if events[i].Polled? && !state.blocked && state.id.Some? {
      FoundIsFirst(events[i].contacts, state.id.value, contact);
    }
  }

  /** The state holds a finger exactly when one is held, and that one. */
  lemma HoldingIsRemembered(events: seq<TouchEvent>, i: nat)
    requires i <= |events|
    ensures var state := StateAfter(events[..i]);
            && (state.blocked <==> Waits(events, i))
            && (forall id: nat :: HeldBy(events, i, id) <==> state.id == Some(id))
            && (state.id.Some? ==> !state.blocked)
  {
    TouchMemory(events, i);
    forall id: nat, start: nat | Dragging(events, start, i, id)
      ensures StateAfter(events[..i]).id == Some(id)
    {
      DraggingIsRemembered(events, start, i, id);
    }
  }

  lemma FoundIsFirst(contacts: seq<Contact>, id: nat, contact: Contact)
    ensures var index := IndexOf(contacts, id);
            && (index < |contacts| && contacts[index] == contact <==> FirstOf(contacts, contact) && contact.id == id)
            && (index == |contacts| <==> forall c :: c in contacts ==> c.id != id)
  {
    var index := IndexOf(contacts, id);
    if index < |contacts| {
      assert contacts[index] in contacts;
    }
  }

  lemma {:induction false} DraggingIsRemembered(events: seq<TouchEvent>, start: nat, end: nat, id: nat)
    requires end <= |events| && Dragging(events, start, end, id)
    ensures StateAfter(events[..end]).id == Some(id)
  {
    assert events[..end][..end - 1] == events[..end - 1];
    if start + 1 < end {
      DraggingIsRemembered(events, start, end - 1, id);
      assert PhaseAt(events, end - 1).Moved?;
    }
  }

  // --- the owner ------------------------------------------------------------

  lemma NextSlot(head: nat, i: nat)
    ensures ((head + 1) % PENDING_KEY_EVENTS + i) % PENDING_KEY_EVENTS == (head + (i + 1)) % PENDING_KEY_EVENTS
    ensures 0 < i < PENDING_KEY_EVENTS && head < PENDING_KEY_EVENTS ==> (head + i) % PENDING_KEY_EVENTS != head
  {
  }

  class InputManager {
    var cardkb: bool
    var tab5Keyboard: bool
    var nextSource: KeySource
    const pendingKeyEvents: array<Option<KeyEvent>>
    var pendingKeyHead: nat
    var pendingKeyLen: nat
    var primaryTouchId: Option<nat>
    var primaryTouchBlocked: bool
    /** The acquired keys, oldest first. */
    ghost var queue: seq<KeyEvent>

    ghost predicate Valid()
      reads this, pendingKeyEvents
    {
      && pendingKeyEvents.Length == PENDING_KEY_EVENTS
      && pendingKeyHead < PENDING_KEY_EVENTS
      && pendingKeyLen == |queue| <= PENDING_KEY_EVENTS
      && forall i :: 0 <= i < |queue| ==>
           pendingKeyEvents[(pendingKeyHead + i) % PENDING_KEY_EVENTS] == Some(queue[i])
    }

    ghost function Touch(): TouchState
      reads this
    {
      TouchState(primaryTouchId, primaryTouchBlocked)
    }

    constructor (cardkb: bool, tab5Keyboard: bool)
      ensures Valid() && fresh(pendingKeyEvents)
      ensures queue == [] && nextSource == CardKb && Touch() == FRESH
      ensures this.cardkb == cardkb && this.tab5Keyboard == tab5Keyboard
    {
      this.cardkb, this.tab5Keyboard := cardkb, tab5Keyboard;
      nextSource := CardKb;
      pendingKeyEvents := new Option<KeyEvent>[PENDING_KEY_EVENTS](_ => None);
      pendingKeyHead, pendingKeyLen, queue := 0, 0, [];
      primaryTouchId, primaryTouchBlocked := None, false;
    }

    /** A bounded FIFO that drops the newest event when it is full. */
    method PushPendingKey(event: KeyEvent)
      requires Valid()
      modifies this`pendingKeyLen, this`queue, pendingKeyEvents
      ensures Valid()
      ensures queue == if |old(queue)| == PENDING_KEY_EVENTS then old(queue) else old(queue) + [event]
    {
      if pendingKeyLen == PENDING_KEY_EVENTS {
        return;
      }
      var tail := (pendingKeyHead + pendingKeyLen) % PENDING_KEY_EVENTS;
      pendingKeyEvents[tail] := Some(event);
      pendingKeyLen := pendingKeyLen + 1;
      queue := queue + [event];
    }

    method PopPendingKey() returns (event: Option<KeyEvent>)
      requires Valid()
      modifies this`pendingKeyHead, this`pendingKeyLen, this`queue, pendingKeyEvents
      ensures Valid()
      ensures old(queue) == [] ==> event == None && queue == []
      ensures old(queue) != [] ==> event == Some(old(queue)[0]) && queue == old(queue)[1..]
    {
      if pendingKeyLen == 0 {
        return None;
      }
      event := pendingKeyEvents[pendingKeyHead];
      assert event == Some(queue[0]) by {
        assert (pendingKeyHead + 0) % PENDING_KEY_EVENTS == pendingKeyHead;
      }
      pendingKeyEvents[pendingKeyHead] := None;
      ghost var head, rest := pendingKeyHead, queue[1..];
      pendingKeyHead := (pendingKeyHead + 1) % PENDING_KEY_EVENTS;
      pendingKeyLen := pendingKeyLen - 1;
      forall i | 0 <= i < |rest|
        ensures pendingKeyEvents[(pendingKeyHead + i) % PENDING_KEY_EVENTS] == Some(rest[i])
      {
        NextSlot(head, i);
        NextSlot(head, i + 1);
      }
      queue := rest;
    }

    /** At most one key per call: a pending one first, otherwise the first ready source in rotation
        order, which then goes to the back. A dedicated keyboard that fails is detached only when
        the rotation reached it. */
    method PollKey(offers: Offers) returns (event: Option<KeyEvent>)
      requires Valid()
      modifies this, pendingKeyEvents
      ensures Valid()
      ensures cardkb == old(cardkb) && Touch() == old(Touch())
      ensures old(queue) != [] ==>
                && event == Some(old(queue)[0]) && queue == old(queue)[1..]
                && tab5Keyboard == old(tab5Keyboard)
      ensures old(queue) == [] ==>
                var attached := Attached(cardkb, old(tab5Keyboard));
                && queue == []
                && (event.None? ==> forall source :: Ready(source, attached, offers).None?)
                && (event.Some? ==>
                    && Serves(old(nextSource), attached, offers, event.value.source)
                    && Some(event.value.key) == Ready(event.value.source, attached, offers)
                    && match event.value.source
                       case CardKb => cardkb && offers.cardkb == Some(event.value.key)
                       case Tab5Keyboard => old(tab5Keyboard) && offers.tab5 == Typed(event.value.key)
                       case Usb => offers.usb == Some(event.value.key))
                && (event.None? ==>
                    && (cardkb ==> offers.cardkb.None?) && (old(tab5Keyboard) ==> !offers.tab5.Typed?)
                    && offers.usb.None?)
                && (tab5Keyboard <==>
                    old(tab5Keyboard) && !(offers.tab5.Lost? &&
                      (event.Some? ==>
                         Distance(old(nextSource), Tab5Keyboard) <= Distance(old(nextSource), event.value.source))))
      ensures old(queue) == [] && event.Some? ==>
                var attached := Attached(cardkb, old(tab5Keyboard));
                var order := match old(nextSource)
                             case CardKb => [CardKb, Tab5Keyboard, Usb]
                             case Tab5Keyboard => [Tab5Keyboard, Usb, CardKb]
                             case Usb => [Usb, CardKb, Tab5Keyboard];
                exists i :: 0 <= i < 3 && order[i] == event.value.source &&
                  forall j :: 0 <= j < i ==> Ready(order[j], attached, offers).None?
      ensures nextSource == if event.None? then old(nextSource)
                            else match event.value.source
                                 case CardKb => Tab5Keyboard
                                 case Tab5Keyboard => Usb
                                 case Usb => CardKb
    {
      event := PopPendingKey();
      if event.Some? {
        nextSource := SourceAfter(event.value.source);
        return;
      }
      var first := nextSource;
      var second := SourceAfter(first);
      var order := [first, second, SourceAfter(second)];
      ghost var attached := Attached(cardkb, tab5Keyboard);
      for i := 0 to 3
        invariant Valid() && queue == []
        invariant nextSource == first && cardkb == attached.cardkb && Touch() == old(Touch())
        invariant tab5Keyboard <==> attached.tab5 && !(offers.tab5.Lost? && Distance(first, Tab5Keyboard) < i)
        invariant forall source :: Distance(first, source) < i ==> Ready(source, attached, offers).None?
      {
        var source := order[i];
        assert Distance(first, source) == i;
        var key: Option<Key> := None;
        match source {
          case CardKb =>
            if cardkb {
              key := offers.cardkb;
            }
          case Tab5Keyboard =>
            if tab5Keyboard {
              match offers.tab5 {
                case Quiet =>
                case Typed(typed) => key := Some(typed);
                case Lost => tab5Keyboard := false;
              }
            }
          case Usb =>
            key := offers.usb;
        }
        assert key == Ready(source, attached, offers);
        if key.Some? {
          nextSource := SourceAfter(source);
          assert order[i] == source;
          return Some(KeyEvent(source, key.value));
        }
      }
      event := None;
    }

    /** Turns one panel report into a pointer phase. */
    method PollPrimaryTouch(points: seq<Contact>) returns (phase: Phase)
      requires Valid()
      modifies this`primaryTouchId, this`primaryTouchBlocked
      ensures Valid()
      ensures (Touch(), phase) == TouchStep(old(Touch()), Polled(points))
      ensures phase.Pressed? <==> !old(primaryTouchBlocked) && old(primaryTouchId).None? && points != []
      ensures phase.Pressed? ==> phase.contact == points[0]
      ensures phase.Moved? <==>
                !old(primaryTouchBlocked) && exists c :: c in points && Some(c.id) == old(primaryTouchId)
      ensures phase.Moved? ==> phase.contact in points && Some(phase.contact.id) == old(primaryTouchId)
    {
      if primaryTouchBlocked {
        if |points| == 0 {
          primaryTouchBlocked := false;
        }
        return Idle;
      }
      if primaryTouchId.Some? {
        var found := IndexOf(points, primaryTouchId.value);
        if found < |points| {
          return Moved(points[found]);
        }
        primaryTouchId := None;
        return Released;
      }
      if |points| == 0 {
        return Idle;
      }
      primaryTouchId := Some(points[0].id);
      return Pressed(points[0]);
    }

    method CancelPrimaryTouch()
      requires Valid()
      modifies this`primaryTouchId, this`primaryTouchBlocked
      ensures Valid()
      ensures Touch() == TouchStep(old(Touch()), Cancel).0
    {
      primaryTouchId, primaryTouchBlocked := None, true;
    }
  }

  // --- polling again and again ----------------------------------------------------------

  /** What happens around one poll: keys a split USB keyboard left in the ring since the last one, and what the
      devices answer. */
  datatype Frame = Frame(arrivals: seq<Key>, offers: Offers)

  function Capped(count: nat): nat {
    if count <= PENDING_KEY_EVENTS then count else PENDING_KEY_EVENTS
  }

  /** How many events wait in the ring once poll `i` is over, if at first there are `waiting`. */
  function Left(waiting: nat, frames: seq<Frame>, i: nat): nat
    requires i <= |frames|
    decreases i, 0
  {
    if i == 0 then waiting
    else
      var found := Waiting(waiting, frames, i - 1);
      if found == 0 then 0 else found - 1
  }

  /** How many poll `i` finds waiting. */
  function Waiting(waiting: nat, frames: seq<Frame>, i: nat): nat
    requires i < |frames|
    decreases i, 1
  {
    Capped(Left(waiting, frames, i) + |frames[i].arrivals|)
  }

  function SourceOf(event: Option<KeyEvent>): Option<KeySource> {
    if event.Some? then Some(event.value.source) else None
  }

  ghost predicate AllFromUsb(queue: seq<KeyEvent>) {
    forall i :: 0 <= i < |queue| ==> queue[i].source == Usb
  }

  method Acquire(input: InputManager, arrivals: seq<Key>)
    requires input.Valid() && AllFromUsb(input.queue)
    modifies input`pendingKeyLen, input`queue, input.pendingKeyEvents
    ensures input.Valid() && AllFromUsb(input.queue)
    ensures |input.queue| == Capped(|old(input.queue)| + |arrivals|)
  {
    for i := 0 to |arrivals|
      invariant input.Valid() && AllFromUsb(input.queue)
      invariant |input.queue| == Capped(|old(input.queue)| + i)
    {
      input.PushPendingKey(KeyEvent(Usb, arrivals[i]));
    }
  }

  /** One frame is one turn of the rotation. */
  method PollFrame(input: InputManager, frame: Frame) returns (event: Option<KeyEvent>, ghost turn: Turn)
    requires input.Valid() && AllFromUsb(input.queue)
    modifies input, input.pendingKeyEvents
    ensures input.Valid() && AllFromUsb(input.queue)
    ensures var found := Capped(|old(input.queue)| + |frame.arrivals|);
            (turn.pending <==> found > 0) && |input.queue| == if found == 0 then 0 else found - 1
    ensures turn.offers == frame.offers && TurnServes(old(input.nextSource), turn, SourceOf(event))
    ensures input.nextSource == NextAfter(old(input.nextSource), SourceOf(event))
  {
    Acquire(input, frame.arrivals);
    turn := Turn(input.queue != [], Attached(input.cardkb, input.tab5Keyboard), frame.offers);
    event := input.PollKey(frame.offers);
  }

  /** Any number of polls, with keys arriving in between, is a run of the rotation; the turns that find an
      event waiting are those the arrivals say. */
  method PollFrames(input: InputManager, frames: seq<Frame>)
    returns (events: seq<Option<KeyEvent>>, ghost turns: seq<Turn>, ghost served: seq<Option<KeySource>>)
    requires input.Valid() && AllFromUsb(input.queue)
    modifies input, input.pendingKeyEvents
    ensures input.Valid() && |events| == |turns| == |frames| && IsRun(old(input.nextSource), turns, served)
    ensures forall i :: 0 <= i < |frames| ==>
              && served[i] == SourceOf(events[i]) && turns[i].offers == frames[i].offers
              && (turns[i].pending <==> Waiting(|old(input.queue)|, frames, i) > 0)
  {
    events, turns, served := [], [], [];
    for n := 0 to |frames|
      invariant input.Valid() && AllFromUsb(input.queue) && |events| == |turns| == |served| == n
      invariant |input.queue| == Left(|old(input.queue)|, frames, n)
      invariant IsRun(old(input.nextSource), turns, served) && input.nextSource == NextAt(old(input.nextSource), served)
      invariant forall i :: 0 <= i < n ==>
                  && served[i] == SourceOf(events[i]) && turns[i].offers == frames[i].offers
                  && (turns[i].pending <==> Waiting(|old(input.queue)|, frames, i) > 0)
    {
      var event, turn := PollFrame(input, frames[n]);
      RunGoesOn(old(input.nextSource), turns, served, turn, SourceOf(event));
      events, turns, served := events + [event], turns + [turn], served + [SourceOf(event)];
    }
  }
}
