/**
 The session store with creates that race: a create draws its sequence number before
 it takes the lock, so other changes may come between the draw and the insert.
 */
module SessionRaces {
  import opened SessionStore

  // `drawn` is the sessions that have their number and are not in the map yet.
  datatype Shared = Shared(sessions: map<string, StoredSession>, drawn: map<string, StoredSession>, nextSeq: nat)

  const EMPTY := Shared(map[], map[], 0)

  datatype Event =
    | Draw(id: string, name: string, now: int)
    | Insert(id: string)
    | AppendTo(id: string, message: StoredMessage, now: int)
    | DeleteOne(id: string)

  // Ids are new; only a create that drew its number inserts.
  predicate Enabled(s: Shared, e: Event) {
    match e
    case Draw(id, _, _) => id !in s.sessions && id !in s.drawn
    case Insert(id) => id in s.drawn
    case _ => true
  }

  function Visible(s: Shared): Store {
    Store(s.sessions, s.nextSeq)
  }

  function Step(s: Shared, e: Event): Shared
    requires Enabled(s, e)
  {
    match e
    case Draw(id, name, now) =>
      s.(drawn := s.drawn[id := StoredSession(id, name, [], now, now, s.nextSeq)], nextSeq := s.nextSeq + 1)
    case Insert(id) => s.(sessions := s.sessions[id := s.drawn[id]], drawn := s.drawn - {id})
    case AppendTo(id, message, now) =>
      var store := Apply(Visible(s), Append(id, message, now));
      s.(sessions := store.sessions, nextSeq := store.nextSeq)
    case DeleteOne(id) => s.(sessions := s.sessions - {id})
  }

  predicate IsRun(s: Shared, events: seq<Event>)
    decreases |events|
  {
    events == [] || (Enabled(s, events[0]) && IsRun(Step(s, events[0]), events[1..]))
  }

  function After(s: Shared, events: seq<Event>): Shared
    requires IsRun(s, events)
    decreases |events|
  {
    if events == [] then s else After(Step(s, events[0]), events[1..])
  }

  // ------------------------------------------------------------ the abstract store

  // A move-to-front list some of whose sessions are hidden: a session is made at the
  // front when its number is drawn and shows, where it then is, once it is inserted.
  datatype Hiding = Hiding(recency: Recency, hidden: set<string>)

  function AbstractStep(a: Hiding, e: Event): Hiding {
    match e
    case Draw(id, name, now) => Hiding(Abstract(a.recency, Create(id, name, now)), a.hidden + {id})
    case Insert(id) => a.(hidden := a.hidden - {id})
    case AppendTo(id, message, now) =>
      if id in a.hidden then a else a.(recency := Abstract(a.recency, Append(id, message, now)))
    case DeleteOne(id) =>
      if id in a.hidden then a else a.(recency := Abstract(a.recency, Delete(id)))
  }

  function AbstractAfter(a: Hiding, events: seq<Event>): Hiding
    decreases |events|
  {
    if events == [] then a else AbstractAfter(AbstractStep(a, events[0]), events[1..])
  }

  function Shown(r: Recency, hidden: set<string>): Recency {
    if r == [] then []
    else if r[0].id in hidden then Shown(r[1..], hidden)
    else [r[0]] + Shown(r[1..], hidden)
  }

  // ------------------------------------------------------------------- refinement

  // Inserted or not.
  function Everything(s: Shared): Store {
    Store(s.sessions + s.drawn, s.nextSeq)
  }

  ghost predicate Refining(s: Shared, order: seq<StoredSession>, a: Hiding) {
    && s.sessions.Keys !! s.drawn.Keys && a.hidden == s.drawn.Keys
    && Refines(Everything(s), order, a.recency)
  }

  lemma DrawEverything(s: Shared, id: string, name: string, now: int)
    requires Enabled(s, Draw(id, name, now))
    ensures Everything(Step(s, Draw(id, name, now))) == Apply(Everything(s), Create(id, name, now))
  {
  }

  lemma InsertEverything(s: Shared, id: string)
    requires id in s.drawn && s.sessions.Keys !! s.drawn.Keys
    ensures Everything(Step(s, Insert(id))) == Everything(s)
  {
    assert Everything(Step(s, Insert(id))).sessions == Everything(s).sessions;
  }

  lemma AppendEverything(s: Shared, id: string, message: StoredMessage, now: int)
    requires s.sessions.Keys !! s.drawn.Keys
    ensures var s' := Step(s, AppendTo(id, message, now));
            && s'.sessions.Keys == s.sessions.Keys && s'.drawn == s.drawn
            && Everything(s') == if id in s.drawn then Everything(s) else Apply(Everything(s), Append(id, message, now))
  {
    var s' := Step(s, AppendTo(id, message, now));
    if id in s.sessions {
      assert Everything(s').sessions == Apply(Everything(s), Append(id, message, now)).sessions;
    }
  }

  lemma DeleteEverything(s: Shared, id: string)
    requires s.sessions.Keys !! s.drawn.Keys
    ensures Everything(Step(s, DeleteOne(id)))
         == if id in s.drawn then Everything(s) else Apply(Everything(s), Delete(id))
  {
    var s' := Step(s, DeleteOne(id));
    if id in s.drawn {
      assert s'.sessions == s.sessions;
    } else {
      assert Everything(s').sessions == Everything(s).sessions - {id};
    }
  }

  lemma StepRefining(s: Shared, order: seq<StoredSession>, a: Hiding, e: Event) returns (order': seq<StoredSession>)
    requires Refining(s, order, a) && Enabled(s, e)
    ensures Refining(Step(s, e), order', AbstractStep(a, e))
  {
    order' := order;
    match e {
      case Draw(id, name, now) =>
        DrawEverything(s, id, name, now);
        order' := StepRefines(Everything(s), order, a.recency, Create(id, name, now));
      case Insert(id) =>
        InsertEverything(s, id);
      case AppendTo(id, message, now) =>
        AppendEverything(s, id, message, now);
        if id !in s.drawn { order' := StepRefines(Everything(s), order, a.recency, Append(id, message, now)); }
      case DeleteOne(id) =>
        DeleteEverything(s, id);
        if id !in s.drawn { order' := StepRefines(Everything(s), order, a.recency, Delete(id)); }
    }
  }

  lemma {:induction false} RunRefining(s: Shared, order: seq<StoredSession>, a: Hiding, events: seq<Event>)
    returns (order': seq<StoredSession>)
    requires Refining(s, order, a) && IsRun(s, events)
    ensures Refining(After(s, events), order', AbstractAfter(a, events))
    decreases |events|
  {
    if events == [] {
      order' := order;
    } else {
      var order1 := StepRefining(s, order, a, events[0]);
      order' := RunRefining(Step(s, events[0]), order1, AbstractStep(a, events[0]), events[1..]);
    }
  }

  // ------------------------------------------------------------------- what is listed

  function Inserted(order: seq<StoredSession>, hidden: set<string>): (r: seq<StoredSession>)
    ensures forall x :: x in r <==> x in order && x.id !in hidden
  {
    if order == [] then []
    else if order[0].id in hidden then Inserted(order[1..], hidden)
    else [order[0]] + Inserted(order[1..], hidden)
  }

  lemma {:induction false} InsertedFalling(order: seq<StoredSession>, hidden: set<string>)
    requires Falling(order)
    ensures Falling(Inserted(order, hidden))
  {
    if order != [] {
      TailFalling(order);
      InsertedFalling(order[1..], hidden);
      FallingFront(order[0], Inserted(order[1..], hidden));
    }
  }

  lemma {:induction false} InsertedIsShown(order: seq<StoredSession>, hidden: set<string>)
    ensures Contents(Inserted(order, hidden)) == Shown(Contents(order), hidden)
  {
    if order != [] { InsertedIsShown(order[1..], hidden); }
  }

  // The map's own sessions, in order.
  lemma VisibleOrdered(s: Shared, order: seq<StoredSession>, a: Hiding)
    requires Refining(s, order, a)
    ensures Refines(Visible(s), Inserted(order, a.hidden), Shown(a.recency, a.hidden))
  {
    InsertedFalling(order, a.hidden);
    InsertedIsShown(order, a.hidden);
    var shown := Inserted(order, a.hidden);
    forall x | x in shown ensures x.id in s.sessions && s.sessions[x.id] == x && x.updatedSeq < s.nextSeq {
      assert Everything(s).sessions[x.id] == x;
    }
    forall id | id in s.sessions ensures s.sessions[id].id == id && s.sessions[id] in shown {
      assert Everything(s).sessions[id] == s.sessions[id];
    }
  }

  // For every interleaving of creates with each other and with other changes: numbers
  // stay distinct and below the counter, and what the store lists is the shown part of
  // the move-to-front list, a create counting from the moment it drew its number.
  lemma EveryRace(events: seq<Event>) returns (list: seq<StoredSession>)
    requires IsRun(EMPTY, events)
    ensures var a := AbstractAfter(Hiding([], {}), events);
            Refines(Visible(After(EMPTY, events)), list, Shown(a.recency, a.hidden))
  {
    var order := RunRefining(EMPTY, [], Hiding([], {}), events);
    var a := AbstractAfter(Hiding([], {}), events);
    VisibleOrdered(After(EMPTY, events), order, a);
    list := Inserted(order, a.hidden);
  }

  // Every listed session drew its number before this one did.
  predicate Latest(listed: seq<StoredSession>, session: StoredSession) {
    forall k :: 0 <= k < |listed| ==> listed[k].updatedSeq < session.updatedSeq
  }

  lemma FrontIffLatest(before: seq<StoredSession>, after: seq<StoredSession>, session: StoredSession)
    requires Falling(before) && Falling(after)
    requires forall x :: x in after <==> x == session || x in before
    ensures after == [session] + before <==> Latest(before, session)
  {
    if after == [session] + before {
      forall k | 0 <= k < |before| ensures before[k].updatedSeq < session.updatedSeq {
        assert after[k + 1] == before[k] && after[0] == session;
      }
    }
    if Latest(before, session) {
      FallingFront(session, before);
      FrontMembers(session, before);
      FallingUnique(after, [session] + before);
    }
  }

  // An insert puts its session at the front of the list if and only if nothing listed
  // drew a later number meanwhile.
  lemma InsertAtFrontIff(s: Shared, order: seq<StoredSession>, a: Hiding, id: string)
    requires Refining(s, order, a) && id in s.drawn
    ensures Inserted(order, a.hidden - {id}) == [s.drawn[id]] + Inserted(order, a.hidden)
       <==> Latest(Inserted(order, a.hidden), s.drawn[id])
  {
    InsertedFalling(order, a.hidden);
    InsertedFalling(order, a.hidden - {id});
    assert Everything(s).sessions[id] == s.drawn[id];
    forall x | x in order && x.id == id ensures x == s.drawn[id] {
      assert Everything(s).sessions[id] == x;
    }
    FrontIffLatest(Inserted(order, a.hidden), Inserted(order, a.hidden - {id}), s.drawn[id]);
  }

  // ------------------------------------------------------------ the same by events

  // The event makes or appends to the session.
  predicate Touches(s: Shared, e: Event, id: string) {
    match e
    case Draw(x, _, _) => x == id
    case AppendTo(x, _, _) => x == id && id in s.sessions
    case _ => false
  }

  predicate TouchedIn(s: Shared, events: seq<Event>, id: string)
    requires IsRun(s, events)
    decreases |events|
  {
    events != [] && (Touches(s, events[0], id) || TouchedIn(Step(s, events[0]), events[1..], id))
  }

  // The session has a number above `t`, if it is there at all.
  predicate Later(s: Shared, id: string, t: nat) {
    (id in s.sessions ==> s.sessions[id].updatedSeq > t) && (id in s.drawn ==> s.drawn[id].updatedSeq > t)
  }

  predicate Present(s: Shared, id: string) {
    id in s.sessions || id in s.drawn
  }

  lemma StepLater(s: Shared, e: Event, id: string, t: nat)
    requires Enabled(s, e) && t < s.nextSeq && Present(Step(s, e), id)
    requires s.sessions.Keys !! s.drawn.Keys
    ensures t < Step(s, e).nextSeq && Step(s, e).sessions.Keys !! Step(s, e).drawn.Keys
    ensures Later(Step(s, e), id, t) <==> Touches(s, e, id) || (Present(s, id) && Later(s, id, t))
  {
  }

  lemma StepKeepsApart(s: Shared, e: Event)
    requires Enabled(s, e) && s.sessions.Keys !! s.drawn.Keys
    ensures Step(s, e).sessions.Keys !! Step(s, e).drawn.Keys && s.nextSeq <= Step(s, e).nextSeq
  {
  }

  // A session that is there at the end got a number above `t` in the run if and only if
  // the run touched it, or it had one before and was there.
  lemma {:induction false} LaterIff(s: Shared, events: seq<Event>, id: string, t: nat)
    requires IsRun(s, events) && t < s.nextSeq && s.sessions.Keys !! s.drawn.Keys
    requires Present(After(s, events), id)
    ensures Later(After(s, events), id, t) <==> TouchedIn(s, events, id) || (Present(s, id) && Later(s, id, t))
    decreases |events|
  {
    if events != [] {
      var s1 := Step(s, events[0]);
      StepKeepsApart(s, events[0]);
      LaterIff(s1, events[1..], id, t);
      if Present(s1, id) {
        StepLater(s, events[0], id, t);
      } else {
        AbsentStep(s, events[0], id);
        Appears(s1, events[1..], id);
      }
    }
  }

  // A session touched by a step is there after it.
  lemma AbsentStep(s: Shared, e: Event, id: string)
    requires Enabled(s, e) && !Present(Step(s, e), id)
    ensures !Touches(s, e, id)
  {
  }

  lemma {:induction false} Appears(s: Shared, events: seq<Event>, id: string)
    requires IsRun(s, events) && !Present(s, id) && Present(After(s, events), id)
    ensures TouchedIn(s, events, id)
    decreases |events|
  {
    if !Present(Step(s, events[0]), id) { Appears(Step(s, events[0]), events[1..], id); }
  }

  // A number drawn and not yet inserted stays as it was drawn.
  lemma {:induction false} DrawnStays(s: Shared, events: seq<Event>, id: string)
    requires IsRun(s, events) && id in s.drawn && Insert(id) !in events
    ensures id in After(s, events).drawn && After(s, events).drawn[id] == s.drawn[id]
    decreases |events|
  {
    if events != [] {
      assert Insert(id) !in events[1..] && events[0] != Insert(id);
      DrawnStays(Step(s, events[0]), events[1..], id);
    }
  }

  // What is listed, before and after the insert of `id`.
  function ListBefore(order: seq<StoredSession>, a: Hiding): seq<StoredSession> {
    Inserted(order, a.hidden)
  }

  function ListAfter(order: seq<StoredSession>, a: Hiding, id: string): seq<StoredSession> {
    Inserted(order, a.hidden - {id})
  }

  // A create draws its number, then other events happen, then it inserts: its session
  // is at the front of the list if and only if no session listed then was appended to
  // or made since the draw.
  lemma CreateAtFrontIff(s: Shared, order: seq<StoredSession>, a: Hiding, id: string, name: string, now: int,
                         events: seq<Event>)
    returns (order': seq<StoredSession>, a': Hiding)
    requires Refining(s, order, a) && Enabled(s, Draw(id, name, now))
    requires IsRun(Step(s, Draw(id, name, now)), events) && Insert(id) !in events
    ensures var s1 := Step(s, Draw(id, name, now));
            var end := After(s1, events);
            && Refining(end, order', a') && id in end.drawn && end.drawn[id] == s1.drawn[id]
            && (ListAfter(order', a', id) == [end.drawn[id]] + ListBefore(order', a')
                <==> forall x :: x in end.sessions ==> !TouchedIn(s1, events, x))
  {
    var draw := Draw(id, name, now);
    var s1 := Step(s, draw);
    var order1 := StepRefining(s, order, a, draw);
    order' := RunRefining(s1, order1, AbstractStep(a, draw), events);
    a' := AbstractAfter(AbstractStep(a, draw), events);
    DrawnStays(s1, events, id);
    var end := After(s1, events);
    InsertAtFrontIff(end, order', a', id);
    VisibleOrdered(end, order', a');
    forall x | x in end.sessions
      ensures end.sessions[x].updatedSeq > s1.drawn[id].updatedSeq <==> TouchedIn(s1, events, x)
    {
      OldNumber(s, order, a, id, name, now, x);
      LaterIff(s1, events, x, s1.drawn[id].updatedSeq);
    }
    LatestByNumber(end, order', a', id, s1.drawn[id].updatedSeq);
  }

  // Before the draw everybody had a smaller number.
  lemma OldNumber(s: Shared, order: seq<StoredSession>, a: Hiding, id: string, name: string, now: int, x: string)
    requires Refining(s, order, a) && Enabled(s, Draw(id, name, now))
    ensures var s1 := Step(s, Draw(id, name, now)); Present(s1, x) ==> !Later(s1, x, s.nextSeq)
  {
    if Present(s, x) {
      assert x in Everything(s).sessions && Everything(s).sessions[x] in order;
    }
  }

  lemma LatestByNumber(s: Shared, order: seq<StoredSession>, a: Hiding, id: string, t: nat)
    requires Refining(s, order, a) && id in s.drawn && s.drawn[id].updatedSeq == t
    ensures Latest(Inserted(order, a.hidden), s.drawn[id])
       <==> forall x :: x in s.sessions ==> !(s.sessions[x].updatedSeq > t)
  {
    var listed := Inserted(order, a.hidden);
    VisibleOrdered(s, order, a);
    forall x | x in s.sessions ensures s.sessions[x] in listed && s.sessions[x].updatedSeq != t {
      assert Everything(s).sessions[x] == s.sessions[x] && Everything(s).sessions[id] == s.drawn[id];
      if s.sessions[x].updatedSeq == t { DistinctSeqs(Everything(s), order, x, id); }
    }
  }

  lemma First(s: Shared, e: Event, rest: seq<Event>)
    requires Enabled(s, e) && IsRun(Step(s, e), rest)
    ensures IsRun(s, [e] + rest) && After(s, [e] + rest) == After(Step(s, e), rest)
  {
    assert ([e] + rest)[1..] == rest;
  }

  // It does happen: of two racing creates the one that drew first inserts last, and its
  // session is listed behind the other.
  lemma RaceReordersCreates(x: string, y: string, name: string, now: int)
    returns (events: seq<Event>, list: seq<StoredSession>)
    requires x != y
    ensures events == [Draw(x, name, now), Draw(y, name, now), Insert(y), Insert(x)] && IsRun(EMPTY, events)
    ensures list == [StoredSession(y, name, [], now, now, 1), StoredSession(x, name, [], now, now, 0)]
    ensures Refines(Visible(After(EMPTY, events)), list, Contents(list))
  {
    events := [Draw(x, name, now), Draw(y, name, now), Insert(y), Insert(x)];
    list := [StoredSession(y, name, [], now, now, 1), StoredSession(x, name, [], now, now, 0)];
    var s1 := Step(EMPTY, events[0]);
    var s2 := Step(s1, events[1]);
    var s3 := Step(s2, events[2]);
    var s4 := Step(s3, events[3]);
    First(s3, events[3], []);
    First(s2, events[2], [events[3]]);
    First(s1, events[1], [events[2], events[3]]);
    First(EMPTY, events[0], [events[1], events[2], events[3]]);
    assert [events[2]] + [events[3]] == [events[2], events[3]];
    assert [events[1]] + [events[2], events[3]] == [events[1], events[2], events[3]];
    assert [events[0]] + [events[1], events[2], events[3]] == events;
    assert s4.sessions == map[x := list[1], y := list[0]];
  }
}
