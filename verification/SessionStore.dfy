/**
 The in-memory session store: sequence numbers handed out on every change, sorted on
 listing, against the abstract store it stands for, a list of sessions in which every
 change moves its session to the front.
 */
module SessionStore {
  import opened Bytes

  datatype StoredMessage = StoredMessage(role: string, content: string)

  datatype StoredSession = StoredSession(
    id: string, name: string, messages: seq<StoredMessage>, createdAt: int, updatedAt: int, updatedSeq: nat)

  // ------------------------------------------------------------ the abstract store

  // What a session is apart from its place in the order.
  datatype Content = Content(id: string, name: string, messages: seq<StoredMessage>, createdAt: int, updatedAt: int)

  // Most recently changed first.
  type Recency = seq<Content>

  function Without(r: Recency, id: string): Recency {
    if r == [] then []
    else if r[0].id == id then Without(r[1..], id)
    else [r[0]] + Without(r[1..], id)
  }

  function Find(r: Recency, id: string): Option<Content> {
    if r == [] then None else if r[0].id == id then Some(r[0]) else Find(r[1..], id)
  }

  datatype Op =
    | Create(id: string, name: string, now: int)
    | Append(id: string, message: StoredMessage, now: int)
    | Delete(id: string)

  function Abstract(r: Recency, op: Op): Recency {
    match op
    case Create(id, name, now) => [Content(id, name, [], now, now)] + Without(r, id)
    case Append(id, message, now) =>
      (match Find(r, id)
       case None => r
       case Some(c) => [c.(messages := c.messages + [message], updatedAt := now)] + Without(r, id))
    case Delete(id) => Without(r, id)
  }

  function AbstractRun(r: Recency, ops: seq<Op>): Recency
    decreases |ops|
  {
    if ops == [] then r else AbstractRun(Abstract(r, ops[0]), ops[1..])
  }

  // ----------------------------------------------------------------- the real store

  datatype Store = Store(sessions: map<string, StoredSession>, nextSeq: nat)

  function Apply(s: Store, op: Op): Store {
    match op
    case Create(id, name, now) =>
      Store(s.sessions[id := StoredSession(id, name, [], now, now, s.nextSeq)], s.nextSeq + 1)
    case Append(id, message, now) =>
      if id !in s.sessions then s
      else
        var was := s.sessions[id];
        Store(s.sessions[id := was.(messages := was.messages + [message], updatedAt := now, updatedSeq := s.nextSeq)],
              s.nextSeq + 1)
    case Delete(id) => s.(sessions := s.sessions - {id})
  }

  function ContentOf(s: StoredSession): Content {
    Content(s.id, s.name, s.messages, s.createdAt, s.updatedAt)
  }

  function Contents(xs: seq<StoredSession>): Recency {
    if xs == [] then [] else [ContentOf(xs[0])] + Contents(xs[1..])
  }

  predicate Falling(xs: seq<StoredSession>) {
    forall i, j :: 0 <= i < j < |xs| ==> xs[i].updatedSeq > xs[j].updatedSeq
  }

  // `order` is the stored sessions, each once, by falling sequence number. Keys are
  // ids, and sequence numbers are below the counter.
  ghost predicate Ordered(s: Store, order: seq<StoredSession>) {
    && Falling(order)
    && (forall x :: x in order ==> x.id in s.sessions && s.sessions[x.id] == x && x.updatedSeq < s.nextSeq)
    && (forall id :: id in s.sessions ==> s.sessions[id].id == id && s.sessions[id] in order)
  }

  // The store stands for `r`.
  ghost predicate Refines(s: Store, order: seq<StoredSession>, r: Recency) {
    Ordered(s, order) && r == Contents(order)
  }

  // ------------------------------------------------------------------- refinement

  function Remove(xs: seq<StoredSession>, id: string): (d: seq<StoredSession>)
    ensures forall x :: x in d <==> x in xs && x.id != id
  {
    if xs == [] then []
    else if xs[0].id == id then Remove(xs[1..], id)
    else [xs[0]] + Remove(xs[1..], id)
  }

  lemma {:induction false} RemoveIsWithout(xs: seq<StoredSession>, id: string)
    ensures Contents(Remove(xs, id)) == Without(Contents(xs), id)
  {
    if xs != [] { RemoveIsWithout(xs[1..], id); }
  }

  lemma TailFalling(xs: seq<StoredSession>)
    requires Falling(xs) && xs != []
    ensures Falling(xs[1..]) && forall x :: x in xs[1..] ==> xs[0].updatedSeq > x.updatedSeq
  {
    assert forall i :: 0 <= i < |xs[1..]| ==> xs[1..][i] == xs[i + 1];
  }

  lemma FallingFront(session: StoredSession, rest: seq<StoredSession>)
    requires Falling(rest) && forall x :: x in rest ==> x.updatedSeq < session.updatedSeq
    ensures Falling([session] + rest)
    ensures Contents([session] + rest) == [ContentOf(session)] + Contents(rest)
  {
    assert ([session] + rest)[1..] == rest;
  }

  lemma {:induction false} RemoveFalling(xs: seq<StoredSession>, id: string)
    requires Falling(xs)
    ensures Falling(Remove(xs, id))
  {
    if xs != [] {
      TailFalling(xs);
      RemoveFalling(xs[1..], id);
      FallingFront(xs[0], Remove(xs[1..], id));
    }
  }

  lemma {:induction false} FindExact(xs: seq<StoredSession>, id: string)
    ensures (exists x :: x in xs && x.id == id) ==>
              exists x :: x in xs && x.id == id && Find(Contents(xs), id) == Some(ContentOf(x))
    ensures !(exists x :: x in xs && x.id == id) ==> Find(Contents(xs), id) == None
  {
    if xs != [] {
      FindExact(xs[1..], id);
      assert xs[0] in xs;
      assert forall x :: x in xs <==> x == xs[0] || x in xs[1..];
    }
  }

  lemma FindStored(s: Store, order: seq<StoredSession>, id: string)
    requires Ordered(s, order)
    ensures Find(Contents(order), id) == if id in s.sessions then Some(ContentOf(s.sessions[id])) else None
  {
    FindExact(order, id);
  }

  lemma FrontOrdered(s: Store, order: seq<StoredSession>, session: StoredSession, order': seq<StoredSession>)
    requires Ordered(s, order) && session.updatedSeq == s.nextSeq && Falling(order')
    requires forall x :: x in order' <==> x == session || (x in order && x.id != session.id)
    ensures Ordered(Store(s.sessions[session.id := session], s.nextSeq + 1), order')
  {
  }

  lemma FrontMembers(session: StoredSession, rest: seq<StoredSession>)
    ensures forall x :: x in [session] + rest <==> x == session || x in rest
  {
  }

  // A session written with the next sequence number goes to the front.
  lemma FrontKeeps(s: Store, order: seq<StoredSession>, session: StoredSession)
    requires Ordered(s, order) && session.updatedSeq == s.nextSeq
    ensures var s' := Store(s.sessions[session.id := session], s.nextSeq + 1);
            Refines(s', [session] + Remove(order, session.id),
                    [ContentOf(session)] + Without(Contents(order), session.id))
  {
    var rest := Remove(order, session.id);
    RemoveFalling(order, session.id);
    RemoveIsWithout(order, session.id);
    FallingFront(session, rest);
    FrontMembers(session, rest);
    FrontOrdered(s, order, session, [session] + rest);
  }

  lemma DeleteKeeps(s: Store, order: seq<StoredSession>, id: string)
    requires Ordered(s, order)
    ensures Refines(s.(sessions := s.sessions - {id}), Remove(order, id), Without(Contents(order), id))
  {
    RemoveFalling(order, id);
    RemoveIsWithout(order, id);
    var s' := s.(sessions := s.sessions - {id});
    assert forall i :: i in s'.sessions <==> i in s.sessions && i != id;
    assert Ordered(s', Remove(order, id));
  }

  lemma StepRefines(s: Store, order: seq<StoredSession>, r: Recency, op: Op) returns (order': seq<StoredSession>)
    requires Refines(s, order, r)
    ensures Refines(Apply(s, op), order', Abstract(r, op))
  {
    match op {
      case Create(id, name, now) =>
        var session := StoredSession(id, name, [], now, now, s.nextSeq);
        FrontKeeps(s, order, session);
        order' := [session] + Remove(order, id);
      case Append(id, message, now) =>
        FindStored(s, order, id);
        if id in s.sessions {
          var was := s.sessions[id];
          var session := was.(messages := was.messages + [message], updatedAt := now, updatedSeq := s.nextSeq);
          FrontKeeps(s, order, session);
          order' := [session] + Remove(order, id);
        } else {
          order' := order;
        }
      case Delete(id) =>
        DeleteKeeps(s, order, id);
        order' := Remove(order, id);
    }
  }

  function Run(s: Store, ops: seq<Op>): Store
    decreases |ops|
  {
    if ops == [] then s else Run(Apply(s, ops[0]), ops[1..])
  }

  // Over every sequence of creates, appends and deletes: sequence numbers stay
  // distinct and below the counter, and the store stands for the move-to-front list.
  lemma {:induction false} RunRefines(s: Store, order: seq<StoredSession>, r: Recency, ops: seq<Op>)
    returns (order': seq<StoredSession>)
    requires Refines(s, order, r)
    ensures Refines(Run(s, ops), order', AbstractRun(r, ops))
    decreases |ops|
  {
    if ops == [] {
      order' := order;
    } else {
      var order1 := StepRefines(s, order, r, ops[0]);
      order' := RunRefines(Apply(s, ops[0]), order1, Abstract(r, ops[0]), ops[1..]);
    }
  }

  // From the empty store.
  lemma EveryStore(ops: seq<Op>) returns (order: seq<StoredSession>)
    ensures Refines(Run(Store(map[], 0), ops), order, AbstractRun([], ops))
  {
    order := RunRefines(Store(map[], 0), [], [], ops);
  }

  // --------------------------------------------------------------------- listing

  lemma SameHead(xs: seq<StoredSession>, ys: seq<StoredSession>)
    requires Falling(xs) && Falling(ys) && xs != []
    requires forall x :: x in xs <==> x in ys
    ensures ys != [] && xs[0] == ys[0]
  {
    assert xs[0] in ys;
    assert ys[0] in xs;
    var i :| 0 <= i < |ys| && ys[i] == xs[0];
    var j :| 0 <= j < |xs| && xs[j] == ys[0];
  }

  // Sorting by sequence number can only produce the order of the store: there is one
  // falling list of its sessions.
  lemma {:induction false} FallingUnique(xs: seq<StoredSession>, ys: seq<StoredSession>)
    requires Falling(xs) && Falling(ys)
    requires forall x :: x in xs <==> x in ys
    ensures xs == ys
    decreases |xs|
  {
    if xs == [] {
      assert forall i :: 0 <= i < |ys| ==> ys[i] in xs;
    } else {
      SameHead(xs, ys);
      forall x ensures x in xs[1..] <==> x in ys[1..] {
        TailMembers(xs, x);
        TailMembers(ys, x);
      }
      TailFalling(xs);
      TailFalling(ys);
      FallingUnique(xs[1..], ys[1..]);
      assert xs == [xs[0]] + xs[1..] && ys == [ys[0]] + ys[1..];
    }
  }

  lemma TailMembers(xs: seq<StoredSession>, x: StoredSession)
    requires xs != [] && Falling(xs)
    ensures x in xs[1..] <==> x in xs && x != xs[0]
  {
    assert xs == [xs[0]] + xs[1..];
    assert forall i :: 0 <= i < |xs[1..]| ==> xs[1..][i] == xs[i + 1] != xs[0];
  }

  // Insertion by falling sequence number.
  function InsertSorted(xs: seq<StoredSession>, x: StoredSession): (r: seq<StoredSession>)
    ensures forall y :: y in r <==> y == x || y in xs
  {
    if xs == [] || x.updatedSeq >= xs[0].updatedSeq then [x] + xs else [xs[0]] + InsertSorted(xs[1..], x)
  }

  lemma {:induction false} InsertFalling(xs: seq<StoredSession>, x: StoredSession)
    requires Falling(xs) && forall y :: y in xs ==> y.updatedSeq != x.updatedSeq
    ensures Falling(InsertSorted(xs, x))
  {
    if xs != [] {
      assert xs[0] in xs;
      TailFalling(xs);
      if x.updatedSeq < xs[0].updatedSeq {
        InsertFalling(xs[1..], x);
        FallingFront(xs[0], InsertSorted(xs[1..], x));
      } else {
        FallingFront(x, xs);
      }
    }
  }

  // Stored sessions with equal sequence numbers are the same.
  lemma DistinctSeqs(s: Store, order: seq<StoredSession>, a: string, b: string)
    requires Ordered(s, order) && a in s.sessions && b in s.sessions
    requires s.sessions[a].updatedSeq == s.sessions[b].updatedSeq
    ensures a == b
  {
    var i :| 0 <= i < |order| && order[i] == s.sessions[a];
    var j :| 0 <= j < |order| && order[j] == s.sessions[b];
  }

  // -------------------------------------------------------------- the store as written

  class MemorySessionStore {
    var sessions: map<string, StoredSession>
    var nextSeq: nat
    ghost var order: seq<StoredSession>
    ghost var recency: Recency

    ghost function State(): Store
      reads this
    {
      Store(sessions, nextSeq)
    }

    ghost predicate Valid()
      reads this
    {
      Refines(State(), order, recency)
    }

    constructor ()
      ensures Valid() && recency == [] && nextSeq == 0
    {
      sessions, nextSeq := map[], 0;
      order, recency := [], [];
    }

    // `create` uninterrupted; the id comes from a generator of unique ids, the time from the clock.
    method CreateSession(id: string, name: string, now: int)
      requires Valid()
      modifies this
      ensures Valid() && recency == Abstract(old(recency), Create(id, name, now))
      ensures State() == Apply(old(State()), Create(id, name, now))
      ensures nextSeq == old(nextSeq) + 1
      ensures sessions == old(sessions)[id := StoredSession(id, name, [], now, now, old(nextSeq))]
    {
      order := StepRefines(State(), order, recency, Create(id, name, now));
      recency := Abstract(recency, Create(id, name, now));
      var ticket := nextSeq;
      nextSeq := nextSeq + 1;
      sessions := sessions[id := StoredSession(id, name, [], now, now, ticket)];
      assert State() == Apply(old(State()), Create(id, name, now));
    }

    method AppendMessage(id: string, role: string, content: string, now: int) returns (ok: bool)
      requires Valid()
      modifies this
      ensures Valid() && recency == Abstract(old(recency), Append(id, StoredMessage(role, content), now))
      ensures State() == Apply(old(State()), Append(id, StoredMessage(role, content), now))
      ensures ok == old(Find(recency, id).Some?) == (id in old(sessions))
      ensures !ok ==> sessions == old(sessions) && nextSeq == old(nextSeq)
      ensures ok ==>
                var was := old(sessions)[id];
                && nextSeq == old(nextSeq) + 1
                && sessions == old(sessions)[id :=
                     StoredSession(was.id, was.name, was.messages + [StoredMessage(role, content)],
                                   was.createdAt, now, old(nextSeq))]
    {
      var message := StoredMessage(role, content);
      ghost var before := State();
      FindStored(before, order, id);
      order := StepRefines(before, order, recency, Append(id, message, now));
      recency := Abstract(recency, Append(id, message, now));
      ok := id in sessions;
      if ok {
        Touch(id, message, now);
      }
      assert State() == Apply(before, Append(id, message, now));
    }

    // The entry found is changed in place.
    method Touch(id: string, message: StoredMessage, now: int)
      requires id in sessions
      modifies this`sessions, this`nextSeq
      ensures State() == Apply(old(State()), Append(id, message, now))
    {
      var session := sessions[id];
      session := session.(messages := session.messages + [message]);
      session := session.(updatedAt := now);
      session := session.(updatedSeq := nextSeq);
      nextSeq := nextSeq + 1;
      sessions := sessions[id := session];
    }

    method GetSession(id: string) returns (session: Option<StoredSession>)
      requires Valid()
      ensures session == if id in sessions then Some(sessions[id]) else None
      ensures Find(recency, id) == match session case None => None case Some(s) => Some(ContentOf(s))
    {
      FindStored(State(), order, id);
      session := if id in sessions then Some(sessions[id]) else None;
    }

    method DeleteSession(id: string)
      requires Valid()
      modifies this
      ensures Valid() && recency == Abstract(old(recency), Delete(id))
      ensures State() == Apply(old(State()), Delete(id))
      ensures nextSeq == old(nextSeq) && sessions == old(sessions) - {id}
    {
      order := StepRefines(State(), order, recency, Delete(id));
      recency := Abstract(recency, Delete(id));
      sessions := sessions - {id};
      assert State() == Apply(old(State()), Delete(id));
    }

    // `list`: the values in any order, sorted; always the move-to-front list.
    method List() returns (list: seq<StoredSession>)
      requires Valid()
      ensures Contents(list) == recency
      ensures forall i, j :: 0 <= i < j < |list| ==> list[i].updatedSeq > list[j].updatedSeq
      ensures forall x :: x in list <==> x.id in sessions && sessions[x.id] == x
    {
      list := [];
      var ids := sessions.Keys;
      while ids != {}
        invariant ids <= sessions.Keys
        invariant Falling(list)
        invariant forall x :: x in list <==> x.id in sessions && x.id !in ids && sessions[x.id] == x
        decreases |ids|
      {
        var id :| id in ids;
        forall x | x in list ensures x.updatedSeq != sessions[id].updatedSeq {
          if x.updatedSeq == sessions[id].updatedSeq { DistinctSeqs(State(), order, x.id, id); }
        }
        InsertFalling(list, sessions[id]);
        list := InsertSorted(list, sessions[id]);
        ids := ids - {id};
      }
      FallingUnique(list, order);
    }
  }
}
