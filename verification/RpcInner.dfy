/**
 The shared state of the correlation client and its loops as the code runs them when
 nothing interferes: the drains and the read loop.
 */
module RpcInner {
  import opened Bytes
  import opened RpcClient

  // A decoded frame, classified. The acknowledgement of a reverse request and
  // notification handlers do not touch the waiters.
  datatype Incoming = Answer(id: Id) | Elsewhere

  // The first frame at or after `from` that answers `id`.
  function FirstAnswer(frames: seq<Incoming>, from: nat, id: Id): Option<nat>
    requires from <= |frames|
    decreases |frames| - from
  {
    if from == |frames| then None
    else if frames[from] == Answer(id) then Some(from)
    else FirstAnswer(frames, from + 1, id)
  }

  // What a waiter gets from the rest of the stream: the first answer with its id, or
  // connection-closed at the end.
  function Fate(frames: seq<Incoming>, from: nat, id: Id): Outcome
    requires from <= |frames|
  {
    match FirstAnswer(frames, from, id)
    case Some(k) => Response(k)
    case None => ConnectionClosed
  }

  lemma {:induction false} FirstAnswerExact(frames: seq<Incoming>, from: nat, id: Id)
    requires from <= |frames|
    ensures match FirstAnswer(frames, from, id)
            case Some(k) => from <= k < |frames| && frames[k] == Answer(id) && Answer(id) !in frames[from..k]
            case None => Answer(id) !in frames[from..]
    decreases |frames| - from
  {
    if from < |frames| && frames[from] != Answer(id) {
      FirstAnswerExact(frames, from + 1, id);
      assert frames[from..] == [frames[from]] + frames[from + 1..];
      match FirstAnswer(frames, from + 1, id) {
        case Some(k) => assert frames[from..k] == [frames[from]] + frames[from + 1..k];
        case None =>
      }
    }
  }

  class Inner {
    var closed: bool
    var pending: set<Id>
    var sent: map<Id, Outcome>

    constructor ()
      ensures !closed && pending == {} && sent == map[]
    {
      closed, pending, sent := false, {}, map[];
    }

    // Every sender in the map is used, once, with connection-closed.
    method Drain()
      requires pending !! sent.Keys
      modifies this`pending, this`sent
      ensures pending == {}
      ensures sent == old(sent) + map i | i in old(pending) :: ConnectionClosed
    {
      while pending != {}
        invariant pending <= old(pending)
        invariant sent == old(sent) + map i | i in old(pending) - pending :: ConnectionClosed
        decreases pending
      {
        var id :| id in pending;
        pending := pending - {id};
        sent := sent[id := ConnectionClosed];
      }
    }

    // `fail_transport`
    method FailTransport()
      requires pending !! sent.Keys
      modifies this`closed, this`pending, this`sent
      ensures closed && pending == {}
      ensures sent == old(sent) + map i | i in old(pending) :: ConnectionClosed
    {
      closed := true;
      Drain();
    }

    // `dispatch` of a response: an unknown or repeated id is dropped.
    method DispatchResponse(id: Id, frame: nat)
      requires pending !! sent.Keys
      modifies this`pending, this`sent
      ensures pending !! sent.Keys && pending == old(pending) - {id}
      ensures sent == if id in old(pending) then old(sent)[id := Response(frame)] else old(sent)
    {
      if id in pending {
        pending := pending - {id};
        sent := sent[id := Response(frame)];
      }
    }

    // `read_loop` to the end of the stream: each waiter present at the start gets the
    // first answer with its id, whatever other, repeated or unknown ids the peer sends,
    // or connection-closed; senders used before keep what they were used for.
    method RunReadLoop(frames: seq<Incoming>)
      requires pending !! sent.Keys
      modifies this`closed, this`pending, this`sent
      ensures closed && pending == {}
      ensures sent == old(sent) + map i | i in old(pending) :: Fate(frames, 0, i)
    {
      for k := 0 to |frames|
        invariant pending !! sent.Keys && pending <= old(pending)
        invariant sent.Keys == old(sent).Keys + (old(pending) - pending)
        invariant forall i :: i in old(sent) ==> sent[i] == old(sent)[i]
        invariant forall i :: i in old(pending) && i !in pending ==> sent[i] == Fate(frames, 0, i)
        invariant forall i :: i in pending ==> Fate(frames, k, i) == Fate(frames, 0, i)
      {
        if frames[k].Answer? {
          DispatchResponse(frames[k].id, k);
        }
      }
      closed := true;
      Drain();
    }
  }

  // ------------------------------------------------- the drain inside the step system

  // The steps of a drain by `t`, in any order of its senders.
  function SendAll(t: TaskIx, ids: seq<Id>): seq<Step> {
    if ids == [] then [ByTask(t, FinishDrain)] else [ByTask(t, SendClosed(ids[0]))] + SendAll(t, ids[1..])
  }

  predicate NoRepeats(ids: seq<Id>) {
    forall j, k :: 0 <= j < k < |ids| ==> ids[j] != ids[k]
  }

  function UseAll(w: Waiters, ids: seq<Id>): Waiters
    decreases |ids|
  {
    if ids == [] then w else UseAll(Use(w, ids[0], ConnectionClosed), ids[1..])
  }

  function Ids(ids: seq<Id>): set<Id> {
    set i | i in ids
  }

  lemma {:induction false} UseAllExact(w: Waiters, ids: seq<Id>)
    ensures UseAll(w, ids).pending == w.pending
    ensures UseAll(w, ids).hands == w.hands - Ids(ids)
    ensures UseAll(w, ids).sent.Keys == w.sent.Keys + Ids(ids)
    ensures forall i :: i in UseAll(w, ids).sent ==>
              UseAll(w, ids).sent[i] == if i in Ids(ids) then ConnectionClosed else w.sent[i]
    decreases |ids|
  {
    if ids == [] {
      assert Ids(ids) == {};
      assert w.hands - {} == w.hands;
    } else {
      var w1 := Use(w, ids[0], ConnectionClosed);
      UseAllExact(w1, ids[1..]);
      assert ids == [ids[0]] + ids[1..];
      assert Ids(ids) == {ids[0]} + Ids(ids[1..]);
      assert w1.hands - Ids(ids[1..]) == w.hands - Ids(ids);
    }
  }

  // A drain that holds `ids` can always run to its end; it uses exactly those senders.
  lemma {:induction false} DrainRuns(s: State, t: TaskIx, ids: seq<Id>)
    requires t < |s.tasks| && s.tasks[t].pc.Draining? && NoRepeats(ids)
    requires forall i :: i in ids <==> i in s.waiters.hands && s.waiters.hands[i] == Caller(t)
    ensures IsRun(s, SendAll(t, ids))
    ensures After(s, SendAll(t, ids))
         == s.(tasks := s.tasks[t := s.tasks[t].(pc := Done(s.tasks[t].pc.why))], waiters := UseAll(s.waiters, ids))
    decreases |ids|
  {
    if ids == [] {
      assert [ByTask(t, FinishDrain)][1..] == [];
    } else {
      var step := ByTask(t, SendClosed(ids[0]));
      var s1 := Apply(s, step);
      assert s1 == s.(waiters := Use(s.waiters, ids[0], ConnectionClosed));
      RestOfDrain(s.waiters.hands, Caller(t), ids);
      DrainRuns(s1, t, ids[1..]);
      assert SendAll(t, ids) == [step] + SendAll(t, ids[1..]);
    }
  }

  lemma RestOfDrain(hands: map<Id, Actor>, a: Actor, ids: seq<Id>)
    requires ids != [] && NoRepeats(ids)
    requires forall i :: i in ids <==> i in hands && hands[i] == a
    ensures var rest := hands - {ids[0]};
            forall i :: i in ids[1..] <==> i in rest && rest[i] == a
    ensures NoRepeats(ids[1..]) && ids[0] in hands && hands[ids[0]] == a
  {
    assert ids == [ids[0]] + ids[1..];
    assert forall k :: 0 <= k < |ids[1..]| ==> ids[1..][k] == ids[k + 1] != ids[0];
    assert ids[0] in ids;
  }
}
