/**
 * The session memory store of the TechAssist agent: per-session records
 * (owner, topic, summary, key decisions) kept in a dictionary keyed by
 * session id. Python dictionaries iterate in insertion order, so the store
 * also keeps the ids in the order they were created.
 */
module Sessions {
  import opened Wrappers
  import opened Digraph

  datatype SessionMemory = SessionMemory(
    sessionId: string,
    userId: string,
    topic: string,
    summary: string,
    keyDecisions: seq<string>,
    createdAt: string)

  /** A fresh record: empty topic, summary and decisions, stamped with `now`. */
  function NewSession(sessionId: string, userId: string, now: string): SessionMemory {
    SessionMemory(sessionId, userId, "", "", [], now)
  }

  /** The sessions after `get_or_create`: a new record only when the id is unknown. */
  function Created(sessions: map<string, SessionMemory>, sessionId: string, userId: string, now: string): map<string, SessionMemory> {
    if sessionId in sessions then sessions else sessions[sessionId := NewSession(sessionId, userId, now)]
  }

  /**
   * `get_or_create` is idempotent: a second call, with any user id and time,
   * changes nothing, and the record keeps the user id of the first call.
   */
  lemma CreatedIdempotent(sessions: map<string, SessionMemory>, sessionId: string, userId: string, now: string,
                          otherUser: string, later: string)
    ensures Created(Created(sessions, sessionId, userId, now), sessionId, otherUser, later)
         == Created(sessions, sessionId, userId, now)
    ensures sessionId !in sessions ==> Created(sessions, sessionId, userId, now)[sessionId].userId == userId
    ensures sessionId in sessions ==> Created(sessions, sessionId, userId, now)[sessionId] == sessions[sessionId]
  {
  }

  /** The sessions after applying `change` to the record of `sessionId`, if there is one. */
  function Updated(sessions: map<string, SessionMemory>, sessionId: string, change: SessionMemory -> SessionMemory): map<string, SessionMemory> {
    if sessionId in sessions then sessions[sessionId := change(sessions[sessionId])] else sessions
  }

  function WithSummary(summary: string): SessionMemory -> SessionMemory {
    (s: SessionMemory) => s.(summary := summary)
  }

  function WithTopic(topic: string): SessionMemory -> SessionMemory {
    (s: SessionMemory) => s.(topic := topic)
  }

  function WithDecision(decision: string): SessionMemory -> SessionMemory {
    (s: SessionMemory) => s.(keyDecisions := s.keyDecisions + [decision])
  }

  /** Updating an unknown id changes nothing; updating a known one touches that record only. */
  lemma UpdatedFrame(sessions: map<string, SessionMemory>, sessionId: string, change: SessionMemory -> SessionMemory, other: string)
    ensures sessionId !in sessions ==> Updated(sessions, sessionId, change) == sessions
    ensures Updated(sessions, sessionId, change).Keys == sessions.Keys
    ensures other != sessionId && other in sessions ==> Updated(sessions, sessionId, change)[other] == sessions[other]
  {
  }

  /** Decisions accumulate in call order. */
  lemma DecisionsInOrder(sessions: map<string, SessionMemory>, sessionId: string, first: string, second: string)
    requires sessionId in sessions
    ensures Updated(Updated(sessions, sessionId, WithDecision(first)), sessionId, WithDecision(second))[sessionId].keyDecisions
         == sessions[sessionId].keyDecisions + [first, second]
  {
    var once := Updated(sessions, sessionId, WithDecision(first));
    assert once[sessionId].keyDecisions == sessions[sessionId].keyDecisions + [first];
  }

  /** The records, in id order, whose owner is `userId`. */
  function OwnedBy(order: seq<string>, sessions: map<string, SessionMemory>, userId: string): (r: seq<SessionMemory>)
    requires forall i :: 0 <= i < |order| ==> order[i] in sessions
    decreases |order|
  {
    if order == [] then []
    else
      var front := order[..|order| - 1];
      var s := sessions[order[|order| - 1]];
      OwnedBy(front, sessions, userId) + (if s.userId == userId then [s] else [])
  }

  /** `list_sessions(user_id)` returns exactly the records owned by that user. */
  lemma {:induction false} OwnedByIff(order: seq<string>, sessions: map<string, SessionMemory>, userId: string, x: SessionMemory)
    requires forall i :: 0 <= i < |order| ==> order[i] in sessions
    ensures x in OwnedBy(order, sessions, userId)
        <==> x.userId == userId && exists i :: 0 <= i < |order| && sessions[order[i]] == x
    decreases |order|
  {
    if order != [] {
      var front := order[..|order| - 1];
      OwnedByIff(front, sessions, userId, x);
      if exists i :: 0 <= i < |order| && sessions[order[i]] == x {
        var i :| 0 <= i < |order| && sessions[order[i]] == x;
        if i < |front| {
          assert front[i] == order[i];
        }
      }
      if exists i :: 0 <= i < |front| && sessions[front[i]] == x {
        var i :| 0 <= i < |front| && sessions[front[i]] == x;
        assert order[i] == front[i];
      }
    }
  }

  class SessionMemoryStore {
    var sessions: map<string, SessionMemory>
    /** The session ids in insertion order (the iteration order of the dictionary). */
    var order: seq<string>

    /** The id list names every stored session exactly once. */
    ghost predicate Valid()
      reads this
    {
      Distinct(order) && (forall x :: x in order <==> x in sessions)
    }

    constructor()
      ensures sessions == map[] && order == []
      ensures Valid()
    {
      sessions := map[];
      order := [];
    }

    /** `get_or_create(session_id, user_id)`: the stored record, created first if the id is new. */
    method GetOrCreate(sessionId: string, userId: string, now: string) returns (s: SessionMemory)
      requires Valid()
      modifies this
      ensures Valid()
      ensures sessions == Created(old(sessions), sessionId, userId, now)
      ensures order == if sessionId in old(sessions) then old(order) else old(order) + [sessionId]
      ensures sessionId in sessions && s == sessions[sessionId]
    {
      if sessionId !in sessions {
        sessions := sessions[sessionId := NewSession(sessionId, userId, now)];
        order := order + [sessionId];
      }
      s := sessions[sessionId];
    }

    /** `get(session_id)`. */
    function Get(sessionId: string): (r: Option<SessionMemory>)
      reads this
      ensures r.Some? <==> sessionId in sessions
      ensures r.Some? ==> r.value == sessions[sessionId]
    {
      if sessionId in sessions then Some(sessions[sessionId]) else None
    }

    method UpdateSummary(sessionId: string, summary: string)
      requires Valid()
      modifies this
      ensures Valid() && order == old(order)
      ensures sessions == Updated(old(sessions), sessionId, WithSummary(summary))
    {
      if sessionId in sessions {
        sessions := sessions[sessionId := sessions[sessionId].(summary := summary)];
      }
    }

    method UpdateTopic(sessionId: string, topic: string)
      requires Valid()
      modifies this
      ensures Valid() && order == old(order)
      ensures sessions == Updated(old(sessions), sessionId, WithTopic(topic))
    {
      if sessionId in sessions {
        sessions := sessions[sessionId := sessions[sessionId].(topic := topic)];
      }
    }

    method AddDecision(sessionId: string, decision: string)
      requires Valid()
      modifies this
      ensures Valid() && order == old(order)
      ensures sessions == Updated(old(sessions), sessionId, WithDecision(decision))
    {
      if sessionId in sessions {
        var s := sessions[sessionId];
        sessions := sessions[sessionId := s.(keyDecisions := s.keyDecisions + [decision])];
      }
    }

    /** `list_sessions(user_id)`: the user's records in insertion order. */
    function ListSessions(userId: string): (r: seq<SessionMemory>)
      reads this
      requires Valid()
      ensures forall x :: x in r <==> x.userId == userId && exists i :: 0 <= i < |order| && sessions[order[i]] == x
    {
      var r := OwnedBy(order, sessions, userId);
      assert forall x :: x in r <==> x.userId == userId && exists i :: 0 <= i < |order| && sessions[order[i]] == x by {
        forall x ensures x in r <==> x.userId == userId && exists i :: 0 <= i < |order| && sessions[order[i]] == x {
          OwnedByIff(order, sessions, userId, x);
        }
      }
      r
    }

    /** `delete(session_id)`: true exactly when the session existed; it is gone afterwards. */
    method Delete(sessionId: string) returns (deleted: bool)
      requires Valid()
      modifies this
      ensures Valid()
      ensures deleted <==> sessionId in old(sessions)
      ensures sessions == old(sessions) - {sessionId}
      ensures order == if deleted then Without(old(order), sessionId) else old(order)
    {
      if sessionId in sessions {
        sessions := sessions - {sessionId};
        order := Without(order, sessionId);
        return true;
      }
      return false;
    }
  }
}
