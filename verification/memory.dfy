/** The chat memory (`MemoryManager`): one bounded history per session, a
    `deque(maxlen=...)` that drops its oldest message when a new one
    arrives while it is full. */
module Memory {

  /** `{"role": role, "content": content}`. */
  datatype Message = Message(role: string, content: string)

  /** A `deque` with a `maxlen`: its messages, oldest first. */
  datatype History = History(items: seq<Message>, maxlen: nat)

  predicate Bounded(h: History)
  {
    |h.items| <= h.maxlen
  }

  /** The last `n` elements of `s` (all of them when there are fewer). */
  function LastN<T>(s: seq<T>, n: nat): (r: seq<T>)
    ensures |r| <= n && |r| <= |s|
    ensures |s| <= n ==> r == s
  {
    if |s| <= n then s else s[|s| - n..]
  }

  /** `deque.append(m)`: the message becomes the newest; when the deque is
      full its oldest message is dropped and the rest keep their order. A
      deque with `maxlen=0` keeps nothing. */
  function Append(h: History, m: Message): (r: History)
    requires Bounded(h)
    ensures r.maxlen == h.maxlen && Bounded(r)
    ensures |h.items| < h.maxlen ==> r.items == h.items + [m]
    ensures 0 < h.maxlen == |h.items| ==> r.items == h.items[1..] + [m]
    ensures h.maxlen == 0 ==> r.items == []
  {
    History(LastN(h.items + [m], h.maxlen), h.maxlen)
  }

  /** Appending the messages one by one, oldest first. */
  function AppendAll(h: History, ms: seq<Message>): (r: History)
    requires Bounded(h)
    ensures r.maxlen == h.maxlen && Bounded(r)
    decreases |ms|
  {
    if ms == [] then h else AppendAll(Append(h, ms[0]), ms[1..])
  }

  /** A history is always the latest `maxlen` messages of its whole log:
      appending to a history that holds the last `maxlen` messages of a log
      gives the last `maxlen` messages of the longer log. */
  lemma {:induction false} AppendAllKeepsLatest(log: seq<Message>, ms: seq<Message>, cap: nat)
    ensures AppendAll(History(LastN(log, cap), cap), ms) == History(LastN(log + ms, cap), cap)
    decreases |ms|
  {
    if ms != [] {
      var h := History(LastN(log, cap), cap);
      LastNStep(log, ms[0], cap);
      assert Append(h, ms[0]) == History(LastN(log + [ms[0]], cap), cap);
      AppendAllKeepsLatest(log + [ms[0]], ms[1..], cap);
      assert (log + [ms[0]]) + ms[1..] == log + ms;
    } else {
      assert log + ms == log;
    }
  }

  lemma LastNStep(log: seq<Message>, m: Message, cap: nat)
    ensures LastN(LastN(log, cap) + [m], cap) == LastN(log + [m], cap)
  {
    if |log| > cap {
      var t := log[|log| - cap..];
      if cap > 0 {
        assert (t + [m])[1..] == (log + [m])[|log| + 1 - cap..];
      }
    }
  }

  /** From an empty history, the messages kept are the last `cap` ones. */
  lemma FromEmptyKeepsLatest(ms: seq<Message>, cap: nat)
    ensures AppendAll(History([], cap), ms).items == LastN(ms, cap)
  {
    AppendAllKeepsLatest([], ms, cap);
    assert [] + ms == ms;
  }

  class MemoryManager {
    /** `short_term_limit`, the capacity of implicitly created histories. */
    var limit: nat
    var sessions: map<string, History>

    ghost predicate Valid()
      reads this
    {
      forall id :: id in sessions ==> Bounded(sessions[id])
    }

    /** The history `self.short_term_memory[id]` reads: the stored one, or
        the new empty one the `defaultdict` creates. */
    function Lookup(id: string): (h: History)
      reads this
      requires Valid()
      ensures Bounded(h)
      ensures id !in sessions ==> h == History([], limit)
    {
      if id in sessions then sessions[id] else History([], limit)
    }

    constructor (shortTermLimit: nat)
      ensures limit == shortTermLimit && sessions == map[]
      ensures Valid()
    {
      limit := shortTermLimit;
      sessions := map[];
    }

    /** `new_session()` with the fresh id `freshId` (`uuid4()` in the
        source): an empty history of capacity 5, whatever the limit. */
    method NewSession(freshId: string) returns (id: string)
      requires Valid()
      modifies this
      ensures id == freshId
      ensures sessions == old(sessions)[freshId := History([], 5)]
      ensures limit == old(limit)
      ensures Valid()
    {
      sessions := sessions[freshId := History([], 5)];
      id := freshId;
    }

    /** `add_message(session_id, role, content)`: appended to that session's
        history, created with capacity `limit` when missing; every other
        session is unchanged. */
    method AddMessage(sessionId: string, role: string, content: string)
      requires Valid()
      modifies this
      ensures sessions == old(sessions)[sessionId := Append(old(Lookup(sessionId)), Message(role, content))]
      ensures limit == old(limit)
      ensures Valid()
    {
      var h := Lookup(sessionId);
      sessions := sessions[sessionId := Append(h, Message(role, content))];
    }

    /** `get_short_term_memory(session_id)`: the messages oldest first. An
        unknown id yields `[]` and, through the `defaultdict`, is inserted
        with an empty history. */
    method GetShortTermMemory(sessionId: string) returns (messages: seq<Message>)
      requires Valid()
      modifies this
      ensures messages == old(Lookup(sessionId)).items
      ensures sessionId !in old(sessions) ==> messages == []
      ensures sessions == old(sessions)[sessionId := old(Lookup(sessionId))]
      ensures limit == old(limit)
      ensures Valid()
    {
      var h := Lookup(sessionId);
      sessions := sessions[sessionId := h];
      messages := h.items;
    }
  }

  /** A fresh session reads back empty, and after one message it holds
      exactly that message. */
  method NewSessionThenAdd(mm: MemoryManager, freshId: string, role: string, content: string)
    returns (before: seq<Message>, after: seq<Message>)
    requires mm.Valid()
    modifies mm
    ensures before == [] && after == [Message(role, content)]
  {
    var id := mm.NewSession(freshId);
    before := mm.GetShortTermMemory(id);
    mm.AddMessage(id, role, content);
    after := mm.GetShortTermMemory(id);
  }
}
