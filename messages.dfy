/**
 * The in-memory message store behind the `/api/messages` routes: an ordered
 * list of at most ten messages and the counter that hands out their ids.
 *
 * Each route is given twice: as a pure step function on a `Snapshot` of the
 * store (the specification, about which the lemmas speak), and as a method of
 * the class `Store`, which changes the store's fields in place the way the
 * handlers change the module-level `messages` array and `nextId`, and is
 * proved to agree with its step function.
 */
module Messages {
  import opened Wrappers
  import opened JsText

  /** The store keeps at most this many messages. */
  const Capacity: nat := 10

  /** One stored entry; `createdAt` is the ISO timestamp taken at creation. */
  datatype Message = Message(id: int, text: string, createdAt: string)

  /** The `text` field of a request body: a JSON string, or anything else
      (missing, null, a number, an object, ...). */
  datatype TextField = Str(s: string) | NotString

  /** The `:id` path parameter after `Number(...)`: the integer it denotes, or
      None when the result is NaN or otherwise equals no integer. */
  type IdParam = Option<int>

  /** What a handler answers: 201 with the new message, 200 with the list,
      with one message, with the updated message or with the removed
      elements, or 400 / 404 with an error body. */
  datatype Response =
    | Created(msg: Message)
    | Listed(all: seq<Message>)
    | Fetched(msg: Message)
    | Updated(msg: Message)
    | Deleted(removed: seq<Message>)
    | BadRequest
    | NotFound

  /** The store's contents, as a value. */
  datatype Snapshot = Snapshot(messages: seq<Message>, nextId: int)

  /** The store at process start. */
  const Empty: Snapshot := Snapshot([], 1)

  /** `m.id === Number(param)`: never true for NaN. */
  predicate HasId(m: Message, id: IdParam) {
    id == Some(m.id)
  }

  /** A text the store may hold: non-empty and already trimmed. */
  predicate IsStoredText(t: string) {
    t != [] && IsTrimmed(t)
  }

  /** The invariant every route keeps: at most `Capacity` entries, ids
      positive, strictly increasing in list order and all below `nextId`
      (so the next id is fresh), and every text non-empty and trimmed. */
  predicate WellFormed(s: Snapshot) {
    && 1 <= s.nextId
    && |s.messages| <= Capacity
    && (forall i, j :: 0 <= i < j < |s.messages| ==> s.messages[i].id < s.messages[j].id)
    && (forall k :: 0 <= k < |s.messages| ==> 1 <= s.messages[k].id < s.nextId)
    && (forall k :: 0 <= k < |s.messages| ==> IsStoredText(s.messages[k].text))
  }

  /** The shared validation of POST and PUT: a string whose trim is not
      empty yields its trimmed value; anything else is rejected. */
  function RequestText(text: TextField): (r: Option<string>)
    ensures r.None? <==> (text.NotString? || IsBlank(text.s))
    ensures r.Some? ==> r.value == Trim(text.s) && IsStoredText(r.value)
  {
    match text
    case NotString => None
    case Str(s) =>
      if Trim(s) == [] then None else Some(Trim(s))
  }

  /** `Array.prototype.findIndex` with the predicate `m.id === id`: the
      first matching position, or -1 when no entry matches. */
  function FindIndex(ms: seq<Message>, id: IdParam): (r: int)
    ensures -1 <= r < |ms|
    ensures r == -1 <==> forall k :: 0 <= k < |ms| ==> !HasId(ms[k], id)
    ensures 0 <= r ==> HasId(ms[r], id) && forall k :: 0 <= k < r ==> !HasId(ms[k], id)
  {
    if ms == [] then -1
    else if HasId(ms[0], id) then 0
    else
      var k := FindIndex(ms[1..], id);
      if k == -1 then -1 else k + 1
  }

  /** POST /api/messages. */
  function CreateStep(s: Snapshot, text: TextField, now: string): (r: (Snapshot, Response))
    ensures r.1.Created? || r.1.BadRequest?
    ensures r.1.BadRequest? <==> (text.NotString? || IsBlank(text.s))
    ensures r.1.BadRequest? ==> r.0 == s
    ensures r.1.Created? ==>
      && r.1.msg == Message(s.nextId, Trim(text.s), now)
      && r.0.nextId == s.nextId + 1
    ensures r.1.Created? && |s.messages| < Capacity ==> r.0.messages == s.messages + [r.1.msg]
    ensures r.1.Created? && |s.messages| >= Capacity ==> r.0.messages == s.messages[1..] + [r.1.msg]
  {
    match RequestText(text)
    case None => (s, BadRequest)
    case Some(t) =>
      var msg := Message(s.nextId, t, now);
      var pushed := s.messages + [msg];
      var kept := if |pushed| > Capacity then pushed[1..] else pushed;
      (Snapshot(kept, s.nextId + 1), Created(msg))
  }

  /** POST keeps the store invariant: the new id exceeds every stored id,
      the new text is trimmed and non-empty, and eviction keeps at most ten. */
  lemma CreateKeepsWellFormed(s: Snapshot, text: TextField, now: string)
    requires WellFormed(s)
    ensures WellFormed(CreateStep(s, text, now).0)
  {
    var r := CreateStep(s, text, now);
    if r.1.Created? {
      var kept := r.0.messages;
      var d := if |s.messages| < Capacity then 0 else 1;
      assert kept == s.messages[d..] + [r.1.msg];
      forall k | 0 <= k < |kept| - 1 ensures kept[k] == s.messages[k + d] { }
    }
  }

  /** GET /api/messages/:id; the store is not changed. */
  function GetStep(s: Snapshot, id: IdParam): (r: Response)
    ensures r.Fetched? || r.NotFound?
    ensures r.NotFound? <==> forall k :: 0 <= k < |s.messages| ==> !HasId(s.messages[k], id)
    ensures r.Fetched? ==> HasId(r.msg, id) && r.msg in s.messages
  {
    var i := FindIndex(s.messages, id);
    if i == -1 then NotFound else Fetched(s.messages[i])
  }

  /** PUT /api/messages/:id: the text is validated before the id is looked
      up, and only the text of the matching entry changes. */
  function UpdateStep(s: Snapshot, id: IdParam, text: TextField): (r: (Snapshot, Response))
    ensures r.1.Updated? || r.1.BadRequest? || r.1.NotFound?
    ensures r.1.BadRequest? <==> (text.NotString? || IsBlank(text.s))
    ensures r.1.NotFound? <==>
      (text.Str? && !IsBlank(text.s) && forall k :: 0 <= k < |s.messages| ==> !HasId(s.messages[k], id))
    ensures !r.1.Updated? ==> r.0 == s
    ensures r.1.Updated? ==>
      var i := FindIndex(s.messages, id);
      && 0 <= i
      && r.0.nextId == s.nextId
      && |r.0.messages| == |s.messages|
      && r.1.msg == r.0.messages[i]
      && r.1.msg == Message(s.messages[i].id, Trim(text.s), s.messages[i].createdAt)
      && forall k :: 0 <= k < |s.messages| && k != i ==> r.0.messages[k] == s.messages[k]
  {
    match RequestText(text)
    case None => (s, BadRequest)
    case Some(t) =>
      var i := FindIndex(s.messages, id);
      if i == -1 then (s, NotFound)
      else
        var changed := s.messages[i].(text := t);
        (s.(messages := s.messages[i := changed]), Updated(changed))
  }

  /** DELETE /api/messages/:id: `splice(idx, 1)` removes the matching entry
      and answers with the array of removed elements. */
  function DeleteStep(s: Snapshot, id: IdParam): (r: (Snapshot, Response))
    ensures r.1.Deleted? || r.1.NotFound?
    ensures r.1.NotFound? <==> forall k :: 0 <= k < |s.messages| ==> !HasId(s.messages[k], id)
    ensures r.1.NotFound? ==> r.0 == s
    ensures r.1.Deleted? ==>
      var i := FindIndex(s.messages, id);
      && 0 <= i
      && r.1.removed == [s.messages[i]]
      && r.0.messages == s.messages[..i] + s.messages[i + 1..]
      && r.0.nextId == s.nextId
  {
    var i := FindIndex(s.messages, id);
    if i == -1 then
      assert forall k :: 0 <= k < |s.messages| ==> !HasId(s.messages[k], id);
      (s, NotFound)
    else
      assert HasId(s.messages[i], id);
      var rest := s.messages[..i] + s.messages[i + 1..];
      (Snapshot(rest, s.nextId), Deleted([s.messages[i]]))
  }

  /** PUT keeps the store invariant: ids are untouched and the new text is
      trimmed and non-empty. */
  lemma UpdateKeepsWellFormed(s: Snapshot, id: IdParam, text: TextField)
    requires WellFormed(s)
    ensures WellFormed(UpdateStep(s, id, text).0)
  {
    var r := UpdateStep(s, id, text);
    if r.1.Updated? {
      var i := FindIndex(s.messages, id);
      assert forall k :: 0 <= k < |s.messages| ==> r.0.messages[k].id == s.messages[k].id;
    }
  }

  /** DELETE keeps the store invariant: removing an entry keeps the others'
      order. */
  lemma DeleteKeepsWellFormed(s: Snapshot, id: IdParam)
    requires WellFormed(s)
    ensures WellFormed(DeleteStep(s, id).0)
  {
    var r := DeleteStep(s, id);
    if r.1.Deleted? {
      var i := FindIndex(s.messages, id);
      var rest := r.0.messages;
      forall k | 0 <= k < |rest| ensures rest[k] == s.messages[if k < i then k else k + 1] { }
    }
  }

  /** The store as the handlers share it: the module-level `messages` array
      and `nextId` counter, changed in place by each route. */
  class Store {
    var messages: seq<Message>
    var nextId: int

    function State(): Snapshot
      reads this
    {
      Snapshot(messages, nextId)
    }

    ghost predicate Valid()
      reads this
    {
      WellFormed(State())
    }

    /** The store at process start: no messages, next id 1. */
    constructor ()
      ensures Valid() && State() == Empty
    {
      messages := [];
      nextId := 1;
    }

    /** POST /api/messages: validate, append with the next id, then evict
        the oldest entry once there are more than `Capacity`. */
    method Create(text: TextField, now: string) returns (r: Response)
      requires Valid()
      modifies this
      ensures Valid()
      ensures (State(), r) == CreateStep(old(State()), text, now)
    {
      ghost var step := CreateStep(State(), text, now);
      CreateKeepsWellFormed(State(), text, now);
      var t := RequestText(text);
      if t.None? {
        return BadRequest;
      }
      var msg := Message(nextId, t.value, now);
      nextId := nextId + 1;
      messages := messages + [msg];
      r := Created(msg);
      if |messages| > Capacity {
        messages := messages[1..];
      }
      assert State() == step.0;
    }

    /** GET /api/messages: the whole list in insertion order. */
    method List() returns (r: Response)
      ensures r == Listed(messages)
    {
      r := Listed(messages);
    }

    /** GET /api/messages/:id. */
    method Get(id: IdParam) returns (r: Response)
      ensures r == GetStep(State(), id)
    {
      var idx := FindIndex(messages, id);
      if idx == -1 {
        return NotFound;
      }
      r := Fetched(messages[idx]);
    }

    /** PUT /api/messages/:id: assigns the trimmed text to the entry found. */
    method Update(id: IdParam, text: TextField) returns (r: Response)
      requires Valid()
      modifies this
      ensures Valid()
      ensures (State(), r) == UpdateStep(old(State()), id, text)
    {
      ghost var step := UpdateStep(State(), id, text);
      UpdateKeepsWellFormed(State(), id, text);
      var t := RequestText(text);
      if t.None? {
        return BadRequest;
      }
      var idx := FindIndex(messages, id);
      if idx == -1 {
        return NotFound;
      }
      messages := messages[idx := messages[idx].(text := t.value)];
      r := Updated(messages[idx]);
      assert State() == step.0;
    }

    /** DELETE /api/messages/:id: `messages.splice(idx, 1)`. */
    method Delete(id: IdParam) returns (r: Response)
      requires Valid()
      modifies this
      ensures Valid()
      ensures (State(), r) == DeleteStep(old(State()), id)
    {
      DeleteKeepsWellFormed(State(), id);
      var idx := FindIndex(messages, id);
      if idx == -1 {
        return NotFound;
      }
      var deleted := [messages[idx]];
      messages := messages[..idx] + messages[idx + 1..];
      r := Deleted(deleted);
    }
  }
}
