/**
 * The message routes as a server sees them: a sequence of requests, each
 * handled to completion before the next (the runtime is single-threaded),
 * and properties that relate several requests.
 */
module MessageTraces {
  import opened Wrappers
  import opened JsText
  import opened Messages

  /** One HTTP request to the message API. */
  datatype Request =
    | Post(text: TextField, now: string)
    | GetAll
    | GetOne(id: IdParam)
    | Put(id: IdParam, text: TextField)
    | Remove(id: IdParam)

  /** Routes a request to its handler. */
  function Handle(s: Snapshot, req: Request): (r: (Snapshot, Response))
    ensures r.1.Created? ==> r.1.msg.id == s.nextId && r.0.nextId == s.nextId + 1
    ensures !r.1.Created? ==> r.0.nextId == s.nextId
    ensures req.GetAll? || req.GetOne? ==> r.0 == s
  {
    match req
    case Post(text, now) => CreateStep(s, text, now)
    case GetAll => (s, Listed(s.messages))
    case GetOne(id) => (s, GetStep(s, id))
    case Put(id, text) => UpdateStep(s, id, text)
    case Remove(id) => DeleteStep(s, id)
  }

  /** Handles `reqs` in order from `s`: the final store and one response per
      request. */
  function Run(s: Snapshot, reqs: seq<Request>): (r: (Snapshot, seq<Response>))
    ensures |r.1| == |reqs|
    ensures s.nextId <= r.0.nextId
    decreases |reqs|
  {
    if reqs == [] then (s, [])
    else
      var prev := Run(s, reqs[..|reqs| - 1]);
      var last := Handle(prev.0, reqs[|reqs| - 1]);
      (last.0, prev.1 + [last.1])
  }

  /** Every route keeps the store invariant. */
  lemma HandleKeepsWellFormed(s: Snapshot, req: Request)
    requires WellFormed(s)
    ensures WellFormed(Handle(s, req).0)
  {
    match req
    case Post(text, now) => CreateKeepsWellFormed(s, text, now);
    case GetAll =>
    case GetOne(_) =>
    case Put(id, text) => UpdateKeepsWellFormed(s, id, text);
    case Remove(id) => DeleteKeepsWellFormed(s, id);
  }

  /** Any sequence of requests keeps the store invariant. */
  lemma {:induction false} RunKeepsWellFormed(s: Snapshot, reqs: seq<Request>)
    requires WellFormed(s)
    ensures WellFormed(Run(s, reqs).0)
    decreases |reqs|
  {
    if reqs != [] {
      var front := reqs[..|reqs| - 1];
      RunKeepsWellFormed(s, front);
      HandleKeepsWellFormed(Run(s, front).0, reqs[|reqs| - 1]);
    }
  }

  /** Every message created in `rs` has an id in `[lo, hi)`. */
  predicate CreatedIdsWithin(rs: seq<Response>, lo: int, hi: int) {
    forall i :: 0 <= i < |rs| && rs[i].Created? ==> lo <= rs[i].msg.id < hi
  }

  /** The ids of the messages created in `rs` strictly increase. */
  predicate CreatedIdsIncrease(rs: seq<Response>) {
    forall i, j :: 0 <= i < j < |rs| && rs[i].Created? && rs[j].Created? ==> rs[i].msg.id < rs[j].msg.id
  }

  /** Ids are never reused: the ids of the messages created along any run
      strictly increase and lie in `[s.nextId, final nextId)`. */
  lemma {:induction false} CreatedIdsFresh(s: Snapshot, reqs: seq<Request>)
    ensures CreatedIdsWithin(Run(s, reqs).1, s.nextId, Run(s, reqs).0.nextId)
    ensures CreatedIdsIncrease(Run(s, reqs).1)
    decreases |reqs|
  {
    if reqs != [] {
      var front := reqs[..|reqs| - 1];
      CreatedIdsFresh(s, front);
      var prev := Run(s, front);
      var last := Handle(prev.0, reqs[|reqs| - 1]);
      var rs := prev.1 + [last.1];
      assert Run(s, reqs) == (last.0, rs);
      assert CreatedIdsWithin(rs, s.nextId, last.0.nextId) by {
        forall i | 0 <= i < |rs| && rs[i].Created?
          ensures s.nextId <= rs[i].msg.id < last.0.nextId
        {
          if i < |prev.1| { assert rs[i] == prev.1[i]; }
        }
      }
      assert CreatedIdsIncrease(rs) by {
        forall i, j | 0 <= i < j < |rs| && rs[i].Created? && rs[j].Created?
          ensures rs[i].msg.id < rs[j].msg.id
        {
          assert rs[i] == prev.1[i];
          if j < |prev.1| { assert rs[j] == prev.1[j]; }
        }
      }
    }
  }

  /** A message created along a run never gets the id of an entry that was
      in the (well-formed) store when the run began, even if that entry has
      since been deleted or evicted. */
  lemma CreatedIdsNeverReused(s: Snapshot, reqs: seq<Request>, i: int, k: int)
    requires WellFormed(s)
    requires 0 <= i < |reqs| && Run(s, reqs).1[i].Created? && 0 <= k < |s.messages|
    ensures Run(s, reqs).1[i].msg.id != s.messages[k].id
  {
    CreatedIdsFresh(s, reqs);
  }

  /** Every request is a POST whose text is a string. */
  predicate AllStringPosts(reqs: seq<Request>) {
    forall i :: 0 <= i < |reqs| ==> reqs[i].Post? && reqs[i].text.Str?
  }

  /** Every request is a POST whose text is a non-blank string. */
  predicate AllValidPosts(reqs: seq<Request>) {
    && AllStringPosts(reqs)
    && forall i :: 0 <= i < |reqs| ==> !IsBlank(reqs[i].text.s)
  }

  /** The messages that a run of POSTs from the empty store creates, in
      order: the i-th gets id i + 1, the trimmed text and its timestamp. */
  function Entries(reqs: seq<Request>): (r: seq<Message>)
    requires AllStringPosts(reqs)
    ensures |r| == |reqs|
    ensures forall i :: 0 <= i < |reqs| ==> r[i] == Message(i + 1, Trim(reqs[i].text.s), reqs[i].now)
    decreases |reqs|
  {
    if reqs == [] then []
    else
      var n := |reqs|;
      var front := reqs[..n - 1];
      assert forall i :: 0 <= i < n - 1 ==> front[i] == reqs[i];
      Entries(front) + [Message(n, Trim(reqs[n - 1].text.s), reqs[n - 1].now)]
  }

  function Min(a: int, b: int): int {
    if a <= b then a else b
  }

  /** The last min(|xs|, Capacity) elements of `xs`. */
  function Newest<T>(xs: seq<T>): (r: seq<T>)
    ensures |r| == Min(|xs|, Capacity)
  {
    xs[|xs| - Min(|xs|, Capacity)..]
  }

  /** Appending to a full window slides it by one. */
  lemma NewestSnoc<T>(xs: seq<T>, x: T)
    ensures Newest(xs + [x]) == (if |Newest(xs)| < Capacity then Newest(xs) else Newest(xs)[1..]) + [x]
  {
    if Capacity <= |xs| {
      assert (xs + [x])[|xs| + 1 - Capacity..] == xs[|xs| + 1 - Capacity..] + [x];
    }
  }

  /** A valid POST on any store answers 201 with the next id and appends,
      dropping the oldest entry when the store already holds ten. */
  lemma PostAppends(st: Snapshot, text: TextField, now: string)
    requires text.Str? && !IsBlank(text.s)
    ensures var m := Message(st.nextId, Trim(text.s), now);
      var kept := if |st.messages| < Capacity then st.messages else st.messages[1..];
      CreateStep(st, text, now) == (Snapshot(kept + [m], st.nextId + 1), Created(m))
  {
  }

  /** The 201 answers that carry `ms`, in order. */
  function CreatedAll(ms: seq<Message>): (r: seq<Response>)
    ensures |r| == |ms|
    ensures forall i :: 0 <= i < |ms| ==> r[i] == Created(ms[i])
    decreases |ms|
  {
    if ms == [] then []
    else
      var front := ms[..|ms| - 1];
      assert forall i :: 0 <= i < |ms| - 1 ==> front[i] == ms[i];
      CreatedAll(front) + [Created(ms[|ms| - 1])]
  }

  /** Running a non-empty sequence is running its front, then handling its
      last request. */
  lemma RunSnoc(s: Snapshot, front: seq<Request>, req: Request)
    ensures var prev := Run(s, front);
      var last := Handle(prev.0, req);
      Run(s, front + [req]) == (last.0, prev.1 + [last.1])
  {
    assert (front + [req])[..|front|] == front;
  }

  /** After n valid POSTs from the empty store, the answers are 201 with the
      messages `Entries(reqs)`, ids 1..n, in order; nextId is n + 1; and the
      store holds exactly the newest min(n, 10) of them in creation order
      (the older ones were evicted, oldest first). */
  lemma {:induction false} PostsKeepNewest(reqs: seq<Request>)
    requires AllValidPosts(reqs)
    ensures Run(Empty, reqs) == (Snapshot(Newest(Entries(reqs)), |reqs| + 1), CreatedAll(Entries(reqs)))
    decreases |reqs|
  {
    if reqs != [] {
      var n := |reqs|;
      var front := reqs[..n - 1];
      var req := reqs[n - 1];
      assert reqs == front + [req];
      RunSnoc(Empty, front, req);
      assert forall i :: 0 <= i < n - 1 ==> front[i] == reqs[i];
      PostsKeepNewest(front);
      var xs := Entries(front);
      var m := Message(n, Trim(req.text.s), req.now);
      assert Entries(reqs) == xs + [m];
      PostAppends(Run(Empty, front).0, req.text, req.now);
      NewestSnoc(xs, m);
      assert CreatedAll(xs + [m]) == CreatedAll(xs) + [Created(m)] by {
        assert (xs + [m])[..|xs|] == xs;
      }
    }
  }

  /** Eleven valid POSTs from the empty store leave ids 2..11: the first
      message was evicted. */
  lemma EleventhPostEvictsFirst(reqs: seq<Request>)
    requires |reqs| == 11 && AllValidPosts(reqs)
    ensures |Run(Empty, reqs).0.messages| == 10
    ensures forall k :: 0 <= k < 10 ==> Run(Empty, reqs).0.messages[k].id == k + 2
  {
    PostsKeepNewest(reqs);
    assert Newest(Entries(reqs)) == Entries(reqs)[1..];
  }

  /** POST `{text: "hello"}` to the empty store answers 201 with id 1, and a
      following GET lists exactly that message. */
  lemma PostThenList(now: string)
    ensures Run(Empty, [Post(Str("hello"), now), GetAll]).1 ==
      [Created(Message(1, "hello", now)), Listed([Message(1, "hello", now)])]
  {
    TrimmedIsFixed("hello");
    assert !IsBlank("hello") by { assert !IsWhitespace("hello"[0]); }
    var m := Message(1, "hello", now);
    var first := [Post(Str("hello"), now)];
    var step := CreateStep(Empty, first[0].text, first[0].now);
    assert step.1 == Created(m) && step.0.messages == [] + [m];
    assert step.0 == Snapshot([m], 2);
    var none: seq<Response> := [];
    assert Run(Empty, first[..0]) == (Empty, none);
    assert Run(Empty, first) == (step.0, none + [step.1]);
    assert none + [Created(m)] == [Created(m)];
    assert Run(Empty, first) == (Snapshot([m], 2), [Created(m)]);
    assert [Post(Str("hello"), now), GetAll][..1] == first;
  }

  /** In a well-formed store at most one entry carries a given id. */
  lemma IdsUnique(s: Snapshot, id: IdParam, i: int, j: int)
    requires WellFormed(s)
    requires 0 <= i < |s.messages| && 0 <= j < |s.messages|
    requires HasId(s.messages[i], id) && HasId(s.messages[j], id)
    ensures i == j
  {
  }

  /** A message just created can be read back by its id, unchanged. */
  lemma GetAfterCreate(s: Snapshot, text: TextField, now: string)
    requires WellFormed(s)
    ensures var step := CreateStep(s, text, now);
      step.1.Created? ==> GetStep(step.0, Some(step.1.msg.id)) == Fetched(step.1.msg)
  {
    var step := CreateStep(s, text, now);
    CreateKeepsWellFormed(s, text, now);
    if step.1.Created? {
      var ms := step.0.messages;
      var last := |ms| - 1;
      assert ms[last] == step.1.msg;
      var found := GetStep(step.0, Some(step.1.msg.id));
      var i := FindIndex(ms, Some(step.1.msg.id));
      IdsUnique(step.0, Some(step.1.msg.id), i, last);
    }
  }

  /** An updated message reads back with its new text. */
  lemma GetAfterUpdate(s: Snapshot, id: IdParam, text: TextField)
    requires WellFormed(s)
    ensures var step := UpdateStep(s, id, text);
      step.1.Updated? ==> GetStep(step.0, id) == Fetched(step.1.msg)
  {
    var step := UpdateStep(s, id, text);
    UpdateKeepsWellFormed(s, id, text);
    if step.1.Updated? {
      var i := FindIndex(s.messages, id);
      var j := FindIndex(step.0.messages, id);
      IdsUnique(step.0, id, i, j);
    }
  }

  /** After a DELETE no stored message carries the id: ids are unique, so
      the one match was the message removed. */
  lemma DeletedIdAbsent(s: Snapshot, id: IdParam)
    requires WellFormed(s)
    ensures forall k :: 0 <= k < |DeleteStep(s, id).0.messages| ==>
      !HasId(DeleteStep(s, id).0.messages[k], id)
  {
    var step := DeleteStep(s, id);
    if step.1.Deleted? {
      var i := FindIndex(s.messages, id);
      var rest := step.0.messages;
      forall k | i <= k < |rest| ensures !HasId(rest[k], id) {
        assert rest[k] == s.messages[k + 1];
        assert s.messages[i].id < s.messages[k + 1].id;
      }
    }
  }

  /** Once an id is deleted it is gone: reading it or deleting it again
      answers 404 and leaves the store as it is. */
  lemma DeleteTwiceNotFound(s: Snapshot, id: IdParam)
    requires WellFormed(s)
    ensures var step := DeleteStep(s, id);
      && GetStep(step.0, id) == NotFound
      && DeleteStep(step.0, id) == (step.0, NotFound)
  {
    DeletedIdAbsent(s, id);
  }
}
