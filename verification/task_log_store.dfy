/** The in-memory log broadcaster (src/storage/task-log.store.ts): per task, an
    append-only list of chunks plus the listeners registered on the task's
    event. Listeners are opaque handles; `append` returns the calls it makes to
    them, in order. */
module TaskLogStore {
  /** A listener handle (the source's callback function). */
  type Listener = nat

  /** One listener call made by `append`. */
  datatype Delivery = Delivery(listener: Listener, chunk: string)

  datatype Store = Store(logs: map<string, seq<string>>, listeners: map<string, seq<Listener>>)

  function Empty(): Store {
    Store(map[], map[])
  }

  /** The chunks held for a task, none when it has no buffer. */
  function Chunks(s: Store, id: string): seq<string> {
    if id in s.logs then s.logs[id] else []
  }

  /** The listeners registered for a task, in registration order. */
  function Listeners(s: Store, id: string): seq<Listener> {
    if id in s.listeners then s.listeners[id] else []
  }

  /** Concatenation of chunks (`chunks.join('')`). */
  function Concat(chunks: seq<string>): (r: string)
    ensures |chunks| == 0 ==> r == ""
    decreases |chunks|
  {
    if |chunks| == 0 then "" else Concat(chunks[..|chunks| - 1]) + chunks[|chunks| - 1]
  }

  /** `append(taskId, chunk)`: add the chunk to the task's buffer (creating it
      if needed) and call every listener of that task, in registration order,
      with the chunk. Listeners of other tasks are not called and other buffers
      do not change. */
  function Append(s: Store, id: string, chunk: string): (r: (Store, seq<Delivery>))
    ensures Chunks(r.0, id) == Chunks(s, id) + [chunk]
    ensures forall x :: x != id ==> Chunks(r.0, x) == Chunks(s, x)
    ensures r.0.listeners == s.listeners
    ensures id in r.0.logs
    ensures forall x :: x != id ==> (x in r.0.logs <==> x in s.logs)
    ensures |r.1| == |Listeners(s, id)|
    ensures forall i :: 0 <= i < |r.1| ==> r.1[i] == Delivery(Listeners(s, id)[i], chunk)
  {
    var ls := Listeners(s, id);
    (s.(logs := s.logs[id := Chunks(s, id) + [chunk]]),
     seq(|ls|, i requires 0 <= i < |ls| => Delivery(ls[i], chunk)))
  }

  /** `get(taskId)`: all chunks joined, `""` when there are none. */
  function Get(s: Store, id: string): (r: string)
    ensures id !in s.logs ==> r == ""
  {
    Concat(Chunks(s, id))
  }

  /** `subscribe(taskId, listener)`: register the listener last. */
  function Subscribe(s: Store, id: string, l: Listener): (r: Store)
    ensures Listeners(r, id) == Listeners(s, id) + [l]
    ensures forall x :: x != id ==> Listeners(r, x) == Listeners(s, x)
    ensures r.logs == s.logs
  {
    s.(listeners := s.listeners[id := Listeners(s, id) + [l]])
  }

  /** The list without the last occurrence of `l` (how an event emitter
      removes a listener registered more than once). */
  function RemoveLast(ls: seq<Listener>, l: Listener): (r: seq<Listener>)
    ensures l in ls ==> multiset(r) == multiset(ls) - multiset{l} && |r| == |ls| - 1
    ensures l !in ls ==> r == ls
    decreases |ls|
  {
    if |ls| == 0 then []
    else
      var init := ls[..|ls| - 1];
      var last := ls[|ls| - 1];
      SplitLast(ls);
      if last == l then init
      else
        var rest := RemoveLast(init, l);
        MultisetKeepLast(ls, init, rest, last, l);
        rest + [last]
  }

  lemma {:induction false} SplitLast(ls: seq<Listener>)
    requires |ls| > 0
    ensures ls == ls[..|ls| - 1] + [ls[|ls| - 1]]
    ensures multiset(ls) == multiset(ls[..|ls| - 1]) + multiset{ls[|ls| - 1]}
  {
    assert ls == ls[..|ls| - 1] + [ls[|ls| - 1]];
  }

  lemma {:induction false} MultisetKeepLast(ls: seq<Listener>, init: seq<Listener>, rest: seq<Listener>,
                                            last: Listener, l: Listener)
    requires ls == init + [last] && last != l
    requires multiset(ls) == multiset(init) + multiset{last}
    requires l in init ==> multiset(rest) == multiset(init) - multiset{l} && |rest| == |init| - 1
    requires l !in init ==> rest == init
    ensures l in ls ==> multiset(rest + [last]) == multiset(ls) - multiset{l} && |rest + [last]| == |ls| - 1
    ensures l !in ls ==> rest + [last] == ls
  {
    assert l in ls ==> l in init;
    assert multiset(rest + [last]) == multiset(rest) + multiset{last};
  }

  /** The function `subscribe` returns: remove that one registration of the
      listener from that task's event; nothing else changes. */
  function Unsubscribe(s: Store, id: string, l: Listener): (r: Store)
    ensures Listeners(r, id) == RemoveLast(Listeners(s, id), l)
    ensures forall x :: x != id ==> Listeners(r, x) == Listeners(s, x)
    ensures r.logs == s.logs
  {
    s.(listeners := s.listeners[id := RemoveLast(Listeners(s, id), l)])
  }

  /** `clear(taskId)`: drop the task's buffer and all its listeners. */
  function Clear(s: Store, id: string): (r: Store)
    ensures id !in r.logs && Listeners(r, id) == []
    ensures forall x :: x != id ==> Chunks(r, x) == Chunks(s, x) && Listeners(r, x) == Listeners(s, x)
    ensures forall x :: x != id ==> (x in r.logs <==> x in s.logs)
  {
    Store(s.logs - {id}, s.listeners - {id})
  }

  /** `has(taskId)`: whether the task has a buffer. */
  predicate Has(s: Store, id: string) {
    id in s.logs
  }

  // ---------------------------------------------------------------------------
  // Runs of operations
  // ---------------------------------------------------------------------------

  datatype Op =
    | OAppend(id: string, chunk: string)
    | OSubscribe(id: string, l: Listener)
    | OUnsubscribe(id: string, l: Listener)
    | OClear(id: string)

  /** Applies one operation, returning the listener calls it makes. */
  function Apply(s: Store, op: Op): (Store, seq<Delivery>) {
    match op
    case OAppend(id, c) => Append(s, id, c)
    case OSubscribe(id, l) => (Subscribe(s, id, l), [])
    case OUnsubscribe(id, l) => (Unsubscribe(s, id, l), [])
    case OClear(id) => (Clear(s, id), [])
  }

  /** Applies operations in order; the final store and every listener call. */
  function Replay(s: Store, ops: seq<Op>): (Store, seq<Delivery>)
    decreases |ops|
  {
    if |ops| == 0 then (s, [])
    else
      var r := Apply(s, ops[0]);
      var rest := Replay(r.0, ops[1..]);
      (rest.0, r.1 + rest.1)
  }

  /** The chunks appended to `id` by a run, in order. */
  function AppendedTo(ops: seq<Op>, id: string): seq<string>
    decreases |ops|
  {
    if |ops| == 0 then []
    else if ops[0].OAppend? && ops[0].id == id then [ops[0].chunk] + AppendedTo(ops[1..], id)
    else AppendedTo(ops[1..], id)
  }

  /** The chunks a run appends to `id` after its last `clear(id)`, and whether
      it appended anything (even an empty chunk) after that clear. */
  function SinceClear(ops: seq<Op>, id: string): (seq<string>, bool)
    decreases |ops|
  {
    if |ops| == 0 then ([], false)
    else
      var last := ops[|ops| - 1];
      var prev := SinceClear(ops[..|ops| - 1], id);
      if last.OClear? && last.id == id then ([], false)
      else if last.OAppend? && last.id == id then (prev.0 + [last.chunk], true)
      else prev
  }

  /** The chunks delivered to listener `l`. */
  function ReceivedBy(ds: seq<Delivery>, l: Listener): seq<string>
    decreases |ds|
  {
    if |ds| == 0 then []
    else if ds[0].listener == l then [ds[0].chunk] + ReceivedBy(ds[1..], l)
    else ReceivedBy(ds[1..], l)
  }

  lemma {:induction false} ReceivedByAppend(a: seq<Delivery>, b: seq<Delivery>, l: Listener)
    ensures ReceivedBy(a + b, l) == ReceivedBy(a, l) + ReceivedBy(b, l)
    decreases |a|
  {
    if |a| > 0 {
      assert (a + b)[1..] == a[1..] + b;
      ReceivedByAppend(a[1..], b, l);
    } else {
      assert a + b == b;
    }
  }

  lemma {:induction false} ReplaySnoc(s: Store, ops: seq<Op>, op: Op)
    ensures Replay(s, ops + [op]).0 == Apply(Replay(s, ops).0, op).0
    ensures Replay(s, ops + [op]).1 == Replay(s, ops).1 + Apply(Replay(s, ops).0, op).1
    decreases |ops|
  {
    if |ops| > 0 {
      assert (ops + [op])[1..] == ops[1..] + [op];
      ReplaySnoc(Apply(s, ops[0]).0, ops[1..], op);
    } else {
      assert ops + [op] == [op];
    }
  }

  /** From an empty store, `get(id)` is the concatenation, in append order, of
      the chunks appended to `id` since its last `clear`, and `has(id)` tells
      whether any append (even of `""`) happened since then. */
  lemma {:induction false} GetIsChunksSinceClear(ops: seq<Op>, id: string)
    ensures Chunks(Replay(Empty(), ops).0, id) == SinceClear(ops, id).0
    ensures Get(Replay(Empty(), ops).0, id) == Concat(SinceClear(ops, id).0)
    ensures Has(Replay(Empty(), ops).0, id) <==> SinceClear(ops, id).1
    decreases |ops|
  {
    if |ops| > 0 {
      var init := ops[..|ops| - 1];
      var last := ops[|ops| - 1];
      assert ops == init + [last];
      GetIsChunksSinceClear(init, id);
      ReplaySnoc(Empty(), init, last);
      ApplyChunks(Replay(Empty(), init).0, last, id);
    }
  }

  /** What one operation does to a task's buffer. */
  lemma {:induction false} ApplyChunks(s: Store, op: Op, id: string)
    ensures Chunks(Apply(s, op).0, id) ==
      if op.OClear? && op.id == id then []
      else if op.OAppend? && op.id == id then Chunks(s, id) + [op.chunk]
      else Chunks(s, id)
    ensures Has(Apply(s, op).0, id) <==>
      if op.OClear? && op.id == id then false
      else if op.OAppend? && op.id == id then true
      else Has(s, id)
  {
  }

  function Count(ls: seq<Listener>, l: Listener): nat
    decreases |ls|
  {
    if |ls| == 0 then 0 else (if ls[0] == l then 1 else 0) + Count(ls[1..], l)
  }

  lemma {:induction false} CountAppend(a: seq<Listener>, b: seq<Listener>, l: Listener)
    ensures Count(a + b, l) == Count(a, l) + Count(b, l)
    decreases |a|
  {
    if |a| > 0 {
      assert (a + b)[1..] == a[1..] + b;
      CountAppend(a[1..], b, l);
    } else {
      assert a + b == b;
    }
  }

  lemma {:induction false} CountRemoveLastOther(ls: seq<Listener>, m: Listener, l: Listener)
    requires m != l
    ensures Count(RemoveLast(ls, m), l) == Count(ls, l)
    decreases |ls|
  {
    if |ls| > 0 {
      var init := ls[..|ls| - 1];
      assert ls == init + [ls[|ls| - 1]];
      CountAppend(init, [ls[|ls| - 1]], l);
      if ls[|ls| - 1] != m {
        CountRemoveLastOther(init, m, l);
        CountAppend(RemoveLast(init, m), [ls[|ls| - 1]], l);
      }
    }
  }

  /** The chunks one `append` delivers to `l`: the chunk once per registration
      of `l` on that task. */
  lemma {:induction false} ReceivedByBroadcast(ls: seq<Listener>, chunk: string, l: Listener)
    ensures |ReceivedBy(seq(|ls|, i requires 0 <= i < |ls| => Delivery(ls[i], chunk)), l)| == Count(ls, l)
    ensures Count(ls, l) == 0 ==> ReceivedBy(seq(|ls|, i requires 0 <= i < |ls| => Delivery(ls[i], chunk)), l) == []
    ensures Count(ls, l) == 1 ==> ReceivedBy(seq(|ls|, i requires 0 <= i < |ls| => Delivery(ls[i], chunk)), l) == [chunk]
    decreases |ls|
  {
    var ds := seq(|ls|, i requires 0 <= i < |ls| => Delivery(ls[i], chunk));
    if |ls| > 0 {
      var tail := seq(|ls[1..]|, i requires 0 <= i < |ls[1..]| => Delivery(ls[1..][i], chunk));
      assert ds[1..] == tail;
      ReceivedByBroadcast(ls[1..], chunk, l);
    }
  }

  /** `l` is registered exactly once, on `id`, and on no other task. */
  ghost predicate SubscribedOnlyTo(s: Store, id: string, l: Listener) {
    && Count(Listeners(s, id), l) == 1
    && forall x :: x != id ==> Count(Listeners(s, x), l) == 0
  }

  /** An operation that leaves `l`'s single registration on `id` alone. */
  predicate Keeps(op: Op, id: string, l: Listener) {
    match op
    case OAppend(_, _) => true
    case OSubscribe(_, m) => m != l
    case OUnsubscribe(x, m) => m != l || x != id
    case OClear(x) => x != id
  }

  /** A listener registered once on `id` receives exactly the chunks appended
      to `id` afterwards, in order, as long as it is not unsubscribed and the
      task is not cleared; chunks appended before it subscribed never reach it,
      although `get` still returns them. */
  lemma {:induction false} SubscriberSeesLaterChunks(s: Store, id: string, l: Listener, ops: seq<Op>)
    requires SubscribedOnlyTo(s, id, l)
    requires forall i :: 0 <= i < |ops| ==> Keeps(ops[i], id, l)
    ensures ReceivedBy(Replay(s, ops).1, l) == AppendedTo(ops, id)
    ensures SubscribedOnlyTo(Replay(s, ops).0, id, l)
    decreases |ops|
  {
    if |ops| > 0 {
      var op := ops[0];
      var r := Apply(s, op);
      match op {
        case OAppend(x, c) =>
          ReceivedByBroadcast(Listeners(s, x), c, l);
          forall y ensures Listeners(r.0, y) == Listeners(s, y) {
            assert r.0.listeners == s.listeners;
          }
        case OSubscribe(x, m) =>
          forall y ensures Count(Listeners(r.0, y), l) == Count(Listeners(s, y), l) {
            if y == x {
              CountAppend(Listeners(s, x), [m], l);
              assert Count([m], l) == 0 by {
                assert [m][1..] == [];
              }
            }
          }
        case OUnsubscribe(x, m) =>
          forall y ensures Count(Listeners(r.0, y), l) == Count(Listeners(s, y), l) {
            if y == x && m != l {
              CountRemoveLastOther(Listeners(s, x), m, l);
            } else if y == x {
              assert x != id;
              assert l !in Listeners(s, x) by {
                if l in Listeners(s, x) {
                  CountPositive(Listeners(s, x), l);
                }
              }
            }
          }
        case OClear(x) =>
          forall y ensures Count(Listeners(r.0, y), l) == Count(Listeners(s, y), l) {
            if y == x {
              assert Count(Listeners(s, x), l) == 0;
            }
          }
      }
      SubscriberSeesLaterChunks(r.0, id, l, ops[1..]);
      ReceivedByAppend(r.1, Replay(r.0, ops[1..]).1, l);
    }
  }

  lemma {:induction false} CountPositive(ls: seq<Listener>, l: Listener)
    requires l in ls
    ensures Count(ls, l) > 0
    decreases |ls|
  {
    if ls[0] != l {
      assert l in ls[1..];
      CountPositive(ls[1..], l);
    }
  }

  /** Scenario: a listener subscribed after some appends sees only the later
      chunk, while `get` returns the whole buffer. */
  lemma {:induction false} LateSubscriberScenario(id: string, l: Listener)
    ensures var ops := [OAppend(id, "a"), OSubscribe(id, l), OAppend(id, "b")];
      var r := Replay(Empty(), ops);
      && ReceivedBy(r.1, l) == ["b"]
      && Get(r.0, id) == "ab"
  {
    var s1 := Append(Empty(), id, "a").0;
    var s2 := Subscribe(s1, id, l);
    var a := Append(s2, id, "b");
    assert Listeners(s2, id) == [l];
    assert a.1 == [Delivery(l, "b")];
    assert Chunks(a.0, id) == ["a", "b"];
    assert Concat(["a", "b"]) == Concat(["a"]) + "b";
    assert ["a", "b"][..1] == ["a"];
    var ops := [OAppend(id, "a"), OSubscribe(id, l), OAppend(id, "b")];
    assert Append(Empty(), id, "a").1 == [];
    assert ops[1..][1..] == ops[2..] == [OAppend(id, "b")];
    assert ops[2..][1..] == [];
    assert Replay(s2, ops[2..]) == (a.0, a.1 + []);
    assert Replay(s1, ops[1..]) == (a.0, [] + (a.1 + []));
    assert Replay(Empty(), ops) == (a.0, [] + ([] + (a.1 + [])));
  }
}
