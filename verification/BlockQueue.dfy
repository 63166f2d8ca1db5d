/** The queue of blocks to download: a duplicate-free line, of which the head may be wanted. */
module BlockQueues {
  import opened Commons
  import opened Hashes

  /** Milliseconds before the same block may be requested again. */
  const SPAM_LIMIT: nat := 5_000

  /** `queue` takes new hashes at the front and gives them up at the back. `lastReq` is the
      time of the last request. */
  datatype Queue = Queue(queue: seq<Hash>, want: Option<Hash>, lastReq: nat)

  // ---------- What the operations do ----------

  ghost function Wanted(q: Queue): seq<Hash> {
    if q.want.Some? then [q.want.value] else []
  }

  lemma InLine(q: Queue, x: Hash)
    ensures x in Line(q) <==> x in q.queue || q.want == Some(x)
  {
    ReversedMember(q.queue, x);
  }

  /** The line, next block first. */
  ghost function Line(q: Queue): seq<Hash> {
    Wanted(q) + Reversed(q.queue)
  }

  ghost function Add(q: Queue, x: Hash): Queue {
    if x in q.queue || q.want == Some(x) then q else q.(queue := [x] + q.queue)
  }

  ghost function Pop(q: Queue, now: nat): (Queue, Option<Hash>) {
    if q.want.Some? then
      if SaturatingSub(now, q.lastReq) < SPAM_LIMIT then (q, None) else (q.(lastReq := now), q.want)
    else if q.queue == [] then (q.(lastReq := now), None)
    else
      var last := |q.queue| - 1;
      (Queue(q.queue[..last], Some(q.queue[last]), now), Some(q.queue[last]))
  }

  ghost function Receive(q: Queue, x: Hash): Queue {
    if q.want == Some(x) then q.(want := None) else q
  }

  ghost function Remove(q: Queue, gone: seq<Hash>): Queue {
    Queue(Retain(q.queue, gone), if q.want.Some? && q.want.value in gone then None else q.want, q.lastReq)
  }

  function Retain(s: seq<Hash>, gone: seq<Hash>): seq<Hash> {
    if s == [] then [] else (if s[0] in gone then [] else [s[0]]) + Retain(s[1..], gone)
  }

  lemma {:induction false} RetainMember(s: seq<Hash>, gone: seq<Hash>, x: Hash)
    ensures x in Retain(s, gone) <==> x in s && x !in gone
  {
    if s != [] {
      RetainMember(s[1..], gone, x);
    }
  }

  // ---------- The queue is a duplicate-free line ----------

  ghost predicate NoRepeats(s: seq<Hash>) {
    forall i, j | 0 <= i < j < |s| :: s[i] != s[j]
  }

  lemma AddAppends(q: Queue, x: Hash)
    ensures Line(Add(q, x)) == if x in Line(q) then Line(q) else Line(q) + [x]
    ensures NoRepeats(Line(q)) ==> NoRepeats(Line(Add(q, x)))
  {
    InLine(q, x);
    assert ([x] + q.queue)[1..] == q.queue;
  }

  /** A request is for the head of the line, which stays in line until it arrives; there is
      none only if the line is empty or its head was requested moments ago. */
  lemma PopRequestsHead(q: Queue, now: nat)
    ensures var (q', request) := Pop(q, now);
            && Line(q') == Line(q)
            && (request.Some? ==> q'.want == request && Line(q)[..1] == [request.value] && q'.lastReq == now)
            && (request.None? <==> Line(q) == [] || (q.want.Some? && SaturatingSub(now, q.lastReq) < SPAM_LIMIT))
  {
    if q.want.None? && q.queue != [] {
      ReversedSplits(q.queue[..|q.queue| - 1], q.queue[|q.queue| - 1]);
      assert q.queue == q.queue[..|q.queue| - 1] + [q.queue[|q.queue| - 1]];
    }
  }

  lemma TailHasNoRepeats(s: seq<Hash>)
    requires s != [] && NoRepeats(s)
    ensures NoRepeats(s[1..]) && s[0] !in s[1..]
  {
    forall i | 0 <= i < |s[1..]| ensures s[1..][i] == s[i + 1] && s[1..][i] != s[0] {}
  }

  lemma ReceiveRemovesWantedHead(q: Queue, x: Hash)
    ensures Line(Receive(q, x)) == if q.want == Some(x) then Line(q)[1..] else Line(q)
    ensures NoRepeats(Line(q)) ==> NoRepeats(Line(Receive(q, x))) && (q.want == Some(x) ==> x !in Line(Receive(q, x)))
  {
    if q.want == Some(x) {
      assert Line(q)[1..] == Reversed(q.queue) && Line(q)[0] == x;
      assert Line(Receive(q, x)) == Reversed(q.queue);
      if NoRepeats(Line(q)) {
        TailHasNoRepeats(Line(q));
      }
    }
  }

  lemma RetainHead(q: Queue, gone: seq<Hash>)
    ensures Retain(Line(q), gone) == Wanted(Remove(q, gone)) + Retain(Reversed(q.queue), gone)
  {
    if q.want.Some? {
      assert Line(q)[1..] == Reversed(q.queue);
    } else {
      assert Line(q) == Reversed(q.queue);
    }
  }

  lemma RemoveFilters(q: Queue, gone: seq<Hash>)
    ensures Line(Remove(q, gone)) == Retain(Line(q), gone)
    ensures NoRepeats(Line(q)) ==> NoRepeats(Line(Remove(q, gone)))
  {
    RetainReversed(q.queue, gone);
    RetainHead(q, gone);
    RetainKeepsNoRepeats(Line(q), gone);
  }

  lemma {:induction false} RetainReversed(s: seq<Hash>, gone: seq<Hash>)
    ensures Reversed(Retain(s, gone)) == Retain(Reversed(s), gone)
  {
    if s != [] {
      RetainReversed(s[1..], gone);
      RetainSplits(Reversed(s[1..]), s[0], gone);
      if s[0] !in gone {
        assert Retain(s, gone) == [s[0]] + Retain(s[1..], gone);
        assert ([s[0]] + Retain(s[1..], gone))[1..] == Retain(s[1..], gone);
      } else {
        assert Retain(s, gone) == Retain(s[1..], gone);
      }
    }
  }

  lemma {:induction false} RetainSplits(s: seq<Hash>, x: Hash, gone: seq<Hash>)
    ensures Retain(s + [x], gone) == Retain(s, gone) + (if x in gone then [] else [x])
  {
    if s == [] {
      assert ([] + [x])[1..] == [];
    } else {
      assert (s + [x])[1..] == s[1..] + [x];
      RetainSplits(s[1..], x, gone);
    }
  }

  lemma {:induction false} RetainKeepsNoRepeats(s: seq<Hash>, gone: seq<Hash>)
    ensures NoRepeats(s) ==> NoRepeats(Retain(s, gone))
  {
    if s != [] && NoRepeats(s) {
      assert forall i | 0 <= i < |s[1..]| :: s[1..][i] == s[i + 1];
      RetainKeepsNoRepeats(s[1..], gone);
      assert s[0] !in s[1..];
      RetainMember(s[1..], gone, s[0]);
    }
  }

  lemma RetainStep(s: seq<Hash>, i: nat, gone: seq<Hash>)
    requires i < |s|
    ensures Retain(s[i..], gone) == (if s[i] in gone then [] else [s[i]]) + Retain(s[i + 1..], gone)
  {
    assert s[i..][1..] == s[i + 1..];
  }

  // ---------- Requests over a run ----------

  datatype Op = DoAdd(x: Hash) | DoPop(now: nat) | DoReceive(x: Hash) | DoRemove(gone: seq<Hash>)

  /** `again` tells a repeated request from the first one for a block. */
  datatype Request = Request(hash: Hash, at: nat, again: bool)

  ghost function Apply(q: Queue, op: Op): Queue {
    match op
    case DoAdd(x) => Add(q, x)
    case DoPop(now) => Pop(q, now).0
    case DoReceive(x) => Receive(q, x)
    case DoRemove(gone) => Remove(q, gone)
  }

  ghost function Requests(q: Queue, ops: seq<Op>): seq<Request>
    decreases |ops|
  {
    if ops == [] then []
    else
      (if ops[0].DoPop? && Pop(q, ops[0].now).1.Some?
       then [Request(Pop(q, ops[0].now).1.value, ops[0].now, q.want.Some?)] else [])
      + Requests(Apply(q, ops[0]), ops[1..])
  }

  /** A repeated request is for the block requested last, five seconds or more later. */
  ghost predicate Spaced(rs: seq<Request>) {
    forall i | 0 < i < |rs| && rs[i].again ::
      rs[i].hash == rs[i - 1].hash && rs[i - 1].at + SPAM_LIMIT <= rs[i].at
  }

  ghost predicate StartsAfter(q: Queue, rs: seq<Request>) {
    rs != [] && rs[0].again ==> q.want == Some(rs[0].hash) && q.lastReq + SPAM_LIMIT <= rs[0].at
  }

  lemma {:induction false} RequestsAreSpaced(q: Queue, ops: seq<Op>)
    ensures StartsAfter(q, Requests(q, ops)) && Spaced(Requests(q, ops))
    decreases |ops|
  {
    if ops != [] {
      RequestsAreSpaced(Apply(q, ops[0]), ops[1..]);
    }
  }

  lemma {:induction false} RunKeepsNoRepeats(q: Queue, ops: seq<Op>)
    requires NoRepeats(Line(q))
    ensures NoRepeats(Line(ApplyAll(q, ops)))
    decreases |ops|
  {
    if ops != [] {
      match ops[0] {
        case DoAdd(x) => AddAppends(q, x);
        case DoPop(now) => PopRequestsHead(q, now);
        case DoReceive(x) => ReceiveRemovesWantedHead(q, x);
        case DoRemove(gone) => RemoveFilters(q, gone);
      }
      RunKeepsNoRepeats(Apply(q, ops[0]), ops[1..]);
    }
  }

  ghost function ApplyAll(q: Queue, ops: seq<Op>): Queue
    decreases |ops|
  {
    if ops == [] then q else ApplyAll(Apply(q, ops[0]), ops[1..])
  }

  // ---------- The mutable queue ----------

  class BlockQueue {
    var queue: seq<Hash>
    var want: Option<Hash>
    var lastReq: nat

    ghost function View(): Queue
      reads this
    {
      Queue(queue, want, lastReq)
    }

    constructor (now: nat)
      ensures View() == Queue([], None, now)
    {
      queue, want, lastReq := [], None, now;
    }

    predicate Contains(block: Hash)
      reads this
      ensures Contains(block) <==> block in Line(View())
    {
      InLine(View(), block);
      block in queue || want == Some(block)
    }

    method AddBlock(block: Hash)
      modifies this`queue
      ensures View() == Add(old(View()), block)
    {
      InLine(View(), block);
      if !Contains(block) {
        queue := [block] + queue;
      }
    }

    method PopBlock(now: nat) returns (request: Option<Hash>)
      modifies this
      ensures (View(), request) == Pop(old(View()), now)
    {
      if want.Some? {
        if SaturatingSub(now, lastReq) < SPAM_LIMIT {
          request := None;
        } else {
          lastReq := now;
          request := want;
        }
      } else {
        lastReq := now;
        if queue == [] {
          request := None;
        } else {
          request := Some(queue[|queue| - 1]);
          queue := queue[..|queue| - 1];
        }
        want := request;
      }
    }

    predicate Need(block: Hash)
      reads this
    {
      want == Some(block)
    }

    method ReceiveBlock(block: Hash)
      modifies this`want
      ensures View() == Receive(old(View()), block)
    {
      if want.Some? {
        var request := want.value;
        want := None;
        if request != block {
          want := Some(request);
        }
      }
    }

    predicate Complete()
      reads this
      ensures Complete() <==> Line(View()) == []
    {
      want.None? && queue == []
    }

    method RemoveBlocks(hashes: seq<Hash>)
      modifies this`queue, this`want
      ensures View() == Remove(old(View()), hashes)
    {
      var items, kept := queue, [];
      for i := 0 to |items|
        invariant want == old(want) && lastReq == old(lastReq)
        invariant kept + Retain(items[i..], hashes) == Retain(items, hashes)
      {
        RetainStep(items, i, hashes);
        if items[i] !in hashes {
          kept := kept + [items[i]];
        }
      }
      queue := kept;
      if want.Some? && want.value in hashes {
        want := None;
      }
    }
  }
}
