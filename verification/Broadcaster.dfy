/** The annotated-frame broadcaster: bounded queues that drop their oldest frame rather than block. */
module Broadcaster {
  import opened Common
  import opened Splitter

  predicate Full<T>(maxsize: int, items: seq<T>) {
    maxsize > 0 && |items| >= maxsize
  }

  /** What publishing `x` makes of a queue: the oldest item goes if there is no room. */
  function Pushed<T>(maxsize: int, items: seq<T>, x: T): seq<T> {
    var room := if Full(maxsize, items) then items[1..] else items;
    if Full(maxsize, room) then room else room + [x]
  }

  /** An asyncio queue; a maximum size of zero or less means none. */
  class Queue {
    const maxsize: int
    var items: seq<Bytes>

    constructor (maxsize: int)
      ensures this.maxsize == maxsize && items == []
    {
      this.maxsize, items := maxsize, [];
    }

    method GetNowait() returns (item: Option<Bytes>)
      modifies this
      ensures old(items) == [] ==> item == None && items == []
      ensures old(items) != [] ==> item == Some(old(items)[0]) && items == old(items)[1..]
    {
      if items == [] {
        return None;
      }
      item := Some(items[0]);
      items := items[1..];
    }

    method PutNowait(item: Bytes)
      modifies this
      ensures items == if Full(maxsize, old(items)) then old(items) else old(items) + [item]
      ensures maxsize <= 0 || |old(items)| < maxsize ==> items == old(items) + [item]
      ensures maxsize > 0 && |old(items)| >= maxsize ==> items == old(items)
    {
      if !Full(maxsize, items) {
        items := items + [item];
      }
    }
  }

  class AnnotatedFrameBroadcaster {
    const maxQueueSize: int
    var subscribers: set<Queue>
    var latestFrame: Option<Bytes>

    ghost predicate Valid()
      reads this, subscribers
    {
      forall q | q in subscribers :: q.maxsize == maxQueueSize && (maxQueueSize > 0 ==> |q.items| <= maxQueueSize)
    }

    constructor (maxQueueSize: int)
      ensures this.maxQueueSize == maxQueueSize && subscribers == {} && latestFrame == None && Valid()
    {
      this.maxQueueSize, subscribers, latestFrame := maxQueueSize, {}, None;
    }

    /**
      Every subscriber gets the frame, in no particular order; the others' queues are not touched. The oldest
      item goes only from a queue that holds as many as it may.
    */
    method Publish(jpeg: Bytes)
      requires Valid()
      modifies this`latestFrame, subscribers
      ensures Valid() && latestFrame == Some(jpeg)
      ensures forall q | q in subscribers :: q.items == Pushed(maxQueueSize, old(q.items), jpeg)
      ensures forall q | q in subscribers ::
                q.items == if maxQueueSize <= 0 || |old(q.items)| < maxQueueSize then old(q.items) + [jpeg]
                           else old(q.items)[1..] + [jpeg]
    {
      latestFrame := Some(jpeg);
      var left := subscribers;
      while left != {}
        invariant left <= subscribers && latestFrame == Some(jpeg)
        invariant forall q | q in left :: q.items == old(q.items)
        invariant forall q | q in subscribers && q !in left :: q.items == Pushed(maxQueueSize, old(q.items), jpeg)
      {
        var queue :| queue in left;
        left := left - {queue};
        if Full(queue.maxsize, queue.items) {
          var oldest := queue.GetNowait();
        }
        queue.PutNowait(jpeg);
      }
    }

    method Subscribe() returns (queue: Queue)
      requires Valid()
      modifies this`subscribers
      ensures Valid() && fresh(queue) && subscribers == old(subscribers) + {queue}
      ensures queue.maxsize == maxQueueSize
      ensures queue.items == if latestFrame == None then [] else [latestFrame.value]
    {
      queue := new Queue(maxQueueSize);
      if latestFrame != None {
        queue.PutNowait(latestFrame.value);
      }
      subscribers := subscribers + {queue};
    }

    method Unsubscribe(queue: Queue)
      requires Valid()
      modifies this`subscribers
      ensures Valid() && subscribers == old(subscribers) - {queue}
    {
      subscribers := subscribers - {queue};
    }
  }
}

/**
  Runs of the broadcaster with one publisher and any number of subscribers. Frames are named by the
  order in which they were published.

  Publishing and subscribing each take the lock half way through. Here either may be overtaken while it
  waits for it; `AtomicRun` is the case in which the lock is always free.
*/
module BroadcasterRuns {
  import opened Splitter
  import opened Multipart
  import opened Broadcaster

  datatype Phase = Joining | Active | Left

  /**
    One subscriber: its queue, and a record of what happened to it. `joined` and `entered` count the
    publishes that had begun when it asked to subscribe, and those that were over when it was entered;
    `closed` those that were over when it left. `at[i]` is the position in `enqueued` of the i-th frame
    delivered.
  */
  datatype Subscriber = Subscriber(
    phase: Phase, queue: seq<nat>,
    joined: nat, entered: nat, closed: nat, enqueued: seq<nat>, delivered: seq<nat>, at: seq<nat>, dropped: nat)

  /** `waiting`: the latest publish has set the latest frame and not yet taken the lock. */
  datatype State = State(maxsize: int, published: nat, waiting: bool, subs: seq<Subscriber>)

  datatype Event =
    | PublishBegin
    | PublishEnd
    | SubscribeBegin
    | SubscribeEnd(k: nat)
    | Unsubscribe(k: nat)
    | Get(k: nat)

  function Init(maxsize: int): State {
    State(maxsize, 0, false, [])
  }

  predicate Enabled(s: State, e: Event) {
    match e
    case PublishBegin => !s.waiting
    case PublishEnd => s.waiting && s.published > 0
    case SubscribeBegin => true
    case SubscribeEnd(k) => k < |s.subs| && s.subs[k].phase == Joining
    case Unsubscribe(k) => k < |s.subs| && s.subs[k].phase == Active
    case Get(k) => k < |s.subs| && s.subs[k].phase == Active && s.subs[k].queue != []
  }

  /** How many publishes are over. */
  function Completed(published: nat, waiting: bool): int {
    if waiting then published - 1 else published
  }

  function Offer(maxsize: int, sub: Subscriber, frame: nat): Subscriber {
    if sub.phase != Active then sub
    else sub.(
      queue := Pushed(maxsize, sub.queue, frame),
      enqueued := sub.enqueued + [frame],
      dropped := if Full(maxsize, sub.queue) then sub.dropped + 1 else sub.dropped)
  }

  function Take(sub: Subscriber): Subscriber
    requires sub.queue != [] && |sub.queue| <= |sub.enqueued|
  {
    sub.(
      queue := sub.queue[1..],
      delivered := sub.delivered + [sub.queue[0]],
      at := sub.at + [|sub.enqueued| - |sub.queue|])
  }

  function NewSubscriber(published: nat): Subscriber {
    var first := if published == 0 then [] else [published - 1];
    Subscriber(Joining, first, published, 0, 0, first, [], [], 0)
  }

  /** What an event does to the subscriber it concerns. */
  function SubNext(maxsize: int, published: nat, waiting: bool, sub: Subscriber, e: Event): Subscriber {
    match e
    case PublishEnd => if published == 0 then sub else Offer(maxsize, sub, published - 1)
    case SubscribeEnd(k) => sub.(phase := Active, entered := Natural(Completed(published, waiting)))
    case Unsubscribe(k) => sub.(phase := Left, closed := Natural(Completed(published, waiting)))
    case Get(k) => if sub.queue == [] || |sub.queue| > |sub.enqueued| then sub else Take(sub)
    case _ => sub
  }

  function Natural(n: int): nat {
    if n < 0 then 0 else n
  }

  predicate Concerns(e: Event, k: nat) {
    match e
    case PublishEnd => true
    case SubscribeEnd(j) => j == k
    case Unsubscribe(j) => j == k
    case Get(j) => j == k
    case _ => false
  }

  function Next(s: State, e: Event): State {
    var subs := seq(|s.subs|, k requires 0 <= k < |s.subs| =>
      if Concerns(e, k) then SubNext(s.maxsize, s.published, s.waiting, s.subs[k], e) else s.subs[k]);
    match e
    case PublishBegin => State(s.maxsize, s.published + 1, true, subs)
    case PublishEnd => State(s.maxsize, s.published, false, subs)
    case SubscribeBegin => State(s.maxsize, s.published, s.waiting, subs + [NewSubscriber(s.published)])
    case _ => State(s.maxsize, s.published, s.waiting, subs)
  }

  function After(s: State, es: seq<Event>): State {
    if es == [] then s else Next(After(s, es[..|es| - 1]), es[|es| - 1])
  }

  /** The events can happen one after the other, starting from `s`. */
  predicate Possible(s: State, es: seq<Event>) {
    es == [] || (Possible(s, es[..|es| - 1]) && Enabled(After(s, es[..|es| - 1]), es[|es| - 1]))
  }

  ghost predicate Reached(s: State, maxsize: int, es: seq<Event>) {
    Possible(Init(maxsize), es) && s == After(Init(maxsize), es)
  }

  // ---------- what every step keeps ----------

  function UpTo(lo: nat, hi: int): seq<nat>
    decreases hi - lo
  {
    if hi <= lo then [] else UpTo(lo, hi - 1) + [hi - 1]
  }

  /** The frames a subscriber is offered: the latest when it asked, then all from when it was entered. */
  function Offered(sub: Subscriber, completed: int): seq<nat> {
    (if sub.joined == 0 then [] else [sub.joined - 1]) +
    match sub.phase
    case Joining => []
    case Active => UpTo(sub.entered, completed)
    case Left => UpTo(sub.entered, sub.closed)
  }

  ghost predicate Accounted(maxsize: int, sub: Subscriber) {
    && |sub.queue| <= |sub.enqueued|
    && sub.queue == sub.enqueued[|sub.enqueued| - |sub.queue|..]
    && (maxsize > 0 ==> |sub.queue| <= maxsize)
    && |sub.enqueued| == |sub.delivered| + sub.dropped + |sub.queue|
    && |sub.at| == |sub.delivered|
    && (forall i | 0 <= i < |sub.at| ::
        sub.at[i] < |sub.enqueued| - |sub.queue| && sub.delivered[i] == sub.enqueued[sub.at[i]])
    && (forall i, j | 0 <= i < j < |sub.at| :: sub.at[i] < sub.at[j])
  }

  ghost predicate Placed(published: nat, waiting: bool, sub: Subscriber) {
    var completed := Completed(published, waiting);
    && sub.enqueued == Offered(sub, completed)
    && sub.joined <= published && sub.joined - 1 <= completed
    && (sub.phase != Joining ==> sub.joined - 1 <= sub.entered <= completed)
    && (sub.phase == Left ==> sub.entered <= sub.closed <= completed)
  }

  ghost predicate SubInvariant(maxsize: int, published: nat, waiting: bool, sub: Subscriber) {
    Accounted(maxsize, sub) && Placed(published, waiting, sub)
  }

  ghost predicate KeptAt(s: State, k: nat)
    requires k < |s.subs|
  {
    SubInvariant(s.maxsize, s.published, s.waiting, s.subs[k])
  }

  ghost predicate Invariant(s: State) {
    && (s.waiting ==> s.published > 0)
    && forall k | 0 <= k < |s.subs| :: KeptAt(s, k)
  }

  lemma OfferAccounted(maxsize: int, sub: Subscriber, frame: nat)
    requires Accounted(maxsize, sub)
    ensures Accounted(maxsize, Offer(maxsize, sub, frame))
  {
  }

  lemma TakeAccounted(maxsize: int, sub: Subscriber)
    requires Accounted(maxsize, sub) && sub.queue != []
    ensures Accounted(maxsize, Take(sub))
  {
  }

  lemma OfferPlaced(maxsize: int, published: nat, sub: Subscriber)
    requires Placed(published, true, sub) && published > 0
    ensures Placed(published, false, Offer(maxsize, sub, published - 1))
  {
    if sub.phase == Active {
      var first := if sub.joined == 0 then [] else [sub.joined - 1];
      var sofar := UpTo(sub.entered, published - 1);
      assert UpTo(sub.entered, published) == sofar + [published - 1];
      assert (first + sofar) + [published - 1] == first + (sofar + [published - 1]);
    }
  }

  /** Entering and leaving touch neither the queue nor its record. */
  lemma SamePhaseApart(maxsize: int, sub: Subscriber, phase: Phase, entered: nat, closed: nat)
    requires Accounted(maxsize, sub)
    ensures Accounted(maxsize, sub.(phase := phase, entered := entered, closed := closed))
  {
  }

  lemma EnterPlaced(published: nat, waiting: bool, sub: Subscriber)
    requires Placed(published, waiting, sub) && sub.phase == Joining && (waiting ==> published > 0)
    ensures Placed(published, waiting, sub.(phase := Active, entered := Natural(Completed(published, waiting))))
  {
    assert UpTo(Natural(Completed(published, waiting)), Completed(published, waiting)) == [];
  }

  lemma AccountedStep(maxsize: int, published: nat, waiting: bool, sub: Subscriber, e: Event)
    requires Accounted(maxsize, sub)
    ensures Accounted(maxsize, SubNext(maxsize, published, waiting, sub, e))
  {
    var completed := Natural(Completed(published, waiting));
    var next := SubNext(maxsize, published, waiting, sub, e);
    match e
    case PublishEnd =>
      if published > 0 {
        OfferAccounted(maxsize, sub, published - 1);
        assert next == Offer(maxsize, sub, published - 1);
      }
    case Get(k) =>
      if sub.queue != [] {
        TakeAccounted(maxsize, sub);
        assert next == Take(sub);
      }
    case SubscribeEnd(k) =>
      SamePhaseApart(maxsize, sub, Active, completed, sub.closed);
    case Unsubscribe(k) =>
      SamePhaseApart(maxsize, sub, Left, sub.entered, completed);
    case _ =>
      assert next == sub;
  }

  lemma PlacedStep(maxsize: int, published: nat, waiting: bool, sub: Subscriber, e: Event)
    requires Placed(published, waiting, sub) && (waiting ==> published > 0)
    requires e.PublishEnd? ==> waiting
    requires e.SubscribeEnd? ==> sub.phase == Joining
    requires e.Unsubscribe? ==> sub.phase == Active
    ensures Placed(published, if e.PublishEnd? then false else waiting, SubNext(maxsize, published, waiting, sub, e))
  {
    match e
    case PublishEnd =>
      OfferPlaced(maxsize, published, sub);
    case SubscribeEnd(k) =>
      EnterPlaced(published, waiting, sub);
    case _ =>
  }

  lemma BeginKeeps(maxsize: int, published: nat, sub: Subscriber)
    requires SubInvariant(maxsize, published, false, sub)
    ensures SubInvariant(maxsize, published + 1, true, sub)
  {
  }

  lemma NewKeeps(maxsize: int, published: nat, waiting: bool)
    requires waiting ==> published > 0
    ensures SubInvariant(maxsize, published, waiting, NewSubscriber(published))
  {
  }

  lemma NextSub(s: State, e: Event, k: nat)
    requires k < |s.subs|
    ensures k < |Next(s, e).subs|
    ensures Next(s, e).subs[k] ==
            if Concerns(e, k) then SubNext(s.maxsize, s.published, s.waiting, s.subs[k], e) else s.subs[k]
  {
  }

  lemma SubKeeps(maxsize: int, published: nat, waiting: bool, sub: Subscriber, e: Event)
    requires SubInvariant(maxsize, published, waiting, sub) && (waiting ==> published > 0)
    requires e.PublishEnd? ==> waiting
    requires e.SubscribeEnd? ==> sub.phase == Joining
    requires e.Unsubscribe? ==> sub.phase == Active
    ensures SubInvariant(
              maxsize, published, if e.PublishEnd? then false else waiting,
              SubNext(maxsize, published, waiting, sub, e))
  {
    AccountedStep(maxsize, published, waiting, sub, e);
    PlacedStep(maxsize, published, waiting, sub, e);
  }

  lemma KeepsAt(s: State, e: Event, k: nat)
    requires (s.waiting ==> s.published > 0) && Enabled(s, e) && k < |s.subs| && KeptAt(s, k)
    ensures k < |Next(s, e).subs| && KeptAt(Next(s, e), k)
  {
    NextSub(s, e, k);
    if Concerns(e, k) {
      SubKeeps(s.maxsize, s.published, s.waiting, s.subs[k], e);
    } else if e == PublishBegin {
      BeginKeeps(s.maxsize, s.published, s.subs[k]);
    }
  }

  lemma StepKeeps(s: State, e: Event)
    requires Invariant(s) && Enabled(s, e)
    ensures Invariant(Next(s, e))
  {
    var t := Next(s, e);
    forall k | 0 <= k < |t.subs| ensures KeptAt(t, k) {
      if k < |s.subs| {
        assert KeptAt(s, k);
        KeepsAt(s, e, k);
      } else {
        NewKeeps(s.maxsize, s.published, s.waiting);
      }
    }
  }

  lemma {:induction false} RunsKeep(maxsize: int, es: seq<Event>)
    requires Possible(Init(maxsize), es)
    ensures Invariant(After(Init(maxsize), es)) && After(Init(maxsize), es).maxsize == maxsize
  {
    if es != [] {
      var r := After(Init(maxsize), es[..|es| - 1]);
      RunsKeep(maxsize, es[..|es| - 1]);
      StepKeeps(r, es[|es| - 1]);
    }
  }

  // ---------- what is dropped ----------

  lemma SubDrops(maxsize: int, published: nat, waiting: bool, sub: Subscriber, e: Event)
    requires maxsize > 0 ==> |sub.queue| <= maxsize
    requires e == PublishEnd ==> published > 0
    ensures var t := SubNext(maxsize, published, waiting, sub, e);
            var full := e == PublishEnd && sub.phase == Active && maxsize > 0 && |sub.queue| == maxsize;
            && t.dropped == (if full then sub.dropped + 1 else sub.dropped)
            && (e == PublishEnd && sub.phase == Active ==>
                  t.queue == (if full then sub.queue[1..] else sub.queue) + [published - 1])
  {
  }

  lemma WaitingBounded(s: State, maxsize: int, es: seq<Event>, k: nat)
    requires Reached(s, maxsize, es) && k < |s.subs|
    ensures s.maxsize == maxsize && (maxsize > 0 ==> |s.subs[k].queue| <= maxsize)
  {
    RunsKeep(maxsize, es);
    assert KeptAt(s, k);
  }

  /** A publish drops a frame of a subscriber just if as many are waiting as may; nothing else drops any. */
  lemma DropsIffFull(s: State, maxsize: int, es: seq<Event>, e: Event, k: nat)
    requires Reached(s, maxsize, es) && Enabled(s, e) && k < |s.subs|
    ensures k < |Next(s, e).subs|
    ensures var sub, t := s.subs[k], Next(s, e).subs[k];
            var full := e == PublishEnd && sub.phase == Active && maxsize > 0 && |sub.queue| == maxsize;
            && t.dropped == (if full then sub.dropped + 1 else sub.dropped)
            && (e == PublishEnd && sub.phase == Active ==>
                  t.queue == (if full then sub.queue[1..] else sub.queue) + [s.published - 1])
  {
    WaitingBounded(s, maxsize, es, k);
    NextSub(s, e, k);
    SubDrops(maxsize, s.published, s.waiting, s.subs[k], e);
  }

  /** At no publish in the course of the events does subscriber k have as many frames waiting as it may. */
  ghost predicate KeepsUp(maxsize: int, es: seq<Event>, k: nat) {
    forall n | 0 <= n < |es| && es[n] == PublishEnd :: HasRoom(maxsize, After(Init(maxsize), es[..n]), k)
  }

  predicate HasRoom(maxsize: int, s: State, k: nat) {
    k < |s.subs| && s.subs[k].phase == Active && maxsize > 0 ==> |s.subs[k].queue| < maxsize
  }

  /** So a subscriber that keeps up loses nothing. */
  lemma {:induction false} KeepingUpLosesNothing(maxsize: int, es: seq<Event>, k: nat)
    requires Possible(Init(maxsize), es) && KeepsUp(maxsize, es, k) && k < |After(Init(maxsize), es).subs|
    ensures After(Init(maxsize), es).subs[k].dropped == 0
  {
    if es != [] {
      var front, e := es[..|es| - 1], es[|es| - 1];
      var s := After(Init(maxsize), front);
      forall n | 0 <= n < |front| && front[n] == PublishEnd
        ensures HasRoom(maxsize, After(Init(maxsize), front[..n]), k)
      {
        assert front[..n] == es[..n];
        assert HasRoom(maxsize, After(Init(maxsize), es[..n]), k);
      }
      if k < |s.subs| {
        KeepingUpLosesNothing(maxsize, front, k);
        DropsIffFull(s, maxsize, front, e, k);
        assert e == PublishEnd ==> HasRoom(maxsize, After(Init(maxsize), es[..|es| - 1]), k);
      }
    }
  }

  // ---------- what a subscriber sees ----------

  lemma {:induction false} UpToAt(lo: nat, hi: int)
    ensures |UpTo(lo, hi)| == (if hi <= lo then 0 else hi - lo)
    ensures forall i | 0 <= i < |UpTo(lo, hi)| :: UpTo(lo, hi)[i] == lo + i
    decreases hi - lo
  {
    if hi > lo {
      UpToAt(lo, hi - 1);
    }
  }

  ghost predicate NonDecreasing(s: seq<nat>) {
    forall i, j | 0 <= i < j < |s| :: s[i] <= s[j]
  }

  ghost predicate Increasing(s: seq<nat>) {
    forall i, j | 0 <= i < j < |s| :: s[i] < s[j]
  }

  /** Without a gap: each frame is followed by the one published next. */
  ghost predicate Contiguous(s: seq<nat>) {
    forall i, j | 0 <= i < j < |s| :: s[j] == s[i] + (j - i)
  }

  /** The queue is the end of what was offered, never longer than allowed; nothing is unaccounted for. */
  lemma QueueIsSuffix(s: State, maxsize: int, es: seq<Event>, k: nat)
    requires Reached(s, maxsize, es) && k < |s.subs|
    ensures var sub := s.subs[k];
            && |sub.enqueued| == |sub.delivered| + sub.dropped + |sub.queue|
            && sub.queue == sub.enqueued[|sub.enqueued| - |sub.queue|..]
            && (maxsize > 0 ==> |sub.queue| <= maxsize)
  {
    RunsKeep(maxsize, es);
    assert KeptAt(s, k);
  }

  lemma OfferedInOrder(sub: Subscriber, completed: int)
    requires sub.phase != Joining ==> sub.joined - 1 <= sub.entered
    ensures NonDecreasing(Offered(sub, completed))
    ensures sub.phase == Joining || sub.joined <= sub.entered ==> Increasing(Offered(sub, completed))
    ensures sub.phase == Joining || sub.joined in {0, sub.entered} ==> Contiguous(Offered(sub, completed))
    ensures sub.joined > 0 && |Offered(sub, completed)| >= 2 && Increasing(Offered(sub, completed)) ==>
        sub.joined <= sub.entered
    ensures sub.joined > 0 && |Offered(sub, completed)| >= 2 && Contiguous(Offered(sub, completed)) ==>
        sub.joined == sub.entered
  {
    var offered := Offered(sub, completed);
    UpToAt(sub.entered, if sub.phase == Active then completed else sub.closed);
    if sub.joined > 0 && |offered| >= 2 {
      assert offered[0] == sub.joined - 1 && offered[1] == sub.entered;
    }
  }

  /**
    Frames reach a subscriber in the order of publication. One can come twice only if the publisher was
    waiting for the lock from before the subscriber asked until after it was entered.
  */
  lemma DeliveredInOrder(s: State, maxsize: int, es: seq<Event>, k: nat)
    requires Reached(s, maxsize, es) && k < |s.subs|
    ensures var sub := s.subs[k];
            && NonDecreasing(sub.delivered)
            && (sub.phase == Joining || sub.joined <= sub.entered ==> Increasing(sub.delivered))
            && AllBelow(sub.delivered, s.published)
  {
    RunsKeep(maxsize, es);
    assert KeptAt(s, k);
    OfferedInOrder(s.subs[k], Completed(s.published, s.waiting));
    DeliveredWasOffered(maxsize, s.subs[k], s.published);
    OfferedWasPublished(s, k);
  }

  ghost predicate AllBelow(s: seq<nat>, n: nat) {
    forall i | 0 <= i < |s| :: s[i] < n
  }

  lemma DeliveredWasOffered(maxsize: int, sub: Subscriber, n: nat)
    requires Accounted(maxsize, sub)
    ensures AllBelow(sub.enqueued, n) ==> AllBelow(sub.delivered, n)
    ensures NonDecreasing(sub.enqueued) ==> NonDecreasing(sub.delivered)
    ensures Increasing(sub.enqueued) ==> Increasing(sub.delivered)
  {
  }

  lemma OfferedWasPublished(s: State, k: nat)
    requires Invariant(s) && k < |s.subs|
    ensures AllBelow(s.subs[k].enqueued, s.published)
  {
    var sub := s.subs[k];
    assert KeptAt(s, k);
    UpToAt(sub.entered, if sub.phase == Active then Completed(s.published, s.waiting) else sub.closed);
  }

  /**
    Of the frames offered, none comes twice, and none is left out, exactly under these conditions: fewer than
    two were offered, nothing had been published when the subscriber asked, or it was entered no sooner, and
    no later, than the publishes of which it got the latest.
  */
  lemma GapsAndRepetitions(s: State, maxsize: int, es: seq<Event>, k: nat)
    requires Reached(s, maxsize, es) && k < |s.subs|
    ensures var sub := s.subs[k];
            var few := sub.joined == 0 || |sub.enqueued| < 2;
            && (Increasing(sub.enqueued) <==> few || sub.joined <= sub.entered)
            && (Contiguous(sub.enqueued) <==> few || sub.joined == sub.entered)
  {
    RunsKeep(maxsize, es);
    assert KeptAt(s, k);
    OfferedInOrder(s.subs[k], Completed(s.published, s.waiting));
  }

  /** Of those delivered, one comes twice iff the first two offered were the same and both got through. */
  lemma DeliveredTwiceIff(s: State, maxsize: int, es: seq<Event>, k: nat)
    requires Reached(s, maxsize, es) && k < |s.subs|
    ensures var sub := s.subs[k];
            !Increasing(sub.delivered) <==>
              sub.phase != Joining && sub.joined == sub.entered + 1 && |sub.at| >= 2 && sub.at[..2] == [0, 1]
  {
    RunsKeep(maxsize, es);
    var sub := s.subs[k];
    assert KeptAt(s, k);
    OfferedInOrder(sub, Completed(s.published, s.waiting));
    DeliveredWasOffered(maxsize, sub, s.published);
    if sub.phase != Joining && sub.joined == sub.entered + 1 {
      RepeatedAtFirst(sub, Completed(s.published, s.waiting));
      FirstTwoDelivered(s.maxsize, sub);
    }
  }

  lemma RepeatedAtFirst(sub: Subscriber, completed: int)
    requires sub.phase != Joining && sub.joined == sub.entered + 1
    requires sub.enqueued == Offered(sub, completed)
    ensures forall i, j | 0 <= i < j < |sub.enqueued| ::
              if i == 0 && j == 1 then sub.enqueued[i] == sub.enqueued[j] else sub.enqueued[i] < sub.enqueued[j]
  {
    UpToAt(sub.entered, if sub.phase == Active then completed else sub.closed);
  }

  lemma FirstTwoDelivered(maxsize: int, sub: Subscriber)
    requires Accounted(maxsize, sub)
    requires forall i, j | 0 <= i < j < |sub.enqueued| ::
               if i == 0 && j == 1 then sub.enqueued[i] == sub.enqueued[j] else sub.enqueued[i] < sub.enqueued[j]
    ensures Increasing(sub.delivered) <==> !(|sub.at| >= 2 && sub.at[..2] == [0, 1])
  {
    if |sub.at| >= 2 {
      var two := sub.at[..2];
      assert two[0] == sub.at[0] && two[1] == sub.at[1];
      if sub.at[0] == 0 && sub.at[1] == 1 {
        assert two == [0, 1];
        assert sub.delivered[0] == sub.delivered[1];
      } else {
        forall i, j | 0 <= i < j < |sub.delivered| ensures sub.delivered[i] < sub.delivered[j] {
          assert sub.at[i] < sub.at[j];
          assert i > 0 ==> sub.at[0] < sub.at[i];
          assert j > 1 ==> sub.at[1] < sub.at[j];
        }
      }
    }
  }

  /** And repetition does happen: subscribing while a publish waits for the lock gives its frame twice. */
  lemma RepetitionHappens(maxsize: int) returns (es: seq<Event>)
    ensures Possible(Init(maxsize), es)
    ensures var s := After(Init(maxsize), es); |s.subs| == 1 && s.subs[0].enqueued == [0, 0]
  {
    var e1, e2 := [PublishBegin], [PublishBegin, SubscribeBegin];
    var e3 := [PublishBegin, SubscribeBegin, SubscribeEnd(0)];
    es := [PublishBegin, SubscribeBegin, SubscribeEnd(0), PublishEnd];
    assert e1[..0] == [] && e2[..1] == e1 && e3[..2] == e2 && es[..3] == e3;
    var s0 := Init(maxsize);
    assert Possible(s0, []) && After(s0, []) == s0;
    assert Possible(s0, e1) && After(s0, e1) == Next(s0, PublishBegin);
    assert Possible(s0, e2) && After(s0, e2) == Next(After(s0, e1), SubscribeBegin);
    assert Possible(s0, e3) && After(s0, e3) == Next(After(s0, e2), SubscribeEnd(0));
    assert After(s0, es) == Next(After(s0, e3), PublishEnd);
  }

  // ---------- when the lock is always free ----------

  datatype Operation = DoPublish | DoSubscribe | DoUnsubscribe(k: nat) | DoGet(k: nat)

  /** The events of one operation that nothing overtakes; `n` is the number of subscribers so far. */
  function EventsOf(op: Operation, n: nat): seq<Event> {
    match op
    case DoPublish => [PublishBegin, PublishEnd]
    case DoSubscribe => [SubscribeBegin, SubscribeEnd(n)]
    case DoUnsubscribe(k) => [Unsubscribe(k)]
    case DoGet(k) => [Get(k)]
  }

  function Perform(s: State, op: Operation): State {
    After(s, EventsOf(op, |s.subs|))
  }

  predicate CanPerform(s: State, op: Operation) {
    match op
    case DoPublish => true
    case DoSubscribe => true
    case DoUnsubscribe(k) => Enabled(s, Unsubscribe(k))
    case DoGet(k) => Enabled(s, Get(k))
  }

  function PerformAll(s: State, ops: seq<Operation>): State {
    if ops == [] then s else Perform(PerformAll(s, ops[..|ops| - 1]), ops[|ops| - 1])
  }

  predicate CanPerformAll(s: State, ops: seq<Operation>) {
    ops == [] || (CanPerformAll(s, ops[..|ops| - 1]) && CanPerform(PerformAll(s, ops[..|ops| - 1]), ops[|ops| - 1]))
  }

  ghost predicate Settled(s: State) {
    !s.waiting && forall k | 0 <= k < |s.subs| :: s.subs[k].phase != Joining && s.subs[k].joined == s.subs[k].entered
  }

  lemma PerformTwo(s: State, a: Event, b: Event)
    ensures After(s, [a, b]) == Next(Next(s, a), b)
  {
    assert After(s, []) == s;
    PerformOne(s, a);
    assert [a, b][..1] == [a];
  }

  lemma PerformOne(s: State, a: Event)
    ensures After(s, [a]) == Next(s, a)
  {
    assert [a][..0] == [];
  }

  lemma PublishSettles(s: State)
    requires Settled(s)
    ensures Settled(Next(Next(s, PublishBegin), PublishEnd))
  {
  }

  lemma SubscribeSettles(s: State)
    requires Settled(s)
    ensures Enabled(Next(s, SubscribeBegin), SubscribeEnd(|s.subs|))
    ensures Settled(Next(Next(s, SubscribeBegin), SubscribeEnd(|s.subs|)))
  {
    var r := Next(s, SubscribeBegin);
    var t := Next(r, SubscribeEnd(|s.subs|));
    forall k | 0 <= k < |s.subs| ensures t.subs[k] == s.subs[k] {}
  }

  lemma PublishKeeps(s: State)
    requires Invariant(s) && Settled(s)
    ensures var t := Next(Next(s, PublishBegin), PublishEnd); Invariant(t) && Settled(t)
  {
    StepKeeps(s, PublishBegin);
    StepKeeps(Next(s, PublishBegin), PublishEnd);
    PublishSettles(s);
  }

  lemma SubscribeKeeps(s: State)
    requires Invariant(s) && Settled(s)
    ensures var t := Next(Next(s, SubscribeBegin), SubscribeEnd(|s.subs|)); Invariant(t) && Settled(t)
  {
    SubscribeSettles(s);
    StepKeeps(s, SubscribeBegin);
    StepKeeps(Next(s, SubscribeBegin), SubscribeEnd(|s.subs|));
  }

  lemma PerformKeeps(s: State, op: Operation)
    requires Invariant(s) && Settled(s) && CanPerform(s, op)
    ensures Invariant(Perform(s, op)) && Settled(Perform(s, op))
  {
    match op
    case DoPublish =>
      PerformTwo(s, PublishBegin, PublishEnd);
      PublishKeeps(s);
    case DoSubscribe =>
      PerformTwo(s, SubscribeBegin, SubscribeEnd(|s.subs|));
      SubscribeKeeps(s);
    case DoUnsubscribe(k) =>
      PerformOne(s, Unsubscribe(k));
      StepKeeps(s, Unsubscribe(k));
    case DoGet(k) =>
      PerformOne(s, Get(k));
      StepKeeps(s, Get(k));
  }

  lemma {:induction false} SettledRuns(maxsize: int, ops: seq<Operation>)
    requires CanPerformAll(Init(maxsize), ops)
    ensures Invariant(PerformAll(Init(maxsize), ops)) && Settled(PerformAll(Init(maxsize), ops))
  {
    if ops != [] {
      SettledRuns(maxsize, ops[..|ops| - 1]);
      PerformKeeps(PerformAll(Init(maxsize), ops[..|ops| - 1]), ops[|ops| - 1]);
    }
  }

  /**
    Then every subscriber's queue is a contiguous stretch of the published frames, up to the latest while
    it is subscribed, and what it is given has strictly increasing positions.
  */
  lemma UncontendedRunsAreContiguous(maxsize: int, ops: seq<Operation>, k: nat)
    requires CanPerformAll(Init(maxsize), ops) && k < |PerformAll(Init(maxsize), ops).subs|
    ensures var s := PerformAll(Init(maxsize), ops);
            var sub := s.subs[k];
            && Contiguous(sub.enqueued) && Contiguous(sub.queue) && Increasing(sub.delivered)
            && (sub.phase == Active && sub.queue != [] ==> sub.queue[|sub.queue| - 1] == s.published - 1)
  {
    SettledRuns(maxsize, ops);
    var s := PerformAll(Init(maxsize), ops);
    assert KeptAt(s, k);
    SettledSubscriber(s.maxsize, s.published, s.subs[k]);
  }

  lemma SettledSubscriber(maxsize: int, published: nat, sub: Subscriber)
    requires SubInvariant(maxsize, published, false, sub)
    requires sub.phase != Joining && sub.joined == sub.entered
    ensures Contiguous(sub.enqueued) && Contiguous(sub.queue) && Increasing(sub.delivered)
    ensures sub.phase == Active && sub.queue != [] ==> sub.queue[|sub.queue| - 1] == published - 1
  {
    OfferedContiguous(sub, published);
    DeliveredInOrderOnce(maxsize, sub);
    ContiguousSuffix(sub.enqueued, |sub.enqueued| - |sub.queue|);
    if sub.phase == Active && sub.queue != [] {
      LastOffered(sub, published);
    }
  }

  lemma OfferedContiguous(sub: Subscriber, completed: int)
    requires sub.phase != Joining && sub.joined == sub.entered
    ensures Contiguous(Offered(sub, completed))
  {
    OfferedInOrder(sub, completed);
  }

  lemma DeliveredInOrderOnce(maxsize: int, sub: Subscriber)
    requires Accounted(maxsize, sub) && Contiguous(sub.enqueued)
    ensures Increasing(sub.delivered)
  {
    DeliveredWasOffered(maxsize, sub, 0);
  }

  lemma ContiguousSuffix(s: seq<nat>, k: nat)
    requires k <= |s| && Contiguous(s)
    ensures Contiguous(s[k..])
  {
  }

  lemma LastOffered(sub: Subscriber, completed: nat)
    requires sub.phase == Active && sub.joined == sub.entered <= completed && Offered(sub, completed) != []
    ensures var offered := Offered(sub, completed); offered[|offered| - 1] == completed - 1
  {
    UpToAt(sub.entered, completed);
  }

  // ---------- subscribers do not affect each other ----------

  /** All that one subscriber's fate depends on. */
  datatype View = View(maxsize: int, published: nat, waiting: bool, sub: Subscriber)

  function ViewOf(s: State, k: nat): View
    requires k < |s.subs|
  {
    View(s.maxsize, s.published, s.waiting, s.subs[k])
  }

  function NextView(v: View, e: Event, k: nat): View {
    var sub := if Concerns(e, k) then SubNext(v.maxsize, v.published, v.waiting, v.sub, e) else v.sub;
    match e
    case PublishBegin => View(v.maxsize, v.published + 1, true, sub)
    case PublishEnd => View(v.maxsize, v.published, false, sub)
    case _ => View(v.maxsize, v.published, v.waiting, sub)
  }

  function ViewAfter(v: View, es: seq<Event>, k: nat): View {
    if es == [] then v else NextView(ViewAfter(v, es[..|es| - 1], k), es[|es| - 1], k)
  }

  /** The publisher's events and those of subscriber k itself. */
  function OwnEvents(es: seq<Event>, k: nat): seq<Event> {
    if es == [] then []
    else
      var front := OwnEvents(es[..|es| - 1], k);
      if Matters(es[|es| - 1], k) then front + [es[|es| - 1]] else front
  }

  predicate Matters(e: Event, k: nat) {
    e == PublishBegin || Concerns(e, k)
  }

  lemma OneEvent(s: State, e: Event, k: nat)
    requires k < |s.subs|
    ensures k < |Next(s, e).subs|
    ensures ViewOf(Next(s, e), k) == if Matters(e, k) then NextView(ViewOf(s, k), e, k) else ViewOf(s, k)
  {
  }

  lemma OwnEventsMore(es: seq<Event>, e: Event, v: View, k: nat)
    ensures ViewAfter(v, OwnEvents(es + [e], k), k)
         == if Matters(e, k) then NextView(ViewAfter(v, OwnEvents(es, k), k), e, k)
             else ViewAfter(v, OwnEvents(es, k), k)
  {
    var own := OwnEvents(es, k);
    assert (es + [e])[..|es|] == es;
    assert (own + [e])[..|own|] == own;
  }

  /** What others do, how slow they are and whether they are there at all makes no difference. */
  lemma {:induction false} SubscribersAreIndependent(s: State, es: seq<Event>, k: nat)
    requires k < |s.subs|
    ensures k < |After(s, es).subs|
    ensures ViewOf(After(s, es), k) == ViewAfter(ViewOf(s, k), OwnEvents(es, k), k)
  {
    if es != [] {
      var front, e := es[..|es| - 1], es[|es| - 1];
      SubscribersAreIndependent(s, front, k);
      OneEvent(After(s, front), e, k);
      OwnEventsMore(front, e, ViewOf(s, k), k);
      assert es == front + [e];
    }
  }

  // ---------- as seen through the stream ----------

  ghost function Chosen(published: seq<Bytes>, positions: seq<nat>): seq<Bytes>
    requires AllBelow(positions, |published|)
  {
    seq(|positions|, i requires 0 <= i < |positions| => published[positions[i]])
  }

  // ---------- the machine and the class ----------

  lemma ChosenFromMore(published: seq<Bytes>, frame: Bytes, positions: seq<nat>)
    requires AllBelow(positions, |published|)
    ensures Chosen(published + [frame], positions) == Chosen(published, positions)
  {
  }

  /** A publish that nothing overtakes does to the frames in each queue what `Publish` does to its items. */
  lemma PublishMatches(s: State, published: seq<Bytes>, jpeg: Bytes, k: nat)
    requires Invariant(s) && !s.waiting && |published| == s.published && k < |s.subs| && s.subs[k].phase == Active
    ensures var t := Perform(s, DoPublish);
            && t.published == |published + [jpeg]| && !t.waiting && k < |t.subs|
            && AllBelow(s.subs[k].queue, |published|) && AllBelow(t.subs[k].queue, |published| + 1)
            && Chosen(published + [jpeg], t.subs[k].queue)
               == Pushed(s.maxsize, Chosen(published, s.subs[k].queue), jpeg)
  {
    PerformTwo(s, PublishBegin, PublishEnd);
    QueueBelow(s, k);
    PushedCommutes(s.maxsize, published, s.subs[k].queue, jpeg);
  }

  lemma PushedCommutes(maxsize: int, published: seq<Bytes>, queue: seq<nat>, jpeg: Bytes)
    requires AllBelow(queue, |published|)
    ensures var q := Pushed(maxsize, queue, |published|);
            AllBelow(q, |published| + 1)
            && Chosen(published + [jpeg], q) == Pushed(maxsize, Chosen(published, queue), jpeg)
  {
    var room := if Full(maxsize, queue) then queue[1..] else queue;
    ChosenFromMore(published, jpeg, room);
    assert Chosen(published, queue[|queue| - |room|..]) == Chosen(published, queue)[|queue| - |room|..];
    assert queue[|queue| - |room|..] == room;
    assert Chosen(published + [jpeg], room + [|published|]) == Chosen(published + [jpeg], room) + [jpeg];
  }

  lemma QueueBelow(s: State, k: nat)
    requires Invariant(s) && k < |s.subs|
    ensures AllBelow(s.subs[k].queue, s.published)
  {
    assert KeptAt(s, k);
    OfferedWasPublished(s, k);
  }

  /** Subscribing adds a queue of just what `Subscribe` puts into it, and leaves the others as they are. */
  lemma SubscribeMatches(s: State, published: seq<Bytes>)
    requires Invariant(s) && !s.waiting && |published| == s.published
    ensures var t, n := Perform(s, DoSubscribe), |s.subs|;
            && |t.subs| == n + 1 && t.subs[n].phase == Active && t.subs[..n] == s.subs
            && AllBelow(t.subs[n].queue, |published|)
            && Chosen(published, t.subs[n].queue) == if published == [] then [] else [published[|published| - 1]]
  {
    var n := |s.subs|;
    PerformTwo(s, SubscribeBegin, SubscribeEnd(n));
    var r := Next(s, SubscribeBegin);
    assert r.subs[n] == NewSubscriber(s.published);
    assert r.subs[..n] == s.subs;
  }

  /**
    A client that splits the annotated stream sees the frames delivered to its queue, whole and in the
    order of publication, however the stream was cut up on the way.
  */
  lemma ClientSeesDelivered(s: State, maxsize: int, es: seq<Event>, k: nat, published: seq<Bytes>, chunks: seq<Bytes>)
    requires Reached(s, maxsize, es) && k < |s.subs|
    requires |published| == s.published && forall f | f in published :: IsImage(f)
    ensures AllBelow(s.subs[k].delivered, |published|) && NonDecreasing(s.subs[k].delivered)
    ensures Flatten(chunks) == Flatten(Parts(Chosen(published, s.subs[k].delivered))) ==>
              Parse(Flatten(chunks)).frames == Chosen(published, s.subs[k].delivered)
  {
    DeliveredInOrder(s, maxsize, es, k);
    var frames := Chosen(published, s.subs[k].delivered);
    forall f | f in frames ensures IsImage(f) {
      var i :| 0 <= i < |frames| && frames[i] == f;
      assert f == published[s.subs[k].delivered[i]];
    }
    RoundTripIff(frames);
  }
}
