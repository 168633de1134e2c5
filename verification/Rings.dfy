/** The two rings of runtime/utils.h, Channel and LockFreeQueue, with one sender and one receiver.
    Each atomic access is a step of its own, and the steps of the two threads interleave freely. */
module Rings {
  // ----- indices

  /** The bits that a and b share. */
  function BitAnd(a: nat, b: nat): nat
    decreases a
  {
    if a == 0 || b == 0 then 0 else 2 * BitAnd(a / 2, b / 2) + if a % 2 == 1 && b % 2 == 1 then 1 else 0
  }

  datatype Form = Mask | Modulo

  const SIZE_MAX := 0xffffffffffffffff

  /** Size - 1 in size_t. */
  function MinusOne(n: nat): nat {
    if n == 0 then SIZE_MAX else n - 1
  }

  /** The index after i, as Channel and as LockFreeQueue compute it. */
  function Advance(form: Form, i: nat, n: nat): nat
    requires Computes(form, n)
  {
    match form
    case Mask => BitAnd(i + 1, MinusOne(n))
    case Modulo => (i + 1) % n
  }

  /** There is no remainder by 0. */
  predicate Computes(form: Form, n: nat) {
    form.Mask? || n > 0
  }

  /** The static assertion of Channel. */
  predicate Asserted(n: nat) {
    BitAnd(n, MinusOne(n)) == 0
  }

  /** The sizes that both compile and have a slot. */
  predicate Sized(form: Form, n: nat) {
    n > 0 && (form.Mask? ==> Asserted(n))
  }

  function Next(i: nat, n: nat): nat {
    if i + 1 == n then 0 else i + 1
  }

  predicate PowerOfTwo(n: nat) {
    n == 1 || (n > 1 && n % 2 == 0 && PowerOfTwo(n / 2))
  }

  lemma {:induction false} BitAndSelf(a: nat)
    ensures BitAnd(a, a) == a
  {
    if a > 0 {
      BitAndSelf(a / 2);
    }
  }

  lemma {:induction false} PowerOfTwoBits(n: nat)
    requires n > 0
    ensures BitAnd(n, n - 1) == 0 <==> PowerOfTwo(n)
  {
    if n > 1 {
      if n % 2 == 0 {
        PowerOfTwoBits(n / 2);
        assert (n - 1) / 2 == n / 2 - 1;
      } else {
        BitAndSelf(n / 2);
        assert (n - 1) / 2 == n / 2;
      }
    }
  }

  /** The static assertion of Channel holds exactly for the powers of two and for 0. */
  lemma AssertedIs(n: nat)
    ensures Asserted(n) <==> PowerOfTwo(n) || n == 0
  {
    if n > 0 {
      PowerOfTwoBits(n);
    }
  }

  lemma {:induction false} MaskIs(x: nat, n: nat)
    requires PowerOfTwo(n) && x <= n
    ensures BitAnd(x, n - 1) == if x == n then 0 else x
  {
    if n > 1 && x > 0 {
      MaskIs(x / 2, n / 2);
      assert (n - 1) / 2 == n / 2 - 1;
    }
  }

  /** Both forms go around the ring one place at a time. */
  lemma AdvanceIs(form: Form, i: nat, n: nat)
    requires Sized(form, n) && i < n
    ensures Advance(form, i, n) == Next(i, n)
  {
    if form.Mask? {
      PowerOfTwoBits(n);
      MaskIs(i + 1, n);
    } else if i + 1 < n {
      assert (i + 1) % n == i + 1;
    }
  }

  // ----- the two threads

  datatype Sender<T> =
    | Resting
    | Sending(item: T)
    | OwnRead(item: T, own: nat)            // has loaded its own index
    | RoomSeen(item: T, own: nat, next: nat) // has loaded the other index: not full
    | SlotWritten(item: T, own: nat, next: nat)

  datatype Receiver<T> =
    | Asleep
    | OwnLoaded(own: nat)
    | ItemSeen(own: nat)
    | ItemRead(own: nat, item: T)

  /** `write` is Channel's tail and LockFreeQueue's head, `read` the other one. */
  datatype State<T> = State(buffer: seq<T>, write: nat, read: nat, sender: Sender<T>, receiver: Receiver<T>,
                            sent: seq<T>, received: seq<T>)

  datatype Event<T> = Call(item: T) | SenderMoves | ReceiverMoves

  predicate Init<T(==)>(s: State<T>, n: nat) {
    |s.buffer| == n && s.write == s.read == 0 && s.sender == Resting && s.receiver == Asleep
      && s.sent == s.received == []
  }

  /** send and push: load, load and compare, store the item, store the index. An item for a place
      outside the buffer has nowhere to go in the model. */
  function SenderStep<T>(form: Form, n: nat, s: State<T>): State<T>
    requires Computes(form, n)
  {
    match s.sender
    case Resting => s
    case Sending(item) => s.(sender := OwnRead(item, s.write))
    case OwnRead(item, own) =>
      var next := Advance(form, own, n);
      s.(sender := if next == s.read then Resting else RoomSeen(item, own, next))
    case RoomSeen(item, own, next) =>
      if own < |s.buffer| then s.(buffer := s.buffer[own := item], sender := SlotWritten(item, own, next)) else s
    case SlotWritten(item, own, next) => s.(write := next, sent := s.sent + [item], sender := Resting)
  }

  /** receive and pop. */
  function ReceiverStep<T>(form: Form, n: nat, s: State<T>): State<T>
    requires Computes(form, n)
  {
    match s.receiver
    case Asleep => s.(receiver := OwnLoaded(s.read))
    case OwnLoaded(own) => s.(receiver := if own == s.write then Asleep else ItemSeen(own))
    case ItemSeen(own) => if own < |s.buffer| then s.(receiver := ItemRead(own, s.buffer[own])) else s
    case ItemRead(own, item) =>
      s.(read := Advance(form, own, n), received := s.received + [item], receiver := Asleep)
  }

  predicate Step<T(==)>(form: Form, n: nat, s: State<T>, s': State<T>, e: Event<T>)
    requires Computes(form, n)
  {
    match e
    case Call(item) => s.sender.Resting? && s' == s.(sender := Sending(item))
    case SenderMoves => s' == SenderStep(form, n, s)
    case ReceiverMoves => s' == ReceiverStep(form, n, s)
  }

  // ----- the invariant

  /** The slot of the k-th item. */
  function Slot(k: nat, n: nat): (i: nat)
    requires n > 0
    ensures i < n
  {
    if k == 0 then 0 else Next(Slot(k - 1, n), n)
  }

  lemma {:induction false} SlotAhead(a: nat, d: nat, n: nat)
    requires n > 0 && d <= n
    ensures Slot(a + d, n) == if Slot(a, n) + d < n then Slot(a, n) + d else Slot(a, n) + d - n
  {
    if d > 0 {
      SlotAhead(a, d - 1, n);
    }
  }

  /** Items less than a round apart lie in different slots. */
  lemma SlotsDiffer(a: nat, b: nat, n: nat)
    requires n > 0 && a < b < a + n
    ensures Slot(a, n) != Slot(b, n)
  {
    SlotAhead(a, b - a, n);
  }

  ghost predicate Unread<T>(n: nat, s: State<T>)
    requires n > 0
  {
    && |s.buffer| == n && |s.received| <= |s.sent| <= |s.received| + n - 1
    && s.received <= s.sent
    && s.write == Slot(|s.sent|, n) && s.read == Slot(|s.received|, n)
    && forall k {:trigger s.sent[k]} :: |s.received| <= k < |s.sent| ==> s.buffer[Slot(k, n)] == s.sent[k]
  }

  ghost predicate Inv<T>(n: nat, s: State<T>)
    requires n > 0
  {
    && Unread(n, s)
    && (match s.sender
        case OwnRead(_, own) => own == s.write
        case RoomSeen(_, own, next) =>
          own == s.write && next == Next(own, n) && |s.sent| < |s.received| + n - 1
        case SlotWritten(item, own, next) =>
          own == s.write && next == Next(own, n) && |s.sent| < |s.received| + n - 1 && s.buffer[own] == item
        case _ => true)
    && (match s.receiver
        case OwnLoaded(own) => own == s.read
        case ItemSeen(own) => own == s.read && |s.received| < |s.sent|
        case ItemRead(own, item) => own == s.read && |s.received| < |s.sent| && item == s.sent[|s.received|]
        case _ => true)
  }

  /** The slot that the sender is about to write holds no unread item. */
  lemma WriteIsSafe<T>(n: nat, s: State<T>, k: nat)
    requires n > 0 && Inv(n, s) && s.sender.RoomSeen? && |s.received| <= k < |s.sent|
    ensures Slot(k, n) != s.sender.own
  {
    SlotsDiffer(k, |s.sent|, n);
  }

  /** The sender sees a full ring exactly when n - 1 items are unread. */
  lemma FullIsFull<T>(n: nat, s: State<T>)
    requires n > 0 && Unread(n, s)
    ensures Next(s.write, n) == s.read <==> |s.sent| == |s.received| + n - 1
  {
    SlotAhead(|s.received|, |s.sent| - |s.received| + 1, n);
  }

  /** The receiver sees an empty ring exactly when no item is unread. */
  lemma EmptyIsEmpty<T>(n: nat, s: State<T>)
    requires n > 0 && Unread(n, s)
    ensures s.write == s.read <==> |s.sent| == |s.received|
  {
    SlotAhead(|s.received|, |s.sent| - |s.received|, n);
  }

  lemma SenderKeeps<T>(form: Form, n: nat, s: State<T>)
    requires Sized(form, n) && Inv(n, s)
    ensures Inv(n, SenderStep(form, n, s))
  {
    var s' := SenderStep(form, n, s);
    match s.sender
    case OwnRead(item, own) =>
      AdvanceIs(form, own, n);
      FullIsFull(n, s);
    case RoomSeen(item, own, next) =>
      forall k | |s.received| <= k < |s.sent| ensures s'.buffer[Slot(k, n)] == s.sent[k] {
        WriteIsSafe(n, s, k);
      }
    case SlotWritten(item, own, next) =>
      forall k | |s.received| <= k < |s'.sent| ensures s'.buffer[Slot(k, n)] == s'.sent[k] {
        assert k < |s.sent| ==> s'.sent[k] == s.sent[k];
      }
    case _ =>
  }

  lemma ReceiverKeeps<T>(form: Form, n: nat, s: State<T>)
    requires Sized(form, n) && Inv(n, s)
    ensures Inv(n, ReceiverStep(form, n, s))
  {
    match s.receiver
    case OwnLoaded(own) => EmptyIsEmpty(n, s);
    case ItemRead(own, item) => AdvanceIs(form, own, n);
    case _ =>
  }

  // ----- every run

  ghost predicate IsRun<T>(form: Form, n: nat, run: seq<State<T>>, events: seq<Event<T>>)
    requires Computes(form, n)
  {
    && |run| == |events| + 1 && Init(run[0], n)
    && forall i {:trigger events[i]} :: 0 <= i < |events| ==> Step(form, n, run[i], run[i + 1], events[i])
  }

  lemma {:induction false} RunInv<T>(form: Form, n: nat, run: seq<State<T>>, events: seq<Event<T>>, i: nat)
    requires Sized(form, n) && IsRun(form, n, run, events) && i < |run|
    ensures Inv(n, run[i])
  {
    if i > 0 {
      RunInv(form, n, run, events, i - 1);
      match events[i - 1]
      case Call(_) =>
      case SenderMoves => SenderKeeps(form, n, run[i - 1]);
      case ReceiverMoves => ReceiverKeeps(form, n, run[i - 1]);
    }
  }

  // ----- the bounded queue behind the ring

  /** How many places lie from r on before w. */
  function Distance(r: nat, w: nat, n: nat): int {
    if r <= w then w - r else w + n - r
  }

  /** What the buffer holds from `read` on before `write`. */
  function Contents<T>(buffer: seq<T>, read: nat, write: nat): (q: seq<T>)
    requires read < |buffer| && write < |buffer|
    decreases Distance(read, write, |buffer|)
  {
    if read == write then [] else [buffer[read]] + Contents(buffer, Next(read, |buffer|), write)
  }

  ghost function Queue<T>(n: nat, s: State<T>): seq<T>
    requires n > 0 && Unread(n, s)
  {
    Contents(s.buffer, s.read, s.write)
  }

  lemma {:induction false} ContentsAre<T>(n: nat, s: State<T>, k: nat)
    requires n > 0 && Unread(n, s) && |s.received| <= k <= |s.sent|
    ensures Contents(s.buffer, Slot(k, n), s.write) == s.sent[k..]
    decreases |s.sent| - k
  {
    if k < |s.sent| {
      SlotsDiffer(k, |s.sent|, n);
      ContentsAre(n, s, k + 1);
      assert s.sent[k..] == [s.sent[k]] + s.sent[k + 1..];
    }
  }

  /** A step of a queue that holds at most cap items. */
  ghost predicate QueueStep<T>(cap: int, q: seq<T>, q': seq<T>) {
    || q' == q
    || (|q| < cap && |q'| == |q| + 1 && q <= q')
    || (|q| > 0 && q' == q[1..])
  }

  /** In every state of every run, in both forms: the items received are a prefix of those sent, at
      most n - 1 are under way, and they are what the buffer holds between the indices. */
  lemma ReceivedIsPrefix<T>(form: Form, n: nat, run: seq<State<T>>, events: seq<Event<T>>, i: nat)
    requires Sized(form, n) && IsRun(form, n, run, events) && i < |run|
    ensures run[i].received <= run[i].sent && |run[i].sent| - |run[i].received| <= n - 1
    ensures Unread(n, run[i]) && run[i].sent == run[i].received + Queue(n, run[i])
  {
    RunInv(form, n, run, events, i);
    ContentsAre(n, run[i], |run[i].received|);
  }

  /** Every atomic step of the sender is a step of the bounded queue: only the store of its index
      changes the queue and appends the item of the call; the ring is found full when the queue is. */
  lemma SenderRefines<T>(form: Form, n: nat, s: State<T>)
    requires Sized(form, n) && Inv(n, s)
    ensures var s' := SenderStep(form, n, s);
      && Inv(n, s') && QueueStep(n - 1, Queue(n, s), Queue(n, s'))
      && Queue(n, s') == (if s.sender.SlotWritten? then Queue(n, s) + [s.sender.item] else Queue(n, s))
      && (s.sender.OwnRead? ==> (s'.sender.Resting? <==> |Queue(n, s)| == n - 1))
  {
    var s' := SenderStep(form, n, s);
    SenderKeeps(form, n, s);
    ContentsAre(n, s, |s.received|);
    ContentsAre(n, s', |s.received|);
    if s.sender.OwnRead? {
      AdvanceIs(form, s.sender.own, n);
      FullIsFull(n, s);
    }
  }

  /** Every atomic step of the receiver is a step of the bounded queue: only the store of its index
      changes the queue and takes off the first item, which is the one returned; the ring is found
      empty when the queue is. */
  lemma ReceiverRefines<T>(form: Form, n: nat, s: State<T>)
    requires Sized(form, n) && Inv(n, s)
    ensures var s' := ReceiverStep(form, n, s);
      && Inv(n, s') && QueueStep(n - 1, Queue(n, s), Queue(n, s'))
      && (if s.receiver.ItemRead? then Queue(n, s) == [s.receiver.item] + Queue(n, s') else Queue(n, s') == Queue(n, s))
      && (s.receiver.OwnLoaded? ==> (s'.receiver.Asleep? <==> Queue(n, s) == []))
  {
    var s' := ReceiverStep(form, n, s);
    ReceiverKeeps(form, n, s);
    ContentsAre(n, s, |s.received|);
    ContentsAre(n, s', |s'.received|);
    EmptyIsEmpty(n, s);
  }

  /** A ring of size 1 is always full: nothing is ever sent through it. */
  lemma {:induction false} SizeOneIsFull<T>(form: Form, run: seq<State<T>>, events: seq<Event<T>>, i: nat)
    requires Sized(form, 1) && IsRun(form, 1, run, events) && i < |run|
    ensures run[i].sent == []
  {
    RunInv(form, 1, run, events, i);
    if i > 0 {
      SizeOneIsFull(form, run, events, i - 1);
      RunInv(form, 1, run, events, i - 1);
      assert Step(form, 1, run[i - 1], run[i], events[i - 1]);
    }
  }

  /** What a send writes to is a slot of the buffer, in every run of a size that is not 0. */
  lemma WritesInside<T>(form: Form, n: nat, run: seq<State<T>>, events: seq<Event<T>>, i: nat)
    requires Sized(form, n) && IsRun(form, n, run, events) && i < |run| && run[i].sender.RoomSeen?
    ensures run[i].sender.own < |run[i].buffer|
  {
    RunInv(form, n, run, events, i);
  }

  /** A Channel of size 0 passes the static assertion, and its first send finds room and is about to
      write past the empty buffer. */
  lemma SizeZeroOverruns<T>(item: T) returns (run: seq<State<T>>, events: seq<Event<T>>)
    ensures Asserted(0) && IsRun(Mask, 0, run, events)
    ensures var s := run[|run| - 1]; s.sender == RoomSeen(item, 0, 1) && |s.buffer| == 0
  {
    var s0 := State([], 0, 0, Resting, Asleep, [], []);
    var s1 := s0.(sender := Sending(item));
    var s2 := s1.(sender := OwnRead(item, 0));
    var s3 := s2.(sender := RoomSeen(item, 0, 1));
    assert BitAnd(1, SIZE_MAX) == 1;
    run, events := [s0, s1, s2, s3], [Call(item), SenderMoves, SenderMoves];
  }
}
