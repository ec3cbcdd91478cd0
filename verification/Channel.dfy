/** Channels (cyarg/channel.c) in the busy-waiting build: a ring buffer under a lock, whose wait test
    is a step of its own.  What one receiver gets is what one sender sent, in order, however their
    steps are interleaved. */
module Channel {
  import opened Language

  lemma NextCursor(i: nat, n: nat)
    requires i < n
    ensures (i + 1) % n == if i + 1 == n then 0 else i + 1
  {
  }

  class Channel {
    const buffer: array<Value>
    var writeCursor: nat
    var occupied: nat
    var overflow: bool

    ghost predicate Valid()
      reads this
    {
      0 < buffer.Length && writeCursor < buffer.Length && occupied <= buffer.Length
    }

    function ReadCursor(): (i: nat)
      requires Valid()
      reads this
      ensures i < buffer.Length
      ensures i + occupied == writeCursor || i + occupied == writeCursor + buffer.Length
    {
      (writeCursor + buffer.Length - occupied) % buffer.Length
    }

    /** The place of the `k`-th value from the oldest. */
    ghost function Place(k: nat): (i: nat)
      requires Valid() && k < buffer.Length
      reads this
      ensures i < buffer.Length
    {
      var i := ReadCursor() + k;
      if i < buffer.Length then i else i - buffer.Length
    }

    /** The values in the channel, oldest first. */
    ghost function Contents(): (s: seq<Value>)
      requires Valid()
      reads this, buffer
      ensures |s| == occupied
    {
      seq(occupied, k requires 0 <= k < occupied && Valid() reads this, buffer => buffer[Place(k)])
    }

    constructor (capacity: nat)
      requires capacity > 0
      ensures Valid() && fresh(buffer) && buffer.Length == capacity && Contents() == [] && !overflow
    {
      buffer := new Value[capacity](_ => NilVal);
      writeCursor, occupied, overflow := 0, 0, false;
    }

    /** The wait test of a sender, and of a receiver. */
    predicate HasSpace()
      reads this
    {
      occupied != buffer.Length
    }

    predicate HasData()
      reads this
    {
      occupied != 0
    }

    /** The locked part of `sendChannel`. */
    method Send(data: Value)
      requires Valid() && HasSpace()
      modifies this, buffer
      ensures Valid() && Contents() == old(Contents()) + [data] && !overflow
    {
      hide ReadCursor;
      NextCursor(writeCursor, buffer.Length);
      ghost var was, cursor := Contents(), ReadCursor();
      buffer[writeCursor] := data;
      occupied := occupied + 1;
      writeCursor := (writeCursor + 1) % buffer.Length;
      overflow := false;
      assert ReadCursor() == cursor;
      assert Contents() == was + [data];
    }

    /** `collectFromChannel`. */
    method Collect() returns (result: Value)
      requires Valid() && HasData()
      modifies this
      ensures Valid() && [result] + Contents() == old(Contents()) && !overflow
    {
      result := buffer[ReadCursor()];
      occupied := occupied - 1;
      overflow := false;
    }

    /** `shareChannel`: never waits; on a full channel the oldest value makes room. */
    method Share(data: Value) returns (result: bool)
      requires Valid()
      modifies this, buffer
      ensures Valid() && result == overflow == (old(overflow) || old(occupied) == buffer.Length)
      ensures Contents() == (if old(occupied) == buffer.Length then old(Contents())[1..] else old(Contents())) + [data]
    {
      hide ReadCursor;
      NextCursor(writeCursor, buffer.Length);
      ghost var was, cursor, full := Contents(), ReadCursor(), occupied == buffer.Length;
      buffer[writeCursor] := data;
      occupied := occupied + 1;
      writeCursor := (writeCursor + 1) % buffer.Length;
      if occupied > buffer.Length {
        overflow := true;
        occupied := buffer.Length;
      }
      result := overflow;
      assert ReadCursor() == if full then writeCursor else cursor;
      assert Contents() == (if full then was[1..] else was) + [data];
    }

    method Peek() returns (result: Value)
      requires Valid()
      ensures result == if occupied > 0 then Contents()[0] else NilVal
    {
      result := NilVal;
      if occupied > 0 {
        result := buffer[ReadCursor()];
      }
    }
  }

  // ---- one sender and one receiver ----

  /** Whose step is next: the sender's wait test or update, or the receiver's. */
  datatype Actor = Sender | Receiver

  /** The channel and its two users between two steps: a flag says that a wait test has succeeded. */
  datatype State = State(contents: seq<Value>, senderMayWrite: bool, receiverMayRead: bool,
                         sent: seq<Value>, received: seq<Value>)

  const START := State([], false, false, [], [])

  /** A step; `data` is what there is to send in all. */
  function After(s: State, actor: Actor, data: seq<Value>, capacity: nat): State {
    match actor
    case Sender =>
      if |s.sent| >= |data| then s
      else if s.senderMayWrite then
        s.(contents := s.contents + [data[|s.sent|]], sent := s.sent + [data[|s.sent|]], senderMayWrite := false)
      else s.(senderMayWrite := |s.contents| != capacity)
    case Receiver =>
      if s.receiverMayRead && s.contents != [] then
        s.(contents := s.contents[1..], received := s.received + [s.contents[0]], receiverMayRead := false)
      else s.(receiverMayRead := |s.contents| != 0)
  }

  function Run(s: State, schedule: seq<Actor>, data: seq<Value>, capacity: nat): State
    decreases |schedule|
  {
    if schedule == [] then s else Run(After(s, schedule[0], data, capacity), schedule[1..], data, capacity)
  }

  /** Nothing is lost, doubled or reordered, the channel does not overflow, and a wait test that has
      succeeded stays true until its step is done. */
  predicate Orderly(s: State, data: seq<Value>, capacity: nat) {
    && s.sent == s.received + s.contents && s.sent <= data
    && |s.contents| <= capacity
    && (s.senderMayWrite ==> |s.contents| < capacity && |s.sent| < |data|)
    && (s.receiverMayRead ==> |s.contents| > 0)
  }

  lemma AfterOrderly(s: State, actor: Actor, data: seq<Value>, capacity: nat)
    requires Orderly(s, data, capacity)
    ensures Orderly(After(s, actor, data, capacity), data, capacity)
  {
    if actor == Sender && |s.sent| < |data| {
      assert s.sent + [data[|s.sent|]] <= data;
    }
  }

  /** Every state of every run is orderly. */
  lemma {:induction false} RunOrderly(s: State, schedule: seq<Actor>, data: seq<Value>, capacity: nat)
    requires Orderly(s, data, capacity)
    ensures Orderly(Run(s, schedule, data, capacity), data, capacity)
    decreases |schedule|
  {
    hide After, Orderly;
    if schedule != [] {
      AfterOrderly(s, schedule[0], data, capacity);
      RunOrderly(After(s, schedule[0], data, capacity), schedule[1..], data, capacity);
    }
  }

  lemma {:induction false} RunAppend(s: State, a: seq<Actor>, b: seq<Actor>, data: seq<Value>, capacity: nat)
    ensures Run(s, a + b, data, capacity) == Run(Run(s, a, data, capacity), b, data, capacity)
    decreases |a|
  {
    hide After;
    if a == [] {
      assert a + b == b;
    } else {
      assert (a + b)[1..] == a[1..] + b;
      RunAppend(After(s, a[0], data, capacity), a[1..], b, data, capacity);
    }
  }

  // ---- progress ----

  /** Each effective step counts once: a value sent or received is a wait test and an update. */
  function Work(s: State): nat {
    2 * |s.sent| + 2 * |s.received| + (if s.senderMayWrite then 1 else 0) + (if s.receiverMayRead then 1 else 0)
  }

  lemma StepWorks(s: State, actor: Actor, data: seq<Value>, capacity: nat)
    requires Orderly(s, data, capacity)
    ensures var t := After(s, actor, data, capacity); Work(t) == Work(s) + if t == s then 0 else 1
  {
  }

  /** Nobody can wait for the other while the other waits: only when all is received do both rest. */
  lemma BothRestAtTheEnd(s: State, data: seq<Value>, capacity: nat)
    requires Orderly(s, data, capacity) && 0 < capacity
    ensures After(s, Sender, data, capacity) == s == After(s, Receiver, data, capacity) <==> s.received == data && !s.receiverMayRead
  {
  }

  /** A stretch in which both get a turn does some work, unless all is done. */
  lemma {:induction false} StretchWorks(s: State, stretch: seq<Actor>, data: seq<Value>, capacity: nat)
    requires Orderly(s, data, capacity)
    ensures Work(Run(s, stretch, data, capacity)) >= Work(s)
    ensures Work(Run(s, stretch, data, capacity)) == Work(s) ==>
              forall a :: a in stretch ==> After(s, a, data, capacity) == s
    decreases |stretch|
  {
    hide After, Orderly, Work;
    if stretch != [] {
      var t := After(s, stretch[0], data, capacity);
      StepWorks(s, stretch[0], data, capacity);
      AfterOrderly(s, stretch[0], data, capacity);
      StretchWorks(t, stretch[1..], data, capacity);
      assert forall a :: a in stretch ==> a == stretch[0] || a in stretch[1..];
    }
  }

  function Flatten(stretches: seq<seq<Actor>>): seq<Actor> {
    if stretches == [] then [] else stretches[0] + Flatten(stretches[1..])
  }

  predicate Fair(stretches: seq<seq<Actor>>) {
    forall i :: 0 <= i < |stretches| ==> Sender in stretches[i] && Receiver in stretches[i]
  }

  lemma {:induction false} FairWorks(s: State, stretches: seq<seq<Actor>>, data: seq<Value>, capacity: nat)
    requires Orderly(s, data, capacity) && 0 < capacity && Fair(stretches)
    ensures var t := Run(s, Flatten(stretches), data, capacity);
            t.received == data || Work(t) >= Work(s) + |stretches|
    decreases |stretches|
  {
    hide After, Orderly, Work;
    if stretches != [] {
      var t := Run(s, stretches[0], data, capacity);
      RunAppend(s, stretches[0], Flatten(stretches[1..]), data, capacity);
      RunOrderly(s, stretches[0], data, capacity);
      StretchWorks(s, stretches[0], data, capacity);
      FairWorks(t, stretches[1..], data, capacity);
      if Work(t) == Work(s) {
        BothRestAtTheEnd(s, data, capacity);
        AllReceivedStays(s, stretches[0], data, capacity);
        AllReceivedStays(t, Flatten(stretches[1..]), data, capacity);
      }
    }
  }

  lemma {:induction false} AllReceivedStays(s: State, schedule: seq<Actor>, data: seq<Value>, capacity: nat)
    requires Orderly(s, data, capacity) && s.received == data
    ensures Run(s, schedule, data, capacity).received == data
    decreases |schedule|
  {
    if schedule != [] {
      AfterOrderly(s, schedule[0], data, capacity);
      AllReceivedStays(After(s, schedule[0], data, capacity), schedule[1..], data, capacity);
    }
  }

  /** Under every schedule that lets both have a turn often enough, everything there is to send is
      received. */
  lemma FairSchedulesDeliver(stretches: seq<seq<Actor>>, data: seq<Value>, capacity: nat)
    requires 0 < capacity && Fair(stretches) && 4 * |data| <= |stretches|
    ensures Run(START, Flatten(stretches), data, capacity).received == data
  {
    hide After, Run;
    FairWorks(START, stretches, data, capacity);
    RunOrderly(START, Flatten(stretches), data, capacity);
    var t := Run(START, Flatten(stretches), data, capacity);
  }

  // ---- the channel object under a schedule ----

  /** One sender and one receiver on a channel. */
  class System {
    const channel: Channel
    var senderMayWrite: bool
    var receiverMayRead: bool
    var sent: seq<Value>
    var received: seq<Value>

    ghost predicate Valid(data: seq<Value>)
      reads this, channel, channel.buffer
    {
      channel.Valid() && Orderly(Now(), data, channel.buffer.Length)
    }

    ghost function Now(): State
      requires channel.Valid()
      reads this, channel, channel.buffer
    {
      State(channel.Contents(), senderMayWrite, receiverMayRead, sent, received)
    }

    constructor (capacity: nat)
      requires capacity > 0
      ensures channel.Valid() && Now() == START && fresh(channel) && fresh(channel.buffer)
      ensures channel.buffer.Length == capacity
    {
      channel := new Channel(capacity);
      senderMayWrite, receiverMayRead, sent, received := false, false, [], [];
    }

    method Step(actor: Actor, data: seq<Value>)
      requires Valid(data)
      modifies this, channel, channel.buffer
      ensures Valid(data) && Now() == After(old(Now()), actor, data, channel.buffer.Length)
    {
      hide Channel.Valid, Channel.Contents, Orderly, After;
      AfterOrderly(Now(), actor, data, channel.buffer.Length);
      match actor
      case Sender => SenderStep(data);
      case Receiver => ReceiverStep(data);
    }

    method SenderStep(data: seq<Value>)
      requires Valid(data)
      modifies this, channel, channel.buffer
      ensures channel.Valid() && Now() == After(old(Now()), Sender, data, channel.buffer.Length)
    {
      hide Channel.Contents;
      if |sent| < |data| {
        if senderMayWrite {
          channel.Send(data[|sent|]);
          sent := sent + [data[|sent|]];
          senderMayWrite := false;
        } else {
          senderMayWrite := channel.HasSpace();
        }
      }
    }

    method ReceiverStep(data: seq<Value>)
      requires Valid(data)
      modifies this, channel
      ensures channel.Valid() && Now() == After(old(Now()), Receiver, data, channel.buffer.Length)
    {
      hide Channel.Contents;
      if receiverMayRead {
        var v := channel.Collect();
        received := received + [v];
        receiverMayRead := false;
      } else {
        receiverMayRead := channel.HasData();
      }
    }
  }

  /** Any schedule whatever: what was received is a prefix of what was sent, which is a prefix of
      what there was to send; and no more than the capacity is in between. */
  method Interleave(schedule: seq<Actor>, data: seq<Value>, capacity: nat) returns (sent: seq<Value>, received: seq<Value>)
    requires capacity > 0
    ensures var end := Run(START, schedule, data, capacity); sent == end.sent && received == end.received
    ensures received <= sent <= data
    ensures |sent| - |received| <= capacity
  {
    hide After, Channel.Valid, Channel.Contents;
    var system := new System(capacity);
    var i := 0;
    assert schedule[..0] == [];
    while i < |schedule|
      invariant 0 <= i <= |schedule|
      invariant fresh(system) && fresh(system.channel) && fresh(system.channel.buffer)
      invariant system.Valid(data) && system.channel.buffer.Length == capacity
      invariant system.Now() == Run(START, schedule[..i], data, capacity)
    {
      RunAppend(START, schedule[..i], [schedule[i]], data, capacity);
      RunOne(system.Now(), schedule[i], data, capacity);
      assert schedule[..i + 1] == schedule[..i] + [schedule[i]];
      system.Step(schedule[i], data);
      i := i + 1;
    }
    assert schedule[..i] == schedule;
    sent, received := system.sent, system.received;
  }

  lemma RunOne(s: State, actor: Actor, data: seq<Value>, capacity: nat)
    ensures Run(s, [actor], data, capacity) == After(s, actor, data, capacity)
  {
    hide After;
    assert [actor][1..] == [];
    assert Run(After(s, actor, data, capacity), [], data, capacity) == After(s, actor, data, capacity);
  }

  // ---- more senders or receivers ----

  /** A step of one of several senders or receivers: its wait test, or its update. */
  datatype Move = Send(sender: nat) | Receive(receiver: nat)

  /** How many values the channel counts, and whose wait tests have succeeded. */
  datatype Crowd = Crowd(occupied: int, mayWrite: set<nat>, mayRead: set<nat>)

  const NOBODY := Crowd(0, {}, {})

  function Moved(c: Crowd, m: Move, capacity: nat): Crowd {
    match m
    case Send(i) =>
      if i in c.mayWrite then Crowd(c.occupied + 1, c.mayWrite - {i}, c.mayRead)
      else if c.occupied != capacity then c.(mayWrite := c.mayWrite + {i})
      else c
    case Receive(i) =>
      if i in c.mayRead then Crowd(c.occupied - 1, c.mayWrite, c.mayRead - {i})
      else if c.occupied != 0 then c.(mayRead := c.mayRead + {i})
      else c
  }

  function Counted(s: State): Crowd {
    Crowd(|s.contents|, if s.senderMayWrite then {0} else {}, if s.receiverMayRead then {0} else {})
  }

  function MoveOf(actor: Actor): Move {
    if actor == Sender then Send(0) else Receive(0)
  }

  lemma AfterCounts(s: State, actor: Actor, data: seq<Value>, capacity: nat)
    requires Orderly(s, data, capacity) && (actor == Sender ==> |s.sent| < |data|)
    ensures Counted(After(s, actor, data, capacity)) == Moved(Counted(s), MoveOf(actor), capacity)
  {
    assert {0} - {0} == {};
  }

  function Moves(c: Crowd, ms: seq<Move>, capacity: nat): Crowd
    decreases |ms|
  {
    if ms == [] then c else Moves(Moved(c, ms[0], capacity), ms[1..], capacity)
  }

  /** The moves of a schedule; a sender that has sent everything makes none. */
  function MovesOf(s: State, schedule: seq<Actor>, data: seq<Value>, capacity: nat): seq<Move>
    decreases |schedule|
  {
    if schedule == [] then []
    else
      var rest := MovesOf(After(s, schedule[0], data, capacity), schedule[1..], data, capacity);
      if schedule[0] == Sender && |s.sent| >= |data| then rest else [MoveOf(schedule[0])] + rest
  }

  /** With one sender and one receiver the count is that of the queue, on every schedule. */
  lemma {:induction false} RunCounts(s: State, schedule: seq<Actor>, data: seq<Value>, capacity: nat)
    requires Orderly(s, data, capacity)
    ensures var ms := MovesOf(s, schedule, data, capacity);
            Among(ms, 1, 1) && Counted(Run(s, schedule, data, capacity)) == Moves(Counted(s), ms, capacity)
    decreases |schedule|
  {
    hide Orderly, Counted, Moved;
    if schedule != [] {
      var t := After(s, schedule[0], data, capacity);
      AfterOrderly(s, schedule[0], data, capacity);
      RunCounts(t, schedule[1..], data, capacity);
      if schedule[0] == Receiver || |s.sent| < |data| {
        AfterCounts(s, schedule[0], data, capacity);
        var rest := MovesOf(t, schedule[1..], data, capacity);
        assert ([MoveOf(schedule[0])] + rest)[1..] == rest;
      }
    }
  }

  predicate Among(ms: seq<Move>, senders: nat, receivers: nat) {
    forall m :: m in ms ==> if m.Send? then m.sender < senders else m.receiver < receivers
  }

  /** The count stays within the buffer on every run of so many senders and receivers. */
  ghost predicate Bounded(senders: nat, receivers: nat, capacity: nat) {
    forall ms :: Among(ms, senders, receivers) ==> 0 <= Moves(NOBODY, ms, capacity).occupied <= capacity
  }

  lemma {:induction false} OneEach(c: Crowd, ms: seq<Move>, senders: nat, receivers: nat, capacity: nat)
    requires senders <= 1 && (receivers <= 1 || senders == 0) && Among(ms, senders, receivers)
    requires c.mayWrite <= (if senders == 0 then {} else {0}) && c.mayRead <= {0}
    requires 0 <= c.occupied <= capacity && (senders == 0 ==> c.occupied == 0)
    requires (c.mayWrite != {} ==> c.occupied < capacity) && (c.mayRead != {} ==> 0 < c.occupied)
    ensures 0 <= Moves(c, ms, capacity).occupied <= capacity
    decreases |ms|
  {
    if ms != [] {
      OneEach(Moved(c, ms[0], capacity), ms[1..], senders, receivers, capacity);
    }
  }

  /** `n` values sent by the first sender. */
  function Fill(n: nat): seq<Move> {
    if n == 0 then [] else [Send(0), Send(0)] + Fill(n - 1)
  }

  lemma {:induction false} Filled(k: nat, n: nat, ms: seq<Move>, capacity: nat)
    requires k + n <= capacity
    ensures Moves(Crowd(k, {}, {}), Fill(n) + ms, capacity) == Moves(Crowd(k + n, {}, {}), ms, capacity)
    ensures forall m :: m in Fill(n) ==> m == Send(0)
    decreases n
  {
    if n == 0 {
      assert Fill(0) + ms == ms;
    } else {
      var rest := Fill(n - 1) + ms;
      assert Fill(n) + ms == [Send(0), Send(0)] + rest;
      TwoMoves(Crowd(k, {}, {}), Send(0), Send(0), rest, capacity);
      assert {0} - {0} == {};
      Filled(k + 1, n - 1, ms, capacity);
    }
  }

  lemma TwoMoves(c: Crowd, a: Move, b: Move, rest: seq<Move>, capacity: nat)
    ensures Moves(c, [a, b] + rest, capacity) == Moves(Moved(Moved(c, a, capacity), b, capacity), rest, capacity)
  {
    hide Moved;
    assert ([a, b] + rest)[1..] == [b] + rest && ([b] + rest)[1..] == rest;
  }

  /** Two senders may both find the last place free. */
  lemma TwoSenders(capacity: nat)
    requires 0 < capacity
    ensures exists ms :: Among(ms, 2, 0) && Moves(NOBODY, ms, capacity).occupied == capacity + 1
  {
    hide Moved;
    var race := [Send(0), Send(1)] + ([Send(0), Send(1)] + []);
    var ms := Fill(capacity - 1) + race;
    Filled(0, capacity - 1, race, capacity);
    Race(capacity - 1, Send(0), Send(1), capacity);
    assert Among(ms, 2, 0);
  }

  /** Two that pass their wait tests one after the other and then go on. */
  lemma Race(k: nat, a: Move, b: Move, capacity: nat)
    requires (a == Send(0) && b == Send(1) && k != capacity) || (a == Receive(0) && b == Receive(1) && k != 0)
    ensures Moves(Crowd(k, {}, {}), [a, b] + ([a, b] + []), capacity).occupied == if a.Send? then k + 2 else k - 2
  {
    hide Moves;
    var c := Crowd(k, {}, {});
    TwoMoves(c, a, b, [a, b] + [], capacity);
    TwoMoves(Moved(Moved(c, a, capacity), b, capacity), a, b, [], capacity);
    NoMoves(Moved(Moved(Moved(Moved(c, a, capacity), b, capacity), a, capacity), b, capacity), capacity);
  }

  lemma NoMoves(c: Crowd, capacity: nat)
    ensures Moves(c, [], capacity) == c
  {
  }

  /** Two receivers may both find the last value. */
  lemma TwoReceivers(capacity: nat)
    requires 0 < capacity
    ensures exists ms :: Among(ms, 1, 2) && Moves(NOBODY, ms, capacity).occupied == -1
  {
    hide Moved;
    var race := [Receive(0), Receive(1)] + ([Receive(0), Receive(1)] + []);
    var ms := Fill(1) + race;
    Filled(0, 1, race, capacity);
    Race(1, Receive(0), Receive(1), capacity);
    assert Among(ms, 1, 2);
  }

  /** With the wait test outside the lock, the count stays within the buffer on every run if and only if
      there is at most one sender, and at most one receiver unless nobody sends. */
  lemma BoundedIffOneEach(senders: nat, receivers: nat, capacity: nat)
    requires 0 < capacity
    ensures Bounded(senders, receivers, capacity) <==> senders <= 1 && (receivers <= 1 || senders == 0)
  {
    hide Moves;
    if senders <= 1 && (receivers <= 1 || senders == 0) {
      forall ms | Among(ms, senders, receivers)
        ensures 0 <= Moves(NOBODY, ms, capacity).occupied <= capacity
      {
        OneEach(NOBODY, ms, senders, receivers, capacity);
      }
    } else if senders > 1 {
      TwoSenders(capacity);
      var ms :| Among(ms, 2, 0) && Moves(NOBODY, ms, capacity).occupied == capacity + 1;
      assert Among(ms, senders, receivers);
    } else {
      TwoReceivers(capacity);
      var ms :| Among(ms, 1, 2) && Moves(NOBODY, ms, capacity).occupied == -1;
      assert Among(ms, senders, receivers);
    }
  }
}
