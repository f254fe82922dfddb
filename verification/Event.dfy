/** The event queue: a bounded list of events, and beside it one pending resize that is never lost. */
module EventQueue {
  import opened ListWalk
  import opened LinkedList

  const MAXEVENTS := 256

  datatype MouseState = MouseDown | MouseUp

  datatype Event =
    | KeyDown(sym: int, mod: int)
    | KeyUp(sym: int, mod: int)
    | MouseMotion(state: MouseState, x: int, y: int, xrel: int, yrel: int)
    | MouseButtonDown(button: int, state: MouseState, x: int, y: int)
    | MouseButtonUp(button: int, state: MouseState, x: int, y: int)
    | Resize(video: int, width: int, height: int)
    | Other(kind: nat, payload: int)

  /** The fields of the queue. */
  datatype State = State(events: seq<Event>, lastresize: Event, resizenew: bool,
                         mousex: int, mousey: int, mousestate: MouseState)

  const INITIAL := State([], Resize(0, 0, 0), false, 0, 0, MouseUp)

  /** What a client can do. */
  datatype Operation =
    | AddEvent(event: Event)
    | AddMotion(x: int, y: int)
    | AddButton(button: int, state: MouseState, x: int, y: int)
    | AddResize(video: int, width: int, height: int)
    | Poll

  // ----- One operation

  predicate Full(s: State) {
    |s.events| > MAXEVENTS
  }

  function Offered(s: State, op: Operation): seq<Event> {
    match op
    case AddEvent(e) => [e]
    case AddMotion(x, y) => [MouseMotion(s.mousestate, x, y, x - s.mousex, y - s.mousey)]
    case AddButton(b, st, x, y) =>
      [if st == MouseDown then MouseButtonDown(b, st, x, y) else MouseButtonUp(b, st, x, y)]
    case AddResize(_, _, _) => []
    case Poll => []
  }

  /** What an operation takes onto the queue: what it offers, unless the queue is full. */
  function Accepted(s: State, op: Operation): seq<Event> {
    if Full(s) then [] else Offered(s, op)
  }

  function Answer(s: State, op: Operation): Option<Event> {
    if !op.Poll? then None
    else if s.resizenew then Some(s.lastresize)
    else if s.events == [] then None
    else Some(s.events[0])
  }

  function Next(s: State, op: Operation): State {
    var t := s.(events := s.events + Accepted(s, op));
    match op
    case AddEvent(_) => t
    case AddMotion(x, y) => t.(mousex := x, mousey := y)
    case AddButton(_, st, _, _) => t.(mousestate := st)
    case AddResize(v, w, h) => t.(lastresize := Resize(v, w, h), resizenew := true)
    case Poll =>
      if s.resizenew then s.(resizenew := false)
      else if s.events == [] then s
      else s.(events := s.events[1..])
  }

  // ----- Runs

  function After(ops: seq<Operation>): State {
    if ops == [] then INITIAL else Next(After(ops[..|ops| - 1]), ops[|ops| - 1])
  }

  /** All events taken onto the queue, in order. */
  function AcceptedBy(ops: seq<Operation>): seq<Event> {
    if ops == [] then []
    else AcceptedBy(ops[..|ops| - 1]) + Accepted(After(ops[..|ops| - 1]), ops[|ops| - 1])
  }

  /** The resize asked for since the last poll, the latest one if there were several. */
  function PendingResize(ops: seq<Operation>): Option<Event> {
    if ops == [] then None
    else
      match ops[|ops| - 1]
      case AddResize(v, w, h) => Some(Resize(v, w, h))
      case Poll => None
      case _ => PendingResize(ops[..|ops| - 1])
  }

  lemma {:induction false} ResizePending(ops: seq<Operation>)
    ensures After(ops).resizenew <==> PendingResize(ops).Some?
    ensures PendingResize(ops).Some? ==> PendingResize(ops).value == After(ops).lastresize
  {
    if ops != [] {
      ResizePending(ops[..|ops| - 1]);
    }
  }

  /** What polls answered, in order, when there was no resize pending. */
  function DeliveredBy(ops: seq<Operation>): seq<Event> {
    if ops == [] then []
    else
      var before := ops[..|ops| - 1];
      var answer := Answer(After(before), ops[|ops| - 1]);
      DeliveredBy(before) + if PendingResize(before).None? && answer.Some? then [answer.value] else []
  }

  /** Every run delivers what it accepted, in order and once: delivered events, then the queued ones. */
  lemma {:induction false} FirstInFirstOut(ops: seq<Operation>)
    ensures DeliveredBy(ops) + After(ops).events == AcceptedBy(ops)
  {
    if ops != [] {
      hide Next, Answer, Accepted, PendingResize;
      var before, op := ops[..|ops| - 1], ops[|ops| - 1];
      var s, answer := After(before), Answer(After(before), op);
      FirstInFirstOut(before);
      ResizePending(before);
      OneStep(s, op);
      var polled := if PendingResize(before).None? && answer.Some? then [answer.value] else [];
      Regroup(DeliveredBy(before), polled, Next(s, op).events, s.events, Accepted(s, op));
    }
  }

  lemma Regroup(delivered: seq<Event>, polled: seq<Event>, after: seq<Event>, queued: seq<Event>, taken: seq<Event>)
    requires polled + after == queued + taken
    ensures delivered + polled + after == delivered + queued + taken
  {
    assert delivered + polled + after == delivered + (polled + after);
    assert delivered + queued + taken == delivered + (queued + taken);
  }

  /** What a step takes off the queue in front and puts onto it behind. */
  lemma OneStep(s: State, op: Operation)
    ensures
      var answer := Answer(s, op);
      (if !s.resizenew && answer.Some? then [answer.value] else []) + Next(s, op).events
        == s.events + Accepted(s, op)
  {
    if op.Poll? && !s.resizenew && s.events != [] {
      assert s.events == [s.events[0]] + s.events[1..];
    }
  }

  // ----- What the events say

  /** Where the mouse was last reported, and what the last button operation reported. */
  function LastMotion(ops: seq<Operation>): (int, int) {
    if ops == [] then (0, 0)
    else if ops[|ops| - 1].AddMotion? then (ops[|ops| - 1].x, ops[|ops| - 1].y)
    else LastMotion(ops[..|ops| - 1])
  }

  function LastButton(ops: seq<Operation>): MouseState {
    if ops == [] then MouseUp
    else if ops[|ops| - 1].AddButton? then ops[|ops| - 1].state
    else LastButton(ops[..|ops| - 1])
  }

  /** The queue keeps both, whether or not there was room for the events. */
  lemma {:induction false} MouseRemembered(ops: seq<Operation>)
    ensures (After(ops).mousex, After(ops).mousey) == LastMotion(ops)
    ensures After(ops).mousestate == LastButton(ops)
  {
    if ops != [] {
      MouseRemembered(ops[..|ops| - 1]);
    }
  }

  /** The operations that put an event onto the queue: the posting ones that found at most 256 events
      there. */
  function AcceptedAt(ops: seq<Operation>): (at: seq<nat>)
    ensures forall k :: 0 <= k < |at| ==> at[k] < |ops|
  {
    if ops == [] then []
    else
      var before, op := ops[..|ops| - 1], ops[|ops| - 1];
      AcceptedAt(before) +
        if (op.AddEvent? || op.AddMotion? || op.AddButton?) && |After(before).events| <= 256 then [|before|] else []
  }

  /** An event says what operation number `i` of a run was given. */
  predicate Describes(e: Event, ops: seq<Operation>, i: nat)
    requires i < |ops|
  {
    var (lastx, lasty) := LastMotion(ops[..i]);
    match ops[i]
    case AddEvent(given) => e == given
    case AddMotion(x, y) =>
      && e.MouseMotion? && e.x == x && e.y == y && e.state == LastButton(ops[..i])
      && lastx + e.xrel == x && lasty + e.yrel == y
    case AddButton(button, state, x, y) =>
      && (if state == MouseDown then e.MouseButtonDown? else e.MouseButtonUp?)
      && e.button == button && e.state == state && e.x == x && e.y == y
    case _ => false
  }

  /** Over every run, the events taken onto the queue describe, one by one and in order, the operations that
      put them there. */
  lemma {:induction false} EventsDescribe(ops: seq<Operation>)
    ensures |AcceptedBy(ops)| == |AcceptedAt(ops)|
    ensures forall k :: 0 <= k < |AcceptedAt(ops)| ==> Describes(AcceptedBy(ops)[k], ops, AcceptedAt(ops)[k])
  {
    if ops != [] {
      var before := ops[..|ops| - 1];
      EventsDescribe(before);
      MouseRemembered(before);
      forall k | 0 <= k < |AcceptedAt(before)|
        ensures Describes(AcceptedBy(before)[k], ops, AcceptedAt(before)[k])
      {
        DescribesStill(AcceptedBy(before)[k], ops, AcceptedAt(before)[k]);
      }
      hide Describes, LastMotion, LastButton;
      LastDescribed(ops);
    }
  }

  lemma DescribesStill(e: Event, ops: seq<Operation>, i: nat)
    requires i < |ops| - 1 && Describes(e, ops[..|ops| - 1], i)
    ensures Describes(e, ops, i)
  {
    assert ops[..|ops| - 1][..i] == ops[..i];
  }

  lemma LastDescribed(ops: seq<Operation>)
    requires ops != []
    ensures
      var before, op := ops[..|ops| - 1], ops[|ops| - 1];
      && |Accepted(After(before), op)| == (if |before| in AcceptedAt(ops) then 1 else 0)
      && (|before| in AcceptedAt(ops) ==> Describes(Accepted(After(before), op)[0], ops, |before|))
  {
    MouseRemembered(ops[..|ops| - 1]);
  }

  /** The queue never holds more than one event over its nominal maximum. */
  lemma {:induction false} QueueBounded(ops: seq<Operation>)
    ensures |After(ops).events| <= MAXEVENTS + 1
  {
    if ops != [] {
      QueueBounded(ops[..|ops| - 1]);
    }
  }

  /** After any run, however full the queue, a poll answers first with the pending resize, and only
      without one with the oldest event. */
  lemma {:induction false} ResizeComesFirst(ops: seq<Operation>)
    ensures Answer(After(ops), Poll) ==
      if PendingResize(ops).Some? then PendingResize(ops)
      else if After(ops).events == [] then None
      else Some(After(ops).events[0])
  {
    ResizePending(ops);
  }

  /** The relative movement of every motion event generated, whether or not the queue had room for it. */
  function Movement(ops: seq<Operation>): (int, int) {
    if ops == [] then (0, 0)
    else
      var before, op := Movement(ops[..|ops| - 1]), ops[|ops| - 1];
      if op.AddMotion? then
        var e := Offered(After(ops[..|ops| - 1]), op)[0];
        (before.0 + e.xrel, before.1 + e.yrel)
      else before
  }

  /** The relative movements add up to where the mouse is. */
  lemma {:induction false} MovementsAddUp(ops: seq<Operation>)
    ensures Movement(ops) == (After(ops).mousex, After(ops).mousey)
  {
    if ops != [] {
      MovementsAddUp(ops[..|ops| - 1]);
    }
  }

  /** The part of the movement whose events were dropped because the queue was full. */
  function DroppedMovement(ops: seq<Operation>): (int, int) {
    if ops == [] then (0, 0)
    else
      var before, s, op := DroppedMovement(ops[..|ops| - 1]), After(ops[..|ops| - 1]), ops[|ops| - 1];
      if op.AddMotion? && Full(s) then
        var e := Offered(s, op)[0];
        (before.0 + e.xrel, before.1 + e.yrel)
      else before
  }

  function AcceptedMovement(ops: seq<Operation>): (int, int) {
    if ops == [] then (0, 0)
    else
      var before, s, op := AcceptedMovement(ops[..|ops| - 1]), After(ops[..|ops| - 1]), ops[|ops| - 1];
      if op.AddMotion? && Accepted(s, op) != [] then
        var e := Accepted(s, op)[0];
        (before.0 + e.xrel, before.1 + e.yrel)
      else before
  }

  /** A client that sums the movements it receives ends at the mouse position exactly when the dropped
      ones cancel out. */
  lemma {:induction false} AcceptedMovementsAddUpIff(ops: seq<Operation>)
    ensures AcceptedMovement(ops) == (After(ops).mousex, After(ops).mousey) <==> DroppedMovement(ops) == (0, 0)
  {
    MovementSplits(ops);
    MovementsAddUp(ops);
  }

  lemma {:induction false} FilledWith(n: nat, e: Event)
    requires n <= MAXEVENTS + 1
    ensures
      var s := After(seq(n, i => AddEvent(e)));
      |s.events| == n && s.mousex == s.mousey == 0 && DroppedMovement(seq(n, i => AddEvent(e))) == (0, 0)
  {
    if n > 0 {
      FilledWith(n - 1, e);
      assert seq(n, i => AddEvent(e))[..n - 1] == seq(n - 1, i => AddEvent(e));
    }
  }

  /** It does happen: a movement offered to a full queue is missing from what a client receives. */
  lemma MovementLost(e: Event)
    ensures
      var ops := seq(MAXEVENTS + 1, i => AddEvent(e)) + [AddMotion(1, 0)];
      After(ops).mousex == 1 && AcceptedMovement(ops) == (0, 0)
  {
    var fill := seq(MAXEVENTS + 1, i => AddEvent(e));
    var ops := fill + [AddMotion(1, 0)];
    FilledWith(MAXEVENTS + 1, e);
    MovementsAddUp(fill);
    MovementSplits(fill);
    assert ops[..|fill|] == fill;
  }

  lemma {:induction false} MovementSplits(ops: seq<Operation>)
    ensures Movement(ops).0 == AcceptedMovement(ops).0 + DroppedMovement(ops).0
    ensures Movement(ops).1 == AcceptedMovement(ops).1 + DroppedMovement(ops).1
  {
    if ops != [] {
      MovementSplits(ops[..|ops| - 1]);
    }
  }

  // ----- The implementation

  class VisEventQueue {
    const events: VisList<Event>
    var lastresize: Event
    var resizenew: bool
    var eventcount: int
    var mousex: int
    var mousey: int
    var mousestate: MouseState

    ghost predicate Valid()
      reads this, events, events.nodes
    {
      events.Valid() && eventcount == |events.nodes|
    }

    ghost function Contents(): State
      reads this, events`nodes, events.nodes`data
    {
      State(events.Datas(), lastresize, resizenew, mousex, mousey, mousestate)
    }

    constructor ()
      ensures Valid() && Contents() == INITIAL && fresh(events)
    {
      events := new VisList();
      lastresize, resizenew, eventcount := Resize(0, 0, 0), false, 0;
      mousex, mousey, mousestate := 0, 0, MouseUp;
    }

    method Poll() returns (answer: Option<Event>)
      requires Valid()
      modifies this, events, events.nodes`next, events.nodes`prev
      ensures Valid() && (forall n :: n in events.nodes ==> n in old(events.nodes))
      ensures Contents() == Next(old(Contents()), Operation.Poll)
      ensures answer == Answer(old(Contents()), Operation.Poll)
    {
      hide VisList.Valid, DatasOf;
      if resizenew {
        resizenew := false;
        return Some(lastresize);
      }
      if eventcount <= 0 {
        return None;
      }
      var lev := TakeFirst();
      eventcount := eventcount - 1;
      return Some(lev);
    }

    /** The first entry's event, its entry deleted. */
    method TakeFirst() returns (event: Event)
      requires events.Valid() && events.nodes != []
      modifies events, events.nodes`next, events.nodes`prev
      ensures events.Valid() && |events.nodes| == |old(events.nodes)| - 1
      ensures forall n :: n in events.nodes ==> n in old(events.nodes)
      ensures [event] + events.Datas() == old(events.Datas())
    {
      hide VisList.Forward, VisList.Backward, Without;
      var listentry, lev := events.Next(null, -1);
      event := lev.value;
      DatasWithoutFirst(events.nodes);
      UnchainedMembers(events.nodes, events.backs, 0);
      hide DatasOf;
      ghost var rest, data := Without(events.nodes, 0), DatasOf(Without(events.nodes, 0));
      assert [event] + data == events.Datas();
      var cursor := events.DeleteAt(listentry, 0);
      assert events.nodes == rest && DatasOf(rest) == data;
    }

    method Add(event: Event) returns (ok: bool)
      requires Valid()
      modifies this`eventcount, events, events.nodes`next
      ensures Valid() && ok == !Full(old(Contents()))
      ensures forall n :: n in events.nodes ==> n in old(events.nodes) || fresh(n)
      ensures Contents() == Next(old(Contents()), AddEvent(event))
    {
      hide VisList.Forward, VisList.Backward, DatasOf;
      if eventcount > MAXEVENTS {
        return false;
      }
      events.Add(event);
      DatasAppend(old(events.nodes), events.tail);
      eventcount := eventcount + 1;
      return true;
    }

    method AddMouseMotion(x: int, y: int) returns (ok: bool)
      requires Valid()
      modifies this, events, events.nodes`next
      ensures Valid() && ok == !Full(old(Contents()))
      ensures forall n :: n in events.nodes ==> n in old(events.nodes) || fresh(n)
      ensures Contents() == Next(old(Contents()), AddMotion(x, y))
    {
      hide VisList.Valid, DatasOf;
      var event := MouseMotion(mousestate, x, y, x - mousex, y - mousey);
      mousex := x;
      mousey := y;
      ok := Add(event);
    }

    method AddMouseButton(button: int, state: MouseState, x: int, y: int) returns (ok: bool)
      requires Valid()
      modifies this, events, events.nodes`next
      ensures Valid() && ok == !Full(old(Contents()))
      ensures forall n :: n in events.nodes ==> n in old(events.nodes) || fresh(n)
      ensures Contents() == Next(old(Contents()), AddButton(button, state, x, y))
    {
      hide VisList.Valid, DatasOf;
      var event :=
        if state == MouseDown then MouseButtonDown(button, state, x, y) else MouseButtonUp(button, state, x, y);
      mousestate := state;
      ok := Add(event);
    }

    method AddResizeEvent(video: int, width: int, height: int)
      requires Valid()
      modifies this`lastresize, this`resizenew
      ensures Valid() && Contents() == Next(old(Contents()), AddResize(video, width, height))
    {
      lastresize := Resize(video, width, height);
      resizenew := true;
    }
  }

  /** What the operations of a run answer: an event for a poll, if there is one. */
  function Answers(ops: seq<Operation>): (r: seq<Option<Event>>)
    ensures |r| == |ops|
  {
    if ops == [] then []
    else Answers(ops[..|ops| - 1]) + [Answer(After(ops[..|ops| - 1]), ops[|ops| - 1])]
  }

  /** Any run of operations on a new queue is the run of the specification. */
  method RunQueue(ops: seq<Operation>) returns (queue: VisEventQueue, answers: seq<Option<Event>>)
    ensures queue.Valid() && queue.Contents() == After(ops) && answers == Answers(ops)
  {
    hide VisEventQueue.Valid, Next, Answer, DatasOf;
    queue := new VisEventQueue();
    answers := [];
    for i := 0 to |ops|
      invariant fresh(queue) && fresh(queue.events) && fresh(set n | n in queue.events.nodes)
      invariant queue.Valid() && queue.Contents() == After(ops[..i]) && answers == Answers(ops[..i])
    {
      assert ops[..i + 1][..i] == ops[..i];
      var answer := Perform(queue, ops[i]);
      answers := answers + [answer];
    }
    assert ops[..|ops|] == ops;
  }

  method Perform(queue: VisEventQueue, op: Operation) returns (answer: Option<Event>)
    requires queue.Valid()
    modifies queue, queue.events, queue.events.nodes`next, queue.events.nodes`prev
    ensures queue.Valid() && forall n :: n in queue.events.nodes ==> n in old(queue.events.nodes) || fresh(n)
    ensures queue.Contents() == Next(old(queue.Contents()), op) && answer == Answer(old(queue.Contents()), op)
  {
    hide VisEventQueue.Valid, Next, DatasOf;
    answer := None;
    match op {
      case AddEvent(e) => var ok := queue.Add(e);
      case AddMotion(x, y) => var ok := queue.AddMouseMotion(x, y);
      case AddButton(b, st, x, y) => var ok := queue.AddMouseButton(b, st, x, y);
      case AddResize(v, w, h) => queue.AddResizeEvent(v, w, h);
      case Poll => answer := queue.Poll();
    }
  }

  lemma DatasWithoutFirst<T>(nodes: seq<ListEntry<T>>)
    requires nodes != []
    ensures DatasOf(nodes) == [nodes[0].data] + DatasOf(Without(nodes, 0))
  {
    assert Without(nodes, 0) == nodes[1..];
  }

  lemma DatasAppend<T>(nodes: seq<ListEntry<T>>, n: ListEntry<T>)
    ensures DatasOf(nodes + [n]) == DatasOf(nodes) + [n.data]
  {
    var a, b := DatasOf(nodes + [n]), DatasOf(nodes) + [n.data];
    assert |a| == |b| && forall i :: 0 <= i < |a| ==> a[i] == b[i];
  }
}
