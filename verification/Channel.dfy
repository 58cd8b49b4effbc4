/**
  The bounded channel.  Every critical section is one atomic step taken by an arbitrary
  thread; the completions a thread owes after leaving one are a task, run one by one
  outside the lock.  The stop callback of a record is two steps: raise the flag without
  the lock, then cancel under the lock.  A send or receive that has queued itself keeps the
  lock until it has looked at the flag again, so that a flag may be raised in between.
 */
module Channel {

  datatype Option<+X> = None | Some(value: X)

  /** A value on its way: the how-manieth submission it is, and what was submitted. */
  datatype Item = Item(ticket: nat, value: int)

  datatype Kind = Value | Error | Stopped

  /** Which completion function a task is going to call on a record. */
  datatype How = AsValue | AsError | AsStopped | AsPrepared

  datatype Place =
    | Created
    | Ready
    | Pending
    | Claimed(task: nat, how: How)
    | Done(kind: Kind)

  /** The stop callback: not installed, installed, flag raised but lock not yet taken, finished. */
  datatype Callback = Off | Armed | Flagged | Fired

  datatype Rec =
    | Send(value: int, ticket: Option<nat>, cb: Callback, place: Place)
    | Recv(got: Option<Item>, cb: Callback, place: Place)

  datatype Submission = Submission(value: int, from: Option<nat>)
  datatype Delivery = Delivery(item: Item, to: Option<nat>)
  datatype Call = Call(id: nat, kind: Kind)

  /**
    `recheck` is the record whose starter still holds the lock.  The last six fields are
    history: submissions in the order they took the lock, values handed to receivers,
    tickets of values that never got in, tickets of buffered values thrown away,
    promotions that could not allocate since the send queue last was empty, and completion calls.
   */
  datatype State = State(
    capacity: nat,
    closed: bool,
    stopped: bool,
    buffer: seq<Item>,
    sends: seq<nat>,
    recvs: seq<nat>,
    recheck: Option<nat>,
    recs: map<nat, Rec>,
    tasks: map<nat, seq<nat>>,
    submitted: seq<Submission>,
    received: seq<Delivery>,
    refused: set<nat>,
    discarded: set<nat>,
    failures: nat,
    calls: seq<Call>)

  function Init(capacity: nat): State {
    State(capacity, false, false, [], [], [], None, map[], map[], [], [], {}, {}, 0, [])
  }

  function Moved(r: Rec, place: Place): Rec {
    match r
    case Send(value, ticket, cb, _) => Send(value, ticket, cb, place)
    case Recv(got, cb, _) => Recv(got, cb, place)
  }

  function WithCallback(r: Rec, cb: Callback): Rec {
    match r
    case Send(value, ticket, _, place) => Send(value, ticket, cb, place)
    case Recv(got, _, place) => Recv(got, cb, place)
  }

  predicate StopRequested(r: Rec) { r.cb.Flagged? || r.cb.Fired? }

  /** The item a queued send would hand over. */
  function ItemOf(recs: map<nat, Rec>, id: nat): Item {
    if id in recs && recs[id].Send? && recs[id].ticket.Some? then Item(recs[id].ticket.value, recs[id].value)
    else Item(0, 0)
  }

  function ItemsOf(recs: map<nat, Rec>, ids: seq<nat>): (items: seq<Item>)
    ensures |items| == |ids|
  {
    seq(|ids|, k requires 0 <= k < |ids| => ItemOf(recs, ids[k]))
  }

  function Tickets(items: seq<Item>): set<nat> {
    set k | 0 <= k < |items| :: items[k].ticket
  }

  /** The queue without the first occurrence of `id`. */
  function Without(ids: seq<nat>, id: nat): (r: seq<nat>) {
    if ids == [] then [] else if ids[0] == id then ids[1..] else [ids[0]] + Without(ids[1..], id)
  }

  // ----- Pieces of critical sections

  function Claim(s: State, id: nat, n: nat, how: How): State
    requires id in s.recs
  {
    s.(recs := s.recs[id := Moved(s.recs[id], Claimed(n, how))])
  }

  function ClaimAll(recs: map<nat, Rec>, ids: seq<nat>, n: nat, how: How): map<nat, Rec> {
    map id | id in recs :: if id in ids then Moved(recs[id], Claimed(n, how)) else recs[id]
  }

  /** prepare_value on a receive record, which its task will complete with the value. */
  function Deliver(s: State, item: Item, id: nat, n: nat): State
    requires id in s.recs && s.recs[id].Recv?
  {
    s.(recs := s.recs[id := s.recs[id].(got := Some(item), place := Claimed(n, AsValue))],
       received := s.received + [Delivery(item, Some(id))])
  }

  /** promote_one_send_locked: one queued send moves into the slot just freed. */
  function Promote(s: State, grows: bool, n: nat): State
    requires s.sends != [] ==> s.sends[0] in s.recs
  {
    if s.sends == [] || |s.buffer| >= s.capacity then s
    else
      var id := s.sends[0];
      var item := ItemOf(s.recs, id);
      var s0 := s.(sends := s.sends[1..]);
      if grows then Claim(s0.(buffer := s.buffer + [item]), id, n, AsValue)
      else Claim(s0.(refused := s.refused + {item.ticket}, failures := s.failures + 1), id, n, AsError)
  }

  function Promoted(s: State): seq<nat> {
    if s.sends == [] || |s.buffer| >= s.capacity then [] else [s.sends[0]]
  }

  /** A removed record leaves its queue and its task completes it with stopped. */
  function StopOne(s: State, id: nat, n: nat): State
    requires id in s.recs
  {
    var s0 := Claim(s, id, n, AsStopped).(tasks := s.tasks[n := [id]]);
    if s.recs[id].Send? then
      s0.(sends := Without(s.sends, id), refused := s.refused + {ItemOf(s.recs, id).ticket})
    else s0.(recvs := Without(s.recvs, id))
  }

  // ----- Critical sections

  function Submit(s: State, value: int, from: Option<nat>): State {
    s.(submitted := s.submitted + [Submission(value, from)])
  }

  function StartSend(s: State, id: nat, grows: bool, n: nat): State
    requires id in s.recs && s.recs[id].Send? && forall k | k in s.recvs :: k in s.recs && s.recs[k].Recv?
  {
    var r := s.recs[id];
    var t := |s.submitted|;
    var item := Item(t, r.value);
    var s0 := Submit(s, r.value, Some(id)).(recs := s.recs[id := r.(ticket := Some(t))]);
    if s.stopped || s.closed || StopRequested(r) then
      Claim(s0.(refused := s.refused + {t}, tasks := s.tasks[n := [id]]), id, n, AsStopped)
    else if s.recvs != [] then
      Claim(Deliver(s0.(recvs := s.recvs[1..], tasks := s.tasks[n := [s.recvs[0], id]]), item, s.recvs[0], n),
            id, n, AsValue)
    else if s.sends == [] && |s.buffer| < s.capacity then
      if grows then Claim(s0.(buffer := s.buffer + [item], tasks := s.tasks[n := [id]]), id, n, AsValue)
      else Claim(s0.(refused := s.refused + {t}, tasks := s.tasks[n := [id]]), id, n, AsError)
    else
      s0.(sends := s.sends + [id], recs := s.recs[id := r.(ticket := Some(t), place := Pending)],
          recheck := Some(id), failures := if s.sends == [] then 0 else s.failures)
  }

  function StartRecv(s: State, id: nat, grows: bool, n: nat): State
    requires id in s.recs && s.recs[id].Recv? && forall k | k in s.sends :: k in s.recs && s.recs[k].Send?
  {
    if s.buffer != [] then
      var s0 := Deliver(s.(buffer := s.buffer[1..]), s.buffer[0], id, n);
      Promote(s0, grows, n).(tasks := s.tasks[n := [id] + Promoted(s0)])
    else if s.sends != [] then
      var s0 := Deliver(s.(sends := s.sends[1..]), ItemOf(s.recs, s.sends[0]), id, n);
      Claim(s0, s.sends[0], n, AsValue).(tasks := s.tasks[n := [id, s.sends[0]]])
    else if s.stopped || s.closed || StopRequested(s.recs[id]) then
      Claim(s, id, n, AsStopped).(tasks := s.tasks[n := [id]])
    else
      s.(recvs := s.recvs + [id], recs := s.recs[id := Moved(s.recs[id], Pending)], recheck := Some(id))
  }

  /** End of the critical section of a start that queued itself: a second look at the flag. */
  function Recheck(s: State, n: nat): State
    requires s.recheck.Some? && s.recheck.value in s.recs
  {
    var s0 := s.(recheck := None);
    if StopRequested(s.recs[s.recheck.value]) then StopOne(s0, s.recheck.value, n) else s0
  }

  function TrySend(s: State, value: int, grows: bool, n: nat): State
    requires forall k | k in s.recvs :: k in s.recs && s.recs[k].Recv?
  {
    var t := |s.submitted|;
    var s0 := Submit(s, value, None);
    if s.stopped || s.closed then s0.(refused := s.refused + {t})
    else if s.recvs != [] then
      Deliver(s0.(recvs := s.recvs[1..], tasks := s.tasks[n := [s.recvs[0]]]), Item(t, value), s.recvs[0], n)
    else if s.sends == [] && |s.buffer| < s.capacity && grows then s0.(buffer := s.buffer + [Item(t, value)])
    else s0.(refused := s.refused + {t})
  }

  function TryRecv(s: State, grows: bool, n: nat): State
    requires forall k | k in s.sends :: k in s.recs && s.recs[k].Send?
  {
    if s.buffer != [] then
      var s0 := s.(buffer := s.buffer[1..], received := s.received + [Delivery(s.buffer[0], None)]);
      Promote(s0, grows, n).(tasks := s.tasks[n := Promoted(s0)])
    else if s.sends != [] then
      var item := ItemOf(s.recs, s.sends[0]);
      Claim(s.(sends := s.sends[1..], received := s.received + [Delivery(item, None)],
               tasks := s.tasks[n := [s.sends[0]]]), s.sends[0], n, AsValue)
    else s
  }

  function Close(s: State, n: nat): State {
    s.(closed := true, sends := [], recvs := [],
       recs := ClaimAll(ClaimAll(s.recs, s.recvs, n, AsPrepared), s.sends, n, AsStopped),
       refused := s.refused + Tickets(ItemsOf(s.recs, s.sends)),
       tasks := s.tasks[n := s.recvs + s.sends])
  }

  function RequestStop(s: State, n: nat): State {
    s.(stopped := true, sends := [], recvs := [], buffer := [],
       recs := ClaimAll(ClaimAll(s.recs, s.recvs, n, AsStopped), s.sends, n, AsStopped),
       refused := s.refused + Tickets(ItemsOf(s.recs, s.sends)),
       discarded := s.discarded + Tickets(s.buffer),
       tasks := s.tasks[n := s.recvs + s.sends])
  }

  /** cancel_send or cancel_recv, called by the stop callback. */
  function Cancel(s: State, id: nat, n: nat): State
    requires id in s.recs
  {
    var s0 := s.(recs := s.recs[id := WithCallback(s.recs[id], Fired)]);
    if id in (if s.recs[id].Send? then s.sends else s.recvs) then StopOne(s0, id, n) else s0
  }

  // ----- Outside the lock

  function Install(s: State, id: nat, arms: bool): State
    requires id in s.recs
  {
    s.(recs := s.recs[id := WithCallback(Moved(s.recs[id], Ready), if arms then Armed else Off)])
  }

  /** The token was stopped before the start, or the callback could not be installed. */
  function StartFails(s: State, id: nat, n: nat): State
    requires id in s.recs
  {
    Claim(s, id, n, AsStopped).(tasks := s.tasks[n := [id]])
  }

  function RaiseFlag(s: State, id: nat): State
    requires id in s.recs
  {
    s.(recs := s.recs[id := WithCallback(s.recs[id], Flagged)])
  }

  function KindOf(r: Rec): Kind {
    match r.place
    case Claimed(_, AsValue) => Value
    case Claimed(_, AsError) => Error
    case Claimed(_, AsPrepared) => if r.Recv? && r.got.Some? then Value else Stopped
    case Done(kind) => kind
    case _ => Stopped
  }

  /** The next completion call of task `t`; a record that is already done ignores it. */
  function RunNext(s: State, t: nat): State
    requires t in s.tasks && s.tasks[t] != [] && s.tasks[t][0] in s.recs
  {
    var id := s.tasks[t][0];
    var kind := KindOf(s.recs[id]);
    s.(tasks := s.tasks[t := s.tasks[t][1..]],
       recs := s.recs[id := Moved(s.recs[id], Done(kind))],
       calls := s.calls + [Call(id, kind)])
  }

  // ----- Steps

  datatype Step =
    | DoCreate(id: nat, rec: Rec)
    | DoInstall(id: nat, arms: bool)
    | DoStartFails(id: nat, n: nat)
    | DoRaiseFlag(id: nat)
    | DoStartSend(id: nat, grows: bool, n: nat)
    | DoStartRecv(id: nat, grows: bool, n: nat)
    | DoRecheck(n: nat)
    | DoTrySend(value: int, grows: bool, n: nat)
    | DoTryRecv(grows: bool, n: nat)
    | DoClose(n: nat)
    | DoRequestStop(n: nat)
    | DoCancel(id: nat, n: nat)
    | DoRunNext(t: nat)

  predicate Fresh(r: Rec) {
    r.place.Created? && r.cb.Off? && (if r.Send? then r.ticket.None? else r.got.None?)
  }

  predicate Enabled(s: State, step: Step) {
    match step
    case DoCreate(id, rec) => id !in s.recs && Fresh(rec)
    case DoInstall(id, _) => id in s.recs && s.recs[id].place.Created?
    case DoStartFails(id, n) => id in s.recs && s.recs[id].place.Created? && n !in s.tasks
    case DoRaiseFlag(id) => id in s.recs && s.recs[id].cb.Armed?
    case DoStartSend(id, _, n) =>
      s.recheck.None? && id in s.recs && s.recs[id].Send? && s.recs[id].place.Ready? && n !in s.tasks
    case DoStartRecv(id, _, n) =>
      s.recheck.None? && id in s.recs && s.recs[id].Recv? && s.recs[id].place.Ready? && n !in s.tasks
    case DoRecheck(n) => s.recheck.Some? && n !in s.tasks
    case DoTrySend(_, _, n) => s.recheck.None? && n !in s.tasks
    case DoTryRecv(_, n) => s.recheck.None? && n !in s.tasks
    case DoClose(n) => s.recheck.None? && n !in s.tasks
    case DoRequestStop(n) => s.recheck.None? && n !in s.tasks
    case DoCancel(id, n) => s.recheck.None? && id in s.recs && s.recs[id].cb.Flagged? && n !in s.tasks
    case DoRunNext(t) => t in s.tasks && s.tasks[t] != []
  }

  /** Every record a queue, a task or the lock holder names exists and is of the right sort. */
  ghost predicate Known(s: State) {
    && (forall id | id in s.sends :: id in s.recs && s.recs[id].Send?)
    && (forall id | id in s.recvs :: id in s.recs && s.recs[id].Recv?)
    && (forall t, id | t in s.tasks && id in s.tasks[t] :: id in s.recs)
    && (s.recheck.Some? ==> s.recheck.value in s.recs)
  }

  ghost function Apply(s: State, step: Step): State
    requires Enabled(s, step) && Known(s)
  {
    match step
    case DoCreate(id, rec) => s.(recs := s.recs[id := rec])
    case DoInstall(id, arms) => Install(s, id, arms)
    case DoStartFails(id, n) => StartFails(s, id, n)
    case DoRaiseFlag(id) => RaiseFlag(s, id)
    case DoStartSend(id, grows, n) => StartSend(s, id, grows, n)
    case DoStartRecv(id, grows, n) => StartRecv(s, id, grows, n)
    case DoRecheck(n) => Recheck(s, n)
    case DoTrySend(value, grows, n) => TrySend(s, value, grows, n)
    case DoTryRecv(grows, n) => TryRecv(s, grows, n)
    case DoClose(n) => Close(s, n)
    case DoRequestStop(n) => RequestStop(s, n)
    case DoCancel(id, n) => Cancel(s, id, n)
    case DoRunNext(t) => RunNext(s, t)
  }

  ghost predicate IsRun(run: seq<State>, steps: seq<Step>) {
    && |run| == |steps| + 1
    && run[0] == Init(run[0].capacity)
    && forall k | 0 <= k < |steps| ::
         Enabled(run[k], steps[k]) && Known(run[k]) && run[k + 1] == Apply(run[k], steps[k])
  }

  // ----- The invariant

  predicate Distinct(ids: seq<nat>) {
    forall i, j | 0 <= i < j < |ids| :: ids[i] != ids[j]
  }

  ghost predicate TaskOk(s: State, t: nat)
    requires t in s.tasks
  {
    && Distinct(s.tasks[t])
    && forall id | id in s.tasks[t] :: id in s.recs && s.recs[id].place.Claimed? && s.recs[id].place.task == t
  }

  /** A pending record is in its queue and a claimed one in its task. */
  ghost predicate Placed(s: State, id: nat)
    requires id in s.recs
  {
    match s.recs[id].place
    case Pending => id in (if s.recs[id].Send? then s.sends else s.recvs)
    case Claimed(t, _) => t in s.tasks && id in s.tasks[t]
    case Done(kind) => Call(id, kind) in s.calls
    case _ => true
  }

  /** Every record is in exactly one place, and is called at most once. */
  ghost predicate Places(s: State) {
    && Distinct(s.sends) && Distinct(s.recvs)
    && (forall id | id in s.sends :: id in s.recs && s.recs[id].Send? && s.recs[id].place.Pending?)
    && (forall id | id in s.recvs :: id in s.recs && s.recs[id].Recv? && s.recs[id].place.Pending?)
    && (forall t | t in s.tasks :: TaskOk(s, t))
    && (forall id | id in s.recs :: Placed(s, id))
    && (s.recheck.Some? ==> s.recheck.value in s.recs && s.recs[s.recheck.value].place.Pending?)
  }

  ghost predicate CalledOnce(s: State) {
    && (forall k | 0 <= k < |s.calls| ::
          s.calls[k].id in s.recs && s.recs[s.calls[k].id].place == Done(s.calls[k].kind))
    && (forall j, k | 0 <= j < k < |s.calls| :: s.calls[j].id != s.calls[k].id)
  }

  function Items(received: seq<Delivery>): (items: seq<Item>)
    ensures |items| == |received|
  {
    seq(|received|, k requires 0 <= k < |received| => received[k].item)
  }

  /** Values that got in: handed over already, or buffered. */
  function Taken(s: State): seq<Item> { Items(s.received) + s.buffer }

  /** The abstract queue: buffered values, then those of queued sends. */
  function Queue(s: State): seq<Item> { s.buffer + ItemsOf(s.recs, s.sends) }

  /** Everything handed over so far, then everything still to come. */
  function Line(s: State): seq<Item> { Taken(s) + ItemsOf(s.recs, s.sends) }

  /** In submission order, with the values that were submitted. */
  ghost predicate InOrder(line: seq<Item>, submitted: seq<Submission>) {
    && (forall k | 0 <= k < |line| ::
          line[k].ticket < |submitted| && line[k].value == submitted[line[k].ticket].value)
    && (forall j, k | 0 <= j < k < |line| :: line[j].ticket < line[k].ticket)
  }

  ghost predicate InItems(items: seq<Item>, t: nat) {
    exists k :: 0 <= k < |items| && items[k].ticket == t
  }

  /** Ticket `t` has exactly one fate. */
  ghost predicate OneFate(line: seq<Item>, refused: set<nat>, discarded: set<nat>, t: nat) {
    && (InItems(line, t) || t in refused || t in discarded)
    && !(InItems(line, t) && t in refused)
    && !(InItems(line, t) && t in discarded)
    && !(t in refused && t in discarded)
  }

  ghost predicate Account(line: seq<Item>, n: nat, refused: set<nat>, discarded: set<nat>) {
    && (forall t: nat | t < n :: OneFate(line, refused, discarded, t))
    && (forall t | t in refused :: t < n)
    && (forall t | t in discarded :: t < n)
  }

  ghost predicate Accepted(s: State, t: nat) {
    InItems(Taken(s), t) || t in s.discarded
  }

  /** What a record knows agrees with what became of its value. */
  ghost predicate Outcome(s: State, id: nat)
    requires id in s.recs
  {
    match s.recs[id]
    case Send(value, ticket, _, place) =>
      && (ticket.Some? ==> ticket.value < |s.submitted| && s.submitted[ticket.value] == Submission(value, Some(id)))
      && (match place
          case Created => ticket.None?
          case Ready => ticket.None?
          case Pending => ticket.Some?
          case Claimed(_, how) =>
            && !how.AsPrepared?
            && (how.AsValue? ==> ticket.Some? && Accepted(s, ticket.value))
            && (how.AsError? ==> ticket.Some? && ticket.value in s.refused)
            && (how.AsStopped? ==> ticket.None? || ticket.value in s.refused)
          case Done(kind) =>
            && (kind.Value? ==> ticket.Some? && Accepted(s, ticket.value))
            && (kind.Error? ==> ticket.Some? && ticket.value in s.refused)
            && (kind.Stopped? ==> ticket.None? || ticket.value in s.refused))
    case Recv(got, _, place) =>
      match place
      case Claimed(_, AsValue) => got.Some? && Delivery(got.value, Some(id)) in s.received
      case Claimed(_, AsError) => false
      case Done(Value) => got.Some? && Delivery(got.value, Some(id)) in s.received
      case Done(Error) => false
      case _ => got.None?
  }

  ghost predicate DeliveryOk(s: State, d: Delivery) {
    d.to.Some? ==> d.to.value in s.recs && s.recs[d.to.value].Recv? && s.recs[d.to.value].got == Some(d.item)
  }

  /** Ticket `t` belongs to the record that submitted it. */
  ghost predicate SubmissionOk(s: State, t: nat)
    requires t < |s.submitted|
  {
    var from := s.submitted[t].from;
    from.Some? ==> from.value in s.recs && s.recs[from.value].Send? && s.recs[from.value].ticket == Some(t)
  }

  ghost predicate Outcomes(s: State) {
    && (forall id | id in s.recs :: Outcome(s, id))
    && (forall t: nat | t < |s.submitted| :: SubmissionOk(s, t))
    && (forall d | d in s.received :: DeliveryOk(s, d))
  }

  ghost predicate Bounds(s: State) {
    && |s.buffer| <= s.capacity
    && (s.recvs != [] ==> s.buffer == [] && s.sends == [])
    && (s.sends != [] ==> s.capacity == |s.buffer| + s.failures)
    && (s.closed || s.stopped ==> s.sends == [] && s.recvs == [])
    && (s.stopped ==> s.buffer == [])
  }

  /** A pending record whose flag is up has its callback on the way to the lock. */
  ghost predicate Callbacks(s: State) {
    forall id | id in s.recs ::
      && (s.recs[id].place.Created? ==> s.recs[id].cb.Off?)
      && (s.recs[id].place.Pending? ==> !s.recs[id].cb.Fired?)
  }

  ghost predicate Conserved(s: State) {
    InOrder(Line(s), s.submitted) && Account(Line(s), |s.submitted|, s.refused, s.discarded)
  }

  /** All but the bounds, which a receive suspends between taking a value and promoting a send. */
  ghost predicate Core(s: State) {
    Places(s) && CalledOnce(s) && Conserved(s) && Outcomes(s) && Callbacks(s)
  }

  ghost predicate Inv(s: State) {
    Core(s) && Bounds(s)
  }
}
