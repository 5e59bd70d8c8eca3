/** Two threads exchanging frames. */
module FrameExchange {
  // Two buffers, `active` and `pending` guarded by a mutex; the producer (the emulation thread)
  // copies under the mutex, the presenter shows a buffer without holding it. Each row copied or
  // shown is a step of its own, and a schedule may interleave the two threads in any way.

  type Row = seq<int>

  /** A picture as its rows; with per-frame sizes, rows and their number vary from frame to frame. */
  type Frame = seq<Row>

  /** One shared buffer: rows written so far (stale ones stay), and the recorded height. */
  datatype Buffer = Buffer(rows: seq<Row>, height: nat)

  datatype Thread = Producer | Presenter

  datatype ProducerPc =
    | Idle
    | WantLock(surface: Frame)
    | Choose(surface: Frame)                          // mutex held
    | Copy(surface: Frame, target: nat, y: nat)       // mutex held, y rows copied
    | Publish(surface: Frame, target: nat)            // mutex held, all rows copied
    | WantStop
    | Stopping                                        // mutex held
    | Join
    | Freed                                           // buffers released

  datatype PresenterPc =
    | WantFrame
    | Check                                           // mutex held
    | Show(source: nat, y: nat, picture: Frame)       // no mutex; y rows shown
    | WantClear
    | Clear                                           // mutex held
    | Exited

  datatype State = State(
    holder: seq<Thread>,       // who holds the mutex, at most one
    active: int,
    pending: int,
    stop: bool,
    buffers: seq<Buffer>,
    producer: ProducerPc,
    presenter: PresenterPc,
    // history
    produced: seq<Frame>,      // frames published, in order
    tags: seq<int>,            // which published frame each buffer holds
    shown: seq<int>,           // frames whose picture was completed, in order
    pictures: seq<Frame>,      // those pictures
    dropped: set<int>)         // frames replaced while pending

  datatype Event = Submit(surface: Frame) | RequestStop | RunProducer | RunPresenter

  function Initial(): State {
    State([], -1, -1, false, [Buffer([], 0), Buffer([], 0)], Idle, WantFrame, [], [-1, -1], [], [], {})
  }

  /** Writes row `y`, keeping the other rows; a buffer grows to the rows it has been given. */
  function WithRow(rows: seq<Row>, y: nat, row: Row): seq<Row>
    requires y <= |rows|
  {
    if y < |rows| then rows[y := row] else rows + [row]
  }

  /** The choice of buffer in `present`. */
  function Target(active: int, pending: int): int {
    if active < 0 && pending >= 0 then pending
    else if active == 0 then 1 else 0
  }

  /** One step of the producer thread; it does not move while it waits. */
  function ProducerStep(s: State): State
    requires |s.buffers| == 2 && |s.tags| == 2
    requires s.producer.Copy? ==> s.producer.target < 2 && s.producer.y <= |s.buffers[s.producer.target].rows|
    requires s.producer.Publish? ==> s.producer.target < 2
  {
    match s.producer
    case Idle => s
    case WantLock(surface) =>
      if s.holder == [] then s.(holder := [Producer], producer := Choose(surface)) else s
    case Choose(surface) =>
      s.(producer := Copy(surface, if Target(s.active, s.pending) == 1 then 1 else 0, 0))
    case Copy(surface, target, y) =>
      if y < |surface| then
        var b := s.buffers[target];
        s.(buffers := s.buffers[target := b.(rows := WithRow(b.rows, y, surface[y]))],
           producer := Copy(surface, target, y + 1))
      else s.(producer := Publish(surface, target))
    case Publish(surface, target) =>
      s.(buffers := s.buffers[target := s.buffers[target].(height := |surface|)],
         pending := target,
         holder := [],
         producer := Idle,
         produced := s.produced + [surface],
         tags := s.tags[target := |s.produced|],
         dropped := s.dropped + if s.pending >= 0 then {|s.produced| - 1} else {})
    case WantStop => if s.holder == [] then s.(holder := [Producer], producer := Stopping) else s
    case Stopping => s.(stop := true, holder := [], producer := Join)
    case Join => if s.presenter.Exited? then s.(producer := Freed) else s
    case Freed => s
  }

  /** One step of `present_thread`. Waiting on the condition releases the mutex. */
  function PresenterStep(s: State): State
    requires |s.buffers| == 2 && |s.tags| == 2
    requires s.presenter.Show? ==> s.presenter.source < 2
    requires s.pending < 2
    requires s.presenter.Show? && s.presenter.y < s.buffers[s.presenter.source].height ==>
               s.presenter.y < |s.buffers[s.presenter.source].rows|
  {
    match s.presenter
    case WantFrame => if s.holder == [] then s.(holder := [Presenter], presenter := Check) else s
    case Check =>
      if s.stop then s.(holder := [], presenter := Exited)
      else if s.pending < 0 then s.(holder := [], presenter := WantFrame)
      else s.(active := s.pending, pending := -1, holder := [], presenter := Show(s.pending, 0, []))
    case Show(source, y, picture) =>
      if y < s.buffers[source].height then
        s.(presenter := Show(source, y + 1, picture + [s.buffers[source].rows[y]]))
      else
        s.(presenter := WantClear, shown := s.shown + [s.tags[source]], pictures := s.pictures + [picture])
    case WantClear => if s.holder == [] then s.(holder := [Presenter], presenter := Clear) else s
    case Clear => s.(active := -1, holder := [], presenter := WantFrame)
    case Exited => s
  }

  // ----- the invariant -----

  predicate ProducerHolds(s: State) {
    s.producer.Choose? || s.producer.Copy? || s.producer.Publish? || s.producer.Stopping?
  }

  predicate PresenterHolds(s: State) {
    s.presenter.Check? || s.presenter.Clear?
  }

  ghost predicate MutexOk(s: State) {
    && (ProducerHolds(s) <==> s.holder == [Producer])
    && (PresenterHolds(s) <==> s.holder == [Presenter])
    && (s.holder == [] || s.holder == [Producer] || s.holder == [Presenter])
  }

  /** A buffer holds a whole published frame. */
  predicate Holds(s: State, b: int) {
    && 0 <= b < |s.buffers| && b < |s.tags|
    && 0 <= s.tags[b] < |s.produced|
    && var f := s.produced[s.tags[b]];
       s.buffers[b].height == |f| && f <= s.buffers[b].rows
  }

  /** The buffer the producer is writing, if any. */
  predicate Writing(s: State, b: int) {
    (s.producer.Copy? || s.producer.Publish?) && s.producer.target == b
  }

  ghost predicate ActiveOk(s: State) {
    && (s.active >= 0 <==> s.presenter.Show? || s.presenter.WantClear? || s.presenter.Clear?)
    && -1 <= s.active < 2
    && (s.active >= 0 ==> Holds(s, s.active) && !Writing(s, s.active))
    && (s.presenter.Show? ==>
          && s.presenter.source == s.active
          && s.presenter.y <= s.buffers[s.active].height
          && s.presenter.picture == s.produced[s.tags[s.active]][..s.presenter.y])
  }

  ghost predicate PendingOk(s: State)
    requires |s.tags| == 2
  {
    && -1 <= s.pending < 2
    && (s.pending >= 0 ==>
          && s.pending != s.active
          && 0 <= s.tags[s.pending] == |s.produced| - 1
          && (!Writing(s, s.pending) ==> Holds(s, s.pending)))
  }

  ghost predicate CopyOk(s: State)
    requires |s.buffers| == 2
  {
    && (s.producer.Copy? ==>
          var t := s.producer.target;
          && t < 2 && t != s.active && s.producer.y <= |s.producer.surface|
          && s.producer.surface[..s.producer.y] <= s.buffers[t].rows
          && (s.pending >= 0 && s.active < 0 ==> t == s.pending))
    && (s.producer.Publish? ==>
          var t := s.producer.target;
          && t < 2 && t != s.active && s.producer.surface <= s.buffers[t].rows)
  }

  /** The frame being shown or just shown, still marked active. */
  function ActiveTag(s: State): int
    requires |s.tags| == 2
  {
    if 0 <= s.active < 2 then s.tags[s.active] else -1
  }

  function PendingTag(s: State): int
    requires |s.tags| == 2
  {
    if 0 <= s.pending < 2 then s.tags[s.pending] else -1
  }

  ghost predicate ShownOk(s: State) {
    && |s.shown| == |s.pictures|
    && (forall i :: 0 <= i < |s.shown| ==> 0 <= s.shown[i] < |s.produced| && s.pictures[i] == s.produced[s.shown[i]])
    && (forall i, j :: 0 <= i < j < |s.shown| ==> s.shown[i] < s.shown[j])
  }

  /** What is shown now comes after everything shown before, what is pending comes after that. */
  ghost predicate OrderOk(s: State)
    requires |s.tags| == 2
  {
    && (s.presenter.Show? ==> forall i :: 0 <= i < |s.shown| ==> s.shown[i] < ActiveTag(s))
    && (s.presenter.WantClear? || s.presenter.Clear? ==> s.shown != [] && s.shown[|s.shown| - 1] == ActiveTag(s))
    && (s.pending >= 0 ==>
          && (forall i :: 0 <= i < |s.shown| ==> s.shown[i] < PendingTag(s))
          && (s.active >= 0 ==> ActiveTag(s) < PendingTag(s)))
  }

  /** Where a published frame has gone. */
  predicate Accounted(s: State, n: int)
    requires |s.tags| == 2
  {
    n in s.shown || (s.presenter.Show? && n == ActiveTag(s)) || n == PendingTag(s) || n in s.dropped
  }

  ghost predicate HistoryOk(s: State)
    requires |s.tags| == 2
  {
    && (forall n :: 0 <= n < |s.produced| ==> Accounted(s, n))
    && (forall n :: n in s.dropped ==> 0 <= n && n + 1 < |s.produced|)
  }

  ghost predicate StopOk(s: State) {
    && (s.stop <==> s.producer.Join? || s.producer.Freed?)
    && (s.presenter.Exited? ==> s.stop)
    && (s.producer.Freed? ==> s.presenter.Exited?)
  }

  ghost predicate Inv(s: State) {
    && |s.buffers| == 2 && |s.tags| == 2
    && MutexOk(s) && ActiveOk(s) && PendingOk(s) && CopyOk(s)
    && ShownOk(s) && OrderOk(s) && HistoryOk(s) && StopOk(s)
  }

  function Next(s: State, e: Event): State
    requires Inv(s)
  {
    match e
    case Submit(surface) => if s.producer.Idle? then s.(producer := WantLock(surface)) else s
    case RequestStop => if s.producer.Idle? then s.(producer := WantStop) else s
    case RunProducer => ProducerStep(s)
    case RunPresenter => PresenterStep(s)
  }

  lemma {:induction false} InitialInv()
    ensures Inv(Initial())
  {
  }

  lemma {:induction false} PublishKeeps(s: State)
    requires Inv(s) && s.producer.Publish?
    ensures Inv(ProducerStep(s))
  {
    var s' := ProducerStep(s);
    var t := s.producer.target;
    assert s'.produced[|s.produced|] == s.producer.surface;
    assert forall n :: 0 <= n < |s.produced| ==> s'.produced[n] == s.produced[n];
    forall n | 0 <= n < |s'.produced|
      ensures Accounted(s', n)
    {
      if n < |s.produced| {
        assert Accounted(s, n);
      }
    }
  }

  lemma {:induction false} CopyKeeps(s: State)
    requires Inv(s) && s.producer.Copy?
    ensures Inv(ProducerStep(s))
  {
    var s' := ProducerStep(s);
    var t, y := s.producer.target, s.producer.y;
    var surface := s.producer.surface;
    if y < |surface| {
      var rows, rows' := s.buffers[t].rows, s'.buffers[t].rows;
      assert surface[..y + 1] == surface[..y] + [surface[y]];
      assert rows'[..y] == rows[..y];
    } else {
      assert surface[..y] == surface;
    }
    forall n | 0 <= n < |s.produced|
      ensures Accounted(s', n)
    {
      assert Accounted(s, n);
    }
  }

  /** Steps that leave the exchanged data and the history alone. */
  lemma {:induction false} HistoryKept(s: State, s': State)
    requires Inv(s)
    requires s' == s.(producer := s'.producer, holder := s'.holder, stop := s'.stop)
    ensures ShownOk(s') && OrderOk(s') && HistoryOk(s')
  {
    forall n | 0 <= n < |s.produced|
      ensures Accounted(s', n)
    {
      assert Accounted(s, n);
    }
  }

  lemma {:induction false} ChooseKeeps(s: State)
    requires Inv(s) && s.producer.Choose?
    ensures Inv(ProducerStep(s))
  {
    HistoryKept(s, ProducerStep(s));
    assert s.producer.surface[..0] == [];
  }

  /** Taking the mutex, stopping and joining. */
  lemma {:induction false} ControlKeeps(s: State)
    requires Inv(s) && !s.producer.Publish? && !s.producer.Copy? && !s.producer.Choose?
    ensures Inv(ProducerStep(s))
  {
    var s' := ProducerStep(s);
    HistoryKept(s, s');
    assert ActiveOk(s') && PendingOk(s');
    assert MutexOk(s') && StopOk(s');
  }

  lemma {:induction false} ProducerKeeps(s: State)
    requires Inv(s)
    ensures Inv(ProducerStep(s))
  {
    if s.producer.Publish? {
      PublishKeeps(s);
    } else if s.producer.Copy? {
      CopyKeeps(s);
    } else if s.producer.Choose? {
      ChooseKeeps(s);
    } else {
      ControlKeeps(s);
    }
  }

  lemma {:induction false} ShowKeeps(s: State)
    requires Inv(s) && s.presenter.Show?
    ensures Inv(PresenterStep(s))
  {
    if s.presenter.y < s.buffers[s.active].height {
      RowKeeps(s);
    } else {
      FinishKeeps(s);
    }
  }

  lemma {:induction false} RowKeeps(s: State)
    requires Inv(s) && s.presenter.Show? && s.presenter.y < s.buffers[s.active].height
    ensures Inv(PresenterStep(s))
  {
    var s' := PresenterStep(s);
    var f := s.produced[s.tags[s.active]];
    var y := s.presenter.y;
    assert f[..y + 1] == f[..y] + [f[y]];
    assert f[y] == s.buffers[s.active].rows[y];
    forall n | 0 <= n < |s.produced|
      ensures Accounted(s', n)
    {
      ShowAccounts(s, n);
    }
  }

  lemma {:induction false} FinishKeeps(s: State)
    requires Inv(s) && s.presenter.Show? && s.presenter.y >= s.buffers[s.active].height
    ensures Inv(PresenterStep(s))
  {
    var s' := PresenterStep(s);
    var f := s.produced[s.tags[s.active]];
    assert f[..s.presenter.y] == f;
    forall n | 0 <= n < |s.produced|
      ensures Accounted(s', n)
    {
      ShowAccounts(s, n);
    }
  }

  lemma {:induction false} ShowAccounts(s: State, n: nat)
    requires Inv(s) && s.presenter.Show? && n < |s.produced|
    ensures Accounted(PresenterStep(s), n)
  {
    var s' := PresenterStep(s);
    assert Accounted(s, n);
    if n in s.shown {
      var i :| 0 <= i < |s.shown| && s.shown[i] == n;
      assert s'.shown[i] == n;
    }
    if n == ActiveTag(s) && s.presenter.y >= s.buffers[s.active].height {
      assert s'.shown[|s.shown|] == n;
    }
  }

  lemma {:induction false} PresenterKeeps(s: State)
    requires Inv(s)
    ensures Inv(PresenterStep(s))
  {
    if s.presenter.Show? {
      ShowKeeps(s);
    } else {
      WaitKeeps(s);
    }
  }

  lemma {:induction false} WaitKeeps(s: State)
    requires Inv(s) && !s.presenter.Show?
    ensures Inv(PresenterStep(s))
  {
    if s.presenter.Check? {
      CheckKeeps(s);
    } else {
      LockKeeps(s);
    }
  }

  /** Holding the mutex, the presenter stops, goes back to waiting, or takes the pending frame. */
  lemma {:induction false} CheckKeeps(s: State)
    requires Inv(s) && s.presenter.Check?
    ensures Inv(PresenterStep(s))
  {
    var s' := PresenterStep(s);
    forall n | 0 <= n < |s.produced|
      ensures Accounted(s', n)
    {
      assert Accounted(s, n);
    }
  }

  lemma {:induction false} LockKeeps(s: State)
    requires Inv(s) && !s.presenter.Show? && !s.presenter.Check?
    ensures Inv(PresenterStep(s))
  {
    var s' := PresenterStep(s);
    forall n | 0 <= n < |s.produced|
      ensures Accounted(s', n)
    {
      assert Accounted(s, n);
    }
  }

  lemma {:induction false} CallerKeeps(s: State, e: Event)
    requires Inv(s) && (e.Submit? || e.RequestStop?)
    ensures Inv(Next(s, e))
  {
    var s' := Next(s, e);
    forall n | 0 <= n < |s.produced|
      ensures Accounted(s', n)
    {
      assert Accounted(s, n);
    }
  }

  lemma {:induction false} NextKeeps(s: State, e: Event)
    requires Inv(s)
    ensures Inv(Next(s, e))
  {
    match e {
      case RunProducer => ProducerKeeps(s);
      case RunPresenter => PresenterKeeps(s);
      case _ => CallerKeeps(s, e);
    }
  }

  /** `t` is reached from `s` by the given schedule. */
  ghost function RunEvents(s: State, events: seq<Event>): (t: State)
    requires Inv(s)
    ensures Inv(t)
    decreases |events|
  {
    if events == [] then s
    else
      NextKeeps(s, events[0]);
      RunEvents(Next(s, events[0]), events[1..])
  }

  // ----- what it means -----

  /** The step writes a row of buffer `b`, or its size. */
  predicate Writes(s: State, e: Event, b: int) {
    e.RunProducer? && Writing(s, b) && (s.producer.Publish? || s.producer.y < |s.producer.surface|)
  }

  /** Under every schedule: the buffer being shown is never written, and never released. */
  lemma {:induction false} NeverWrittenWhileShown(events: seq<Event>, e: Event)
    ensures InitialOk() && var s := RunEvents(Initial(), events);
            && (s.presenter.Show? ==> !Writes(s, e, s.presenter.source) && !s.producer.Freed?)
            && (s.presenter.Show? ==> Next(s, e).buffers[s.presenter.source] == s.buffers[s.presenter.source])
  {
    InitialInv();
  }

  ghost predicate InitialOk() {
    Inv(Initial())
  }

  /**
   Under every schedule: each presented picture is one whole produced frame, and presented
   frames strictly advance in production order.
   */
  lemma {:induction false} WholeFramesInOrder(events: seq<Event>)
    ensures InitialOk() && var s := RunEvents(Initial(), events);
            && |s.pictures| == |s.shown|
            && (forall i :: 0 <= i < |s.shown| ==>
                  0 <= s.shown[i] < |s.produced| && s.pictures[i] == s.produced[s.shown[i]])
            && (forall i, j :: 0 <= i < j < |s.shown| ==> s.shown[i] < s.shown[j])
  {
    InitialInv();
  }

  /**
   Under every schedule: a produced frame that is not shown and not on its way to the screen was
   replaced by the next one while it was waiting. After the presenter has stopped, at most the
   newest frame is left waiting.
   */
  lemma {:induction false} NoFrameLostSilently(events: seq<Event>, n: nat)
    ensures InitialOk() && var s := RunEvents(Initial(), events);
            && (n < |s.produced| && n !in s.shown ==>
                  || (s.presenter.Show? && n == s.tags[s.presenter.source])
                  || (s.pending >= 0 && n == |s.produced| - 1)
                  || (n in s.dropped && n + 1 < |s.produced|))
            && (s.presenter.Exited? && n < |s.produced| && n !in s.shown && n !in s.dropped ==>
                  s.pending >= 0 && n == |s.produced| - 1)
  {
    InitialInv();
    var s := RunEvents(Initial(), events);
    assert n < |s.produced| ==> Accounted(s, n);
  }
}
