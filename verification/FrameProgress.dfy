/** The frame exchange moves on. */
module FrameProgress {
  // No deadlock, and every hand-over can be completed.

  import opened FrameExchange
  import opened SharedFrames

  /** While a call of the producer is unfinished, one of the threads can move. */
  lemma {:induction false} NoDeadlock(events: seq<Event>)
    ensures InitialOk() && var s := RunEvents(Initial(), events);
            !s.producer.Idle? && !s.producer.Freed? ==> ProducerStep(s) != s || PresenterStep(s) != s
  {
    InitialInv();
    var s := RunEvents(Initial(), events);
    if s.producer.WantLock? || s.producer.WantStop? {
      assert s.holder == [] || s.holder == [Presenter];
    }
  }

  /** A frame that is submitted with the mutex free is produced, and is the one that waits. */
  lemma {:induction false} SubmittedIsProduced(s: State, surface: Frame)
    requires Inv(s) && s.producer.Idle? && s.holder == []
    ensures var t := RunEvents(s, [Submit(surface)] + Alone(|surface| + 4));
            && t.producer.Idle? && t.holder == [] && t.active == s.active
            && t.produced == s.produced + [surface]
            && t.pending == (if s.active == 0 then 1 else if s.active == 1 then 0
                             else if s.pending == 1 then 1 else 0)
            && t.buffers[t.pending].height == |surface| && surface <= t.buffers[t.pending].rows
  {
    var events := [Submit(surface)] + Alone(|surface| + 4);
    assert events[0] == Submit(surface) && events[1..] == Alone(|surface| + 4);
    NextKeeps(s, Submit(surface));
    var a := s.(producer := WantLock(surface));
    var t := LockedReaches(a, surface);
    ReachesIsRun(a, |surface| + 4, t);
  }

  /** The producer waiting for the free mutex: it takes it, chooses, copies and publishes. */
  lemma {:induction false} LockedReaches(s: State, surface: Frame) returns (t: State)
    requires |s.buffers| == 2 && |s.tags| == 2 && -1 <= s.active < 2
    requires s.producer == WantLock(surface) && s.holder == []
    ensures Reaches(s, |surface| + 4, t)
    ensures Left(s, surface, if Target(s.active, s.pending) == 1 then 1 else 0, t)
  {
    var chosen := ProducerStep(s);
    var copying := ProducerStep(chosen);
    t := CopyReaches(copying);
    assert Reaches(chosen, |surface| + 3, t);
  }

  /** The presenter can take a step. */
  predicate CanPresent(s: State) {
    && |s.buffers| == 2 && |s.tags| == 2 && s.pending < 2
    && (s.presenter.Show? ==>
          && s.presenter.source < 2
          && s.buffers[s.presenter.source].height <= |s.buffers[s.presenter.source].rows|)
  }

  /** The threads lead from `s` to `t` by the given steps. */
  predicate Chain(s: State, events: seq<Event>, t: State)
    decreases |events|
  {
    if events == [] then s == t
    else if events[0].RunProducer? then CanStep(s) && Chain(ProducerStep(s), events[1..], t)
    else events[0].RunPresenter? && CanPresent(s) && Chain(PresenterStep(s), events[1..], t)
  }

  lemma {:induction false} ChainIsRun(s: State, events: seq<Event>, t: State)
    requires Inv(s) && Chain(s, events, t)
    ensures RunEvents(s, events) == t
    decreases |events|
  {
    if events != [] {
      NextKeeps(s, events[0]);
      ChainIsRun(Next(s, events[0]), events[1..], t);
    }
  }

  /** The presenter alone, `n` steps long. */
  function Presents(n: nat): seq<Event> {
    seq(n, _ => RunPresenter)
  }

  lemma {:induction false} ChainPresents(s: State, n: nat, t: State)
    requires n > 0 && CanPresent(s) && Chain(PresenterStep(s), Presents(n - 1), t)
    ensures Chain(s, Presents(n), t)
  {
    assert Presents(n)[0] == RunPresenter && Presents(n)[1..] == Presents(n - 1);
  }

  /** What the presenter leaves when it has shown the rows that are left. */
  function Shown(s: State, source: nat, picture: Frame): State
    requires source < |s.tags|
  {
    s.(active := -1, presenter := WantFrame, shown := s.shown + [s.tags[source]], pictures := s.pictures + [picture])
  }

  /** The rows that are left, and the end of the picture, with the mutex free. */
  lemma {:induction false} ShowReaches(s: State)
    requires CanPresent(s) && s.presenter.Show? && s.holder == []
    requires s.presenter.y <= s.buffers[s.presenter.source].height
    ensures var b := s.buffers[s.presenter.source];
            Chain(s, Presents(b.height - s.presenter.y + 3),
                  Shown(s, s.presenter.source, s.presenter.picture + b.rows[s.presenter.y..b.height]))
    decreases s.buffers[s.presenter.source].height - s.presenter.y
  {
    var source, y, b := s.presenter.source, s.presenter.y, s.buffers[s.presenter.source];
    var next := PresenterStep(s);
    if y < b.height {
      ShowReaches(next);
      assert b.rows[y..b.height] == [b.rows[y]] + b.rows[y + 1..b.height];
      assert s.presenter.picture + [b.rows[y]] + b.rows[y + 1..b.height] ==
             s.presenter.picture + b.rows[y..b.height];
      ChainPresents(s, b.height - y + 3, Shown(s, source, s.presenter.picture + b.rows[y..b.height]));
    } else {
      assert s.presenter.picture + b.rows[y..y] == s.presenter.picture;
      var t := Shown(s, source, s.presenter.picture);
      assert Chain(t, Presents(0), t);
      ChainPresents(PresenterStep(next), 1, t);
      ChainPresents(next, 2, t);
      ChainPresents(s, 3, t);
    }
  }

  /** A frame that waits while the presenter does is shown whole, unless the exchange is told to stop. */
  lemma {:induction false} WaitingIsShown(s: State)
    requires Inv(s) && s.presenter.WantFrame? && s.holder == [] && s.pending >= 0 && !s.stop
    ensures var t := RunEvents(s, Presents(s.buffers[s.pending].height + 5));
            && t.presenter.WantFrame? && t.holder == [] && t.active == t.pending == -1
            && t.shown == s.shown + [|s.produced| - 1]
            && t.pictures == s.pictures + [s.produced[|s.produced| - 1]]
  {
    var b := s.buffers[s.pending];
    assert Holds(s, s.pending);
    var next := PresenterStep(s);
    var show := PresenterStep(next);
    ShowReaches(show);
    var t := Shown(show, s.pending, [] + b.rows[0..b.height]);
    ChainPresents(next, b.height + 4, t);
    ChainPresents(s, b.height + 5, t);
    ChainIsRun(s, Presents(b.height + 5), t);
    assert [] + b.rows[0..b.height] == s.produced[|s.produced| - 1];
  }

  /** Told to stop while the presenter waits: its thread ends, and the exchange is freed after that. */
  lemma {:induction false} StopFrees(s: State)
    requires Inv(s) && s.producer.Idle? && s.holder == [] && s.presenter.WantFrame?
    ensures var t := RunEvents(s, [RequestStop] + Stopped());
            t.producer.Freed? && t.presenter.Exited? && t.shown == s.shown
  {
    var a := Next(s, RequestStop);
    NextKeeps(s, RequestStop);
    assert ([RequestStop] + Stopped())[1..] == Stopped();
    var t := s.(producer := Freed, presenter := Exited, stop := true, holder := []);
    StopReaches(a, t);
    ChainIsRun(a, Stopped(), t);
  }

  /** The steps to the end. */
  function Stopped(): seq<Event> {
    [RunProducer, RunProducer, RunPresenter, RunPresenter, RunProducer]
  }

  lemma {:induction false} StopReaches(s: State, t: State)
    requires CanStep(s) && CanPresent(s)
    requires s.producer.WantStop? && s.holder == [] && s.presenter.WantFrame?
    requires t == s.(producer := Freed, presenter := Exited, stop := true, holder := [])
    ensures Chain(s, Stopped(), t)
  {
    var a := ProducerStep(s);
    var b := ProducerStep(a);
    var c := PresenterStep(b);
    var d := PresenterStep(c);
    var events := Stopped();
    assert events[4..] == [RunProducer] && events[3..] == [RunPresenter] + events[4..];
    assert ProducerStep(d) == t && Chain(t, [], t);
    assert Chain(d, events[4..], t) by { assert events[4..][1..] == []; }
    assert Chain(c, events[3..], t) by { assert events[3..][1..] == events[4..]; }
    assert Chain(b, events[2..], t) by { assert events[2..][1..] == events[3..]; }
    assert Chain(a, events[1..], t) by { assert events[1..][1..] == events[2..]; }
  }
}
