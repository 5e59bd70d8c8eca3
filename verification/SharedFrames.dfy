/** The critical sections of the frame exchange, in place. */
module SharedFrames {
  // While one thread holds the mutex the other runs none of these, so each section is one method.
  // The buffers are pixel memory of one size in which every frame is laid out with its own width.

  import opened Common
  import opened FrameExchange

  // ----- the sections as the interleaved protocol has them -----

  /** What a critical section finds and leaves: which buffers are in use, and their frames. */
  datatype View = View(active: int, pending: int, shown: Option<Frame>, waiting: Option<Frame>)

  /** A new frame waits, in the buffer that `present` chooses. */
  function Produced(v: View, surface: Frame): View {
    v.(pending := if Target(v.active, v.pending) == 1 then 1 else 0, waiting := Some(surface))
  }

  /** The waiting frame, if there is one, becomes the shown one. */
  function Taken(v: View): View {
    if v.pending < 0 then v else View(v.pending, -1, v.waiting, None)
  }

  function Released(v: View): View {
    v.(active := -1, shown := None)
  }

  /** No frame is being copied. */
  predicate Still(s: State) {
    !s.producer.Copy? && !s.producer.Publish?
  }

  ghost function Frames(s: State, b: int): Option<Frame>
    requires Inv(s) && Still(s) && (b == s.active || b == s.pending)
  {
    if b < 0 then None else Some(s.buffers[b].rows[..s.buffers[b].height])
  }

  ghost function ViewOf(s: State): View
    requires Inv(s) && Still(s)
  {
    View(s.active, s.pending, Frames(s, s.active), Frames(s, s.pending))
  }

  /** The producer alone, `n` steps long. */
  function Alone(n: nat): seq<Event> {
    seq(n, _ => RunProducer)
  }

  /** The producer can take a step. */
  predicate CanStep(s: State) {
    && |s.buffers| == 2 && |s.tags| == 2
    && (s.producer.Copy? ==> s.producer.target < 2 && s.producer.y <= |s.buffers[s.producer.target].rows|)
    && (s.producer.Publish? ==> s.producer.target < 2)
  }

  /** `n` steps of the producer alone lead from `s` to `t`. */
  predicate Reaches(s: State, n: nat, t: State)
    decreases n
  {
    if n == 0 then s == t else CanStep(s) && Reaches(ProducerStep(s), n - 1, t)
  }

  lemma {:induction false} ReachesIsRun(s: State, n: nat, t: State)
    requires Inv(s) && Reaches(s, n, t)
    ensures RunEvents(s, Alone(n)) == t
    decreases n
  {
    if n > 0 {
      NextKeeps(s, RunProducer);
      assert Alone(n)[0] == RunProducer && Alone(n)[1..] == Alone(n - 1);
      ReachesIsRun(ProducerStep(s), n - 1, t);
    }
  }

  /** The producer is copying to a buffer that is not shown. */
  predicate Copying(s: State) {
    && |s.buffers| == 2 && |s.tags| == 2 && -1 <= s.active < 2
    && s.producer.Copy? && s.producer.target < 2 && s.producer.target != s.active
    && s.producer.y <= |s.producer.surface|
    && s.producer.surface[..s.producer.y] <= s.buffers[s.producer.target].rows
  }

  /** What the copying, or the publication, of this frame leaves. */
  predicate Left(s: State, surface: Frame, target: nat, t: State) {
    && t.producer.Idle? && t.active == s.active && t.pending == target < |t.buffers|
    && t.buffers[target].height == |surface| && surface <= t.buffers[target].rows
    && t.holder == [] && t.produced == s.produced + [surface]
    && (0 <= s.active < |s.buffers| ==> s.active < |t.buffers| && t.buffers[s.active] == s.buffers[s.active])
  }

  /** The copy loop, and the publication behind it. */
  lemma {:induction false} CopyReaches(s: State) returns (t: State)
    requires Copying(s)
    ensures Reaches(s, |s.producer.surface| - s.producer.y + 2, t)
    ensures Left(s, s.producer.surface, s.producer.target, t)
    decreases |s.producer.surface| - s.producer.y
  {
    var next := ProducerStep(s);
    if s.producer.y < |s.producer.surface| {
      RowCopied(s);
      t := CopyReaches(next);
    } else {
      assert s.producer.surface[..|s.producer.surface|] == s.producer.surface;
      t := ProducerStep(next);
      assert Reaches(next, 1, t);
    }
  }

  lemma {:induction false} RowCopied(s: State)
    requires Copying(s) && s.producer.y < |s.producer.surface|
    ensures Copying(ProducerStep(s))
  {
    var y, surface, rows := s.producer.y, s.producer.surface, s.buffers[s.producer.target].rows;
    var after := WithRow(rows, y, surface[y]);
    assert surface[..y + 1] == surface[..y] + [surface[y]];
    assert after[..y] == rows[..y] == surface[..y];
    assert after[..y + 1] == surface[..y + 1];
  }

  /** The producer's section: from the choice of the buffer to the publication. */
  lemma {:induction false} ProducerSection(s: State)
    requires Inv(s) && s.producer.Choose?
    ensures var t := RunEvents(s, Alone(|s.producer.surface| + 3));
            && t.producer.Idle?
            && ViewOf(t) == Produced(ViewOf(s), s.producer.surface)
  {
    var surface := s.producer.surface;
    var next := ProducerStep(s);
    assert Copying(next);
    var t := CopyReaches(next);
    assert Reaches(s, |surface| + 3, t);
    ReachesIsRun(s, |surface| + 3, t);
    ProducedView(s, next.producer.target, t);
  }

  lemma {:induction false} ProducedView(s: State, target: nat, t: State)
    requires Inv(s) && Inv(t) && s.producer.Choose?
    requires target == if Target(s.active, s.pending) == 1 then 1 else 0
    requires Left(s, s.producer.surface, target, t)
    ensures ViewOf(t) == Produced(ViewOf(s), s.producer.surface)
  {
    assert t.buffers[target].rows[..|s.producer.surface|] == s.producer.surface;
  }

  /** The presenter's first section, when it is not told to stop. */
  lemma {:induction false} TakeSection(s: State)
    requires Inv(s) && s.presenter.Check? && !s.stop
    ensures Still(s) && Inv(PresenterStep(s)) && Still(PresenterStep(s))
    ensures ViewOf(PresenterStep(s)) == Taken(ViewOf(s))
  {
    PresenterKeeps(s);
  }

  /** The presenter's second section. */
  lemma {:induction false} ReleaseSection(s: State)
    requires Inv(s) && s.presenter.Clear?
    ensures Still(s) && Inv(PresenterStep(s)) && Still(PresenterStep(s))
    ensures ViewOf(PresenterStep(s)) == Released(ViewOf(s))
  {
    PresenterKeeps(s);
  }

  // ----- frames in pixel memory -----

  /** The rows of a frame laid out from the start of its buffer. */
  function RowsOf(pixels: seq<int>, width: nat, height: nat): (rows: seq<seq<int>>)
    requires width * height <= |pixels|
    ensures |rows| == height
  {
    seq(height, y requires 0 <= y < height => RowAt(pixels, width, height, y))
  }

  function RowAt(pixels: seq<int>, width: nat, height: nat, y: nat): seq<int>
    requires width * height <= |pixels| && y < height
  {
    RowFits(width, y, height);
    pixels[y * width..y * width + width]
  }

  lemma {:induction false} RowFits(width: nat, y: nat, height: nat)
    requires y < height
    ensures y * width + width <= width * height
  {
    assert (y + 1) * width <= height * width;
  }

  lemma {:induction false} RowsApart(width: nat, j: nat, y: nat)
    requires j < y
    ensures j * width + width <= y * width
  {
    assert (j + 1) * width <= y * width;
  }

  /** Rows of one width. */
  predicate Rectangular(surface: seq<seq<int>>, width: nat) {
    forall y :: 0 <= y < |surface| ==> |surface[y]| == width
  }

  /** memcpy of one row */
  method CopyRow(dst: array<int>, at: nat, row: seq<int>)
    requires at + |row| <= dst.Length
    modifies dst
    ensures dst[at..at + |row|] == row
    ensures forall i :: 0 <= i < dst.Length && !(at <= i < at + |row|) ==> dst[i] == old(dst[i])
  {
    for x := 0 to |row|
      invariant forall k :: 0 <= k < x ==> dst[at + k] == row[k]
      invariant forall i :: 0 <= i < dst.Length && !(at <= i < at + |row|) ==> dst[i] == old(dst[i])
    {
      dst[at + x] := row[x];
    }
  }

  /** The copy loop of `present`. */
  method CopyFrame(dst: array<int>, surface: seq<seq<int>>, width: nat)
    requires Rectangular(surface, width) && width * |surface| <= dst.Length
    modifies dst
    ensures RowsOf(dst[..], width, |surface|) == surface
  {
    for y := 0 to |surface|
      invariant forall j :: 0 <= j < y ==> RowAt(dst[..], width, |surface|, j) == surface[j]
    {
      RowFits(width, y, |surface|);
      ghost var before := dst[..];
      CopyRow(dst, y * width, surface[y]);
      forall j | 0 <= j < y
        ensures RowAt(dst[..], width, |surface|, j) == surface[j]
      {
        RowsApart(width, j, y);
        RowKept(before, dst[..], width, |surface|, j, y * width);
      }
    }
  }

  lemma {:induction false} RowKept(before: seq<int>, after: seq<int>, width: nat, height: nat, j: nat, at: nat)
    requires |after| == |before| && width * height <= |before| && j < height && j * width + width <= at
    requires forall i :: 0 <= i < |before| && i < at ==> after[i] == before[i]
    ensures RowAt(after, width, height, j) == RowAt(before, width, height, j)
  {
    RowFits(width, j, height);
  }

  class Exchange {
    const frame0: array<int>
    const frame1: array<int>
    var width: seq<nat>
    var height: seq<nat>
    var active: int
    var pending: int

    ghost predicate Valid()
      reads this
    {
      && frame0 != frame1 && frame0.Length == frame1.Length
      && |width| == |height| == 2
      && width[0] * height[0] <= frame0.Length && width[1] * height[1] <= frame1.Length
      && -1 <= active < 2 && -1 <= pending < 2
      && (active >= 0 ==> pending != active)
    }

    function Buffer(frame: nat): array<int>
      reads this
    {
      if frame == 0 then frame0 else frame1
    }

    /** The frame that a buffer holds. */
    ghost function Contents(frame: nat): seq<seq<int>>
      requires Valid() && frame < 2
      reads this, frame0, frame1
    {
      RowsOf(Buffer(frame)[..], width[frame], height[frame])
    }

    ghost function FrameIn(frame: int): Option<Frame>
      requires Valid() && frame < 2
      reads this, frame0, frame1
    {
      if frame < 0 then None else Some(Contents(frame))
    }

    ghost function Abs(): View
      requires Valid()
      reads this, frame0, frame1
    {
      View(active, pending, FrameIn(active), FrameIn(pending))
    }

    constructor (capacity: nat)
      ensures Valid() && Abs() == View(-1, -1, None, None)
      ensures fresh(frame0) && fresh(frame1) && frame0.Length == capacity
    {
      frame0 := new int[capacity];
      frame1 := new int[capacity];
      width, height := [0, 0], [0, 0];
      active, pending := -1, -1;
    }

    /**
     `present`, with the mutex held from the choice on: the new frame replaces a waiting one, or
     goes to the buffer that is not shown. A frame that is empty or too large is ignored.
     */
    method Present(surface: seq<seq<int>>, w: nat)
      requires Valid() && Rectangular(surface, w)
      modifies this`width, this`height, this`pending, frame0, frame1
      ensures Valid() && active == old(active)
      ensures w == 0 || surface == [] || w * |surface| > frame0.Length ==>
                pending == old(pending) && frame0[..] == old(frame0[..]) && frame1[..] == old(frame1[..])
                && width == old(width) && height == old(height)
      ensures !(w == 0 || surface == [] || w * |surface| > frame0.Length) ==>
                && pending == (if Target(active, old(pending)) == 1 then 1 else 0)
                && pending != active
                && Contents(pending) == surface
                && Buffer(1 - pending)[..] == old(Buffer(1 - (if Target(active, pending) == 1 then 1 else 0))[..])
                && width[1 - pending] == old(width)[1 - pending] && height[1 - pending] == old(height)[1 - pending]
      ensures w > 0 && surface != [] && w * |surface| <= frame0.Length ==>
                && pending == (if active == 0 then 1
                               else if active == 1 then 0
                               else if old(pending) == 1 then 1 else 0)
                && (if pending == 0 then frame1[..] == old(frame1[..]) else frame0[..] == old(frame0[..]))
      ensures Abs() == if w == 0 || surface == [] || w * |surface| > frame0.Length then old(Abs())
                       else Produced(old(Abs()), surface)
    {
      if w == 0 || |surface| == 0 || w * |surface| > frame0.Length {
        return;
      }
      var frame := if active == 0 then 1 else 0;
      if active < 0 && pending >= 0 {
        frame := pending;
      }
      CopyFrame(Buffer(frame), surface, w);
      width := width[frame := w];
      height := height[frame := |surface|];
      pending := frame;
    }

    /** The presenter takes the waiting frame, if there is one. */
    method Take() returns (frame: int)
      requires Valid() && active < 0
      modifies this`active, this`pending
      ensures Valid() && Abs() == Taken(old(Abs()))
      ensures frame == old(pending) == active && pending == -1
    {
      frame := pending;
      pending := -1;
      active := frame;
    }

    /** The presenter has shown its frame. */
    method Release()
      requires Valid()
      modifies this`active
      ensures Valid() && active == -1 && Abs() == Released(old(Abs()))
    {
      active := -1;
    }
  }

  /**
   A frame that the presenter has taken keeps its contents while a newer one is produced, and the
   newer one is what waits next.
   */
  method ProduceWhileShown(e: Exchange, surface: seq<seq<int>>, w: nat) returns (shown: int)
    requires e.Valid() && e.active < 0 && e.pending >= 0
    requires Rectangular(surface, w) && w > 0 && surface != [] && w * |surface| <= e.frame0.Length
    modifies e, e.frame0, e.frame1
    ensures e.Valid() && e.Abs() == Produced(Taken(old(e.Abs())), surface)
    ensures shown == old(e.pending) == e.active && e.pending == 1 - shown
    ensures e.Contents(shown) == old(e.Contents(e.pending))
    ensures e.Contents(e.pending) == surface
  {
    shown := e.Take();
    e.Present(surface, w);
  }
}
