/** The hardware-keys service. */
module TimedKeys {
  // Holding Select and Start forces an exit after a second, the volume keys repeat while held, and
  // changes are persisted after a pause. What happened is kept in a log, and the service's
  // deadlines and latches are functions of it.

  import opened Common

  const EXIT_HOLD: int := 1000
  const REPEAT_DELAY: int := 450
  const REPEAT_INTERVAL: int := 120
  const PERSIST_DELAY: int := 750
  const VOLUME_MAX: int := 12
  const VOLUME_DEFAULT: int := 8

  datatype Entry =
    | Button(isSelect: bool, down: bool, at: int)
    | GamepadLost
    | Exit(at: int)
    | Changed(display: bool)
    | Saved(display: bool)

  type Log = seq<Entry>

  function Init(log: Log): Log
    requires log != []
  {
    log[..|log| - 1]
  }

  function Last(log: Log): Entry
    requires log != []
  {
    log[|log| - 1]
  }

  /** Whether Select, or Start, is down after what happened. */
  predicate Down(log: Log, isSelect: bool) {
    log != [] &&
    match Last(log)
    case Button(key, down, _) => if key == isSelect then down else Down(Init(log), isSelect)
    case GamepadLost => false
    case _ => Down(Init(log), isSelect)
  }

  predicate BothDown(log: Log) {
    Down(log, true) && Down(log, false)
  }

  /** When the unbroken hold of both buttons began. */
  function HoldStart(log: Log): Option<int> {
    if log == [] then None
    else
      match Last(log)
      case Button(_, _, at) =>
        if !BothDown(log) then None
        else if HoldStart(Init(log)).Some? then HoldStart(Init(log))
        else Some(at)
      case GamepadLost => None
      case _ => HoldStart(Init(log))
  }

  /** Whether the exit helper has run during the current hold. */
  predicate Fired(log: Log) {
    log != [] &&
    match Last(log)
    case Exit(_) => true
    case Button(_, _, _) => BothDown(log) && Fired(Init(log))
    case GamepadLost => false
    case _ => Fired(Init(log))
  }

  /** Whether a change of the volume, or the brightness, has not been persisted. */
  predicate Unsaved(log: Log, display: bool) {
    log != [] &&
    match Last(log)
    case Changed(d) => d == display || Unsaved(Init(log), display)
    case Saved(d) => d != display && Unsaved(Init(log), display)
    case _ => Unsaved(Init(log), display)
  }

  /** The exit helper may run at `at`: both buttons have been held for a second and it has not run yet. */
  predicate Due(log: Log, at: int) {
    HoldStart(log).Some? && !Fired(log) && HoldStart(log).value + EXIT_HOLD <= at
  }

  predicate Legal(log: Log) {
    forall k :: 0 <= k < |log| && log[k].Exit? ==> Due(log[..k], log[k].at)
  }

  function Clamp(v: int): int {
    if v < 0 then 0 else if v > VOLUME_MAX then VOLUME_MAX else v
  }

  /** `read_volume_state`: the number in the state file, or the default when there is none. */
  function Volume(file: Option<int>): int {
    if file.None? then VOLUME_DEFAULT else Clamp(file.value)
  }

  class Service {
    var selectDown: bool
    var startDown: bool
    var exitDue: int
    var exitLatched: bool
    var heldDirection: int
    var heldIsDisplay: bool
    var repeatDue: int
    var persistDue: int
    var volumePending: bool
    var displayPending: bool
    var volumeFile: Option<int>
    ghost var log: Log

    /** A persist deadline is set exactly while something is unsaved. */
    ghost predicate Valid()
      reads this
    {
      Tracks() && (volumePending || displayPending <==> persistDue > 0)
    }

    /** The deadlines and latches are what the log says. */
    ghost predicate Tracks()
      reads this
    {
      && selectDown == Down(log, true) && startDown == Down(log, false)
      && exitLatched == Fired(log)
      && (HoldStart(log).Some? ==> HoldStart(log).value >= 0)
      && (HoldStart(log).Some? <==> selectDown && startDown)
      && exitDue == (if HoldStart(log).Some? && !exitLatched then HoldStart(log).value + EXIT_HOLD else 0)
      && Legal(log)
      && volumePending == Unsaved(log, false) && displayPending == Unsaved(log, true)
      && (heldDirection != 0 <==> repeatDue > 0)
    }

    constructor (volumeFile: Option<int>)
      ensures Valid() && log == [] && this.volumeFile == volumeFile
    {
      selectDown, startDown, exitDue, exitLatched := false, false, 0, false;
      heldDirection, heldIsDisplay, repeatDue, persistDue := 0, false, 0, 0;
      volumePending, displayPending := false, false;
      this.volumeFile := volumeFile;
      log := [];
    }

    /** A Select or Start event; a held button's own repeats count as down. */
    method GamepadKey(isSelect: bool, down: bool, now: int)
      requires Valid() && now >= 0
      modifies this
      ensures Valid() && log == old(log) + [Button(isSelect, down, now)]
      ensures volumeFile == old(volumeFile) && persistDue == old(persistDue)
      ensures heldDirection == old(heldDirection) && repeatDue == old(repeatDue)
      ensures heldIsDisplay == old(heldIsDisplay)
    {
      Logged(log, Button(isSelect, down, now));
      log := log + [Button(isSelect, down, now)];
      if isSelect {
        selectDown := down;
      } else {
        startDown := down;
      }
      if selectDown && startDown {
        if !exitLatched && exitDue == 0 {
          exitDue := now + EXIT_HOLD;
        }
      } else {
        exitDue := 0;
        exitLatched := false;
      }
    }

    /** The gamepad's device is gone. */
    method GamepadClosed()
      requires Valid()
      modifies this
      ensures Valid() && log == old(log) + [GamepadLost] && exitDue == 0
      ensures volumeFile == old(volumeFile) && persistDue == old(persistDue)
      ensures heldDirection == old(heldDirection) && repeatDue == old(repeatDue)
    {
      Logged(log, GamepadLost);
      log := log + [GamepadLost];
      selectDown, startDown := false, false;
      exitDue, exitLatched := 0, false;
    }

    method VolumeKeysClosed()
      requires Valid()
      modifies this
      ensures Valid() && log == old(log) && repeatDue == 0
      ensures volumeFile == old(volumeFile) && persistDue == old(persistDue)
    {
      heldDirection, repeatDue := 0, 0;
    }

    /** `change_runtime_volume`: one step within 0 and 12; at a limit there is nothing to write. */
    method ChangeVolume(direction: int, writes: bool) returns (done: bool)
      modifies this`volumeFile
      ensures done <==> writes || Volume(old(volumeFile)) == Clamp(Volume(old(volumeFile)) + Sign(direction))
      ensures Volume(volumeFile) ==
              if done then Clamp(Volume(old(volumeFile)) + Sign(direction)) else Volume(old(volumeFile))
      ensures 0 <= Volume(volumeFile) <= 12
      ensures done && direction > 0 ==>
                Volume(volumeFile) == if Volume(old(volumeFile)) == 12 then 12 else Volume(old(volumeFile)) + 1
      ensures done && direction <= 0 ==>
                Volume(volumeFile) == if Volume(old(volumeFile)) == 0 then 0 else Volume(old(volumeFile)) - 1
    {
      var current := Volume(volumeFile);
      var next := current + (if direction > 0 then 1 else -1);
      if next < 0 {
        next := 0;
      }
      if next > VOLUME_MAX {
        next := VOLUME_MAX;
      }
      if next == current {
        return true;
      }
      if !writes {
        return false;
      }
      volumeFile := Some(next);
      return true;
    }

    /** A key action and, when it worked, the note that something must be persisted. */
    method ApplyAndNote(direction: int, display: bool, works: bool, now: int) returns (done: bool)
      requires Valid() && now >= 0
      modifies this`volumeFile, this`volumePending, this`displayPending, this`persistDue, this`log
      ensures Valid()
      ensures display ==> done == works && volumeFile == old(volumeFile)
      ensures !display ==>
                Volume(volumeFile) ==
                if done then Clamp(Volume(old(volumeFile)) + Sign(direction)) else Volume(old(volumeFile))
      ensures works ==> done
      ensures log == if done then old(log) + [Changed(display)] else old(log)
      ensures persistDue == if done then now + 750 else old(persistDue)
    {
      done := works;
      if !display {
        done := ChangeVolume(direction, works);
      }
      if done {
        Logged(log, Changed(display));
        log := log + [Changed(display)];
        if display {
          displayPending := true;
        } else {
          volumePending := true;
        }
        persistDue := now + PERSIST_DELAY;
      }
    }

    /** A volume key event; Select held at the press turns it into a brightness key until released. */
    method VolumeKey(up: bool, value: int, works: bool, now: int)
      requires Valid() && now >= 0
      modifies this
      ensures Valid()
      ensures value == 1 ==>
                && heldDirection == (if up then 1 else -1) && heldIsDisplay == Down(old(log), true)
                && repeatDue == now + 450
                && (log == old(log) || log == old(log) + [Changed(heldIsDisplay)])
                && (works ==> log == old(log) + [Changed(heldIsDisplay)] && persistDue == now + 750)
      ensures value != 1 ==> log == old(log) && volumeFile == old(volumeFile) && persistDue == old(persistDue)
      ensures value == 0 && old(heldDirection) == (if up then 1 else -1) ==> heldDirection == 0
      ensures value != 1 && !(value == 0 && old(heldDirection) == (if up then 1 else -1)) ==>
                heldDirection == old(heldDirection) && repeatDue == old(repeatDue)
    {
      var direction := if up then 1 else -1;
      if value == 1 {
        heldDirection := direction;
        heldIsDisplay := selectDown;
        repeatDue := now + REPEAT_DELAY;
        var _ := ApplyAndNote(direction, heldIsDisplay, works, now);
      } else if value == 0 && direction == heldDirection {
        heldDirection, repeatDue := 0, 0;
      }
    }

    /** The force-exit check: the helper runs exactly when it is due. */
    method CheckExit(now: int)
      requires Valid() && now >= 0
      modifies this`exitDue, this`exitLatched, this`log
      ensures Valid()
      ensures log == if Due(old(log), now) then old(log) + [Exit(now)] else old(log)
    {
      if !exitLatched && exitDue > 0 && now >= exitDue {
        Logged(log, Exit(now));
        log := log + [Exit(now)];
        exitDue := 0;
        exitLatched := true;
      }
    }

    method CheckRepeat(works: bool, now: int)
      requires Valid() && now >= 0
      modifies this`volumeFile, this`volumePending, this`displayPending, this`persistDue, this`log, this`repeatDue
      ensures Valid()
      ensures if old(heldDirection) != 0 && now >= old(repeatDue)
              then repeatDue == now + 120
                   && (log == old(log) + [Changed(heldIsDisplay)]
                       || (log == old(log) && persistDue == old(persistDue) && !works))
              else log == old(log) && repeatDue == old(repeatDue) && persistDue == old(persistDue)
                   && volumeFile == old(volumeFile)
    {
      if heldDirection != 0 && repeatDue > 0 && now >= repeatDue {
        var _ := ApplyAndNote(heldDirection, heldIsDisplay, works, now);
        repeatDue := now + REPEAT_INTERVAL;
      }
    }

    /** `persist_pending`: each helper that works clears its own flag. */
    method PersistPending(volumeSaves: bool, displaySaves: bool)
      requires Tracks()
      modifies this`volumePending, this`displayPending, this`log
      ensures Tracks()
      ensures volumePending == (old(volumePending) && !volumeSaves)
      ensures displayPending == (old(displayPending) && !displaySaves)
      ensures log == old(log) + (if old(volumePending) && volumeSaves then [Saved(false)] else [])
                              + (if old(displayPending) && displaySaves then [Saved(true)] else [])
    {
      if volumePending && volumeSaves {
        Logged(log, Saved(false));
        log := log + [Saved(false)];
        volumePending := false;
      }
      if displayPending && displaySaves {
        Logged(log, Saved(true));
        log := log + [Saved(true)];
        displayPending := false;
      }
    }

    /** The persist check: after a failure the deadline is set again, so it is retried until it works. */
    method CheckPersist(volumeSaves: bool, displaySaves: bool, now: int)
      requires Valid() && now >= 0
      modifies this`volumePending, this`displayPending, this`log, this`persistDue
      ensures Valid()
      ensures if old(persistDue) > 0 && now >= old(persistDue)
              then volumePending == (old(volumePending) && !volumeSaves)
                   && displayPending == (old(displayPending) && !displaySaves)
                   && persistDue == (if volumePending || displayPending then now + 750 else 0)
              else log == old(log) && persistDue == old(persistDue)
      ensures Extends(old(log), log)
    {
      hide Down, HoldStart, Fired, Unsaved, Legal;
      if (volumePending || displayPending) && persistDue > 0 && now >= persistDue {
        PersistPending(volumeSaves, displaySaves);
        persistDue := if volumePending || displayPending then now + PERSIST_DELAY else 0;
      }
    }

    /** The timed part of one turn of the loop: the exit helper runs once when due, and otherwise not. */
    method Tick(now: int, repeatWorks: bool, volumeSaves: bool, displaySaves: bool)
      requires Valid() && now >= 0
      modifies this
      ensures Valid()
      ensures Extends(old(log) + (if Due(old(log), now) then [Exit(now)] else []), log)
    {
      CheckExit(now);
      ghost var checked := log;
      assert checked == old(log) + (if Due(old(log), now) then [Exit(now)] else []);
      CheckRepeat(repeatWorks, now);
      assert Extends(checked, log);
      CheckPersist(volumeSaves, displaySaves, now);
    }
  }

  /** Nothing but changes and saves was logged in between. */
  ghost predicate Extends(before: Log, after: Log) {
    before <= after && forall k :: |before| <= k < |after| ==> after[k].Changed? || after[k].Saved?
  }

  function Sign(direction: int): int {
    if direction > 0 then 1 else -1
  }

  lemma {:induction false} Logged(log: Log, entry: Entry)
    ensures Init(log + [entry]) == log && Last(log + [entry]) == entry
    ensures Legal(log) && (entry.Exit? ==> Due(log, entry.at)) ==> Legal(log + [entry])
  {
    var all := log + [entry];
    assert all[..|log|] == log;
    forall k | 0 <= k < |all|
      ensures k < |log| ==> all[..k] == log[..k]
    {
    }
  }

  /** A release of either button or the loss of the gamepad. */
  predicate Breaks(log: Log, k: nat)
    requires k < |log|
  {
    log[k].GamepadLost? || (log[k].Button? && !BothDown(log[..k + 1]))
  }

  /** Without a break, a run of the exit helper stays remembered. */
  lemma {:induction false} FiredUntilBreak(log: Log, i: nat, j: nat)
    requires i < j <= |log| && log[i].Exit?
    requires forall k :: i < k < j ==> !Breaks(log, k)
    ensures Fired(log[..j])
    decreases j
  {
    var upTo := log[..j];
    assert Last(upTo) == log[j - 1] && Init(upTo) == log[..j - 1];
    if j > i + 1 {
      FiredUntilBreak(log, i, j - 1);
      assert !Breaks(log, j - 1);
    }
  }

  /** Between two runs of the exit helper a button was released or the gamepad lost. */
  lemma {:induction false} OncePerHold(log: Log, i: nat, j: nat)
    requires Legal(log) && i < j < |log| && log[i].Exit? && log[j].Exit?
    ensures exists k :: i < k < j && (log[k].GamepadLost? || (log[k].Button? && !log[k].down))
  {
    assert Due(log[..i], log[i].at) && Due(log[..j], log[j].at);
    HoldMeansDown(log[..i]);
    if forall k :: i < k < j ==> !log[k].GamepadLost? && !(log[k].Button? && !log[k].down) {
      forall k | i < k < j
        ensures !Breaks(log, k)
      {
        StaysDown(log, i, k + 1);
      }
      FiredUntilBreak(log, i, j);
    }
  }

  lemma {:induction false} StaysDown(log: Log, i: nat, j: nat)
    requires i < j <= |log| && log[i].Exit? && BothDown(log[..i])
    requires forall k :: i < k < j ==> !log[k].GamepadLost? && !(log[k].Button? && !log[k].down)
    ensures BothDown(log[..j])
    decreases j
  {
    var upTo := log[..j];
    assert Last(upTo) == log[j - 1] && Init(upTo) == log[..j - 1];
    if j > i + 1 {
      StaysDown(log, i, j - 1);
    }
  }

  /** A hold's start is a button event from which both buttons were down without a break. */
  lemma {:induction false} HoldBegan(log: Log, n: nat) returns (h: nat)
    requires n <= |log| && HoldStart(log[..n]).Some?
    ensures h < n && log[h].Button? && log[h].down && log[h].at == HoldStart(log[..n]).value
    ensures HoldStart(log[..h]).None?
    ensures forall k :: h < k <= n ==> BothDown(log[..k])
    decreases n
  {
    var upTo := log[..n];
    assert Last(upTo) == log[n - 1] && Init(upTo) == log[..n - 1];
    HoldMeansDown(upTo);
    if HoldStart(log[..n - 1]).Some? {
      h := HoldBegan(log, n - 1);
      forall k | h < k <= n
        ensures BothDown(log[..k])
      {
        if k == n {
          assert log[..k] == upTo;
        }
      }
    } else {
      h := n - 1;
      StartIsPress(upTo);
    }
  }

  lemma {:induction false} HoldMeansDown(log: Log)
    ensures HoldStart(log).Some? <==> BothDown(log)
    decreases |log|
  {
    if log != [] {
      HoldMeansDown(Init(log));
    }
  }

  lemma {:induction false} StartIsPress(log: Log)
    requires log != [] && BothDown(log) && HoldStart(Init(log)).None?
    ensures Last(log).Button? && Last(log).down && HoldStart(log) == Some(Last(log).at)
  {
    HoldMeansDown(Init(log));
  }

  // ----- the same in terms of what happened -----

  /** After the first `n` entries the key is pressed: its last event was a press, and the gamepad was not lost since. */
  ghost predicate Pressed(log: Log, n: nat, isSelect: bool)
    requires n <= |log|
  {
    exists k :: 0 <= k < n && log[k].Button? && log[k].isSelect == isSelect && log[k].down && Quiet(log, k, n, isSelect)
  }

  ghost predicate Quiet(log: Log, k: int, n: nat, isSelect: bool)
    requires n <= |log|
  {
    forall j :: 0 <= j < n && k < j ==> !log[j].GamepadLost? && !(log[j].Button? && log[j].isSelect == isSelect)
  }

  ghost predicate BothPressed(log: Log, n: nat)
    requires n <= |log|
  {
    Pressed(log, n, true) && Pressed(log, n, false)
  }

  lemma {:induction false} DownMeans(log: Log, n: nat, isSelect: bool)
    requires n <= |log|
    ensures Down(log[..n], isSelect) <==> Pressed(log, n, isSelect)
    decreases n
  {
    if n > 0 {
      var upTo := log[..n];
      assert Last(upTo) == log[n - 1] && Init(upTo) == log[..n - 1];
      DownMeans(log, n - 1, isSelect);
      var ends := log[n - 1].GamepadLost? || (log[n - 1].Button? && log[n - 1].isSelect == isSelect);
      if !ends && Pressed(log, n - 1, isSelect) {
        var k :| 0 <= k < n - 1 && log[k].Button? && log[k].isSelect == isSelect && log[k].down
                 && Quiet(log, k, n - 1, isSelect);
        assert Quiet(log, k, n, isSelect);
      }
      if Pressed(log, n, isSelect) {
        var k :| 0 <= k < n && log[k].Button? && log[k].isSelect == isSelect && log[k].down && Quiet(log, k, n, isSelect);
        assert k < n - 1 ==> !ends && Quiet(log, k, n - 1, isSelect);
      }
      if log[n - 1].Button? && log[n - 1].isSelect == isSelect && log[n - 1].down {
        assert Quiet(log, n - 1, n, isSelect);
      }
    }
  }

  lemma {:induction false} BothMeans(log: Log, n: nat)
    requires n <= |log|
    ensures BothDown(log[..n]) <==> BothPressed(log, n)
  {
    DownMeans(log, n, true);
    DownMeans(log, n, false);
  }

  /** The hold that began with entry `h` is unbroken after `n` entries. */
  ghost predicate Held(log: Log, h: nat, n: nat)
    requires h < n <= |log|
  {
    log[h].Button? && !BothPressed(log, h) && forall k :: h < k <= n ==> BothPressed(log, k)
  }

  ghost predicate NoExit(log: Log, h: nat, n: nat)
    requires h < n <= |log|
  {
    forall k :: h < k < n ==> !log[k].Exit?
  }

  /** The helper is due exactly when a hold that began 1000 ms ago is unbroken and it has not run since. */
  lemma {:induction false} DueMeans(log: Log, n: nat, at: int)
    requires n <= |log| && Legal(log)
    ensures Due(log[..n], at) <==>
            exists h: nat :: h < n && Held(log, h, n) && log[h].at + 1000 <= at && NoExit(log, h, n)
  {
    HoldMeansDown(log[..n]);
    BothMeans(log, n);
    if HoldStart(log[..n]).Some? {
      var h := HoldBegan(log, n);
      StartIsHeld(log, h, n);
      FiredMeans(log, h, n);
      forall g: nat | g < n && Held(log, g, n)
        ensures g == h
      {
      }
    }
  }

  lemma {:induction false} StartIsHeld(log: Log, h: nat, n: nat)
    requires h < n <= |log| && log[h].Button? && HoldStart(log[..h]).None?
    requires forall k :: h < k <= n ==> BothDown(log[..k])
    ensures Held(log, h, n)
  {
    HoldMeansDown(log[..h]);
    BothMeans(log, h);
    forall k | h < k <= n
      ensures BothPressed(log, k)
    {
      BothMeans(log, k);
    }
  }

  lemma {:induction false} FiredMeans(log: Log, h: nat, n: nat)
    requires h < n <= |log| && Legal(log) && Held(log, h, n)
    ensures Fired(log[..n]) <==> !NoExit(log, h, n)
    decreases n
  {
    var upTo := log[..n];
    assert Last(upTo) == log[n - 1] && Init(upTo) == log[..n - 1];
    BothMeans(log, n);
    DownMeans(log, n, true);
    if n - 1 > h {
      assert Held(log, h, n - 1);
      FiredMeans(log, h, n - 1);
      assert !NoExit(log, h, n - 1) ==> !NoExit(log, h, n);
      assert log[n - 1].Exit? ==> !NoExit(log, h, n);
    } else {
      BothMeans(log, h);
      NotFired(log, h);
    }
  }

  /** Without both buttons down the helper has not run in this hold. */
  lemma {:induction false} NotFired(log: Log, n: nat)
    requires n <= |log| && Legal(log) && !BothDown(log[..n])
    ensures !Fired(log[..n])
    decreases n
  {
    if n > 0 {
      var upTo := log[..n];
      assert Last(upTo) == log[n - 1] && Init(upTo) == log[..n - 1];
      HoldMeansDown(log[..n - 1]);
      if !log[n - 1].Button? && !log[n - 1].GamepadLost? {
        NotFired(log, n - 1);
      }
    }
  }

  /** A change is unsaved exactly when no save came after the last change. */
  lemma {:induction false} UnsavedMeans(log: Log, display: bool)
    ensures Unsaved(log, display) <==>
            exists k :: 0 <= k < |log| && log[k] == Changed(display) && NotSaved(log, k, display)
    decreases |log|
  {
    if log != [] {
      var n := |log| - 1;
      UnsavedMeans(Init(log), display);
      if k :| 0 <= k < n && Init(log)[k] == Changed(display) && NotSaved(Init(log), k, display)
              && log[n] != Saved(display) {
        assert log[k] == Changed(display) && NotSaved(log, k, display);
      }
      if k :| 0 <= k < |log| && log[k] == Changed(display) && NotSaved(log, k, display) {
        assert k < n ==> Init(log)[k] == Changed(display) && NotSaved(Init(log), k, display) && log[n] != Saved(display);
      }
      if log[n] == Changed(display) {
        assert NotSaved(log, n, display);
      }
    }
  }

  ghost predicate NotSaved(log: Log, k: int, display: bool) {
    forall j :: 0 <= j < |log| && k < j ==> log[j] != Saved(display)
  }

  /** The exit helper never runs before both buttons have been down for 1000 ms without a break. */
  lemma {:induction false} NeverEarly(log: Log, j: nat) returns (h: nat)
    requires Legal(log) && j < |log| && log[j].Exit?
    ensures h < j && log[h].Button? && log[h].down && log[h].at + 1000 <= log[j].at
    ensures forall k :: h < k <= j ==> BothPressed(log, k)
  {
    assert Due(log[..j], log[j].at);
    h := HoldBegan(log, j);
    forall k | h < k <= j
      ensures BothPressed(log, k)
    {
      BothMeans(log, k);
    }
  }

  /** What the state file says: a missing one means 8, and what is beyond the scale is its end. */
  lemma {:induction false} VolumeMeans(v: int)
    ensures Volume(None) == 8 && Volume(Some(v)) == if v > 12 then 12 else if v >= 0 then v else 0
  {
  }
}
