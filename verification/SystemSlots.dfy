/** The A/B system update. */
module SystemSlots {
  // There are two image slots on the boot partition and a small durable record of which slot is
  // active and which is pending.

  import opened Common
  import opened Lines

  /** An image by its content; equal hashes are read as equal content. */
  type Image = string

  type Slot = string

  const SLOTS: set<Slot> := {"a", "b"}

  datatype Disk = Disk(
    activeFile: Option<string>,     // the text of SYSTEM_ACTIVE
    seed: Option<string>,           // the text of System/active-slot on the boot partition
    pendingFile: Option<string>,    // the text of SYSTEM_PENDING
    attempted: bool,                // SYSTEM_ATTEMPTED exists
    images: map<Slot, Image>,       // System/system-<slot>.squashfs
    described: map<Slot, Image>,    // what system-<slot>.sha256 describes
    temps: map<Slot, Image>)        // System/.system-<slot>.squashfs.new

  datatype Step =
    | OpenTemp(slot: Slot)                   // os.open(temp_image, O_TRUNC)
    | WriteTemp(slot: Slot, content: Image)  // copyfileobj has got this far
    | Publish(slot: Slot)                    // os.replace(temp_image, final_image)
    | Describe(slot: Slot, image: Image)     // sha256, manifest and signature files
    | DropTemp(slot: Slot)                   // temp_image.unlink(missing_ok=True)
    | SetPending(slot: Slot)
    | SetActive(slot: Slot)
    | ClearPending
    | ClearAttempted

  function Do(d: Disk, s: Step): Disk {
    match s
    case OpenTemp(slot) => d.(temps := d.temps[slot := ""])
    case WriteTemp(slot, content) => d.(temps := d.temps[slot := content])
    case Publish(slot) =>
      if slot in d.temps then d.(images := d.images[slot := d.temps[slot]], temps := d.temps - {slot}) else d
    case Describe(slot, image) => d.(described := d.described[slot := image])
    case DropTemp(slot) => d.(temps := d.temps - {slot})
    case SetPending(slot) => d.(pendingFile := Some(slot + "\n"))
    case SetActive(slot) => d.(activeFile := Some(slot + "\n"))
    case ClearPending => d.(pendingFile := None)
    case ClearAttempted => d.(attempted := false)
  }

  function Run(d: Disk, steps: seq<Step>): Disk
    decreases |steps|
  {
    if steps == [] then d else Run(Do(d, steps[0]), steps[1..])
  }

  lemma {:induction false} RunConcat(d: Disk, a: seq<Step>, b: seq<Step>)
    ensures Run(d, a + b) == Run(Run(d, a), b)
    decreases |a|
  {
    if a == [] {
      assert a + b == b;
    } else {
      assert (a + b)[0] == a[0] && (a + b)[1..] == a[1..] + b;
      RunConcat(Do(d, a[0]), a[1..], b);
    }
  }

  /** `read_text` of a file that may be missing. */
  function ReadText(file: Option<string>, default: string): string {
    match file
    case Some(text) => Strip(text)
    case None => default
  }

  /** read_text(SYSTEM_ACTIVE, read_text(System/active-slot, "a")), "a" when it names no slot. */
  function Active(d: Disk): Slot {
    var text := ReadText(d.activeFile, ReadText(d.seed, "a"));
    if text in SLOTS then text else "a"
  }

  /** The file is there and its line names the slot. */
  ghost predicate Names(file: Option<string>, slot: Slot) {
    file.Some? && IsLine(file.value, slot)
  }

  /** Slot b is the active one: SYSTEM_ACTIVE says so, or is missing and the seed says so. In any other case it is a. */
  ghost predicate SaysB(d: Disk) {
    Names(d.activeFile, "b") || (d.activeFile.None? && Names(d.seed, "b"))
  }

  lemma {:induction false} ActiveIs(d: Disk)
    ensures Active(d) == if SaysB(d) then "b" else "a"
  {
    if d.activeFile.Some? {
      StripIs(d.activeFile.value, "b");
    } else if d.seed.Some? {
      StripIs(d.seed.value, "b");
    }
  }

  function Inactive(d: Disk): Slot {
    if Active(d) == "a" then "b" else "a"
  }

  /** read_text(SYSTEM_PENDING), if it names a slot. */
  function Pending(d: Disk): Option<Slot> {
    if ReadText(d.pendingFile, "") in SLOTS then Some(ReadText(d.pendingFile, "")) else None
  }

  function WriteSteps(slot: Slot, writes: seq<Image>): seq<Step> {
    seq(|writes|, i requires 0 <= i < |writes| => WriteTemp(slot, writes[i]))
  }

  /** What reading the temporary image back gives. */
  function ReadBack(writes: seq<Image>): Image {
    if writes == [] then "" else writes[|writes| - 1]
  }

  /** The `try` block of `apply_system` and its `finally`, for whatever the medium stored. */
  function CopySteps(slot: Slot, payload: Image, writes: seq<Image>): seq<Step> {
    [OpenTemp(slot)] + WriteSteps(slot, writes)
    + (if ReadBack(writes) == payload then [Publish(slot), Describe(slot, payload)] else [])
    + [DropTemp(slot)]
  }

  /** All of `apply_system`. A readback mismatch raises, so no pending slot is recorded. */
  function ApplySteps(d: Disk, payload: Image, writes: seq<Image>): seq<Step> {
    CopySteps(Inactive(d), payload, writes)
    + (if ReadBack(writes) == payload then [SetPending(Inactive(d)), ClearAttempted] else [])
  }

  /** The system half of `mark_healthy`. */
  function HealthySteps(d: Disk): seq<Step> {
    match Pending(d)
    case Some(slot) => [SetActive(slot), ClearPending, ClearAttempted]
    case None => []
  }

  // ----- the init script that boots a slot -----

  /** $(cat SYSTEM_ACTIVE || cat System/active-slot || echo a), "a" when it names no slot. */
  function InitActive(d: Disk): Slot {
    var text := match d.activeFile
      case Some(text) => Substituted(text)
      case None => if d.seed.Some? then Substituted(d.seed.value) else "a";
    if text in SLOTS then text else "a"
  }

  /** $(cat SYSTEM_PENDING || true), if it names a slot. */
  function InitPending(d: Disk): Option<Slot> {
    match d.pendingFile
    case Some(text) => if Substituted(text) in SLOTS then Some(Substituted(text)) else None
    case None => None
  }

  /** The image and its description are there and match. */
  predicate Verified(d: Disk, slot: Slot) {
    slot in d.images && slot in d.described && d.images[slot] == d.described[slot]
  }

  function Reject(d: Disk): Disk {
    d.(pendingFile := None, attempted := false)
  }

  /** The slot choice of a boot: the disk after it, and the slot that is booted unless it goes to recovery. */
  function InitBoot(d: Disk): (Disk, Option<Slot>) {
    var active := InitActive(d);
    match InitPending(d)
    case None => (d, if Verified(d, active) then Some(active) else None)
    case Some(slot) =>
      if d.attempted then (Reject(d), if Verified(d, active) then Some(active) else None)
      else
        var tried := d.(attempted := true);
        if Verified(d, slot) then (tried, Some(slot))
        else if slot == active then (tried, None)
        else (Reject(d), if Verified(d, active) then Some(active) else None)
  }

  function Taken(steps: seq<Step>, k: nat): seq<Step> {
    steps[..Min(k, |steps|)]
  }

  datatype Event =
    // apply_system, stopping after `k` steps; an error (not a power cut) still drops the temporary image
    | Apply(payload: Image, writes: seq<Image>, k: nat, error: bool)
    // mark_healthy, cut after `k` steps
    | Healthy(k: nat)
    // power-on: the init script tries the pending slot once, or rejects it
    | Boot

  function Next(d: Disk, e: Event): Disk {
    match e
    case Apply(payload, writes, k, error) =>
      var d1 := Run(d, Taken(ApplySteps(d, payload, writes), k));
      if error then Do(d1, DropTemp(Inactive(d))) else d1
    case Healthy(k) => Run(d, Taken(HealthySteps(d), k))
    case Boot => InitBoot(d).0
  }

  /** Images that were complete from the start, and payloads; only these can pass a readback. */
  ghost predicate Trusted(d: Disk, complete: set<Image>) {
    && Active(d) in d.images && d.images[Active(d)] in complete
    && (Pending(d).Some? ==> Pending(d).value in d.images && d.images[Pending(d).value] in complete)
  }

  /** The updater and the init script read the same slot, or none, from the text. */
  predicate ReadAlike(file: Option<string>) {
    file.Some? ==> (Strip(file.value) in SLOTS ==> Substituted(file.value) == Strip(file.value))
  }

  predicate FilesAlike(d: Disk) {
    ReadAlike(d.activeFile) && ReadAlike(d.seed) && ReadAlike(d.pendingFile)
  }

  /** Everything but the temporary image and the inactive slot is as before. */
  ghost predicate OnlySlot(d: Disk, d': Disk, slot: Slot) {
    && d'.activeFile == d.activeFile && d'.seed == d.seed
    && forall s :: s != slot ==> Get(d'.images, s) == Get(d.images, s)
  }

  lemma {:induction false} WritesRun(d: Disk, slot: Slot, writes: seq<Image>, k: nat)
    requires k <= |writes|
    ensures var d' := Run(d, WriteSteps(slot, writes)[..k]);
            d' == if k == 0 then d else d.(temps := d.temps[slot := writes[k - 1]])
    decreases k
  {
    var steps := WriteSteps(slot, writes);
    if k == 0 {
      assert steps[..k] == [];
    } else {
      WritesRun(d, slot, writes, k - 1);
      assert steps[..k] == steps[..k - 1] + [steps[k - 1]];
      RunConcat(d, steps[..k - 1], [steps[k - 1]]);
      var d1 := Run(d, steps[..k - 1]);
      assert [steps[k - 1]][1..] == [];
      assert Run(d1, [steps[k - 1]]) == Do(d1, steps[k - 1]);
      assert d.temps[slot := ReadBack(writes[..k - 1])][slot := writes[k - 1]] == d.temps[slot := writes[k - 1]];
    }
  }

  /** The temporary image once everything is written: what the medium stored. */
  lemma {:induction false} CopiedRun(d: Disk, slot: Slot, writes: seq<Image>)
    ensures Run(d, [OpenTemp(slot)] + WriteSteps(slot, writes)) == d.(temps := d.temps[slot := ReadBack(writes)])
  {
    var steps := WriteSteps(slot, writes);
    assert steps[..|writes|] == steps;
    RunConcat(d, [OpenTemp(slot)], steps);
    assert [OpenTemp(slot)][1..] == [];
    var d1 := Do(d, OpenTemp(slot));
    assert Run(d, [OpenTemp(slot)]) == d1;
    WritesRun(d1, slot, writes, |writes|);
    if |writes| > 0 {
      assert d.temps[slot := ""][slot := ReadBack(writes)] == d.temps[slot := ReadBack(writes)];
    }
  }

  /** Cut before the rename: only the temporary image has changed. */
  lemma {:induction false} CopyCut(d: Disk, slot: Slot, writes: seq<Image>, k: nat)
    requires k <= 1 + |writes|
    ensures var d' := Run(d, ([OpenTemp(slot)] + WriteSteps(slot, writes))[..k]);
            d' == d.(temps := d'.temps)
  {
    var steps := [OpenTemp(slot)] + WriteSteps(slot, writes);
    if k == 0 {
      assert steps[..k] == [];
    } else {
      assert steps[..k] == [OpenTemp(slot)] + WriteSteps(slot, writes)[..k - 1];
      RunConcat(d, [OpenTemp(slot)], WriteSteps(slot, writes)[..k - 1]);
      assert [OpenTemp(slot)][1..] == [];
      assert Run(d, [OpenTemp(slot)]) == Do(d, OpenTemp(slot));
      WritesRun(Do(d, OpenTemp(slot)), slot, writes, k - 1);
    }
  }

  /** The steps after a readback that matched. */
  function CommitSteps(slot: Slot, payload: Image): seq<Step> {
    [Publish(slot), Describe(slot, payload), DropTemp(slot), SetPending(slot), ClearAttempted]
  }

  lemma {:induction false} CommitCut(d: Disk, slot: Slot, payload: Image, k: nat)
    requires k <= 5 && Get(d.temps, slot) == Some(payload)
    ensures var d' := Run(d, CommitSteps(slot, payload)[..k]);
            && d'.activeFile == d.activeFile && d'.seed == d.seed
            && d'.images == (if k == 0 then d.images else d.images[slot := payload])
            && d'.described == (if k < 2 then d.described else d.described[slot := payload])
            && d'.pendingFile == (if k < 4 then d.pendingFile else Some(slot + "\n"))
  {
    var s := CommitSteps(slot, payload)[..k];
    if k > 0 {
      var d1 := Do(d, s[0]);
      assert Run(d, s) == Run(d1, s[1..]);
      if k > 1 {
        var d2 := Do(d1, s[1..][0]);
        assert Run(d1, s[1..]) == Run(d2, s[2..]) by { assert s[1..][1..] == s[2..]; }
        if k > 2 {
          var d3 := Do(d2, s[2..][0]);
          assert Run(d2, s[2..]) == Run(d3, s[3..]) by { assert s[2..][1..] == s[3..]; }
          if k > 3 {
            var d4 := Do(d3, s[3..][0]);
            assert Run(d3, s[3..]) == Run(d4, s[4..]) by { assert s[3..][1..] == s[4..]; }
            if k > 4 {
              assert Run(d4, s[4..]) == Do(d4, s[4..][0]) by { assert s[4..][1..] == []; }
            }
          }
        }
      }
    }
  }

  /**
   `apply_system` stopped after any number of steps: the active slot and its image are as before,
   and the inactive image is either the old one or the complete payload. A slot becomes pending
   only with the payload as its image.
   */
  lemma {:induction false} ApplyCut(d: Disk, payload: Image, writes: seq<Image>, k: nat)
    ensures var d' := Run(d, Taken(ApplySteps(d, payload, writes), k));
            var slot := Inactive(d);
            && OnlySlot(d, d', slot)
            && (d'.images == d.images || (ReadBack(writes) == payload && d'.images == d.images[slot := payload]))
            && (d'.pendingFile == d.pendingFile
                || (d'.pendingFile == Some(slot + "\n") && Get(d'.images, slot) == Some(payload)
                    && Get(d'.described, slot) == Some(payload)))
  {
    var slot := Inactive(d);
    var all := ApplySteps(d, payload, writes);
    var steps := Taken(all, k);
    var copy := [OpenTemp(slot)] + WriteSteps(slot, writes);
    if |steps| <= |copy| {
      assert steps == copy[..|steps|];
      CopyCut(d, slot, writes, |steps|);
    } else {
      var d1 := Run(d, copy);
      CopiedRun(d, slot, writes);
      if ReadBack(writes) == payload {
        var commit := CommitSteps(slot, payload);
        var r := |steps| - |copy|;
        assert all == copy + commit;
        assert steps == copy + commit[..r];
        RunConcat(d, copy, commit[..r]);
        CommitCut(d1, slot, payload, r);
      } else {
        assert steps == copy + [DropTemp(slot)];
        RunConcat(d, copy, [DropTemp(slot)]);
        assert [DropTemp(slot)][1..] == [];
        assert Run(d1, [DropTemp(slot)]) == Do(d1, DropTemp(slot));
      }
    }
  }

  /** A run that is not cut and whose readback matches makes the inactive slot pending. */
  lemma {:induction false} ApplyComplete(d: Disk, payload: Image, writes: seq<Image>)
    ensures var d' := Run(d, ApplySteps(d, payload, writes));
            if ReadBack(writes) == payload then
              d'.pendingFile == Some(Inactive(d) + "\n") && Get(d'.images, Inactive(d)) == Some(payload)
              && Get(d'.described, Inactive(d)) == Some(payload)
            else d'.pendingFile == d.pendingFile && d'.images == d.images
  {
    WholeApply(d, payload, writes);
    if ReadBack(writes) == payload {
      var slot := Inactive(d);
      var commit := CommitSteps(slot, payload);
      assert commit[..5] == commit;
      CommitCut(d.(temps := d.temps[slot := ReadBack(writes)]), slot, payload, 5);
    }
  }

  /** A slot name and a newline, as the updater and the image assembler write it, is read as that slot. */
  lemma {:induction false} SlotLine(slot: Slot)
    requires slot in SLOTS
    ensures Strip(slot + "\n") == slot && Substituted(slot + "\n") == slot
    ensures ReadAlike(Some(slot + "\n"))
  {
    OneLine(slot);
    SubstitutedIs(slot + "\n", slot);
    assert Newlines("\n");
  }

  lemma {:induction false} HealthyCut(d: Disk, k: nat)
    ensures var d' := Run(d, Taken(HealthySteps(d), k));
            && d'.images == d.images
            && (d'.pendingFile == d.pendingFile || d'.pendingFile == None)
            && (d'.activeFile == d.activeFile || (Pending(d).Some? && d'.activeFile == Some(Pending(d).value + "\n")))
            && d'.seed == d.seed
            && (Active(d') == Active(d) || Pending(d) == Some(Active(d')))
  {
    var all := HealthySteps(d);
    if Pending(d).Some? {
      SlotLine(Pending(d).value);
    }
    if all != [] && k > 0 {
      var s := Taken(all, k);
      var d1 := Do(d, s[0]);
      assert Run(d, s) == Run(d1, s[1..]);
      if k > 1 {
        var d2 := Do(d1, s[1..][0]);
        assert Run(d1, s[1..]) == Run(d2, s[2..]) by { assert s[1..][1..] == s[2..]; }
        if k > 2 {
          assert Run(d2, s[2..]) == Do(d2, s[2..][0]) by { assert s[2..][1..] == []; }
        }
      }
    } else {
      assert Taken(all, k) == [];
    }
  }

  /** The payloads that a run of events tries to install. */
  function Payloads(events: seq<Event>): set<Image> {
    set i | 0 <= i < |events| && events[i].Apply? :: events[i].payload
  }

  /** The init script reads no slot that the updater does not read. */
  lemma {:induction false} SubstitutedSlot(text: string)
    requires Substituted(text) in SLOTS
    ensures Strip(text) == Substituted(text)
  {
    var line := Substituted(text);
    SubstitutedIs(text, line);
    assert |line| == 1 && !Stripped(line[0]);
    assert IsLine(text, line) by {
      var after :| Newlines(after) && text == line + after;
      assert Blank("") && Blank(after) && text == "" + line + after;
    }
    StripIs(text, line);
  }

  lemma {:induction false} SameSlots(d: Disk)
    requires FilesAlike(d)
    ensures InitActive(d) == Active(d) && InitPending(d) == Pending(d)
  {
    SameReading(d.activeFile);
    SameReading(d.seed);
    SameReading(d.pendingFile);
  }

  lemma {:induction false} SameReading(file: Option<string>)
    requires ReadAlike(file)
    ensures file.Some? ==> (Strip(file.value) in SLOTS || Substituted(file.value) in SLOTS ==>
                              Strip(file.value) == Substituted(file.value))
  {
    if file.Some? && Substituted(file.value) in SLOTS {
      SubstitutedSlot(file.value);
    }
  }

  lemma {:induction false} ApplySafe(d: Disk, payload: Image, writes: seq<Image>, k: nat, complete: set<Image>)
    requires Trusted(d, complete) && FilesAlike(d) && payload in complete
    ensures var d' := Run(d, Taken(ApplySteps(d, payload, writes), k));
            && Get(d'.images, Active(d)) == Get(d.images, Active(d)) && Active(d') == Active(d)
            && Trusted(d', complete) && FilesAlike(d')
  {
    ApplyCut(d, payload, writes, k);
    SlotLine(Inactive(d));
    var d' := Run(d, Taken(ApplySteps(d, payload, writes), k));
    assert Active(d') == Active(d);
    assert Get(d'.images, Active(d)) == Get(d.images, Active(d));
  }

  lemma {:induction false} HealthySafe(d: Disk, k: nat, complete: set<Image>)
    requires Trusted(d, complete) && FilesAlike(d)
    ensures var d' := Next(d, Healthy(k));
            && d'.images == d.images && (Active(d') != Active(d) ==> Pending(d) == Some(Active(d')))
            && Trusted(d', complete) && FilesAlike(d')
  {
    HealthyCut(d, k);
    if Pending(d).Some? {
      SlotLine(Pending(d).value);
    }
  }

  /** One event: the image of the active slot is not written, and `Trusted` is kept. */
  lemma {:induction false} EventSafe(d: Disk, e: Event, complete: set<Image>)
    requires Trusted(d, complete) && FilesAlike(d)
    requires e.Apply? ==> e.payload in complete
    ensures var d' := Next(d, e);
            && Get(d'.images, Active(d)) == Get(d.images, Active(d))
            && (Active(d') != Active(d) ==> Pending(d) == Some(Active(d')))
            && Trusted(d', complete) && FilesAlike(d')
  {
    match e {
      case Apply(payload, writes, k, error) =>
        ApplySafe(d, payload, writes, k, complete);
        DropSafe(Run(d, Taken(ApplySteps(d, payload, writes), k)), Inactive(d), complete);
      case Healthy(k) =>
        HealthySafe(d, k, complete);
      case Boot =>
        BootSafe(d, complete);
    }
  }

  lemma {:induction false} DropSafe(d: Disk, slot: Slot, complete: set<Image>)
    requires Trusted(d, complete) && FilesAlike(d)
    ensures var d' := Do(d, DropTemp(slot));
            d'.images == d.images && Active(d') == Active(d) && Trusted(d', complete) && FilesAlike(d')
  {
  }

  lemma {:induction false} BootSafe(d: Disk, complete: set<Image>)
    requires Trusted(d, complete) && FilesAlike(d)
    ensures var d' := InitBoot(d).0;
            d'.images == d.images && Active(d') == Active(d) && Trusted(d', complete) && FilesAlike(d')
  {
    assert Strip("") == "";
  }

  function RunEvents(d: Disk, events: seq<Event>): Disk
    decreases |events|
  {
    if events == [] then d else RunEvents(Next(d, events[0]), events[1..])
  }

  /**
   Over every run of updates, failures, cuts, health confirmations and boots, the active slot holds
   an image that is complete: the one it started with, or a payload that was read back whole. The
   same holds of the pending slot.
   */
  lemma {:induction false} ActiveAlwaysComplete(d: Disk, events: seq<Event>, complete: set<Image>)
    requires Trusted(d, complete) && FilesAlike(d) && Payloads(events) <= complete
    ensures Trusted(RunEvents(d, events), complete) && FilesAlike(RunEvents(d, events))
    decreases |events|
  {
    if events != [] {
      assert events[0].Apply? ==> events[0].payload in Payloads(events);
      EventSafe(d, events[0], complete);
      forall p | p in Payloads(events[1..])
        ensures p in Payloads(events)
      {
        var i :| 0 <= i < |events[1..]| && events[1..][i].Apply? && events[1..][i].payload == p;
        assert events[i + 1].payload == p;
      }
      ActiveAlwaysComplete(Next(d, events[0]), events[1..], complete);
    }
  }

  // ----- the updater in place -----

  class SlotUpdater {
    var activeFile: Option<string>
    var seed: Option<string>
    var pendingFile: Option<string>
    var attempted: bool
    var images: map<Slot, Image>
    var described: map<Slot, Image>
    var temps: map<Slot, Image>

    function State(): Disk
      reads this
    {
      Disk(activeFile, seed, pendingFile, attempted, images, described, temps)
    }

    constructor (d: Disk)
      ensures State() == d
    {
      activeFile, seed, pendingFile, attempted := d.activeFile, d.seed, d.pendingFile, d.attempted;
      images, described, temps := d.images, d.described, d.temps;
    }

    /** Copies the image block by block; `stored[i]` is what the medium holds after block i. */
    method CopyImage(slot: Slot, stored: seq<Image>)
      modifies this`temps
      ensures State() == Run(old(State()), [OpenTemp(slot)] + WriteSteps(slot, stored))
    {
      CopiedRun(State(), slot, stored);
      temps := temps[slot := ""];
      for i := 0 to |stored|
        invariant temps == old(temps)[slot := ReadBack(stored[..i])]
      {
        temps := temps[slot := stored[i]];
      }
      assert stored[..|stored|] == stored;
    }

    /** The temporary image becomes the inactive slot, which becomes pending. */
    method CommitImage(slot: Slot, payload: Image)
      requires Get(temps, slot) == Some(payload)
      modifies this
      ensures State() == Run(old(State()), CommitSteps(slot, payload))
    {
      CommitRun(State(), slot, payload);
      images, temps := images[slot := temps[slot]], temps - {slot};
      described := described[slot := payload];
      temps := temps - {slot};
      pendingFile := Some(slot + "\n");
      attempted := false;
    }

    method InactiveSlot() returns (slot: Slot)
      ensures slot == Inactive(State())
    {
      var active := ReadText(activeFile, ReadText(seed, "a"));
      if active !in SLOTS {
        active := "a";
      }
      slot := if active == "a" then "b" else "a";
    }

    /** `apply_system` on a device that keeps its power; `ok` is false when it raises. */
    method ApplySystem(payload: Image, stored: seq<Image>) returns (ok: bool)
      modifies this
      ensures ok <==> ReadBack(stored) == payload
      ensures State() == Run(old(State()), ApplySteps(old(State()), payload, stored))
      ensures var (active, other) := if SaysB(old(State())) then ("b", "a") else ("a", "b");
              && Get(images, active) == Get(old(images), active)
              && activeFile == old(activeFile) && seed == old(seed)
              && (ok ==> Get(images, other) == Get(described, other) == Some(payload)
                         && pendingFile == Some(other + "\n"))
              && (!ok ==> images == old(images) && pendingFile == old(pendingFile))
    {
      ghost var d := State();
      SlotsAfterApply(d, payload, stored);
      var inactive := InactiveSlot();
      CopiedRun(d, inactive, stored);
      WholeApply(d, payload, stored);
      CopyImage(inactive, stored);
      ok := temps[inactive] == payload;
      if ok {
        CommitImage(inactive, payload);
      } else {
        temps := temps - {inactive};
      }
    }

    /** The system half of `mark_healthy`. */
    method MarkHealthy() returns (changed: bool)
      modifies this
      ensures changed <==> Pending(old(State())).Some?
      ensures State() == Run(old(State()), HealthySteps(old(State())))
      ensures changed ==> Some(Active(State())) == Pending(old(State())) && pendingFile == None
    {
      var slot := ReadText(pendingFile, "");
      changed := slot in SLOTS;
      if changed {
        SlotLine(slot);
        HealthyRun(State());
        activeFile := Some(slot + "\n");
        pendingFile := None;
        attempted := false;
      }
    }
  }

  /** What a whole `apply_system` leaves in the two slots, whichever of them the files name as active. */
  lemma {:induction false} SlotsAfterApply(d: Disk, payload: Image, writes: seq<Image>)
    ensures var d' := Run(d, ApplySteps(d, payload, writes));
            var (active, other) := if SaysB(d) then ("b", "a") else ("a", "b");
            && Get(d'.images, active) == Get(d.images, active)
            && d'.activeFile == d.activeFile && d'.seed == d.seed
            && (ReadBack(writes) == payload ==>
                  && Get(d'.images, other) == Get(d'.described, other) == Some(payload)
                  && d'.pendingFile == Some(other + "\n"))
            && (ReadBack(writes) != payload ==> d'.images == d.images && d'.pendingFile == d.pendingFile)
  {
    var all := ApplySteps(d, payload, writes);
    ActiveIs(d);
    assert Taken(all, |all|) == all;
    ApplyCut(d, payload, writes, |all|);
    ApplyComplete(d, payload, writes);
  }

  lemma {:induction false} HealthyRun(d: Disk)
    requires Pending(d).Some?
    ensures Run(d, HealthySteps(d)) ==
            d.(activeFile := Some(Pending(d).value + "\n"), pendingFile := None, attempted := false)
  {
    var s := HealthySteps(d);
    assert s[1..][1..] == s[2..] && s[2..][1..] == [];
    var d1 := Do(d, s[0]);
    var d2 := Do(d1, s[1]);
    assert Run(d, s) == Run(d1, s[1..]);
    assert Run(d1, s[1..]) == Run(d2, s[2..]);
    assert Run(d2, s[2..]) == Run(Do(d2, s[2]), s[2..][1..]);
  }

  /** An apply that is not cut: the image copied, then committed or dropped. */
  lemma {:induction false} WholeApply(d: Disk, payload: Image, writes: seq<Image>)
    ensures var slot := Inactive(d);
            var copied := d.(temps := d.temps[slot := ReadBack(writes)]);
            Run(d, ApplySteps(d, payload, writes)) ==
            if ReadBack(writes) == payload then Run(copied, CommitSteps(slot, payload)) else Do(copied, DropTemp(slot))
  {
    var slot := Inactive(d);
    var copy := [OpenTemp(slot)] + WriteSteps(slot, writes);
    CopiedRun(d, slot, writes);
    if ReadBack(writes) == payload {
      assert ApplySteps(d, payload, writes) == copy + CommitSteps(slot, payload);
      RunConcat(d, copy, CommitSteps(slot, payload));
    } else {
      assert ApplySteps(d, payload, writes) == copy + [DropTemp(slot)];
      RunConcat(d, copy, [DropTemp(slot)]);
      assert [DropTemp(slot)][1..] == [];
      assert Run(Run(d, copy), [DropTemp(slot)]) == Do(Run(d, copy), DropTemp(slot));
    }
  }

  lemma {:induction false} CommitRun(d: Disk, slot: Slot, payload: Image)
    ensures Run(d, CommitSteps(slot, payload)) ==
            Do(Do(Do(Do(Do(d, Publish(slot)), Describe(slot, payload)), DropTemp(slot)), SetPending(slot)), ClearAttempted)
  {
    var s := CommitSteps(slot, payload);
    assert s[1..][1..] == s[2..] && s[2..][1..] == s[3..] && s[3..][1..] == s[4..] && s[4..][1..] == [];
    var d1 := Do(d, s[0]);
    var d2 := Do(d1, s[1]);
    var d3 := Do(d2, s[2]);
    var d4 := Do(d3, s[3]);
    assert Run(d, s) == Run(d1, s[1..]);
    assert Run(d1, s[1..]) == Run(d2, s[2..]);
    assert Run(d2, s[2..]) == Run(d3, s[3..]);
    assert Run(d3, s[3..]) == Run(d4, s[4..]);
    assert Run(d4, s[4..]) == Run(Do(d4, s[4]), s[4..][1..]);
  }
}
