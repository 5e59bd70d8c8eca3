/** The slot that is booted. */
module SlotBoot {
  // The slot that the init script boots, and the slot that an update writes.

  import opened Common
  import opened Lines
  import opened SystemSlots

  /** Whatever happens, the image of the slot that the files name as active is not written. */
  lemma {:induction false} NamedSlotKept(d: Disk, e: Event)
    ensures var d' := Next(d, e);
            Get(d'.images, if SaysB(d) then "b" else "a") == Get(d.images, if SaysB(d) then "b" else "a")
  {
    ActiveIs(d);
    match e {
      case Apply(payload, writes, k, error) => ApplyCut(d, payload, writes, k);
      case Healthy(k) => HealthyCut(d, k);
      case Boot =>
    }
  }

  /**
   A boot runs the active slot or the pending one, and only a complete image that matches its description;
   it goes to recovery only when the active slot's image does not match.
   */
  lemma {:induction false} BootsComplete(d: Disk, complete: set<Image>)
    requires Trusted(d, complete) && FilesAlike(d)
    ensures var (d', booted) := InitBoot(d);
            && (booted.Some? ==>
                  && (booted == Some(Active(d)) || booted == Pending(d))
                  && Get(d.images, booted.value) == Get(d.described, booted.value)
                  && booted.value in d.images && d.images[booted.value] in complete)
            && (booted.None? && InitPending(d) != Some(Active(d)) ==>
                  Get(d.images, Active(d)) != Get(d.described, Active(d)))
            && Active(d') == Active(d) && d'.images == d.images
  {
    SameSlots(d);
  }

  /** A pending slot is tried once: without a confirmation the next boot rejects it and runs the active slot. */
  lemma {:induction false} TriedOnce(d: Disk)
    requires FilesAlike(d) && Pending(d).Some? && Verified(d, Active(d))
    ensures var (tried, first) := InitBoot(d);
            var (rejected, second) := InitBoot(tried);
            && (first != Some(Active(d)) ==> first == Pending(d) && !d.attempted)
            && (d.attempted ==> first == Some(Active(d)))
            && second == Some(Active(d)) && Pending(rejected).None? && !rejected.attempted
  {
    SameSlots(d);
    SameSlots(InitBoot(d).0);
    assert Strip("") == "";
  }

  /** An update whose readback matches leaves the booted image alone if and only if the active slot was booted. */
  lemma {:induction false} BootedImageKept(d: Disk, payload: Image, writes: seq<Image>)
    requires InitBoot(d).1.Some? && ReadBack(writes) == payload != d.images[InitBoot(d).1.value]
    ensures var (d1, booted) := InitBoot(d);
            Get(Run(d1, ApplySteps(d1, payload, writes)).images, booted.value) == Get(d.images, booted.value) <==>
            booted.value == Active(d)
  {
    hide Run, ApplySteps, CopySteps, Strip, Substituted;
    var d1 := InitBoot(d).0;
    var all := ApplySteps(d1, payload, writes);
    assert Active(d1) == Active(d);
    ApplyCut(d1, payload, writes, |all|);
    assert Taken(all, |all|) == all;
    ApplyComplete(d1, payload, writes);
  }

  /** The active slot for the init script: its text is the letter b and newlines. */
  ghost predicate InitSaysB(d: Disk) {
    exists after :: Newlines(after) && (d.activeFile == Some("b" + after)
                                        || (d.activeFile.None? && d.seed == Some("b" + after)))
  }

  lemma {:induction false} InitActiveIs(d: Disk)
    ensures InitActive(d) == if InitSaysB(d) then "b" else "a"
  {
    if d.activeFile.Some? {
      SubstitutedIs(d.activeFile.value, "b");
      assert InitSaysB(d) <==> exists after :: Newlines(after) && d.activeFile.value == "b" + after;
    } else if d.seed.Some? {
      SubstitutedIs(d.seed.value, "b");
      assert InitSaysB(d) <==> exists after :: Newlines(after) && d.seed.value == "b" + after;
    }
  }

  /** The updater and the init script agree on the active slot unless blanks other than newlines stand around a b. */
  lemma {:induction false} AgreeExactly(d: Disk)
    ensures Active(d) == InitActive(d) <==> (SaysB(d) ==> InitSaysB(d))
  {
    ActiveIs(d);
    InitActiveIs(d);
    if InitActive(d) == "b" {
      var text := if d.activeFile.Some? then d.activeFile.value else d.seed.value;
      SubstitutedSlot(text);
    }
  }

  /** A seed that was edited to "b" with a carriage return: the init script boots a, and an update writes a. */
  lemma {:induction false} CarriageReturnOverwrites(d: Disk, payload: Image)
    requires d.activeFile.None? && d.seed == Some("b\r\n") && d.pendingFile.None? && Verified(d, "a")
    ensures InitBoot(d) == (d, Some("a"))
    ensures Get(Run(d, ApplySteps(d, payload, [payload])).images, "a") == Some(payload)
  {
    CarriageReturn();
    ApplyComplete(d, payload, [payload]);
  }

  lemma {:induction false} CarriageReturn()
    ensures Strip("b\r\n") == "b" && Substituted("b\r\n") == "b\r"
  {
    assert Blank("") && Blank("\r\n") && "" + "b" + "\r\n" == "b\r\n";
    StripIs("b\r\n", "b");
    assert Newlines("\n") && "b\r" + "\n" == "b\r\n";
    SubstitutedIs("b\r\n", "b\r");
  }
}
