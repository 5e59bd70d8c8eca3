/** Reading a written library index. */
module IndexRoundTrip {
  import opened Common
  import opened JsonText
  import opened JsonReader
  import opened StateFiles
  import opened TokenBlocks
  import opened LibraryIndex
  import opened LibraryRoundTrip
  import opened LibraryDocument

  /** The scan wrote this system: it is enabled, and either all systems were asked for or this one. */
  predicate Wanted(lib: Library, k: nat) {
    k < |lib.systems| && lib.systems[k].enabled && (lib.filter == Some(lib.systems[k].id) || lib.filter == None)
  }

  /**
   For every library: reading the written index for a shown system gives exactly that system's ROM
   entries, in order, and the scan's total time.
   */
  lemma {:induction false} IndexReadsBack(lib: Library, t: nat)
    requires Wanted(lib, t) && Back(lib.systems[t].id, 64) == lib.systems[t].id
    requires forall k: nat :: k < t && Wanted(lib, k) ==> Back(lib.systems[k].id, 64) != lib.systems[t].id
    ensures LoadRoms(Render(IndexTokens(lib)), lib.systems[t].id) == Some((AllSeen(RomsOf(lib.roms, t)), lib.readyMs))
  {
    SystemObjects(lib);
    ReadSystemBack(lib, 0, t);
    ReadyBack(lib);
  }

  /** The objects of the index's systems section. */
  lemma {:induction false} SystemObjects(lib: Library)
    ensures FindContainer(Render(IndexTokens(lib)), "systems", '[', ']').Some?
    ensures Objects(FindContainer(Render(IndexTokens(lib)), "systems", '[', ']').value) == Texts(SystemBlocks(lib, 0))
  {
    FindSystems(lib);
    ListObjects(lib);
  }

  lemma {:induction false} ListObjects(lib: Library)
    ensures Objects("\n" + Render(SystemList(lib)) + "\n  ") == Texts(SystemBlocks(lib, 0))
  {
    var blocks := SystemBlocks(lib, 0);
    SystemBlocksGood(lib, 0, "systems");
    assert forall i :: 0 <= i < |blocks| ==> Passable(blocks[i], "systems");
    ObjectsOfBlocks(blocks, "\n", "    ", ",\n    ", "\n  ");
    assert "\n" + Render(SystemList(lib)) + "\n  " == "\n" + (Render(SystemList(lib)) + "\n  ");
  }

  lemma {:induction false} NoneWanted(lib: Library, s: nat, systemId: string)
    requires s <= |lib.systems|
    requires forall k: nat :: Wanted(lib, k) ==> Back(lib.systems[k].id, 64) != systemId
    ensures NoneWithId(lib, s, systemId)
    decreases |lib.systems| - s
  {
    if s < |lib.systems| {
      assert Shown(lib, s) ==> Wanted(lib, s);
      NoneWanted(lib, s + 1, systemId);
    }
  }

  /** A system that is disabled, filtered out or unknown reads as one without entries. */
  lemma {:induction false} UnshownReadsEmpty(lib: Library, systemId: string)
    requires forall k: nat :: Wanted(lib, k) ==> Back(lib.systems[k].id, 64) != systemId
    ensures LoadRoms(Render(IndexTokens(lib)), systemId) == Some(([], lib.readyMs))
  {
    SystemObjects(lib);
    NoneWanted(lib, 0, systemId);
    ReadMissing(lib, 0, systemId);
    ReadyBack(lib);
  }

  /** An entry whose texts are plain, fit the frontend's buffers and have a title is seen as it was scanned. */
  lemma {:induction false} SeenUnchanged(rom: Scanned)
    requires Holds(rom.id, 64) && Holds(rom.title, 256) && rom.title != "" && Holds(rom.fileName, 256)
    requires Holds(rom.relativePath, 1024) && Holds(rom.path, 1024) && Holds(rom.thumbnail, 1024)
    ensures Seen(rom) == Rom(rom.id, rom.title, rom.fileName, rom.relativePath, rom.path, rom.thumbnail)
  {
    PlainReadsBack(rom.id);
    PlainReadsBack(rom.title);
    PlainReadsBack(rom.fileName);
    PlainReadsBack(rom.relativePath);
    PlainReadsBack(rom.path);
    PlainReadsBack(rom.thumbnail);
  }
}
