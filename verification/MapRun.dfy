/** What a run of the migration makes of a whole root, foreseen from the tree at its start. */
module MapRun {
  import opened Options
  import opened MapTree
  import opened MapRerun

  // ---------- A whole run ----------

  /** A file that stands where the directory of `id` would go, and that migrating its own map moves away. */
  predicate Freed(env: Env, s: Tree, id: string)
    decreases |id|, 0
  {
    && IsFile(s, id) && !BackedUp(s, id) && LegacyIdOf(id).Some? && |LegacyIdOf(id).value| < |id|
    && id in LegacyNames(env, s, LegacyIdOf(id).value) && WillPublish(env, s, LegacyIdOf(id).value)
  }

  /** A run that starts from `s` ends with a validated directory for `id`. */
  predicate WillPublish(env: Env, s: Tree, id: string)
    decreases |id|, 1
  {
    Published(env, s, id) || ((id !in s || Freed(env, s, id)) && Complete(env, s, id) && Staged(env, s, id).Some?)
  }

  /** An id without a validated directory that lacks a core file: nothing of it is ever published or moved. */
  predicate Inert(env: Env, s: Tree, id: string) {
    !Published(env, s, id) && !(IsFile(s, Posegraph(id)) && IsFile(s, Data(id)) && IsFile(s, Yaml(id)))
  }

  /** A map that a run from `s` publishes or finds published. */
  predicate Active(env: Env, s: Tree, id: string) {
    IsLegacyId(s, id) && WillPublish(env, s, id)
  }

  /**
   No two maps that will be published share a raster, and the raster of one does not stand in the place, or for the
   manifest, of another map that could be published.
   */
  ghost predicate Separate(env: Env, s: Tree) {
    && (forall id :: IsLegacyId(s, id) && !Inert(env, s, id) ==> Proper(env, s, id))
    && (forall id, other :: Active(env, s, id) && IsLegacyId(s, other) && !Inert(env, s, other) && id != other ==> Clears(env, s, id, other))
    && (forall id, other :: Active(env, s, id) && Active(env, s, other) && id != other ==> Apart(env, s, id, other))
  }

  ghost predicate Clears(env: Env, s: Tree, id: string, other: string) {
    LocalImage(env, s, id).Some? ==>
      LocalImage(env, s, id).value != Manifest(other) && (LocalImage(env, s, id).value == other ==> other in FlatNames(id))
  }

  ghost predicate Apart(env: Env, s: Tree, id: string, other: string) {
    LocalImage(env, s, id).Some? ==> LocalImage(env, s, id).value !in Footprint(env, s, other)
  }

  ghost predicate IsLegacyList(s: Tree, ids: seq<string>) {
    Ascending(ids) && forall id :: id in ids <==> IsLegacyId(s, id)
  }

  ghost predicate IsActiveList(env: Env, s: Tree, ids: seq<string>) {
    Ascending(ids) && forall id :: id in ids <==> Active(env, s, id)
  }

  lemma ActiveIsNotInert(env: Env, s: Tree, id: string)
    requires WillPublish(env, s, id)
    ensures !Inert(env, s, id)
  {
    hide Posegraph, Data, Yaml, Staged, Freed;
  }

  /** What an active map brings along. */
  lemma ActiveFacts(env: Env, s: Tree, ids: seq<string>, k: nat)
    requires IsActiveList(env, s, ids) && k < |ids| && Separate(env, s)
    ensures Active(env, s, ids[k]) && IsLegacyId(s, ids[k]) && WillPublish(env, s, ids[k]) && !Inert(env, s, ids[k])
    ensures SafeBasename(ids[k]) && !Special(ids[k]) && Proper(env, s, ids[k])
  {
    assert ids[k] in ids;
    ActiveIsNotInert(env, s, ids[k]);
    SafeIsNotSpecial(ids[k]);
    hide WillPublish, Inert, Special;
  }

  lemma ActivePair(env: Env, s: Tree, ids: seq<string>, j: nat, k: nat)
    requires IsActiveList(env, s, ids) && j < k < |ids| && Separate(env, s)
    ensures Before(ids[j], ids[k]) && ids[j] != ids[k]
    ensures Apart(env, s, ids[j], ids[k]) && Apart(env, s, ids[k], ids[j])
    ensures Clears(env, s, ids[j], ids[k]) && Clears(env, s, ids[k], ids[j])
  {
    ActiveFacts(env, s, ids, j);
    ActiveFacts(env, s, ids, k);
    assert Before(ids[j], ids[k]);
    if ids[j] == ids[k] {
      BeforeIrreflexive(ids[j]);
    }
    hide Active, IsLegacyId, Inert, WillPublish, Apart, Clears;
  }

  /** The state of the file `n` of a map that has been migrated. */
  ghost predicate FileAfter(env: Env, s: Tree, a: Tree, id: string, n: string) {
    && (IsFile(a, n) <==> IsFile(s, n) && !(WillPublish(env, s, id) && n in LegacyNames(env, s, id) && !BackedUp(s, n)))
    && (IsFile(a, n) ==> a[n] == s[n])
    && (BackedUp(a, n) <==> BackedUp(s, n) || (WillPublish(env, s, id) && n in LegacyNames(env, s, id) && IsFile(s, n)))
  }

  ghost predicate MapAfter(env: Env, s: Tree, a: Tree, id: string) {
    && (forall n :: n in Footprint(env, s, id) ==> FileAfter(env, s, a, id, n))
    && (if WillPublish(env, s, id) && Leftover(env, s, id) then Published(env, a, id) && !Settled(env, a, id) else Settled(env, a, id))
  }

  ghost predicate Owned(env: Env, s: Tree, ids: seq<string>, k: nat, n: string)
    requires k <= |ids|
  {
    exists j :: 0 <= j < k && n in Footprint(env, s, ids[j])
  }

  ghost predicate Untouched(env: Env, s: Tree, ids: seq<string>, k: nat, n: string)
    requires k <= |ids|
  {
    !Special(n) && n !in ids[..k] && !Owned(env, s, ids, k, n)
  }

  ghost predicate RestSame(env: Env, s: Tree, a: Tree, ids: seq<string>, k: nat)
    requires k <= |ids|
  {
    && (forall n :: Untouched(env, s, ids, k, n) ==> SameAt(s, a, n))
    && KeepsDirs(s, a)
    && (forall n :: n in a && a[n].Dir? && !Special(n) && n !in ids[..k] ==> SameAt(s, a, n))
  }

  ghost predicate NoNewFile(s: Tree, a: Tree) {
    forall n :: IsFile(a, n) ==> IsFile(s, n) && a[n] == s[n]
  }

  ghost predicate BackupFrom(env: Env, s: Tree, a: Tree, ids: seq<string>, k: nat)
    requires k <= |ids|
  {
    && (forall n :: BackedUp(s, n) ==> BackedUp(a, n))
    && (forall n :: BackedUp(a, n) && !BackedUp(s, n) ==> Owned(env, s, ids, k, n))
  }

  /** `a` is what the first `k` maps of a run from `s` make of it. */
  ghost predicate After(env: Env, s: Tree, a: Tree, ids: seq<string>, k: nat) {
    && k <= |ids|
    && (forall j :: 0 <= j < k ==> MapAfter(env, s, a, ids[j]))
    && RestSame(env, s, a, ids, k) && NoNewFile(s, a) && BackupFrom(env, s, a, ids, k)
  }

  lemma FootprintsDisjoint(env: Env, s: Tree, ids: seq<string>, j: nat, k: nat, n: string)
    requires IsActiveList(env, s, ids) && j < k < |ids| && Separate(env, s)
    ensures !(n in Footprint(env, s, ids[j]) && n in Footprint(env, s, ids[k]))
  {
    ActivePair(env, s, ids, j, k);
    hide IsActiveList, Separate, Apart;
    FlatOwner(ids[j], ids[k], n);
    ApartImages(env, s, ids[j], ids[k], n);
  }

  lemma ApartImages(env: Env, s: Tree, id: string, other: string, n: string)
    requires Apart(env, s, id, other) && Apart(env, s, other, id) && !(n in FlatNames(id) && n in FlatNames(other))
    ensures !(n in Footprint(env, s, id) && n in Footprint(env, s, other))
  {
    hide FlatNames;
  }

  lemma InListBefore(env: Env, s: Tree, ids: seq<string>, k: nat, id: string) returns (j: nat)
    requires IsActiveList(env, s, ids) && k < |ids| && Active(env, s, id) && Before(id, ids[k])
    ensures j < k && ids[j] == id
  {
    hide Active;
    assert id in ids;
    j :| j < |ids| && ids[j] == id;
    if j == k {
      BeforeIrreflexive(id);
    } else if j > k {
      BeforeTransitive(id, ids[k], id);
      BeforeIrreflexive(id);
    }
  }

  lemma NotYetTouched(env: Env, s: Tree, ids: seq<string>, k: nat, n: string)
    requires IsActiveList(env, s, ids) && k < |ids| && Separate(env, s) && n in Footprint(env, s, ids[k])
    ensures !Owned(env, s, ids, k, n) && n !in ids[..k]
  {
    forall j | 0 <= j < k
      ensures n !in Footprint(env, s, ids[j]) && n != ids[j]
    {
      ActivePair(env, s, ids, j, k);
      NotAFlatNameOfALater(ids[j], ids[k]);
      FootprintsDisjoint(env, s, ids, j, k, n);
      hide Separate, IsActiveList, Before, FlatNames;
    }
  }

  /** When its turn comes, a map's own files are as they were. */
  lemma OwnFilesUntouched(env: Env, s: Tree, a: Tree, ids: seq<string>, k: nat)
    requires IsActiveList(env, s, ids) && k < |ids| && Separate(env, s) && After(env, s, a, ids, k)
    ensures SameFiles(env, s, a, ids[k]) && SameBackup(env, s, a, ids[k]) && SafeBasename(ids[k]) && Proper(env, s, ids[k])
  {
    var id := ids[k];
    ActiveFacts(env, s, ids, k);
    FootprintNotSpecial(env, s, id);
    forall n | n in Footprint(env, s, id)
      ensures Content(a, n) == Content(s, n) && (BackedUp(a, n) <==> BackedUp(s, n))
    {
      NotYetTouched(env, s, ids, k, n);
      hide Footprint, IsLegacyId, Active, Separate, MapAfter, Owned;
      assert SameAt(s, a, n);
    }
  }

  /** When its turn comes, the place of a map's directory is taken exactly if it was and has not been freed. */
  lemma PlaceOf(env: Env, s: Tree, a: Tree, ids: seq<string>, k: nat)
    requires IsActiveList(env, s, ids) && k < |ids| && Separate(env, s) && After(env, s, a, ids, k)
    ensures ids[k] in a <==> ids[k] in s && !Freed(env, s, ids[k])
    ensures ids[k] in a ==> a[ids[k]] == s[ids[k]]
  {
    var id := ids[k];
    ActiveFacts(env, s, ids, k);
    assert id !in ids[..k] by {
      forall j | 0 <= j < k
        ensures ids[j] != id
      {
        ActivePair(env, s, ids, j, k);
      }
    }
    if Owned(env, s, ids, k, id) {
      var j :| 0 <= j < k && id in Footprint(env, s, ids[j]);
      ActivePair(env, s, ids, j, k);
      OwnerFrees(env, s, a, ids, k, j, id);
    } else {
      if Freed(env, s, id) {
        var o := LegacyIdOf(id).value;
        FlatIsAfter(o, id);
        var j := InListBefore(env, s, ids, k, o);
        InFootprint(env, s, o);
      }
      assert SameAt(s, a, id);
    }
  }

  lemma FlatIsAfter(o: string, id: string)
    requires id in FlatNames(o)
    ensures Before(o, id) && |o| < |id|
  {
    var i :| 0 <= i < 5 && FlatNames(o)[i] == id;
    var suffix := id[|o|..];
    assert id == o + suffix;
    BeforeExtension(o, suffix);
  }

  lemma OwnerFrees(env: Env, s: Tree, a: Tree, ids: seq<string>, k: nat, j: nat, id: string)
    requires IsActiveList(env, s, ids) && j < k <= |ids| && Separate(env, s) && After(env, s, a, ids, k) && id in Footprint(env, s, ids[j])
    requires id !in ids[..k] && !Special(id) && Clears(env, s, ids[j], id) && SafeBasename(id)
    ensures id in a <==> id in s && !Freed(env, s, id)
    ensures id in a ==> a[id] == s[id]
  {
    var o := ids[j];
    ActiveFacts(env, s, ids, j);
    assert id in FlatNames(o);
    assert LegacyIdOf(id) == Some(o);
    FlatIsAfter(o, id);
    assert MapAfter(env, s, a, o) && FileAfter(env, s, a, o, id);
    hide Footprint, FlatNames, LegacyNames, WillPublish, MapAfter, Separate, Owned, IsLegacyId, Active, LegacyIdOf, IsActiveList, Inert, Clears;
    assert id in s && s[id].Dir? ==> SameAt(s, a, id);
  }

  /** When its turn comes, a map is published exactly if the tree at the start says so. */
  lemma PublishedAsForeseen(env: Env, s: Tree, a: Tree, ids: seq<string>, k: nat)
    requires IsActiveList(env, s, ids) && k < |ids| && Separate(env, s) && After(env, s, a, ids, k)
    ensures WouldPublish(env, a, ids[k]) <==> WillPublish(env, s, ids[k])
  {
    var id := ids[k];
    OwnFilesUntouched(env, s, a, ids, k);
    PlaceOf(env, s, a, ids, k);
    FilesDetermineStaged(env, s, a, id);
    hide IsActiveList, Separate, After, SameFiles, Complete, Staged, Freed, SafeBasename, Proper;
  }

  lemma LeftoverSame(env: Env, s: Tree, t: Tree, id: string)
    requires SameFiles(env, s, t, id) && SameBackup(env, s, t, id)
    ensures Leftover(env, t, id) <==> Leftover(env, s, id)
  {
    FilesDetermineNames(env, s, t, id);
    InFootprint(env, s, id);
    assert Posegraph(id) in FlatNames(id) && Data(id) in FlatNames(id) && Yaml(id) in FlatNames(id) && Raster(id) in FlatNames(id);
    hide LegacyNames, Footprint, FlatNames, Posegraph, Data, Yaml, Raster, LocalImage;
    forall n | n in Footprint(env, s, id)
      ensures Skipped(env, t, id, n) <==> Skipped(env, s, id, n)
    {
      assert Content(t, n) == Content(s, n);
    }
    hide Skipped;
  }

  /** The map whose turn it is. */
  lemma OwnTurn(env: Env, s: Tree, a: Tree, b: Tree, ids: seq<string>, k: nat)
    requires IsActiveList(env, s, ids) && k < |ids| && Separate(env, s) && After(env, s, a, ids, k) && Processed(env, a, b, ids[k])
    ensures MapAfter(env, s, b, ids[k])
    ensures LegacyNames(env, a, ids[k]) == LegacyNames(env, s, ids[k])
  {
    var id := ids[k];
    OwnFilesUntouched(env, s, a, ids, k);
    PublishedAsForeseen(env, s, a, ids, k);
    FilesDetermineNames(env, s, a, id);
    FilesDetermineStaged(env, s, a, id);
    LeftoverSame(env, s, a, id);
    ProcessedSettles(env, a, b, id);
    ProcessedFiles(env, a, b, id);
    hide IsActiveList, Active, Separate, After, SafeBasename, Proper, WillPublish, WouldPublish, Leftover, Settled, Footprint, LegacyNames, ProcessedStaging;
    forall n | n in Footprint(env, s, id)
      ensures FileAfter(env, s, b, id, n)
    {
      assert Content(a, n) == Content(s, n);
      assert n !in LegacyNames(env, s, id) ==> Content(b, n) == Content(a, n);
    }
  }

  /** A map migrated before: nothing of it changes any more. */
  lemma EarlierFiles(env: Env, s: Tree, a: Tree, b: Tree, ids: seq<string>, k: nat, j: nat)
    requires IsActiveList(env, s, ids) && j < k < |ids| && Separate(env, s) && After(env, s, a, ids, k) && Processed(env, a, b, ids[k])
    requires LegacyNames(env, a, ids[k]) == LegacyNames(env, s, ids[k])
    ensures forall n :: n in Footprint(env, s, ids[j]) ==>
              Content(b, n) == Content(a, n) && (BackedUp(b, n) <==> BackedUp(a, n)) && (IsFile(b, n) ==> b[n] == a[n])
    ensures SameAt(a, b, ids[j])
  {
    var id, o := ids[k], ids[j];
    ActiveFacts(env, s, ids, j);
    ActivePair(env, s, ids, j, k);
    FootprintNotSpecial(env, s, o);
    LegacyInFootprint(env, s, id);
    assert o !in Footprint(env, s, id) by {
      assert o == ids[..k][j];
      if o in Footprint(env, s, id) {
        NotYetTouched(env, s, ids, k, o);
      }
    }
    forall n | n in Footprint(env, s, o)
      ensures Content(b, n) == Content(a, n) && (BackedUp(b, n) <==> BackedUp(a, n)) && (IsFile(b, n) ==> b[n] == a[n])
    {
      FootprintsDisjoint(env, s, ids, j, k, n);
      hide IsActiveList, Active, Separate, After, Footprint, LegacyNames, SafeBasename, ProcessedStaging, Complete, Staged, IsLegacyId;
      if n != id {
        assert SameAt(a, b, n);
      }
    }
  }

  lemma EarlierTurn(env: Env, s: Tree, a: Tree, b: Tree, ids: seq<string>, k: nat, j: nat)
    requires IsActiveList(env, s, ids) && j < k < |ids| && Separate(env, s) && After(env, s, a, ids, k) && Processed(env, a, b, ids[k])
    requires LegacyNames(env, a, ids[k]) == LegacyNames(env, s, ids[k])
    ensures MapAfter(env, s, b, ids[j])
  {
    var o := ids[j];
    ActiveFacts(env, s, ids, j);
    EarlierFiles(env, s, a, b, ids, k, j);
    ProcessedKeepsDirs(env, a, b, ids[k]);
    assert MapAfter(env, s, a, o) && Proper(env, s, o) && SafeBasename(o) && KeepsDirs(s, a);
    assert ProcessedStaging(env, a, b, ids[k]);
    hide IsActiveList, Active, Separate, After, Processed, IsLegacyId, SafeBasename, KeepsDirs, MapAfter, Proper, WillPublish, LegacyNames, Footprint;
    SameMap(env, s, a, b, o);
    SameMapAfter(env, s, a, b, o);
  }

  lemma SameMapAfter(env: Env, s: Tree, a: Tree, b: Tree, o: string)
    requires MapAfter(env, s, a, o)
    requires forall n :: n in Footprint(env, s, o) ==>
               Content(b, n) == Content(a, n) && (BackedUp(b, n) <==> BackedUp(a, n)) && (IsFile(b, n) ==> b[n] == a[n])
    requires Settled(env, a, o) ==> Settled(env, b, o)
    requires Published(env, a, o) && !Settled(env, a, o) ==> Published(env, b, o) && !Settled(env, b, o)
    ensures MapAfter(env, s, b, o)
  {
    hide WillPublish, Leftover, LegacyNames, Footprint, Settled, Published, BackedUp;
    forall n | n in Footprint(env, s, o)
      ensures FileAfter(env, s, b, o, n)
    {
      assert FileAfter(env, s, a, o, n);
    }
  }

  lemma SameMap(env: Env, s: Tree, a: Tree, b: Tree, o: string)
    requires MapAfter(env, s, a, o) && Proper(env, s, o) && SafeBasename(o) && SameAt(a, b, o) && KeepsDirs(s, a) && KeepsDirs(a, b)
    requires forall n :: n in Footprint(env, s, o) ==> Content(b, n) == Content(a, n) && (BackedUp(b, n) <==> BackedUp(a, n))
    requires STAGING_NAME in a && a[STAGING_NAME].Dir? ==> STAGING_NAME in b && b[STAGING_NAME].Dir?
    requires Sub(b, STAGING_NAME).Keys <= Sub(a, STAGING_NAME).Keys
    ensures Settled(env, a, o) ==> Settled(env, b, o)
    ensures Published(env, a, o) && !Settled(env, a, o) ==> Published(env, b, o) && !Settled(env, b, o)
  {
    InFootprint(env, s, o);
    assert Yaml(o) in FlatNames(o);
    assert Content(a, Yaml(o)) == None || Content(a, Yaml(o)) == Content(s, Yaml(o)) by {
      hide FlatNames, Yaml, LegacyNames, Footprint;
      assert FileAfter(env, s, a, o, Yaml(o));
    }
    ProperStays(env, s, a, o);
    assert forall n :: n in Footprint(env, a, o) ==> n in Footprint(env, s, o) by {
      hide FlatNames, Yaml, LegacyNames;
    }
    hide MapAfter, LegacyNames, FlatNames, Footprint, Proper, SafeBasename;
    FilesDetermineNames(env, a, b, o);
    FilesDetermineStaged(env, a, b, o);
    LegacyInFootprint(env, a, o);
    hide Staged, Complete;
    assert forall n :: n in LegacyNames(env, a, o) ==> Content(b, n) == Content(a, n);
  }

  lemma OneMore(env: Env, s: Tree, ids: seq<string>, k: nat, n: string)
    requires k < |ids|
    ensures Owned(env, s, ids, k + 1, n) <==> Owned(env, s, ids, k, n) || n in Footprint(env, s, ids[k])
    ensures n in ids[..k + 1] <==> n in ids[..k] || n == ids[k]
  {
    hide Footprint;
    assert ids[..k + 1] == ids[..k] + [ids[k]];
    if Owned(env, s, ids, k + 1, n) {
      var j :| 0 <= j < k + 1 && n in Footprint(env, s, ids[j]);
    }
  }

  lemma RestStaysSame(env: Env, s: Tree, a: Tree, b: Tree, ids: seq<string>, k: nat)
    requires k < |ids| && RestSame(env, s, a, ids, k) && !Special(ids[k]) && KeepsDirs(a, b)
    requires OthersKept(a, b, LegacyNames(env, s, ids[k]), ids[k]) && NamesMoved(a, b, LegacyNames(env, s, ids[k]), WouldPublish(env, a, ids[k]))
    ensures RestSame(env, s, b, ids, k + 1)
  {
    var id := ids[k];
    KeepsDirsTwice(s, a, b);
    LegacyInFootprint(env, s, id);
    forall n
      ensures Untouched(env, s, ids, k + 1, n) ==> SameAt(s, b, n)
      ensures n in b && b[n].Dir? && !Special(n) && n !in ids[..k + 1] ==> SameAt(s, b, n)
    {
      OneMore(env, s, ids, k, n);
      hide LegacyNames, Footprint, Owned, WouldPublish, KeepsDirs;
      assert Untouched(env, s, ids, k + 1, n) ==> Untouched(env, s, ids, k, n);
      if !Special(n) {
        NameByName(s, a, b, LegacyNames(env, s, id), WouldPublish(env, a, id), id, n);
      }
    }
    hide Untouched, KeepsDirs;
  }

  lemma NameByName(s: Tree, a: Tree, b: Tree, names: seq<string>, moves: bool, id: string, n: string)
    requires OthersKept(a, b, names, id) && NamesMoved(a, b, names, moves) && !Special(n)
    ensures SameAt(s, a, n) && n !in names && n != id ==> SameAt(s, b, n)
    ensures n in b && b[n].Dir? && n != id ==> SameAt(a, b, n)
  {
  }

  lemma FilesStay(a: Tree, b: Tree, names: seq<string>, moves: bool, id: string)
    requires OthersKept(a, b, names, id) && NamesMoved(a, b, names, moves)
    requires IsFile(b, id) ==> IsFile(a, id) && b[id] == a[id]
    requires NoSpecialFile(a, b)
    ensures NoNewFile(a, b)
  {
    forall n | IsFile(b, n)
      ensures IsFile(a, n) && b[n] == a[n]
    {
      if n != id && n !in names && !Special(n) {
        assert SameAt(a, b, n);
      }
    }
  }

  lemma BackupStaysFrom(env: Env, s: Tree, a: Tree, b: Tree, ids: seq<string>, k: nat)
    requires k < |ids| && BackupFrom(env, s, a, ids, k)
    requires BackupGrown(a, b, LegacyNames(env, s, ids[k]), WouldPublish(env, a, ids[k]))
    ensures BackupFrom(env, s, b, ids, k + 1)
  {
    LegacyInFootprint(env, s, ids[k]);
    forall n | BackedUp(b, n) && !BackedUp(s, n)
      ensures Owned(env, s, ids, k + 1, n)
    {
      OneMore(env, s, ids, k, n);
      hide LegacyNames, Footprint, Owned, WouldPublish;
    }
    hide LegacyNames, Footprint, Owned, WouldPublish;
  }

  lemma TheRest(env: Env, s: Tree, a: Tree, b: Tree, ids: seq<string>, k: nat)
    requires k < |ids| && After(env, s, a, ids, k) && Processed(env, a, b, ids[k]) && !Special(ids[k])
    requires LegacyNames(env, a, ids[k]) == LegacyNames(env, s, ids[k])
    ensures RestSame(env, s, b, ids, k + 1) && NoNewFile(s, b) && BackupFrom(env, s, b, ids, k + 1)
  {
    ProcessedKeepsDirs(env, a, b, ids[k]);
    hide MapAfter, LegacyNames, RestSame, NoNewFile, BackupFrom, OthersKept, NamesMoved, BackupGrown, ProcessedStaging, KeepsDirs;
    assert WouldPublish(env, a, ids[k]) ==> ids[k] in b && b[ids[k]].Dir?;
    hide WouldPublish;
    RestStaysSame(env, s, a, b, ids, k);
    FilesStay(a, b, LegacyNames(env, s, ids[k]), WouldPublish(env, a, ids[k]), ids[k]);
    BackupStaysFrom(env, s, a, b, ids, k);
  }

  /** One more map of the run. */
  lemma NextMap(env: Env, s: Tree, a: Tree, b: Tree, ids: seq<string>, k: nat)
    requires IsActiveList(env, s, ids) && k < |ids| && Separate(env, s) && After(env, s, a, ids, k) && Processed(env, a, b, ids[k])
    ensures After(env, s, b, ids, k + 1)
  {
    hide IsActiveList, Active, Separate, MapAfter, LegacyNames, Processed, RestSame, NoNewFile, BackupFrom, Special, IsLegacyId, Inert, Proper, SafeBasename;
    ActiveFacts(env, s, ids, k);
    OwnTurn(env, s, a, b, ids, k);
    TheRest(env, s, a, b, ids, k);
    forall j | 0 <= j < k + 1
      ensures MapAfter(env, s, b, ids[j])
    {
      if j < k {
        EarlierTurn(env, s, a, b, ids, k, j);
      }
    }
  }

  // ---------- Maps that are not published ----------

  lemma ImageShrinks(env: Env, s: Tree, a: Tree, id: string, b: Tree)
    requires SafeBasename(id) && Proper(env, s, id) && NoNewFile(s, a) && KeepsDirs(s, a) && ImageContent(env, a, id).Some?
    ensures ImageContent(env, a, id) == ImageContent(env, s, id)
    ensures ImageContent(env, WithStaged(a, id, b), id) == ImageContent(env, WithStaged(s, id, b), id) == ImageContent(env, s, id)
  {
    assert Yaml(id) in FlatNames(id);
    FlatIsNotSpecial(id, Yaml(id));
    StagingKeepsDirs(s, a, id, b);
    StagingKeepsDirs(s, s, id, b);
    hide FlatNames, SafeBasename, Yaml, KeepsDirs;
    assert a[Yaml(id)] == s[Yaml(id)];
  }

  /** A map that is still complete has the files it started with, so staging it comes to the same, the manifest permitting. */
  lemma CompleteShrinks(env: Env, s: Tree, a: Tree, id: string)
    requires SafeBasename(id) && Proper(env, s, id) && NoNewFile(s, a) && KeepsDirs(s, a) && Complete(env, a, id)
    ensures Complete(env, s, id)
    ensures Content(a, Manifest(id)) == Content(s, Manifest(id)) ==> Staged(env, a, id) == Staged(env, s, id)
  {
    ImageShrinks(env, s, a, id, map["posegraph.posegraph" := a[Posegraph(id)], "posegraph.data" := a[Data(id)]]);
    hide SafeBasename, Proper, ImageContent, KeepsDirs, Posegraph, Data, Yaml, Manifest;
    assert a[Posegraph(id)] == s[Posegraph(id)] && a[Data(id)] == s[Data(id)] && a[Yaml(id)] == s[Yaml(id)];
  }

  /** A map that a run from `s` does not publish. */
  ghost predicate Dormant(env: Env, s: Tree, id: string) {
    IsLegacyId(s, id) && !WillPublish(env, s, id)
  }

  lemma DormantClears(env: Env, s: Tree, ids: seq<string>, j: nat, id: string)
    requires IsActiveList(env, s, ids) && j < |ids| && Separate(env, s) && Dormant(env, s, id) && !Inert(env, s, id)
    ensures ids[j] != id && Clears(env, s, ids[j], id)
  {
    assert ids[j] in ids;
    hide IsLegacyId, Inert, WillPublish, Clears, Apart, Proper;
  }

  lemma NotListed(env: Env, s: Tree, ids: seq<string>, k: nat, id: string)
    requires IsActiveList(env, s, ids) && k <= |ids| && Dormant(env, s, id)
    ensures id !in ids && id !in ids[..k]
  {
    assert id !in ids;
  }

  /** A map whose name is a flat file of a dormant map is published only if there is no such file. */
  lemma NoFileInItsPlace(env: Env, s: Tree, id: string, n: string)
    requires WillPublish(env, s, n) && n in FlatNames(id) && Dormant(env, s, id)
    ensures !IsFile(s, n)
  {
    assert LegacyIdOf(n) == Some(id);
    hide LegacyIdOf, FlatNames, LegacyNames, Complete, Staged, IsLegacyId;
  }

  lemma DormantManifestStays(env: Env, s: Tree, a: Tree, ids: seq<string>, k: nat, id: string)
    requires IsActiveList(env, s, ids) && Separate(env, s) && After(env, s, a, ids, k) && Dormant(env, s, id) && !Inert(env, s, id)
    ensures Content(a, Manifest(id)) == Content(s, Manifest(id))
  {
    var n := Manifest(id);
    assert n in FlatNames(id);
    FlatIsNotSpecial(id, n);
    hide IsLegacyId, Inert, MapAfter, FlatNames, Manifest, WillPublish, Separate, SafeBasename;
    if n in ids[..k] {
      var j :| 0 <= j < k && ids[..k][j] == n;
      assert ids[j] in ids;
      NoFileInItsPlace(env, s, id, n);
      hide RestSame, BackupFrom;
    } else if Owned(env, s, ids, k, n) {
      NotOwned(env, s, ids, k, id);
    } else {
      assert Untouched(env, s, ids, k, n);
      assert SameAt(s, a, n);
    }
  }

  lemma NotOwned(env: Env, s: Tree, ids: seq<string>, k: nat, id: string)
    requires IsActiveList(env, s, ids) && k <= |ids| && Separate(env, s) && Dormant(env, s, id) && !Inert(env, s, id)
    ensures !Owned(env, s, ids, k, Manifest(id))
  {
    assert Manifest(id) in FlatNames(id);
    forall j | 0 <= j < k
      ensures Manifest(id) !in Footprint(env, s, ids[j])
    {
      DormantClears(env, s, ids, j, id);
      FlatOwner(ids[j], id, Manifest(id));
      hide FlatNames, Manifest, Separate, IsActiveList, Inert;
    }
  }

  lemma DormantPlaceStays(env: Env, s: Tree, a: Tree, ids: seq<string>, k: nat, id: string)
    requires IsActiveList(env, s, ids) && Separate(env, s) && After(env, s, a, ids, k) && Dormant(env, s, id) && !Inert(env, s, id)
    ensures id !in a ==> id !in s || Freed(env, s, id)
  {
    SafeIsNotSpecial(id);
    NotListed(env, s, ids, k, id);
    hide Inert, WillPublish, IsLegacyId, Separate, IsActiveList, MapAfter, SafeBasename;
    if Owned(env, s, ids, k, id) {
      var j :| 0 <= j < k && id in Footprint(env, s, ids[j]);
      DormantClears(env, s, ids, j, id);
      OwnerFrees(env, s, a, ids, k, j, id);
    } else {
      assert Untouched(env, s, ids, k, id);
      assert SameAt(s, a, id);
    }
  }

  /** At no point of the run would a dormant map be published. */
  lemma DormantStaysSo(env: Env, s: Tree, a: Tree, ids: seq<string>, k: nat, id: string)
    requires IsActiveList(env, s, ids) && Separate(env, s) && After(env, s, a, ids, k) && Dormant(env, s, id)
    ensures !WouldPublish(env, a, id)
    ensures Inert(env, s, id) ==> !Complete(env, a, id)
  {
    SafeIsNotSpecial(id);
    NotPublished(env, s, a, ids, k, id);
    if Inert(env, s, id) {
      InertIsIncomplete(env, s, a, id);
    } else {
      assert Proper(env, s, id) && SafeBasename(id) && NoNewFile(s, a) && KeepsDirs(s, a);
      DormantManifestStays(env, s, a, ids, k, id);
      DormantPlaceStays(env, s, a, ids, k, id);
      hide IsActiveList, Separate, After, Inert, Published, Complete, Staged, Freed, SafeBasename, Proper;
      if Complete(env, a, id) {
        CompleteShrinks(env, s, a, id);
      }
    }
  }

  lemma NotPublished(env: Env, s: Tree, a: Tree, ids: seq<string>, k: nat, id: string)
    requires IsActiveList(env, s, ids) && After(env, s, a, ids, k) && Dormant(env, s, id) && !Special(id)
    ensures !Published(env, a, id)
  {
    assert id !in ids;
    hide IsLegacyId, MapAfter, Untouched, Owned;
    if id in a && a[id].Dir? {
      assert SameAt(s, a, id);
    }
  }

  lemma InertIsIncomplete(env: Env, s: Tree, a: Tree, id: string)
    requires Inert(env, s, id) && !Published(env, s, id) && NoNewFile(s, a)
    ensures !Complete(env, a, id)
  {
    hide Posegraph, Data, Yaml, ImageContent;
    assert IsFile(a, Posegraph(id)) ==> IsFile(s, Posegraph(id));
    assert IsFile(a, Data(id)) ==> IsFile(s, Data(id));
    assert IsFile(a, Yaml(id)) ==> IsFile(s, Yaml(id));
  }

  ghost predicate SameBut(a: Tree, b: Tree) {
    && (forall n :: !Special(n) ==> SameAt(a, b, n))
    && (forall n :: BackedUp(b, n) <==> BackedUp(a, n))
    && NoSpecialFile(a, b)
    && StagingStays(a, b)
  }

  ghost predicate StagingStays(a: Tree, b: Tree) {
    && (STAGING_NAME in a && a[STAGING_NAME].Dir? ==> STAGING_NAME in b && b[STAGING_NAME].Dir?)
    && Sub(b, STAGING_NAME).Keys <= Sub(a, STAGING_NAME).Keys
  }

  /** The turn of a map that is not published changes at most the staging directory, and settles it. */
  lemma DormantTurn(env: Env, s: Tree, a: Tree, b: Tree, ids: seq<string>, k: nat, id: string, changed: Option<nat>)
    requires IsActiveList(env, s, ids) && Separate(env, s) && After(env, s, a, ids, k) && Dormant(env, s, id)
    requires MapMigrated(env, a, b, id, changed) && changed.Some?
    ensures SameBut(a, b) && Settled(env, b, id)
  {
    SafeIsNotSpecial(id);
    DormantStaysSo(env, s, a, ids, k, id);
    if Inert(env, s, id) {
      assert Settled(env, a, id) by {
        hide Complete, Staged, LegacyNames;
      }
      assert b == a;
    } else {
      assert Proper(env, s, id) && SafeBasename(id) && NoNewFile(s, a) && KeepsDirs(s, a);
      hide IsActiveList, Separate, After, Inert, IsLegacyId, SafeBasename, MapMigrated, WillPublish, Settled;
      YamlStays(s, a, id);
      ProperStays(env, s, a, id);
      assert Processed(env, a, b, id) by {
        assert MapMigrated(env, a, b, id, changed);
        ProcessedWhenProper(env, a, b, id, changed);
      }
      ProcessedSettles(env, a, b, id);
      UnpublishedChangesNothing(env, a, b, id);
    }
  }

  lemma ProcessedWhenProper(env: Env, a: Tree, b: Tree, id: string, changed: Option<nat>)
    requires MapMigrated(env, a, b, id, changed) && changed.Some? && Proper(env, a, id)
    ensures Processed(env, a, b, id)
  {
    hide Settled, Processed, Proper, Quiet, Dirty, Published, Unarchived, Clear;
  }

  lemma YamlStays(s: Tree, a: Tree, id: string)
    requires NoNewFile(s, a)
    ensures IsFile(a, Yaml(id)) ==> Content(a, Yaml(id)) == Content(s, Yaml(id))
  {
    hide Yaml;
  }

  lemma UnpublishedChangesNothing(env: Env, a: Tree, b: Tree, id: string)
    requires Processed(env, a, b, id) && !WouldPublish(env, a, id)
    ensures SameBut(a, b)
  {
    hide LegacyNames, WouldPublish;
    forall n | !Special(n)
      ensures SameAt(a, b, n)
    {
      assert n in LegacyNames(env, a, id) && IsFile(a, n) ==> IsFile(b, n);
    }
  }

  /** A state that differs at most in the staging directory is as foreseen, too. */
  lemma AfterSame(env: Env, s: Tree, a: Tree, b: Tree, ids: seq<string>, k: nat)
    requires IsActiveList(env, s, ids) && Separate(env, s) && After(env, s, a, ids, k) && SameBut(a, b)
    ensures After(env, s, b, ids, k)
  {
    forall j | 0 <= j < k
      ensures MapAfter(env, s, b, ids[j])
    {
      ActiveFacts(env, s, ids, j);
      FootprintNotSpecial(env, s, ids[j]);
      assert MapAfter(env, s, a, ids[j]) && KeepsDirs(s, a);
      hide IsActiveList, Active, Separate, After, IsLegacyId, Inert, SafeBasename, Footprint, LegacyNames, WillPublish;
      SameButMap(env, s, a, b, ids[j]);
    }
    hide MapAfter, Footprint;
    SameButRest(env, s, a, b, ids, k);
  }

  lemma SameButMap(env: Env, s: Tree, a: Tree, b: Tree, o: string)
    requires SameBut(a, b) && MapAfter(env, s, a, o) && Proper(env, s, o) && SafeBasename(o) && !Special(o) && KeepsDirs(s, a)
    requires forall n :: n in Footprint(env, s, o) ==> !Special(n)
    ensures MapAfter(env, s, b, o)
  {
    assert KeepsDirs(a, b);
    assert forall n :: n in Footprint(env, s, o) ==> SameAt(a, b, n);
    assert forall n :: n in Footprint(env, s, o) ==> Content(b, n) == Content(a, n) && (BackedUp(b, n) <==> BackedUp(a, n));
    hide SafeBasename, Footprint, LegacyNames, WillPublish, Proper, KeepsDirs, Settled, Leftover;
    SameMap(env, s, a, b, o);
    assert forall n :: n in Footprint(env, s, o) ==> FileAfter(env, s, a, o, n);
  }

  lemma SameButRest(env: Env, s: Tree, a: Tree, b: Tree, ids: seq<string>, k: nat)
    requires k <= |ids| && RestSame(env, s, a, ids, k) && NoNewFile(s, a) && BackupFrom(env, s, a, ids, k) && SameBut(a, b)
    ensures RestSame(env, s, b, ids, k) && NoNewFile(s, b) && BackupFrom(env, s, b, ids, k)
  {
    hide Owned;
    assert forall n :: IsFile(b, n) ==> IsFile(a, n) && b[n] == a[n] by {
      forall n | IsFile(b, n)
        ensures IsFile(a, n) && b[n] == a[n]
      {
        assert !Special(n) ==> SameAt(a, b, n);
      }
    }
    assert KeepsDirs(a, b);
    KeepsDirsTwice(s, a, b);
    forall n | !Special(n)
      ensures Untouched(env, s, ids, k, n) ==> SameAt(s, b, n)
      ensures n in b && b[n].Dir? && n !in ids[..k] ==> SameAt(s, b, n)
    {
      assert SameAt(a, b, n);
    }
    hide KeepsDirs;
  }

  /** A dormant map stays settled while a later map is migrated. */
  lemma DormantSettledStays(env: Env, s: Tree, a: Tree, b: Tree, id: string)
    requires SafeBasename(id) && Settled(env, a, id) && !WouldPublish(env, b, id)
    requires Inert(env, s, id) ==> !Complete(env, b, id)
    requires Proper(env, s, id) || Inert(env, s, id)
    requires NoNewFile(s, a) && NoNewFile(a, b) && KeepsDirs(s, a) && KeepsDirs(a, b) && StagingStays(a, b)
    requires !Inert(env, s, id) && id !in b ==> id !in a
    ensures Settled(env, b, id)
  {
    hide LegacyNames, NoNewFile, KeepsDirs, SafeBasename, Inert, Proper;
    if id !in b && Complete(env, b, id) {
      YamlStays(s, a, id);
      ProperStays(env, s, a, id);
      CompleteShrinks(env, a, b, id);
      hide Complete, Staged;
    }
  }

  /** A later map does not free the place of a dormant one. */
  lemma PlaceNotFreed(env: Env, s: Tree, a: Tree, b: Tree, ids: seq<string>, k: nat, id: string)
    requires IsActiveList(env, s, ids) && k < |ids| && Separate(env, s) && After(env, s, a, ids, k) && Processed(env, a, b, ids[k])
    requires Dormant(env, s, id) && !Inert(env, s, id) && Before(id, ids[k])
    ensures id !in b ==> id !in a
  {
    DormantClears(env, s, ids, k, id);
    SafeIsNotSpecial(id);
    OwnFilesUntouched(env, s, a, ids, k);
    FilesDetermineNames(env, s, a, ids[k]);
    LegacyInFootprint(env, s, ids[k]);
    if id in FlatNames(ids[k]) {
      FlatIsAfter(ids[k], id);
      BeforeTransitive(id, ids[k], id);
      BeforeIrreflexive(id);
    }
    hide IsActiveList, Separate, After, IsLegacyId, Inert, FlatNames, WillPublish, LegacyNames, ProcessedStaging, SameFiles, SameBackup, SafeBasename, Proper, WouldPublish;
    if id in a && (id !in LegacyNames(env, a, ids[k]) || !IsFile(a, id)) {
      assert SameAt(a, b, id);
    }
  }

  // ---------- The active maps among all ----------

  function Actives(env: Env, s: Tree, ids: seq<string>): seq<string> {
    if ids == [] then []
    else
      var last := ids[|ids| - 1];
      Actives(env, s, ids[..|ids| - 1]) + if WillPublish(env, s, last) then [last] else []
  }

  lemma ActivesStep(env: Env, s: Tree, ids: seq<string>, k: nat)
    requires k < |ids|
    ensures Actives(env, s, ids[..k + 1]) == Actives(env, s, ids[..k]) + if WillPublish(env, s, ids[k]) then [ids[k]] else []
  {
    hide WillPublish;
    assert ids[..k + 1][..k] == ids[..k];
  }

  lemma {:induction false} ActivesPrefix(env: Env, s: Tree, ids: seq<string>, k: nat)
    requires k <= |ids|
    ensures Actives(env, s, ids[..k]) <= Actives(env, s, ids)
    decreases |ids| - k
  {
    hide WillPublish;
    if k < |ids| {
      ActivesStep(env, s, ids, k);
      ActivesPrefix(env, s, ids, k + 1);
    } else {
      assert ids[..k] == ids;
    }
  }

  lemma {:induction false} ActivesAscend(env: Env, s: Tree, ids: seq<string>)
    requires Ascending(ids)
    ensures Ascending(Actives(env, s, ids)) && forall id :: id in Actives(env, s, ids) <==> id in ids && WillPublish(env, s, id)
  {
    hide WillPublish, Before;
    if ids != [] {
      var rest, last := ids[..|ids| - 1], ids[|ids| - 1];
      ActivesAscend(env, s, rest);
      assert ids == rest + [last];
      forall x | x in rest
        ensures Before(x, last)
      {
        var j :| 0 <= j < |rest| && rest[j] == x;
        assert ids[j] == x;
      }
    }
  }

  lemma ActivesList(env: Env, s: Tree, ids: seq<string>)
    requires IsLegacyList(s, ids)
    ensures IsActiveList(env, s, Actives(env, s, ids))
  {
    ActivesAscend(env, s, ids);
    hide IsLegacyId, WillPublish, Before, Actives;
  }

  /** The state after the first `k` of all maps: foreseen for the active ones, and the others are settled. */
  ghost predicate Going(env: Env, s: Tree, a: Tree, ids: seq<string>, k: nat)
    requires k <= |ids|
  {
    && After(env, s, a, Actives(env, s, ids), |Actives(env, s, ids[..k])|)
    && forall j :: 0 <= j < k && !WillPublish(env, s, ids[j]) ==> Settled(env, a, ids[j])
  }

  lemma GoingFromStart(env: Env, s: Tree, ids: seq<string>)
    ensures Going(env, s, s, ids, 0)
  {
    assert ids[..0] == [];
  }

  lemma ProcessedNoNewFile(env: Env, a: Tree, b: Tree, id: string)
    requires Processed(env, a, b, id)
    ensures NoNewFile(a, b)
  {
    hide LegacyNames, OthersKept, NamesMoved, BackupGrown, ProcessedStaging, NoNewFile, NoSpecialFile;
    assert WouldPublish(env, a, id) ==> id in b && b[id].Dir?;
    hide WouldPublish;
    FilesStay(a, b, LegacyNames(env, a, id), WouldPublish(env, a, id), id);
  }

  lemma SameButKeeps(a: Tree, b: Tree)
    requires SameBut(a, b)
    ensures NoNewFile(a, b) && KeepsDirs(a, b) && StagingStays(a, b)
  {
    forall n | IsFile(b, n)
      ensures IsFile(a, n) && b[n] == a[n]
    {
      assert !Special(n) ==> SameAt(a, b, n);
    }
  }

  lemma ActiveTurn(env: Env, s: Tree, a: Tree, b: Tree, ids: seq<string>, k: nat, changed: Option<nat>)
    requires IsActiveList(env, s, ids) && k < |ids| && Separate(env, s) && After(env, s, a, ids, k)
    requires MapMigrated(env, a, b, ids[k], changed) && changed.Some?
    ensures After(env, s, b, ids, k + 1) && Processed(env, a, b, ids[k])
    ensures NoNewFile(a, b) && KeepsDirs(a, b) && StagingStays(a, b)
  {
    OwnFilesUntouched(env, s, a, ids, k);
    assert KeepsDirs(s, a);
    FilesDetermineStaged(env, s, a, ids[k]);
    ProcessedWhenProper(env, a, b, ids[k], changed);
    assert StagingStays(a, b);
    hide IsActiveList, Separate, After, MapMigrated, Processed, Proper, SameFiles, SameBackup, Complete, Staged, KeepsDirs, NoNewFile, StagingStays, SafeBasename;
    NextMap(env, s, a, b, ids, k);
    ProcessedNoNewFile(env, a, b, ids[k]);
    ProcessedKeepsDirs(env, a, b, ids[k]);
  }

  lemma OtherStaysSettled(env: Env, s: Tree, a: Tree, b: Tree, ids: seq<string>, k: nat, m: nat, id: string)
    requires IsActiveList(env, s, ids) && Separate(env, s) && After(env, s, a, ids, k) && After(env, s, b, ids, m)
    requires Dormant(env, s, id) && Settled(env, a, id) && NoNewFile(a, b) && KeepsDirs(a, b) && StagingStays(a, b)
    requires !Inert(env, s, id) && id !in b ==> id !in a
    ensures Settled(env, b, id)
  {
    DormantStaysSo(env, s, b, ids, m, id);
    assert SafeBasename(id) && (Proper(env, s, id) || Inert(env, s, id)) && NoNewFile(s, a) && KeepsDirs(s, a);
    hide IsActiveList, Separate, After, IsLegacyId, Inert, Settled, WouldPublish, Proper, SafeBasename, KeepsDirs, NoNewFile, StagingStays;
    DormantSettledStays(env, s, a, b, id);
  }

  /** One more of all maps. */
  lemma KeepsGoing(env: Env, s: Tree, a: Tree, b: Tree, ids: seq<string>, k: nat, changed: Option<nat>)
    requires IsLegacyList(s, ids) && k < |ids| && Separate(env, s) && Going(env, s, a, ids, k)
    requires MapMigrated(env, a, b, ids[k], changed) && changed.Some?
    ensures Going(env, s, b, ids, k + 1)
  {
    var acts, n := Actives(env, s, ids), |Actives(env, s, ids[..k])|;
    ActivesList(env, s, ids);
    ActivesStep(env, s, ids, k);
    ActivesPrefix(env, s, ids, k);
    ActivesPrefix(env, s, ids, k + 1);
    hide IsActiveList, Actives, MapMigrated, Separate, After, Settled, WillPublish, IsLegacyId, NoNewFile, KeepsDirs, StagingStays, Processed, Inert, Before;
    assert forall j :: 0 <= j <= k && !WillPublish(env, s, ids[j]) ==> Dormant(env, s, ids[j]) by {
      forall j | 0 <= j <= k
        ensures IsLegacyId(s, ids[j])
      {
        assert ids[j] in ids;
      }
    }
    if WillPublish(env, s, ids[k]) {
      assert acts[n] == ids[k];
      ActiveTurn(env, s, a, b, acts, n, changed);
      forall j | 0 <= j < k && !WillPublish(env, s, ids[j])
        ensures Settled(env, b, ids[j])
      {
        if !Inert(env, s, ids[j]) {
          PlaceNotFreed(env, s, a, b, acts, n, ids[j]);
        }
        OtherStaysSettled(env, s, a, b, acts, n, n + 1, ids[j]);
      }
    } else {
      DormantTurn(env, s, a, b, acts, n, ids[k], changed);
      AfterSame(env, s, a, b, acts, n);
      SameButKeeps(a, b);
      forall j | 0 <= j < k && !WillPublish(env, s, ids[j])
        ensures Settled(env, b, ids[j])
      {
        assert !Special(ids[j]) by {
          ListedIsPlain(s, ids, j);
        }
        assert SameAt(a, b, ids[j]);
        OtherStaysSettled(env, s, a, b, acts, n, n, ids[j]);
      }
    }
  }

  lemma ListedIsPlain(s: Tree, ids: seq<string>, k: nat)
    requires IsLegacyList(s, ids) && k < |ids|
    ensures SafeBasename(ids[k]) && !Special(ids[k])
  {
    assert ids[k] in ids;
    SafeIsNotSpecial(ids[k]);
  }

  // ---------- What the run comes to ----------

  /** Before a first run: every map that it will publish is archived as a whole. */
  ghost predicate NothingLeftOver(env: Env, s: Tree) {
    forall id :: IsLegacyId(s, id) && WillPublish(env, s, id) ==> !Leftover(env, s, id)
  }

  /** After a full run every map is settled exactly when the tree before it said so. */
  lemma RunSettles(env: Env, s: Tree, b: Tree, ids: seq<string>)
    requires IsLegacyList(s, ids) && Separate(env, s) && Going(env, s, b, ids, |ids|)
    ensures RunResult(env, s, b)
  {
    forall id | IsLegacyId(b, id)
      ensures IsLegacyId(s, id)
    {
      hide SafeBasename, FlatNames;
    }
    forall id | IsLegacyId(s, id)
      ensures Settled(env, b, id) <==> !(WillPublish(env, s, id) && Leftover(env, s, id))
      ensures WillPublish(env, s, id) ==> MapAfter(env, s, b, id)
      ensures WillPublish(env, s, id) && Leftover(env, s, id) ==> IsLegacyId(b, id) && Published(env, b, id) && Unarchived(env, b, id)
    {
      EachSettles(env, s, b, ids, id);
    }
    hide WillPublish, Leftover, Settled, IsLegacyId, After, Unarchived, Published, MapAfter, Going;
  }

  lemma EachSettles(env: Env, s: Tree, b: Tree, ids: seq<string>, id: string)
    requires IsLegacyList(s, ids) && Separate(env, s) && Going(env, s, b, ids, |ids|) && IsLegacyId(s, id)
    ensures Settled(env, b, id) <==> !(WillPublish(env, s, id) && Leftover(env, s, id))
    ensures WillPublish(env, s, id) ==> MapAfter(env, s, b, id)
    ensures WillPublish(env, s, id) && Leftover(env, s, id) ==> IsLegacyId(b, id) && Published(env, b, id) && Unarchived(env, b, id)
  {
    var acts := Actives(env, s, ids);
    assert ids[..|ids|] == ids;
    ActivesList(env, s, ids);
    assert id in ids;
    if WillPublish(env, s, id) {
      assert Active(env, s, id) && id in acts;
      var j :| 0 <= j < |acts| && acts[j] == id;
      assert MapAfter(env, s, b, id);
      if Leftover(env, s, id) {
        LeftoverStays(env, s, b, id);
      }
    } else {
      var j :| 0 <= j < |ids| && ids[j] == id;
    }
    hide WillPublish, Leftover, IsLegacyId, LegacyNames, Footprint, Actives, RestSame, BackupFrom, NoNewFile, IsActiveList, Separate;
  }

  lemma LeftoverStays(env: Env, s: Tree, b: Tree, id: string)
    requires MapAfter(env, s, b, id) && Leftover(env, s, id) && SafeBasename(id)
    ensures IsLegacyId(b, id)
  {
    InFootprint(env, s, id);
    assert Posegraph(id) in FlatNames(id) && Data(id) in FlatNames(id) && Yaml(id) in FlatNames(id) && Raster(id) in FlatNames(id);
    hide LegacyNames, Footprint, FlatNames, Posegraph, Data, Yaml, Raster, SafeBasename, Settled, Published, WillPublish;
    var n :| n in FlatNames(id) && Skipped(env, s, id, n);
    assert FileAfter(env, s, b, id, n);
  }

  /** Rasters named after their map: nothing is shared, and nothing is left over. */
  lemma NamedIsClean(env: Env, s: Tree)
    requires RastersNamed(env, s)
    ensures Separate(env, s) && NothingLeftOver(env, s)
  {
    forall id | IsLegacyId(s, id)
      ensures Proper(env, s, id) && !Leftover(env, s, id)
    {
      NamedMap(env, s, id);
    }
    forall id, other | IsLegacyId(s, id) && IsLegacyId(s, other) && id != other
      ensures Apart(env, s, id, other) && Clears(env, s, id, other)
    {
      NamedPair(env, s, id, other);
    }
    hide RastersNamed, Proper, Leftover, IsLegacyId, WillPublish, Apart, Clears, Inert;
  }

  lemma NamedPair(env: Env, s: Tree, id: string, other: string)
    requires RastersNamed(env, s) && IsLegacyId(s, id) && IsLegacyId(s, other) && id != other
    ensures Apart(env, s, id, other) && Clears(env, s, id, other)
  {
    NamedMap(env, s, id);
    NamedMap(env, s, other);
    FlatOwner(id, other, Raster(id));
    assert Raster(id) in FlatNames(id) && Raster(other) in FlatNames(other) && Manifest(other) in FlatNames(other);
    hide RastersNamed, Proper, Leftover, LocalImage, Footprint, FlatNames, Raster, Manifest, IsLegacyId;
  }

  lemma NamedMap(env: Env, s: Tree, id: string)
    requires RastersNamed(env, s) && SafeBasename(id)
    ensures Proper(env, s, id) && !Leftover(env, s, id)
    ensures Footprint(env, s, id) == FlatNames(id) || Footprint(env, s, id) == FlatNames(id) + [Raster(id)]
    ensures LocalImage(env, s, id) == None || LocalImage(env, s, id) == Some(Raster(id))
  {
    NamedLegacy(env, s, id);
    assert Posegraph(id) in FlatNames(id) && Data(id) in FlatNames(id) && Yaml(id) in FlatNames(id) && Raster(id) in FlatNames(id);
    FlatIsNotSpecial(id, Raster(id));
    hide LegacyNames, FlatNames, SafeBasename, Posegraph, Data, Yaml, Raster;
    assert LocalImage(env, s, id) == None || LocalImage(env, s, id) == Some(Raster(id));
  }

  /** What a full run makes of the maps: all are settled exactly when nothing was left over, and what was is due next. */
  ghost predicate RunResult(env: Env, s: Tree, b: Tree) {
    && (forall id :: Active(env, s, id) ==> MapAfter(env, s, b, id))
    && (AllSettled(env, b) <==> NothingLeftOver(env, s))
    && (!NothingLeftOver(env, s) ==> exists id :: IsLegacyId(b, id) && Published(env, b, id) && Unarchived(env, b, id))
  }

  /** A run that has counted nothing so far. */
  ghost predicate SoFar(env: Env, s: Tree, a: Tree, ids: seq<string>, k: nat)
    requires k <= |ids|
  {
    && Quiet(s, a)
    && (forall j :: 0 <= j < k ==> !(Published(env, s, ids[j]) && Unarchived(env, s, ids[j])))
    && (Dirty(s, a) || (a == s && forall j :: 0 <= j < k ==> Settled(env, s, ids[j])))
  }

  lemma QuietSelf(s: Tree)
    ensures Quiet(s, s)
  {
  }

  lemma OneOfTheRun(env: Env, s: Tree, a: Tree, b: Tree, ids: seq<string>, k: nat, count: nat, changed: Option<nat>)
    requires IsLegacyList(s, ids) && k < |ids| && MapMigrated(env, a, b, ids[k], changed)
    requires AllSettled(env, s) ==> a == s && count == 0
    requires count == 0 ==> SoFar(env, s, a, ids, k)
    requires Separate(env, s) ==> Going(env, s, a, ids, k)
    requires Clear(s) ==> Clear(a)
    ensures AllSettled(env, s) ==> b == s && changed == Some(0)
    ensures changed.Some? && count + changed.value == 0 ==> SoFar(env, s, b, ids, k + 1)
    ensures changed.Some? && Separate(env, s) ==> Going(env, s, b, ids, k + 1)
    ensures Clear(s) ==> Clear(b) && changed.Some?
    ensures changed.Some? && changed.value > 0 ==> !AllSettled(env, s)
  {
    hide Separate, Going, Processed, Proper, Clear, Settled, Quiet, Dirty, Published, Unarchived, IsLegacyId, SafeBasename, SoFar, Before;
    assert ids[k] in ids;
    if changed.Some? && Separate(env, s) {
      KeepsGoing(env, s, a, b, ids, k, changed);
    }
    if changed == Some(0) && count == 0 {
      OneMoreSoFar(env, s, a, b, ids, k);
    }
  }

  lemma CountedNothing(env: Env, a: Tree, b: Tree, id: string)
    requires MapMigrated(env, a, b, id, Some(0))
    ensures Quiet(a, b) && !(Published(env, a, id) && Unarchived(env, a, id))
    ensures if Settled(env, a, id) then b == a else Dirty(a, b)
  {
    hide Processed, Proper, Clear, Settled, Quiet, Dirty, Published, Unarchived;
  }

  lemma OneMoreSoFar(env: Env, s: Tree, a: Tree, b: Tree, ids: seq<string>, k: nat)
    requires IsLegacyList(s, ids) && k < |ids| && MapMigrated(env, a, b, ids[k], Some(0)) && SoFar(env, s, a, ids, k)
    ensures SoFar(env, s, b, ids, k + 1)
  {
    hide IsLegacyList, MapMigrated, Settled, Quiet, Dirty, Published, Unarchived, SafeBasename, IsFile;
    ListedIsPlain(s, ids, k);
    CountedNothing(env, a, b, ids[k]);
    QuietTwice(s, a, b);
    QuietSame(env, s, a, ids[k]);
    if !Dirty(s, b) {
      assert a == s && b == s;
    }
  }

  lemma EndOfTheRun(env: Env, s: Tree, a: Tree, ids: seq<string>)
    requires IsLegacyList(s, ids) && SoFar(env, s, a, ids, |ids|)
    ensures a == s ==> AllSettled(env, s)
    ensures forall id :: IsLegacyId(s, id) && Published(env, s, id) ==> !Unarchived(env, s, id)
  {
    forall id | IsLegacyId(s, id)
      ensures a == s ==> Settled(env, s, id)
      ensures !(Published(env, s, id) && Unarchived(env, s, id))
    {
      assert id in ids;
      var j :| 0 <= j < |ids| && ids[j] == id;
      hide Settled, Published, Unarchived, Quiet, IsLegacyId;
    }
  }
}
