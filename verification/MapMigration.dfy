/** The migration of flat map bundles into one directory per map, as the sequence of filesystem operations it performs. */
module MapMigration {
  import opened Options
  import opened MapTree
  import opened MapSafety
  import opened MapRerun
  import opened MapRun

  /** A map root on disk; `trace` is every state it has gone through since it was `origin`. */
  class MapRoot {
    const env: Env
    var entries: Tree
    ghost const origin: Tree
    ghost var trace: seq<Tree>

    ghost predicate Valid()
      reads this
    {
      && trace != [] && trace[|trace| - 1] == entries
      && forall k :: 0 <= k < |trace| ==> Kept(env, origin, trace[k])
    }

    constructor (env: Env, entries: Tree)
      ensures Valid() && this.env == env && this.entries == origin == entries && trace == [entries]
    {
      this.env, this.entries, origin, trace := env, entries, entries, [entries];
      KeptInitially(env, entries);
    }

    /** One filesystem operation. */
    method Commit(t: Tree)
      requires Valid() && Kept(env, origin, t)
      modifies this
      ensures Valid() && entries == t && trace == old(trace) + [t]
    {
      entries := t;
      trace := trace + [t];
    }

    /** One operation inside the staging directory. */
    method Stage(staging: Tree)
      requires Valid() && (STAGING_NAME in entries ==> entries[STAGING_NAME].Dir?)
      modifies this
      ensures Valid() && old(trace) <= trace && entries == old(entries)[STAGING_NAME := Dir(staging)]
    {
      hide Kept;
      assert Kept(env, origin, trace[|trace| - 1]);
      StagingIsFree(env, origin, entries, staging);
      Commit(entries[STAGING_NAME := Dir(staging)]);
    }

    /** Leaves an empty staging directory for `id`. */
    method PrepareStaging(id: string) returns (ok: bool)
      requires Valid()
      modifies this
      ensures Valid() && old(trace) <= trace
      ensures ok <==> !(STAGING_NAME in old(entries) && old(entries)[STAGING_NAME].File?) && !IsFile(Sub(old(entries), STAGING_NAME), id)
      ensures entries == if ok then WithStaged(old(entries), id, map[]) else old(entries)
    {
      hide Kept;
      ghost var s := entries;
      if STAGING_NAME in entries && entries[STAGING_NAME].File? {
        return false;
      }
      if id in Sub(entries, STAGING_NAME) {
        if Sub(entries, STAGING_NAME)[id].File? {
          return false;
        }
        Stage(Sub(entries, STAGING_NAME) - {id});
      } else if STAGING_NAME !in entries {
        Stage(map[]);
      }
      assert Sub(entries, STAGING_NAME)[id := Dir(map[])] == Sub(s, STAGING_NAME)[id := Dir(map[])];
      Stage(Sub(entries, STAGING_NAME)[id := Dir(map[])]);
      return true;
    }

    method StageFile(ghost s: Tree, id: string, ghost b: Tree, name: string, node: Node)
      requires Valid() && entries == WithStaged(s, id, b)
      modifies this
      ensures Valid() && old(trace) <= trace && entries == WithStaged(s, id, b[name := node])
    {
      hide Kept;
      var staging := Sub(entries, STAGING_NAME);
      Restage(s, id, b, b[name := node]);
      Stage(staging[id := Dir(Sub(staging, id)[name := node])]);
    }

    /** Copies the posegraph, its data and the raster. */
    method CopyLegacy(ghost s: Tree, id: string) returns (ok: bool, ghost written: Tree)
      requires Valid() && SafeBasename(id) && Complete(env, s, id) && entries == WithStaged(s, id, map[])
      modifies this
      ensures Valid() && old(trace) <= trace && entries == WithStaged(s, id, written)
      ensures var b2 := map["posegraph.posegraph" := s[Posegraph(id)], "posegraph.data" := s[Data(id)]];
              var image := ImageContent(env, WithStaged(s, id, b2), id);
              (ok <==> env.fault(id) >= 3 && image.Some?) && (ok ==> written == b2["occupancy.pgm" := File(image.value)])
    {
      hide Kept;
      ok, written := false, map[];
      assert Posegraph(id) in FlatNames(id) && Data(id) in FlatNames(id);
      ReadsThroughStaging(s, id, written);
      if env.fault(id) == 0 {
        return;
      }
      StageFile(s, id, written, "posegraph.posegraph", entries[Posegraph(id)]);
      written := written["posegraph.posegraph" := s[Posegraph(id)]];
      ReadsThroughStaging(s, id, written);
      if env.fault(id) == 1 {
        return;
      }
      StageFile(s, id, written, "posegraph.data", entries[Data(id)]);
      written := written["posegraph.data" := s[Data(id)]];
      var image := ImageContent(env, entries, id);
      if env.fault(id) == 2 || image.None? {
        return;
      }
      StageFile(s, id, written, "occupancy.pgm", File(image.value));
      written := written["occupancy.pgm" := File(image.value)];
      ok := true;
    }

    /** Copies and rewrites the flat files of `id` into its staging directory and validates it. */
    method FillStaging(ghost s: Tree, id: string) returns (bundle: Option<Tree>, ghost written: Tree)
      requires Valid() && SafeBasename(id) && Complete(env, s, id) && entries == WithStaged(s, id, map[])
      modifies this
      ensures Valid() && old(trace) <= trace
      ensures bundle == Staged(env, s, id) && entries == WithStaged(s, id, written)
      ensures bundle.Some? ==> written == bundle.value
    {
      hide Kept;
      bundle := None;
      assert Yaml(id) in FlatNames(id) && Manifest(id) in FlatNames(id);
      var ok;
      ok, written := CopyLegacy(s, id);
      if !ok {
        return;
      }
      ReadsThroughStaging(s, id, written);
      var yaml := env.rewrite(entries[Yaml(id)].content);
      if env.fault(id) == 3 || yaml.None? {
        return;
      }
      StageFile(s, id, written, "map.yaml", File(yaml.value));
      written := written["map.yaml" := File(yaml.value)];
      ReadsThroughStaging(s, id, written);
      Restage(s, id, written, written);
      var manifest := env.manifest(id, Sub(Sub(entries, STAGING_NAME), id), Content(entries, Manifest(id)));
      if env.fault(id) == 4 || manifest.None? {
        return;
      }
      StageFile(s, id, written, "manifest.json", File(manifest.value));
      written := written["manifest.json" := File(manifest.value)];
      Restage(s, id, written, written);
      var staged := Sub(Sub(entries, STAGING_NAME), id);
      if env.validate(staged) {
        bundle := Some(staged);
      }
    }

    /** Moves the validated staging directory to its final name. */
    method Publish(ghost s: Tree, id: string, bundle: Tree)
      requires Valid() && SafeBasename(id) && Complete(env, s, id) && id !in s
      requires Staged(env, s, id) == Some(bundle) && entries == WithStaged(s, id, bundle)
      modifies this
      ensures Valid() && old(trace) <= trace && entries == WithoutStaged(s, id)[id := Dir(bundle)]
    {
      hide Kept, Staged, Complete, SafeBasename;
      assert Kept(env, origin, trace[|trace| - 1]);
      PublishStaged(env, origin, s, id, bundle);
      var staging := Sub(entries, STAGING_NAME) - {id};
      Commit(entries[STAGING_NAME := Dir(staging)][id := Dir(bundle)]);
    }

    /** Stages, validates and publishes one map. */
    method BuildNewBundle(id: string, dry: bool) returns (r: Built)
      requires Valid() && SafeBasename(id)
      modifies this
      ensures Valid() && old(trace) <= trace
      ensures BuildResult(env, old(entries), entries, id, dry, r)
      ensures dry ==> trace == old(trace)
    {
      hide Kept, Complete, SafeBasename;
      ghost var s := entries;
      if id in entries {
        return Done(false, Published(env, entries, id));
      }
      if !Complete(env, entries, id) {
        return Done(false, false);
      }
      if dry {
        return Done(true, false);
      }
      var ok := PrepareStaging(id);
      if !ok {
        return Raised;
      }
      var bundle, written := FillStaging(s, id);
      Restage(s, id, written, written);
      if bundle.None? {
        Stage(Sub(entries, STAGING_NAME) - {id});
        return Done(false, false);
      }
      Publish(s, id, bundle.value);
      return Done(true, true);
    }

    /** The files of `names` that are present are moved aside unless the backup directory has their name. */
    method ArchiveFiles(id: string, names: seq<string>) returns (moved: bool)
      requires Valid() && Published(env, entries, id) && BACKUP_NAME in entries && entries[BACKUP_NAME].Dir?
      requires forall n :: n in names ==> IsFile(entries, n) && Claims(env, origin, id, n)
      modifies this
      ensures Valid() && old(trace) <= trace && Published(env, entries, id)
      ensures BACKUP_NAME in entries && entries[BACKUP_NAME].Dir?
      ensures MovedOut(old(entries), entries, names)
      ensures forall n :: n in names && IsFile(entries, n) ==> n in Sub(entries, BACKUP_NAME)
      ensures moved <==> exists n :: n in old(entries) && n !in entries
    {
      hide Kept, Claims, Published;
      ghost var s := entries;
      moved := false;
      for k := 0 to |names|
        invariant Valid() && old(trace) <= trace && Published(env, entries, id)
        invariant BACKUP_NAME in entries && entries[BACKUP_NAME].Dir?
        invariant MovedOut(s, entries, names)
        invariant forall j :: 0 <= j < k ==> names[j] in Sub(entries, BACKUP_NAME)
        invariant moved <==> exists n :: n in s && n !in entries
      {
        var n := names[k];
        if n in Sub(entries, BACKUP_NAME) {
          continue;
        }
        assert n in names;
        assert Kept(env, origin, trace[|trace| - 1]);
        MoveKeeps(env, origin, entries, id, n);
        MoveOut(s, entries, names, n);
        Commit(Moved(entries, n));
        moved := true;
        assert n in s && n !in entries;
      }
    }

    /** Moves the remaining flat files of a published map aside. */
    method ArchiveLegacyFiles(id: string, dry: bool) returns (r: Option<bool>)
      requires Valid() && SafeBasename(id) && (!dry ==> Published(env, entries, id))
      modifies this
      ensures Valid() && old(trace) <= trace
      ensures ArchiveResult(old(entries), entries, LegacyNames(env, old(entries), id), dry, r)
      ensures dry ==> trace == old(trace)
    {
      hide Kept, Published, SafeBasename;
      ghost var s := entries;
      var names := LegacyNames(env, entries, id);
      var present := Present(entries, names);
      if present == [] {
        return Some(false);
      }
      assert present[0] in names && IsFile(s, present[0]);
      if dry {
        return Some(true);
      }
      assert Kept(env, origin, trace[|trace| - 1]);
      LegacyIsClaimed(env, origin, entries, id);
      hide LegacyNames;
      if BACKUP_NAME in entries {
        if entries[BACKUP_NAME].File? {
          return None;
        }
      } else {
        MakeBackupKeeps(env, origin, entries);
        assert Published(env, entries[BACKUP_NAME := Dir(map[])], id) by { BackupHidesNothing(env, entries, id); }
        Commit(entries[BACKUP_NAME := Dir(map[])]);
      }
      ghost var m := entries;
      var moved := ArchiveFiles(id, present);
      MovedOutAfterMkdir(s, m, entries, names, present);
      return Some(moved);
    }

    /** Builds and, once that is safe, archives one map; counts the changes, or none if an operation raised. */
    method MigrateOne(id: string, dry: bool) returns (changed: Option<nat>)
      requires Valid() && SafeBasename(id)
      modifies this
      ensures Valid() && old(trace) <= trace
      ensures dry ==> trace == old(trace)
      ensures !dry ==> MapMigrated(env, old(entries), entries, id, changed)
    {
      hide Kept, SafeBasename, BuildResult, ArchiveResult, LegacyNames, Published, MapMigrated;
      ghost var s := entries;
      var r := BuildNewBundle(id, dry);
      ghost var m := entries;
      if r.Raised? {
        if !dry {
          BuiltOnly(env, s, m, id, r, None);
        }
        return None;
      }
      var count: nat := if r.published then 1 else 0;
      if !r.safe && !(dry && r.published) {
        if !dry {
          BuiltOnly(env, s, m, id, r, Some(count));
        }
        return Some(count);
      }
      if r.safe {
        SafeMeansPublished(env, s, m, id, dry, r);
      }
      var archived := ArchiveLegacyFiles(id, dry);
      changed := if archived.None? then None else Some(if archived.value then count + 1 else count);
      if !dry {
        BuiltAndArchived(env, s, m, entries, id, r, archived, changed);
      }
    }

    /**
     Migrates every map with flat files; counts the changes, or none if an operation raised. Nothing changes exactly when
     every map is settled. Unless two published maps share a raster, a full run settles every map exactly when nothing is left over.
     */
    method Migrate(dry: bool) returns (changed: Option<nat>)
      requires Valid()
      modifies this
      ensures Valid() && old(trace) <= trace
      ensures dry ==> trace == old(trace)
      ensures !dry ==> (AllSettled(env, old(entries)) <==> entries == old(entries) && changed == Some(0))
      ensures !dry && changed == Some(0) ==>
                forall id :: IsLegacyId(old(entries), id) && Published(env, old(entries), id) ==> !Unarchived(env, old(entries), id)
      ensures !dry && changed.Some? && Separate(env, old(entries)) ==> RunResult(env, old(entries), entries)
      ensures !dry && Clear(old(entries)) ==> Clear(entries) && changed.Some?
    {
      hide Kept, Settled, Separate, Processed, Proper, Going, Quiet, Dirty, SafeBasename, FlatNames, Before, Clear, Unarchived, Published, RunResult, IsLegacyId;
      ghost var s := entries;
      var ids := DiscoverLegacyIds(entries);
      assert IsLegacyList(s, ids);
      GoingFromStart(env, s, ids);
      QuietSelf(s);
      var count: nat := 0;
      for k := 0 to |ids|
        invariant Valid() && old(trace) <= trace
        invariant dry ==> trace == old(trace)
        invariant !dry && AllSettled(env, s) ==> entries == s && count == 0
        invariant !dry && count == 0 ==> SoFar(env, s, entries, ids, k)
        invariant !dry && Separate(env, s) ==> Going(env, s, entries, ids, k)
        invariant !dry && Clear(s) ==> Clear(entries)
      {
        hide MapMigrated, SoFar;
        var id := ids[k];
        assert id in ids;
        ListedIsPlain(s, ids, k);
        ghost var a := entries;
        changed := MigrateOne(id, dry);
        if !dry {
          OneOfTheRun(env, s, a, entries, ids, k, count, changed);
        }
        if changed.None? {
          return;
        }
        count := count + changed.value;
      }
      if !dry && Separate(env, s) {
        RunSettles(env, s, entries, ids);
      }
      if !dry && count == 0 {
        EndOfTheRun(env, s, entries, ids);
      }
      return Some(count);
    }

    /**
     A second run changes nothing exactly when nothing is left over before the first. The condition is one on the tree at
     the start, and rasters named after their map meet it.
     */
    method MigrateTwice() returns (first: Option<nat>, between: Tree, second: Option<nat>)
      requires Valid()
      modifies this
      ensures Valid() && old(trace) <= trace && between in trace
      ensures first.Some? && Separate(env, old(entries)) ==>
                (NothingLeftOver(env, old(entries)) <==> second == Some(0) && entries == between)
      ensures first.Some? && Separate(env, old(entries)) && !NothingLeftOver(env, old(entries)) ==> second != Some(0)
      ensures first.Some? && Separate(env, old(entries)) ==> RunResult(env, old(entries), between)
      ensures second.Some? && Separate(env, between) ==> RunResult(env, between, entries)
      ensures first.Some? && RastersNamed(env, old(entries)) ==> second == Some(0) && entries == between
      ensures Clear(old(entries)) ==> first.Some? && second.Some?
    {
      hide Kept, Separate, NothingLeftOver, AllSettled, RastersNamed, Clear, MapAfter;
      if RastersNamed(env, entries) {
        NamedIsClean(env, entries);
      }
      first := Migrate(false);
      between := entries;
      assert between == trace[|trace| - 1];
      second := Migrate(false);
    }
  }
}
