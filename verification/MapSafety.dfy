/** What every state of the migration keeps: every original file at its old or its backup path. */
module MapSafety {
  import opened Options
  import opened MapTree

  /** `id` is a map to which the flat file `n` belongs in the original tree. */
  ghost predicate Claims(env: Env, o: Tree, id: string, n: string) {
    SafeBasename(id) && (n in FlatNames(id) || (IsFile(o, Yaml(id)) && env.image(o[Yaml(id)].content) == InRoot(n)))
  }

  /** The flat file `n` is where it was, or in the backup directory and then a validated directory holds its map. */
  ghost predicate FileKept(env: Env, o: Tree, s: Tree, n: string)
    requires n in o
  {
    || (n in s && s[n] == o[n])
    || (&& !IsFile(s, n)
        && n !in Sub(o, BACKUP_NAME)
        && n in Sub(s, BACKUP_NAME) && Sub(s, BACKUP_NAME)[n] == o[n]
        && exists id :: Claims(env, o, id, n) && Published(env, s, id))
  }

  /** A directory that was published holds the contents of the map's original flat files and validates. */
  ghost predicate FromLegacy(env: Env, o: Tree, s: Tree, id: string) {
    && SafeBasename(id) && Published(env, s, id)
    && IsFile(o, Posegraph(id)) && IsFile(o, Data(id)) && IsFile(o, Yaml(id))
    && BundleOf(env, o[Posegraph(id)], o[Data(id)], o[Yaml(id)].content, s[id].entries)
  }

  /** Directories stay, no flat file is new, and a new directory is a published map. */
  ghost predicate RootKept(env: Env, o: Tree, s: Tree) {
    && (forall n :: n in o && o[n].Dir? && !Special(n) ==> n in s && s[n] == o[n])
    && (forall n :: IsFile(s, n) ==> n in o && s[n] == o[n])
    && (forall n :: n in s && s[n].Dir? && !Special(n) ==> (n in o && s[n] == o[n]) || FromLegacy(env, o, s, n))
  }

  /** The backup directory keeps what it had and gains only original flat files under their own names. */
  ghost predicate BackupKept(o: Tree, s: Tree) {
    && (forall n :: n in Sub(o, BACKUP_NAME) ==> n in Sub(s, BACKUP_NAME) && Sub(s, BACKUP_NAME)[n] == Sub(o, BACKUP_NAME)[n])
    && (forall n :: n in Sub(s, BACKUP_NAME) && n !in Sub(o, BACKUP_NAME) ==> IsFile(o, n) && Sub(s, BACKUP_NAME)[n] == o[n])
  }

  /** What the migration guarantees of every state it passes through, from the original tree `o`. */
  ghost predicate Kept(env: Env, o: Tree, s: Tree) {
    && (forall n :: IsFile(o, n) ==> FileKept(env, o, s, n))
    && RootKept(env, o, s)
    && BackupKept(o, s)
  }

  lemma KeptInitially(env: Env, o: Tree)
    ensures Kept(env, o, o)
  {
  }

  /** Nothing that happens inside the staging directory matters, however it is interrupted. */
  lemma StagingIsFree(env: Env, o: Tree, s: Tree, staging: Tree)
    requires Kept(env, o, s) && (STAGING_NAME in s ==> s[STAGING_NAME].Dir?)
    ensures Kept(env, o, s[STAGING_NAME := Dir(staging)])
  {
    var t := s[STAGING_NAME := Dir(staging)];
    StagingKeepsRoot(env, o, s, staging);
    assert BackupKept(o, t) && Sub(t, BACKUP_NAME) == Sub(s, BACKUP_NAME);
    hide Claims, SafeBasename, FromLegacy, RootKept, BackupKept, DirsPersist, Published;
    forall n | IsFile(o, n)
      ensures FileKept(env, o, t, n)
    {
      KeepsPublished(env, o, s, t, n);
    }
  }

  lemma StagingKeepsRoot(env: Env, o: Tree, s: Tree, staging: Tree)
    requires RootKept(env, o, s) && (STAGING_NAME in s ==> s[STAGING_NAME].Dir?)
    ensures RootKept(env, o, s[STAGING_NAME := Dir(staging)]) && DirsPersist(s, s[STAGING_NAME := Dir(staging)])
  {
    hide BundleOf, SafeBasename, Posegraph, Data, Yaml;
  }

  ghost predicate DirsPersist(s: Tree, t: Tree) {
    forall n :: n in s && s[n].Dir? && !Special(n) ==> n in t && t[n] == s[n]
  }

  /** A change that leaves published directories and this file alone keeps the file. */
  lemma KeepsPublished(env: Env, o: Tree, s: Tree, t: Tree, n: string)
    requires IsFile(o, n) && FileKept(env, o, s, n)
    requires DirsPersist(s, t)
    requires Sub(s, BACKUP_NAME).Keys <= Sub(t, BACKUP_NAME).Keys
    requires n in Sub(s, BACKUP_NAME) ==> Sub(t, BACKUP_NAME)[n] == Sub(s, BACKUP_NAME)[n]
    requires n in s && s[n] == o[n] ==> n in t && t[n] == s[n]
    requires IsFile(t, n) ==> IsFile(s, n)
    ensures FileKept(env, o, t, n)
  {
    if !(n in s && s[n] == o[n]) {
      var id :| Claims(env, o, id, n) && Published(env, s, id);
      SafeIsNotSpecial(id);
    }
  }

  /** Publishing a validated directory made from the flat files under a free name. */
  lemma PublishKeeps(env: Env, o: Tree, s: Tree, id: string, bundle: Tree)
    requires Kept(env, o, s) && SafeBasename(id) && id !in s && env.validate(bundle)
    requires IsFile(s, Posegraph(id)) && IsFile(s, Data(id)) && IsFile(s, Yaml(id))
    requires BundleOf(env, s[Posegraph(id)], s[Data(id)], s[Yaml(id)].content, bundle)
    ensures Kept(env, o, s[id := Dir(bundle)])
  {
    hide Claims, BundleOf, SafeBasename, Posegraph, Data, Yaml;
    var t := s[id := Dir(bundle)];
    SafeIsNotSpecial(id);
    assert DirsPersist(s, t) && RootKept(env, o, t) && BackupKept(o, t);
    hide RootKept, BackupKept, DirsPersist, Published;
    forall n | IsFile(o, n)
      ensures FileKept(env, o, t, n)
    {
      KeepsPublished(env, o, s, t, n);
    }
  }

  lemma MakeBackupKeeps(env: Env, o: Tree, s: Tree)
    requires Kept(env, o, s) && BACKUP_NAME !in s
    ensures Kept(env, o, s[BACKUP_NAME := Dir(map[])])
  {
    hide Claims, BundleOf, SafeBasename, Posegraph, Data, Yaml;
    var t := s[BACKUP_NAME := Dir(map[])];
    assert DirsPersist(s, t) && RootKept(env, o, t) && BackupKept(o, t);
    hide RootKept, BackupKept, DirsPersist, Published;
    forall n | IsFile(o, n)
      ensures FileKept(env, o, t, n)
    {
      KeepsPublished(env, o, s, t, n);
    }
  }

  /** Moving a published map's flat file aside when the backup directory has no file of that name. */
  lemma MoveKeeps(env: Env, o: Tree, s: Tree, id: string, n: string)
    requires Kept(env, o, s) && Published(env, s, id) && Claims(env, o, id, n)
    requires BACKUP_NAME in s && s[BACKUP_NAME].Dir? && IsFile(s, n) && n !in Sub(s, BACKUP_NAME)
    ensures Kept(env, o, Moved(s, n)) && Published(env, Moved(s, n), id)
  {
    var t := Moved(s, n);
    SafeIsNotSpecial(id);
    MoveKeepsRoot(env, o, s, n);
    MoveKeepsBackup(o, s, n);
    assert s[n] == o[n] && DirsPersist(s, t) && Published(env, t, id) by {
      hide Claims, FromLegacy, SafeBasename, FileKept;
    }
    hide Claims, FromLegacy, RootKept, BackupKept, Published, DirsPersist, SafeBasename;
    forall m | IsFile(o, m)
      ensures FileKept(env, o, t, m)
    {
      if m == n {
        assert Claims(env, o, id, n) && Published(env, t, id);
      } else {
        KeepsPublished(env, o, s, t, m);
      }
    }
  }

  lemma MoveKeepsBackup(o: Tree, s: Tree, n: string)
    requires BackupKept(o, s) && BACKUP_NAME in s && s[BACKUP_NAME].Dir?
    requires IsFile(s, n) && IsFile(o, n) && s[n] == o[n] && n !in Sub(s, BACKUP_NAME)
    ensures BackupKept(o, Moved(s, n)) && n !in Sub(o, BACKUP_NAME)
  {
  }

  lemma MoveKeepsRoot(env: Env, o: Tree, s: Tree, n: string)
    requires RootKept(env, o, s) && BACKUP_NAME in s && s[BACKUP_NAME].Dir? && IsFile(s, n)
    ensures RootKept(env, o, Moved(s, n))
  {
    hide BundleOf, SafeBasename, Posegraph, Data, Yaml;
  }

  /** With rasters named after their map, a file that has moved belongs to one map, and that map's directory validates. */
  lemma MovedOnlyOncePublished(env: Env, o: Tree, s: Tree, n: string)
    requires Kept(env, o, s) && RastersNamed(env, o) && IsFile(o, n) && !IsFile(s, n)
    ensures Sub(s, BACKUP_NAME)[n] == o[n]
    ensures exists id :: n in FlatNames(id) && Published(env, s, id) && forall id' :: n in FlatNames(id') ==> id' == id
  {
    assert FileKept(env, o, s, n);
    var id :| Claims(env, o, id, n) && Published(env, s, id);
    hide Published, Kept, FileKept, SafeBasename;
    assert FlatNames(id)[4] == Raster(id);
    assert n in FlatNames(id);
    hide Claims, RastersNamed;
    forall id' | n in FlatNames(id')
      ensures id' == id
    {
      OwnerIsUnique(id, id');
      var i :| 0 <= i < 5 && FlatNames(id)[i] == n;
      var j :| 0 <= j < 5 && FlatNames(id')[j] == n;
    }
  }

  lemma PublishStaged(env: Env, o: Tree, s: Tree, id: string, bundle: Tree)
    requires SafeBasename(id) && Complete(env, s, id) && id !in s && Staged(env, s, id) == Some(bundle)
    requires Kept(env, o, WithStaged(s, id, bundle))
    ensures WithStaged(s, id, bundle)[STAGING_NAME := Dir(Sub(WithStaged(s, id, bundle), STAGING_NAME) - {id})] == WithoutStaged(s, id)
    ensures Kept(env, o, WithoutStaged(s, id)[id := Dir(bundle)])
  {
    hide Kept, SafeBasename, Staged, BundleOf, Posegraph, Data, Yaml, ImageContent;
    var t := WithoutStaged(s, id);
    Restage(s, id, bundle, bundle);
    SafeIsNotSpecial(id);
    ReadsThroughStaging(s, id, bundle);
    assert Posegraph(id) in FlatNames(id) && Data(id) in FlatNames(id) && Yaml(id) in FlatNames(id);
    hide FlatNames;
    assert forall n :: n != STAGING_NAME ==> Content(t, n) == Content(s, n);
    StagingIsFree(env, o, WithStaged(s, id, bundle), Sub(WithStaged(s, id, bundle), STAGING_NAME) - {id});
    PublishKeeps(env, o, t, id, bundle);
  }

  lemma BackupHidesNothing(env: Env, s: Tree, id: string)
    requires SafeBasename(id) && Published(env, s, id)
    ensures Published(env, s[BACKUP_NAME := Dir(map[])], id)
  {
    SafeIsNotSpecial(id);
  }

  /** Every file to archive belongs to the map. */
  lemma LegacyIsClaimed(env: Env, o: Tree, s: Tree, id: string)
    requires Kept(env, o, s) && SafeBasename(id)
    ensures forall n :: n in LegacyNames(env, s, id) ==> Claims(env, o, id, n)
  {
    assert RootKept(env, o, s);
    hide Kept, SafeBasename, HasSuffix, FromLegacy, Posegraph, Data, Yaml, Manifest, Raster;
  }
}
