/** When a second run of the migration changes nothing. */
module MapRerun {
  import opened Options
  import opened MapTree

  /** Migrating `id` from `s` changes nothing in the end. */
  ghost predicate Settled(env: Env, s: Tree, id: string) {
    if id in s then
      Published(env, s, id) ==> forall n :: n in LegacyNames(env, s, id) && IsFile(s, n) ==> n in Sub(s, BACKUP_NAME)
    else
      Complete(env, s, id) ==>
        && Staged(env, s, id).None?
        && STAGING_NAME in s && s[STAGING_NAME].Dir? && id !in Sub(s, STAGING_NAME)
  }

  ghost predicate AllSettled(env: Env, t: Tree) {
    forall id :: IsLegacyId(t, id) ==> Settled(env, t, id)
  }

  lemma BuildStays(env: Env, s: Tree, t: Tree, id: string, r: Built)
    requires Settled(env, s, id) && BuildResult(env, s, t, id, false, r)
    ensures t == s && r == Done(false, Published(env, s, id))
  {
    if id !in s && Complete(env, s, id) {
      assert Sub(s, STAGING_NAME) - {id} == Sub(s, STAGING_NAME);
    }
  }

  lemma ArchiveStays(s: Tree, t: Tree, names: seq<string>, r: Option<bool>)
    requires ArchiveResult(s, t, names, false, r)
    requires forall n :: n in names && IsFile(s, n) ==> n in Sub(s, BACKUP_NAME)
    ensures t == s && r == Some(false)
  {
    if n :| n in names && IsFile(s, n) {
      assert n in Sub(s, BACKUP_NAME);
      assert Sub(t, BACKUP_NAME) == Sub(s, BACKUP_NAME);
      assert t == s;
    }
  }

  lemma SettledStays(env: Env, s: Tree, t: Tree, id: string, archived: Option<bool>)
    requires Settled(env, s, id) && Published(env, s, id) && ArchiveResult(s, t, LegacyNames(env, s, id), false, archived)
    ensures t == s && archived == Some(false)
  {
    hide LegacyNames, ArchiveResult;
    ArchiveStays(s, t, LegacyNames(env, s, id), archived);
  }

  /** A map that is not settled: building it raises, publishes or changes the staging directory, or archiving is due. */
  lemma BuildChanges(env: Env, s: Tree, t: Tree, id: string, r: Built)
    requires !Settled(env, s, id) && BuildResult(env, s, t, id, false, r) && r.Done? && !r.published
    ensures if id in s then r.safe && Published(env, s, id) && Unarchived(env, s, id) else Dirty(s, t)
  {
    hide LegacyNames, Staged, Complete;
  }

  /** Archiving that is due moves something. */
  lemma ArchiveChanges(env: Env, s: Tree, t: Tree, id: string, r: Option<bool>)
    requires Unarchived(env, s, id) && ArchiveResult(s, t, LegacyNames(env, s, id), false, r) && r.Some?
    ensures r == Some(true) && t != s
  {
    var n :| n in LegacyNames(env, s, id) && IsFile(s, n) && !BackedUp(s, n);
    hide LegacyNames;
    assert n in t && n != BACKUP_NAME ==> IsFile(t, n);
  }

  /** Outside the staging directory nothing differs, and staging directories only go away. */
  ghost predicate Quiet(s: Tree, t: Tree) {
    && (forall n :: n != STAGING_NAME ==> SameAt(s, t, n))
    && (if IsFile(s, STAGING_NAME) then SameAt(s, t, STAGING_NAME) else !IsFile(t, STAGING_NAME))
    && (STAGING_NAME in s ==> STAGING_NAME in t)
    && Sub(t, STAGING_NAME).Keys <= Sub(s, STAGING_NAME).Keys
  }

  /** The staging directory was made or lost an entry. */
  ghost predicate Dirty(s: Tree, t: Tree) {
    (STAGING_NAME !in s && STAGING_NAME in t) || exists id :: id in Sub(s, STAGING_NAME) && id !in Sub(t, STAGING_NAME)
  }

  lemma QuietTwice(s: Tree, a: Tree, b: Tree)
    requires Quiet(s, a) && Quiet(a, b)
    ensures Quiet(s, b)
    ensures Dirty(s, a) || Dirty(a, b) ==> Dirty(s, b)
  {
    forall n | n != STAGING_NAME
      ensures SameAt(s, b, n)
    {
      assert SameAt(s, a, n) && SameAt(a, b, n);
    }
  }

  lemma QuietSame(env: Env, s: Tree, a: Tree, id: string)
    requires Quiet(s, a) && id != STAGING_NAME
    ensures Published(env, a, id) <==> Published(env, s, id)
    ensures Unarchived(env, a, id) <==> Unarchived(env, s, id)
  {
    assert SameAt(s, a, id);
    assert forall n :: Content(a, n) == Content(s, n) && (BackedUp(a, n) <==> BackedUp(s, n)) by {
      forall n
        ensures Content(a, n) == Content(s, n)
      {
        assert n != STAGING_NAME ==> SameAt(s, a, n);
      }
      assert SameAt(s, a, BACKUP_NAME);
    }
    hide Quiet, BackedUp;
    FilesDetermineNames(env, s, a, id);
    hide LegacyNames;
    assert forall n :: IsFile(a, n) <==> Content(a, n).Some?;
    assert forall n :: IsFile(s, n) <==> Content(s, n).Some?;
  }

  lemma BuildQuiet(env: Env, s: Tree, t: Tree, id: string, r: Built)
    requires BuildResult(env, s, t, id, false, r) && r.Done? && !r.published
    ensures Quiet(s, t)
  {
    hide Complete, Staged;
  }

  // ---------- A map's own files ----------

  predicate BackedUp(s: Tree, n: string) {
    n in Sub(s, BACKUP_NAME)
  }

  /** The raster named by the map's YAML, if it lies directly under the root. */
  function LocalImage(env: Env, s: Tree, id: string): Option<string> {
    match Content(s, Yaml(id))
    case None => None
    case Some(yaml) => (match env.image(yaml) case InRoot(n) => Some(n) case _ => None)
  }

  function Footprint(env: Env, s: Tree, id: string): seq<string> {
    FlatNames(id) + match LocalImage(env, s, id) case None => [] case Some(n) => [n]
  }

  lemma LegacyInFootprint(env: Env, s: Tree, id: string)
    ensures forall n :: n in LegacyNames(env, s, id) ==> n in Footprint(env, s, id)
  {
    hide HasSuffix, Posegraph, Data, Yaml, Manifest, Raster;
  }

  ghost predicate SameAt(s: Tree, t: Tree, n: string) {
    (n in s <==> n in t) && (n in s ==> t[n] == s[n])
  }

  /** The root's subdirectories stay as they are; the migration's own are not meant. */
  ghost predicate KeepsDirs(s: Tree, t: Tree) {
    forall n :: n in s && s[n].Dir? && !Special(n) ==> SameAt(s, t, n)
  }

  lemma KeepsDirsTwice(s: Tree, a: Tree, b: Tree)
    requires KeepsDirs(s, a) && KeepsDirs(a, b)
    ensures KeepsDirs(s, b)
  {
    forall n | n in s && s[n].Dir? && !Special(n)
      ensures SameAt(s, b, n)
    {
      assert SameAt(s, a, n) && SameAt(a, b, n);
    }
  }

  /** The raster is not one of the migration's own directories, and one elsewhere stays while the root's subdirectories do. */
  ghost predicate Proper(env: Env, s: Tree, id: string) {
    && (LocalImage(env, s, id).Some? ==> !Special(LocalImage(env, s, id).value))
    && (IsFile(s, Yaml(id)) && env.image(s[Yaml(id)].content) == Elsewhere ==>
          forall t :: KeepsDirs(s, t) ==> env.foreign(t, s[Yaml(id)].content) == env.foreign(s, s[Yaml(id)].content))
  }

  lemma FootprintNotSpecial(env: Env, s: Tree, id: string)
    requires SafeBasename(id) && Proper(env, s, id)
    ensures forall n :: n in Footprint(env, s, id) ==> !Special(n)
  {
    forall n | n in FlatNames(id)
      ensures !Special(n)
    {
      FlatIsNotSpecial(id, n);
    }
  }

  ghost predicate SameFiles(env: Env, s: Tree, t: Tree, id: string) {
    forall n :: n in Footprint(env, s, id) ==> Content(t, n) == Content(s, n)
  }

  ghost predicate SameBackup(env: Env, s: Tree, t: Tree, id: string) {
    forall n :: n in Footprint(env, s, id) ==> (BackedUp(t, n) <==> BackedUp(s, n))
  }

  /** The files of a map determine what is archived. */
  lemma FilesDetermineNames(env: Env, s: Tree, t: Tree, id: string)
    requires SameFiles(env, s, t, id)
    ensures LocalImage(env, t, id) == LocalImage(env, s, id) && Footprint(env, t, id) == Footprint(env, s, id)
    ensures LegacyNames(env, t, id) == LegacyNames(env, s, id) && ArchiveImage(env, t, id) == ArchiveImage(env, s, id)
  {
    assert Yaml(id) in FlatNames(id) && Manifest(id) in FlatNames(id) && Raster(id) in FlatNames(id);
    hide FlatNames, HasSuffix, WithImage, Posegraph, Data, Yaml, Manifest, Raster;
    assert Content(t, Yaml(id)) == Content(s, Yaml(id)) && Content(t, Manifest(id)) == Content(s, Manifest(id));
    assert Content(t, Raster(id)) == Content(s, Raster(id));
    var image := ArchiveImage(env, s, id);
    assert image.Some? ==> image.value in Footprint(env, s, id);
    assert image.Some? ==> Content(t, image.value) == Content(s, image.value);
  }

  /** The files of a map determine the directory that staging it produces. */
  lemma FilesDetermineStaged(env: Env, s: Tree, t: Tree, id: string)
    requires SafeBasename(id) && Proper(env, s, id) && SameFiles(env, s, t, id) && KeepsDirs(s, t)
    ensures Proper(env, t, id) && (Complete(env, t, id) <==> Complete(env, s, id))
    ensures Complete(env, s, id) ==> Staged(env, t, id) == Staged(env, s, id)
  {
    FilesDetermineNames(env, s, t, id);
    FootprintNotSpecial(env, s, id);
    ProperStays(env, s, t, id);
    assert Posegraph(id) in FlatNames(id) && Data(id) in FlatNames(id) && Yaml(id) in FlatNames(id) && Manifest(id) in FlatNames(id);
    hide FlatNames, HasSuffix, LegacyNames, SafeBasename, Posegraph, Data, Yaml, Manifest, Raster;
    assert Content(t, Posegraph(id)) == Content(s, Posegraph(id)) && Content(t, Data(id)) == Content(s, Data(id));
    assert Content(t, Yaml(id)) == Content(s, Yaml(id)) && Content(t, Manifest(id)) == Content(s, Manifest(id));
    SameImage(env, s, t, id, map[], map[]);
    if Complete(env, s, id) {
      var b2 := map["posegraph.posegraph" := s[Posegraph(id)], "posegraph.data" := s[Data(id)]];
      SameImage(env, s, t, id, b2, b2);
    }
  }

  /** A YAML that is still there still names a proper raster. */
  lemma ProperStays(env: Env, s: Tree, t: Tree, id: string)
    requires Proper(env, s, id) && KeepsDirs(s, t) && (IsFile(t, Yaml(id)) ==> Content(t, Yaml(id)) == Content(s, Yaml(id)))
    ensures Proper(env, t, id)
  {
    hide Yaml;
    if IsFile(t, Yaml(id)) && env.image(t[Yaml(id)].content) == Elsewhere {
      forall x | KeepsDirs(t, x)
        ensures env.foreign(x, t[Yaml(id)].content) == env.foreign(t, t[Yaml(id)].content)
      {
        KeepsDirsTwice(s, t, x);
      }
    }
  }

  lemma StagingKeepsDirs(s: Tree, t: Tree, id: string, b: Tree)
    requires KeepsDirs(s, t)
    ensures KeepsDirs(s, WithStaged(t, id, b))
  {
    forall n | n in s && s[n].Dir? && !Special(n)
      ensures SameAt(s, WithStaged(t, id, b), n)
    {
      assert SameAt(s, t, n);
    }
  }

  lemma SameImage(env: Env, s: Tree, t: Tree, id: string, b: Tree, b': Tree)
    requires Proper(env, s, id) && SameFiles(env, s, t, id) && LocalImage(env, t, id) == LocalImage(env, s, id) && KeepsDirs(s, t)
    requires forall n :: n in Footprint(env, s, id) ==> !Special(n)
    requires Yaml(id) in Footprint(env, s, id)
    ensures ImageContent(env, t, id) == ImageContent(env, s, id)
    ensures ImageContent(env, WithStaged(t, id, b), id) == ImageContent(env, WithStaged(s, id, b'), id)
  {
    StagingKeepsDirs(s, t, id, b);
    StagingKeepsDirs(s, s, id, b');
    hide FlatNames, Yaml, KeepsDirs;
    assert Content(t, Yaml(id)) == Content(s, Yaml(id));
    var image := LocalImage(env, s, id);
    if image.Some? {
      assert image.value in Footprint(env, s, id);
      assert Content(t, image.value) == Content(s, image.value);
    }
  }

  // ---------- One map ----------

  /** Migrating `id` now ends with a validated directory for it. */
  predicate WouldPublish(env: Env, s: Tree, id: string) {
    Published(env, s, id) || (id !in s && Complete(env, s, id) && Staged(env, s, id).Some?)
  }

  /** What migrating `id` makes of the tree: its files to archive move to free backup names if it is published. */
  ghost predicate Processed(env: Env, s: Tree, t: Tree, id: string) {
    && OthersKept(s, t, LegacyNames(env, s, id), id)
    && (if WouldPublish(env, s, id) then Published(env, t, id) && (id in s ==> SameAt(s, t, id)) else SameAt(s, t, id))
    && NamesMoved(s, t, LegacyNames(env, s, id), WouldPublish(env, s, id))
    && BackupGrown(s, t, LegacyNames(env, s, id), WouldPublish(env, s, id))
    && ProcessedStaging(env, s, t, id)
    && NoSpecialFile(s, t)
  }

  ghost predicate NoSpecialFile(s: Tree, t: Tree) {
    && (IsFile(t, STAGING_NAME) ==> IsFile(s, STAGING_NAME) && t[STAGING_NAME] == s[STAGING_NAME])
    && (IsFile(t, BACKUP_NAME) ==> IsFile(s, BACKUP_NAME) && t[BACKUP_NAME] == s[BACKUP_NAME])
  }

  ghost predicate OthersKept(s: Tree, t: Tree, names: seq<string>, id: string) {
    forall n :: (n !in names || !IsFile(s, n)) && n != id && !Special(n) ==> SameAt(s, t, n)
  }

  ghost predicate NamesMoved(s: Tree, t: Tree, names: seq<string>, moves: bool) {
    forall n :: n in names ==>
      && (IsFile(t, n) <==> IsFile(s, n) && !(moves && !BackedUp(s, n)))
      && (IsFile(t, n) ==> t[n] == s[n])
      && (IsFile(s, n) && !IsFile(t, n) ==> n !in t)
  }

  ghost predicate BackupGrown(s: Tree, t: Tree, names: seq<string>, moves: bool) {
    forall n :: BackedUp(t, n) <==> BackedUp(s, n) || (moves && n in names && IsFile(s, n))
  }

  ghost predicate ProcessedStaging(env: Env, s: Tree, t: Tree, id: string) {
    && (STAGING_NAME in s && s[STAGING_NAME].Dir? ==> STAGING_NAME in t && t[STAGING_NAME].Dir?)
    && Sub(t, STAGING_NAME).Keys <= Sub(s, STAGING_NAME).Keys
    && (id !in s && Complete(env, s, id) ==> STAGING_NAME in t && t[STAGING_NAME].Dir? && id !in Sub(t, STAGING_NAME))
  }

  lemma BuildKeepsFiles(env: Env, s: Tree, m: Tree, id: string, r: Built)
    requires BuildResult(env, s, m, id, false, r) && SafeBasename(id) && Proper(env, s, id)
    ensures SameFiles(env, s, m, id) && Sub(m, BACKUP_NAME) == Sub(s, BACKUP_NAME)
    ensures forall n :: n != id && n != STAGING_NAME ==> SameAt(s, m, n)
  {
    FootprintNotSpecial(env, s, id);
    SafeIsNotSpecial(id);
    hide SafeBasename, FlatNames, Complete, Staged, Footprint, Published;
  }

  lemma UnsafeProcesses(env: Env, s: Tree, t: Tree, id: string, r: Built)
    requires BuildResult(env, s, t, id, false, r) && r.Done? && !r.safe && SafeBasename(id) && Proper(env, s, id)
    ensures Processed(env, s, t, id)
  {
    SafeIsNotSpecial(id);
    BuildKeepsFiles(env, s, t, id, r);
    LegacyInFootprint(env, s, id);
    FootprintNotSpecial(env, s, id);
    SafeBuild(env, s, t, id, r);
    hide BuildResult, SafeBasename, LegacyNames, WouldPublish, Proper, ProcessedStaging, Footprint, Published, SameFiles;
  }

  lemma SafeBuild(env: Env, s: Tree, m: Tree, id: string, r: Built)
    requires BuildResult(env, s, m, id, false, r) && r.Done? && !Special(id)
    ensures r.safe <==> WouldPublish(env, s, id)
    ensures r.safe ==> Published(env, m, id)
    ensures !r.safe || id in s ==> SameAt(s, m, id)
    ensures id in m ==> (id in s && SameAt(s, m, id)) || m[id].Dir?
    ensures ProcessedStaging(env, s, m, id) && NoSpecialFile(s, m)
  {
    hide Complete, Staged;
  }

  lemma SafeProcesses(env: Env, s: Tree, m: Tree, t: Tree, id: string, r: Built, archived: Option<bool>)
    requires BuildResult(env, s, m, id, false, r) && r.Done? && r.safe && SafeBasename(id) && Proper(env, s, id)
    requires ArchiveResult(m, t, LegacyNames(env, m, id), false, archived) && archived.Some?
    ensures Processed(env, s, t, id)
  {
    var names := LegacyNames(env, s, id);
    SafeIsNotSpecial(id);
    BuildKeepsFiles(env, s, m, id, r);
    FilesDetermineNames(env, s, m, id);
    LegacyInFootprint(env, s, id);
    FootprintNotSpecial(env, s, id);
    SafeBuild(env, s, m, id, r);
    hide BuildResult, SafeBasename, LegacyNames, WouldPublish, Proper, ArchiveResult;
    assert forall n :: n in names ==> Content(m, n) == Content(s, n) && !Special(n);
    ArchiveMoves(m, t, names, archived);
    hide Footprint, SameFiles;
    assert SameAt(m, t, id) && SameAt(m, t, STAGING_NAME);
    assert ProcessedStaging(env, s, t, id);
    hide ProcessedStaging, NamesMoved, BackupGrown;
    ArchiveAfterBuild(s, m, t, names, id);
    hide OthersKept;
  }

  lemma ArchiveAfterBuild(s: Tree, m: Tree, t: Tree, names: seq<string>, id: string)
    requires forall n :: n != id && n != STAGING_NAME ==> SameAt(s, m, n)
    requires Sub(m, BACKUP_NAME) == Sub(s, BACKUP_NAME) && forall n :: n in names ==> Content(m, n) == Content(s, n) && !Special(n)
    requires OthersKept(m, t, names, id) && NamesMoved(m, t, names, true) && BackupGrown(m, t, names, true)
    ensures OthersKept(s, t, names, id) && NamesMoved(s, t, names, true) && BackupGrown(s, t, names, true)
  {
    forall n | (n !in names || !IsFile(s, n)) && n != id && !Special(n)
      ensures SameAt(s, t, n)
    {
      assert SameAt(s, m, n) && SameAt(m, t, n);
    }
  }

  /** Archiving moves exactly the files whose backup name is free. */
  lemma ArchiveMoves(s: Tree, t: Tree, names: seq<string>, r: Option<bool>)
    requires ArchiveResult(s, t, names, false, r) && r.Some? && forall n :: n in names ==> !Special(n)
    ensures forall n :: (n !in names || !IsFile(s, n)) && n != BACKUP_NAME ==> SameAt(s, t, n)
    ensures NamesMoved(s, t, names, true) && BackupGrown(s, t, names, true) && NoSpecialFile(s, t)
  {
  }

  // ---------- What a first archive leaves behind ----------

  /** A flat file that archiving `id` neither moves nor finds in the backup. */
  predicate Skipped(env: Env, s: Tree, id: string, n: string) {
    IsFile(s, n) && !BackedUp(s, n) && n !in LegacyNames(env, s, id)
  }

  predicate ImageBackedUp(env: Env, s: Tree, id: string) {
    LocalImage(env, s, id).Some? && BackedUp(s, LocalImage(env, s, id).value)
  }

  /**
   Archiving `id` leaves a file behind that the next run takes up. The usual raster is skipped when the YAML names
   another one, and taken up once the YAML has moved. A core file is skipped when the raster has its extension, and
   taken up unless YAML and raster stay because their backup names are taken.
   */
  predicate Leftover(env: Env, s: Tree, id: string) {
    || (Skipped(env, s, id, Raster(id)) && !BackedUp(s, Yaml(id)) && Yaml(id) in LegacyNames(env, s, id))
    || ((Skipped(env, s, id, Posegraph(id)) || Skipped(env, s, id, Data(id))) && !(BackedUp(s, Yaml(id)) && ImageBackedUp(env, s, id)))
    || (Skipped(env, s, id, Yaml(id)) && !ImageBackedUp(env, s, id))
  }

  ghost predicate Unarchived(env: Env, s: Tree, id: string) {
    exists n :: n in LegacyNames(env, s, id) && IsFile(s, n) && !BackedUp(s, n)
  }

  lemma FlatDistinct(id: string)
    ensures var f := [Posegraph(id), Data(id), Yaml(id), Manifest(id), Raster(id)];
            forall i, j :: 0 <= i < j < 5 ==> f[i] != f[j]
  {
    OwnerIsUnique(id, id);
    assert [Posegraph(id), Data(id), Yaml(id), Manifest(id), Raster(id)] == FlatNames(id);
  }

  /** `t` is `s` after archiving the map. */
  ghost predicate ArchivedTo(env: Env, s: Tree, t: Tree, id: string) {
    && NamesMoved(s, t, LegacyNames(env, s, id), true) && BackupGrown(s, t, LegacyNames(env, s, id), true)
    && (forall n :: n in Footprint(env, s, id) && n !in LegacyNames(env, s, id) ==> Content(t, n) == Content(s, n))
  }

  /** The files to archive, by what the raster displaces. */
  function NamesWith(p: string, d: string, y: string, rest: seq<string>, image: Option<string>): seq<string> {
    match image
    case None => [p, d, y] + rest
    case Some(n) =>
      if HasSuffix(n, ".posegraph") then [n, d, y] + rest
      else if HasSuffix(n, ".data") then [p, n, y] + rest
      else if HasSuffix(n, ".yaml") then [p, d, n] + rest
      else [p, d, y] + rest + [n]
  }

  function PresentImage(env: Env, s: Tree, id: string): Option<string> {
    var image := ArchiveImage(env, s, id);
    if image.Some? && IsFile(s, image.value) then image else None
  }

  lemma NamesAreNamesWith(env: Env, s: Tree, id: string)
    ensures LegacyNames(env, s, id) ==
            NamesWith(Posegraph(id), Data(id), Yaml(id), if IsFile(s, Manifest(id)) then [Manifest(id)] else [], PresentImage(env, s, id))
  {
    hide ArchiveImage, HasSuffix, Posegraph, Data, Yaml, Manifest, Raster;
    var rest := if IsFile(s, Manifest(id)) then [Manifest(id)] else [];
    var core := [Posegraph(id), Data(id), Yaml(id)] + rest;
    if PresentImage(env, s, id).Some? {
      var n := PresentImage(env, s, id).value;
      assert core[0 := n] == [n, Data(id), Yaml(id)] + rest;
      assert core[1 := n] == [Posegraph(id), n, Yaml(id)] + rest;
      assert core[2 := n] == [Posegraph(id), Data(id), n] + rest;
    }
  }

  /** The suffix that makes a raster take the place of a core file. */
  predicate Displaces(image: Option<string>, suffix: string, core: string) {
    image.Some? && HasSuffix(image.value, suffix) && image.value != core
  }

  lemma MembersOf(p: string, d: string, y: string, m: string, rest: seq<string>, image: Option<string>, r: string)
    requires p != d && p != y && p != m && p != r && d != y && d != m && d != r && y != m && y != r && m != r
    requires rest == [] || rest == [m]
    requires !HasSuffix(r, ".posegraph") && !HasSuffix(r, ".data") && !HasSuffix(r, ".yaml")
    ensures var names := NamesWith(p, d, y, rest, image);
            && (p in names <==> !Displaces(image, ".posegraph", p))
            && (d in names <==> !Displaces(image, ".data", d))
            && (y in names <==> !Displaces(image, ".yaml", y))
            && (image.Some? ==> image.value in names) && (forall n :: n in rest ==> n in names)
            && (r in names <==> image == Some(r))
  {
    SuffixesDiffer(image);
    hide HasSuffix;
    var names := NamesWith(p, d, y, rest, image);
    if image.Some? {
      assert names[0] == image.value || names[1] == image.value || names[2] == image.value || names[|names| - 1] == image.value;
    }
    assert names[0] == p || Displaces(image, ".posegraph", p) || image == Some(p);
    assert names[1] == d || Displaces(image, ".data", d) || image == Some(d);
    assert names[2] == y || Displaces(image, ".yaml", y) || image == Some(y);
  }

  lemma SuffixesDiffer(n: Option<string>)
    ensures n.Some? ==> !(HasSuffix(n.value, ".posegraph") && HasSuffix(n.value, ".data"))
    ensures n.Some? ==> !(HasSuffix(n.value, ".posegraph") && HasSuffix(n.value, ".yaml"))
    ensures n.Some? ==> !(HasSuffix(n.value, ".data") && HasSuffix(n.value, ".yaml"))
  {
    if n.Some? {
      assert HasSuffix(n.value, ".posegraph") ==> n.value[|n.value| - 1] == 'h';
      assert HasSuffix(n.value, ".data") ==> n.value[|n.value| - 1] == 'a';
      assert HasSuffix(n.value, ".yaml") ==> n.value[|n.value| - 1] == 'l';
    }
  }

  lemma Members(env: Env, s: Tree, id: string)
    ensures var names, image := LegacyNames(env, s, id), PresentImage(env, s, id);
            && (Posegraph(id) in names <==> !Displaces(image, ".posegraph", Posegraph(id)))
            && (Data(id) in names <==> !Displaces(image, ".data", Data(id)))
            && (Yaml(id) in names <==> !Displaces(image, ".yaml", Yaml(id)))
            && (IsFile(s, Manifest(id)) ==> Manifest(id) in names)
            && (Raster(id) in names <==> image == Some(Raster(id)))
            && (image.Some? ==> image.value in names)
  {
    FlatDistinct(id);
    RasterHasNoCoreSuffix(id);
    NamesAreNamesWith(env, s, id);
    var f := [Posegraph(id), Data(id), Yaml(id), Manifest(id), Raster(id)];
    assert f[0] != f[1] && f[0] != f[2] && f[0] != f[3] && f[0] != f[4] && f[1] != f[2] && f[1] != f[3] && f[1] != f[4];
    assert f[2] != f[3] && f[2] != f[4] && f[3] != f[4];
    hide LegacyNames, PresentImage, NamesWith, Displaces, HasSuffix, Posegraph, Data, Yaml, Manifest, Raster;
    var rest := if IsFile(s, Manifest(id)) then [Manifest(id)] else [];
    MembersOf(f[0], f[1], f[2], f[3], rest, PresentImage(env, s, id), f[4]);
  }

  /** The raster that the next run finds: it stays exactly when the YAML and the raster stay. */
  lemma NextImage(env: Env, s: Tree, t: Tree, id: string)
    requires ArchivedTo(env, s, t, id)
    ensures IsFile(t, Yaml(id)) <==> IsFile(s, Yaml(id)) && (BackedUp(s, Yaml(id)) || Yaml(id) !in LegacyNames(env, s, id))
    ensures IsFile(t, Yaml(id)) ==> ArchiveImage(env, t, id) == ArchiveImage(env, s, id)
    ensures !IsFile(t, Yaml(id)) ==> ArchiveImage(env, t, id) == Some(Raster(id))
    ensures IsFile(t, Yaml(id)) && LocalImage(env, s, id).Some? ==>
              PresentImage(env, t, id) == if ImageBackedUp(env, s, id) then PresentImage(env, s, id) else None
  {
    Members(env, s, id);
    assert Yaml(id) in Footprint(env, s, id) by { assert Yaml(id) in FlatNames(id); }
    hide LegacyNames, Footprint, Displaces, Posegraph, Data, Yaml, Manifest, Raster;
    assert IsFile(t, Yaml(id)) ==> Content(t, Yaml(id)) == Content(s, Yaml(id));
    if LocalImage(env, s, id).Some? {
      var n := LocalImage(env, s, id).value;
      assert n in Footprint(env, s, id) by { InFootprint(env, s, id); }
      assert n !in LegacyNames(env, s, id) ==> Content(t, n) == Content(s, n);
    }
  }

  lemma InFootprint(env: Env, s: Tree, id: string)
    ensures LocalImage(env, s, id).Some? ==> LocalImage(env, s, id).value in Footprint(env, s, id)
    ensures forall n :: n in FlatNames(id) ==> n in Footprint(env, s, id)
  {
    hide FlatNames;
  }

  /** A raster other than the usual one is the YAML's. */
  lemma OtherImageIsLocal(env: Env, s: Tree, id: string)
    requires PresentImage(env, s, id).Some? && PresentImage(env, s, id) != Some(Raster(id))
    ensures IsFile(s, Yaml(id)) && LocalImage(env, s, id) == PresentImage(env, s, id)
  {
    hide Yaml, Raster;
  }

  /** When the next run archives a file that this one skipped. */
  lemma TakenUp(env: Env, s: Tree, t: Tree, id: string)
    requires ArchivedTo(env, s, t, id)
    ensures Skipped(env, s, id, Posegraph(id)) ==>
              (Posegraph(id) in LegacyNames(env, t, id) <==> !(BackedUp(s, Yaml(id)) && ImageBackedUp(env, s, id)))
    ensures Skipped(env, s, id, Data(id)) ==>
              (Data(id) in LegacyNames(env, t, id) <==> !(BackedUp(s, Yaml(id)) && ImageBackedUp(env, s, id)))
    ensures Skipped(env, s, id, Yaml(id)) ==> (Yaml(id) in LegacyNames(env, t, id) <==> !ImageBackedUp(env, s, id))
    ensures Skipped(env, s, id, Raster(id)) ==>
              (Raster(id) in LegacyNames(env, t, id) <==> !BackedUp(s, Yaml(id)) && Yaml(id) in LegacyNames(env, s, id))
    ensures !Skipped(env, s, id, Manifest(id))
  {
    Members(env, s, id);
    Members(env, t, id);
    NextImage(env, s, t, id);
    SuffixesDiffer(PresentImage(env, s, id));
    RasterHasNoCoreSuffix(id);
    var image := PresentImage(env, s, id);
    if image.Some? && image.value != Raster(id) {
      OtherImageIsLocal(env, s, id);
    }
    assert IsFile(t, Raster(id)) ==> IsFile(s, Raster(id)) by { RasterOnly(env, s, t, id); }
    assert Skipped(env, s, id, Raster(id)) ==> IsFile(t, Raster(id)) by { RasterOnly(env, s, t, id); }
    assert Skipped(env, s, id, Raster(id)) ==> ArchiveImage(env, s, id) != Some(Raster(id));
    assert !IsFile(s, Yaml(id)) ==> ArchiveImage(env, s, id) == Some(Raster(id));
    hide LegacyNames, ArchivedTo, HasSuffix, LocalImage, ImageBackedUp, BackedUp, ArchiveImage, Posegraph, Data, Yaml, Manifest, Raster;
  }

  lemma RasterOnly(env: Env, s: Tree, t: Tree, id: string)
    requires ArchivedTo(env, s, t, id)
    ensures IsFile(t, Raster(id)) ==> IsFile(s, Raster(id))
    ensures Skipped(env, s, id, Raster(id)) ==> IsFile(t, Raster(id))
  {
    InFootprint(env, s, id);
    assert Raster(id) in FlatNames(id);
    hide LegacyNames, FlatNames, Footprint, Raster;
    assert Raster(id) !in LegacyNames(env, s, id) ==> Content(t, Raster(id)) == Content(s, Raster(id));
  }

  /** After archiving a published map something is left to archive exactly when the tree before it says so. */
  lemma LeftoverExact(env: Env, s: Tree, t: Tree, id: string)
    requires ArchivedTo(env, s, t, id)
    ensures Unarchived(env, t, id) <==> Leftover(env, s, id)
  {
    TakenUp(env, s, t, id);
    forall n | n in LegacyNames(env, t, id)
      ensures IsFile(t, n) && !BackedUp(t, n) <==> Skipped(env, s, id, n)
    {
      StillThere(env, s, t, id, n);
    }
    SkippedIsFlat(env, s, t, id);
    hide LegacyNames, ArchivedTo, Skipped, BackedUp, ImageBackedUp, Posegraph, Data, Yaml, Manifest, Raster;
    if Unarchived(env, t, id) {
      var n :| n in LegacyNames(env, t, id) && IsFile(t, n) && !BackedUp(t, n);
      assert Skipped(env, s, id, n);
    }
  }

  lemma StillThere(env: Env, s: Tree, t: Tree, id: string, n: string)
    requires ArchivedTo(env, s, t, id) && n in LegacyNames(env, t, id)
    ensures IsFile(t, n) && !BackedUp(t, n) <==> Skipped(env, s, id, n)
  {
    NextFootprint(env, s, t, id);
    LegacyInFootprint(env, t, id);
    hide LegacyNames, Footprint;
    assert n in Footprint(env, s, id);
  }

  lemma NextFootprint(env: Env, s: Tree, t: Tree, id: string)
    requires ArchivedTo(env, s, t, id)
    ensures forall n :: n in Footprint(env, t, id) ==> n in Footprint(env, s, id)
  {
    InFootprint(env, s, id);
    assert Yaml(id) in FlatNames(id);
    hide LegacyNames, FlatNames, Yaml;
    assert IsFile(t, Yaml(id)) ==> Content(t, Yaml(id)) == Content(s, Yaml(id));
  }

  lemma SkippedIsFlat(env: Env, s: Tree, t: Tree, id: string)
    requires ArchivedTo(env, s, t, id)
    ensures forall n :: n in LegacyNames(env, t, id) && Skipped(env, s, id, n) ==>
              n == Posegraph(id) || n == Data(id) || n == Yaml(id) || n == Raster(id)
  {
    NextFootprint(env, s, t, id);
    LegacyInFootprint(env, t, id);
    Members(env, s, id);
    forall n | n in LegacyNames(env, t, id) && Skipped(env, s, id, n)
      ensures n == Posegraph(id) || n == Data(id) || n == Yaml(id) || n == Raster(id)
    {
      assert n in Footprint(env, s, id);
      assert n in FlatNames(id) || LocalImage(env, s, id) == Some(n);
      assert LocalImage(env, s, id) == Some(n) ==> PresentImage(env, s, id) == Some(n);
    }
  }

  lemma ProcessedFiles(env: Env, s: Tree, t: Tree, id: string)
    requires Processed(env, s, t, id) && SafeBasename(id) && Proper(env, s, id)
    ensures if WouldPublish(env, s, id) then ArchivedTo(env, s, t, id) else SameFiles(env, s, t, id)
  {
    FootprintNotSpecial(env, s, id);
    LegacyInFootprint(env, s, id);
    hide LegacyNames, Footprint, SafeBasename, WouldPublish, ProcessedStaging;
    forall n | n in Footprint(env, s, id) && n !in LegacyNames(env, s, id)
      ensures Content(t, n) == Content(s, n)
    {
      assert n != id ==> SameAt(s, t, n);
      if n == id && !SameAt(s, t, n) {
        assert Published(env, t, id) && id !in s;
      }
    }
  }

  lemma ProcessedKeepsDirs(env: Env, s: Tree, t: Tree, id: string)
    requires Processed(env, s, t, id)
    ensures KeepsDirs(s, t)
  {
    hide LegacyNames, Complete, Staged;
    forall n | n in s && s[n].Dir? && !Special(n)
      ensures SameAt(s, t, n)
    {
      assert n != id ==> SameAt(s, t, n);
    }
  }

  /** Migrating a map settles it, unless the map is published and something is left over. */
  lemma ProcessedSettles(env: Env, s: Tree, t: Tree, id: string)
    requires Processed(env, s, t, id) && SafeBasename(id) && Proper(env, s, id)
    ensures Settled(env, t, id) <==> !(WouldPublish(env, s, id) && Leftover(env, s, id))
    ensures WouldPublish(env, s, id) ==> Published(env, t, id)
  {
    ProcessedFiles(env, s, t, id);
    ProcessedKeepsDirs(env, s, t, id);
    if WouldPublish(env, s, id) {
      LeftoverExact(env, s, t, id);
      hide LegacyNames, Leftover, ArchivedTo, OthersKept, NamesMoved, BackupGrown, ProcessedStaging, SafeBasename, Proper;
    } else if id !in s {
      FilesDetermineStaged(env, s, t, id);
      hide LegacyNames, Staged, Complete, OthersKept, NamesMoved, BackupGrown, SafeBasename, Proper, Leftover, SameFiles;
    }
  }

  lemma FlatOwner(id: string, other: string, n: string)
    ensures n in FlatNames(id) && n in FlatNames(other) ==> id == other
  {
    if n in FlatNames(id) && n in FlatNames(other) {
      OwnerIsUnique(id, other);
      var i :| 0 <= i < 5 && FlatNames(id)[i] == n;
      var j :| 0 <= j < 5 && FlatNames(other)[j] == n;
    }
  }

  // ---------- What the operations on one map come to ----------

  /** Nothing stands where the migration makes directories, so no operation raises. */
  ghost predicate Clear(s: Tree) {
    !IsFile(s, STAGING_NAME) && !IsFile(s, BACKUP_NAME) && forall n :: n in Sub(s, STAGING_NAME) ==> Sub(s, STAGING_NAME)[n].Dir?
  }

  /** The result of migrating one map: nothing changes exactly when it is settled, and otherwise the count or the staging directory tells. */
  ghost predicate MapMigrated(env: Env, s: Tree, t: Tree, id: string, changed: Option<nat>) {
    && (Settled(env, s, id) <==> t == s && changed == Some(0))
    && (changed == Some(0) ==> Quiet(s, t) && (Settled(env, s, id) || Dirty(s, t)) && !(Published(env, s, id) && Unarchived(env, s, id)))
    && (changed.Some? && Proper(env, s, id) ==> Processed(env, s, t, id))
    && (Clear(s) ==> Clear(t) && changed.Some?)
  }

  lemma BuiltOnly(env: Env, s: Tree, t: Tree, id: string, r: Built, changed: Option<nat>)
    requires BuildResult(env, s, t, id, false, r) && SafeBasename(id) && (r.Done? ==> !r.safe)
    requires changed == if r.Raised? then None else Some(if r.published then 1 else 0)
    ensures MapMigrated(env, s, t, id, changed)
  {
    if Settled(env, s, id) {
      BuildStays(env, s, t, id, r);
    } else if r.Done? && !r.published {
      BuildChanges(env, s, t, id, r);
    }
    if r.Done? && !r.published {
      BuildQuiet(env, s, t, id, r);
    }
    if r.Done? && Proper(env, s, id) {
      UnsafeProcesses(env, s, t, id, r);
    }
    BuildClear(env, s, t, id, r);
    hide Complete, Staged, Quiet, Dirty, Processed, Proper, Clear, SafeBasename, Unarchived, LegacyNames, Settled;
  }

  lemma BuildClear(env: Env, s: Tree, t: Tree, id: string, r: Built)
    requires BuildResult(env, s, t, id, false, r) && SafeBasename(id)
    ensures Clear(s) ==> Clear(t) && r.Done?
  {
    SafeIsNotSpecial(id);
    hide Complete, Staged, SafeBasename, Published;
  }

  lemma ArchiveClear(s: Tree, t: Tree, names: seq<string>, r: Option<bool>)
    requires ArchiveResult(s, t, names, false, r)
    ensures Clear(s) ==> Clear(t) && r.Some?
  {
    if Clear(s) && t != s {
      assert STAGING_NAME != BACKUP_NAME;
      assert STAGING_NAME in t ==> STAGING_NAME in s && t[STAGING_NAME] == s[STAGING_NAME];
      assert Sub(t, STAGING_NAME) == Sub(s, STAGING_NAME) || Sub(t, STAGING_NAME) == map[];
    }
  }

  lemma BuiltAndArchived(env: Env, s: Tree, m: Tree, t: Tree, id: string, r: Built, archived: Option<bool>, changed: Option<nat>)
    requires BuildResult(env, s, m, id, false, r) && SafeBasename(id) && r.Done? && r.safe
    requires ArchiveResult(m, t, LegacyNames(env, m, id), false, archived)
    requires changed == if archived.None? then None else Some((if r.published then 1 else 0) + if archived.value then 1 else 0)
    ensures MapMigrated(env, s, t, id, changed)
  {
    BuildClear(env, s, m, id, r);
    ArchiveClear(m, t, LegacyNames(env, m, id), archived);
    if archived.Some? && Proper(env, s, id) {
      SafeProcesses(env, s, m, t, id, r, archived);
    }
    hide Processed, Proper, Clear, SafeBasename, Staged, Complete, LegacyNames, ArchiveResult;
    assert r.published <==> id !in s;
    if id in s {
      assert m == s && Published(env, s, id);
      hide BuildResult;
      ArchivedOnly(env, s, t, id, archived);
    } else {
      assert t == s ==> id !in t;
      assert !Settled(env, s, id);
    }
  }

  lemma ArchivedOnly(env: Env, s: Tree, t: Tree, id: string, archived: Option<bool>)
    requires Published(env, s, id) && ArchiveResult(s, t, LegacyNames(env, s, id), false, archived)
    ensures Settled(env, s, id) <==> t == s && archived == Some(false)
    ensures archived == Some(false) ==> Quiet(s, t) && !Unarchived(env, s, id)
  {
    if Settled(env, s, id) {
      SettledStays(env, s, t, id, archived);
    } else if archived.Some? {
      ArchiveChanges(env, s, t, id, archived);
    }
    hide LegacyNames, ArchiveResult;
  }

  lemma SafeMeansPublished(env: Env, s: Tree, t: Tree, id: string, dry: bool, r: Built)
    requires BuildResult(env, s, t, id, dry, r) && r.Done? && r.safe
    ensures Published(env, t, id)
  {
  }
}
