/** Map bundles as directory trees: names, what the migration reads of them, and what staging and archiving make of them. */
module MapTree {
  import opened Options

  /** A file with its bytes, or a directory; `Tree` is the content of a directory. */
  datatype Node = File(content: string) | Dir(entries: Tree)
  type Tree = map<string, Node>

  const STAGING_NAME := ".staging"
  const BACKUP_NAME := ".legacy-migrated"

  predicate IsFile(t: Tree, n: string) {
    n in t && t[n].File?
  }

  /** The content of a subdirectory, empty when there is none. */
  function Sub(t: Tree, n: string): Tree {
    if n in t && t[n].Dir? then t[n].entries else map[]
  }

  // ---------- Names ----------

  predicate AlphaNumeric(c: char) {
    'A' <= c <= 'Z' || 'a' <= c <= 'z' || '0' <= c <= '9'
  }

  predicate SafeBasename(id: string) {
    && 1 <= |id| <= 64
    && AlphaNumeric(id[0])
    && (forall i :: 0 <= i < |id| ==> AlphaNumeric(id[i]) || id[i] == '.' || id[i] == '_' || id[i] == '-')
    && (forall i :: 0 < i < |id| ==> !(id[i - 1] == '.' && id[i] == '.'))
  }

  function Posegraph(id: string): string { id + ".posegraph" }
  function Data(id: string): string { id + ".data" }
  function Yaml(id: string): string { id + ".yaml" }
  function Manifest(id: string): string { id + ".manifest.json" }
  function Raster(id: string): string { id + ".pgm" }

  function FlatNames(id: string): seq<string> {
    [Posegraph(id), Data(id), Yaml(id), Manifest(id), Raster(id)]
  }

  /** A legacy name tells its map id. */
  lemma OwnerIsUnique(id: string, id': string)
    ensures forall i, j :: 0 <= i < 5 && 0 <= j < 5 && FlatNames(id)[i] == FlatNames(id')[j] ==> id == id' && i == j
  {
    forall i, j | 0 <= i < 5 && 0 <= j < 5 && FlatNames(id)[i] == FlatNames(id')[j]
      ensures id == id' && i == j
    {
      var a, b := FlatNames(id)[i], FlatNames(id')[j];
      LastLetters(id);
      LastLetters(id');
      assert a[|a| - 1] == b[|b| - 1];
      assert i == j;
      assert id == a[..|id|] && id' == b[..|id'|];
    }
  }

  lemma LastLetters(id: string)
    ensures forall i :: 0 <= i < 5 ==> |FlatNames(id)[i]| > |id| && FlatNames(id)[i][|FlatNames(id)[i]| - 1] == "halnm"[i]
  {
  }

  /** Code-point order of names, the order in which ids are migrated. */
  predicate Before(a: string, b: string) {
    if b == "" then false
    else if a == "" then true
    else a[0] < b[0] || (a[0] == b[0] && Before(a[1..], b[1..]))
  }

  lemma {:induction false} BeforeTransitive(a: string, b: string, c: string)
    requires Before(a, b) && Before(b, c)
    ensures Before(a, c)
  {
    if a != "" && a[0] == b[0] == c[0] {
      BeforeTransitive(a[1..], b[1..], c[1..]);
    }
  }

  lemma {:induction false} BeforeTotal(a: string, b: string)
    ensures Before(a, b) || a == b || Before(b, a)
  {
    if a != "" && b != "" && a[0] == b[0] {
      BeforeTotal(a[1..], b[1..]);
      assert a == [a[0]] + a[1..] && b == [b[0]] + b[1..];
    }
  }

  lemma {:induction false} BeforeIrreflexive(a: string)
    ensures !Before(a, a)
  {
    if a != "" {
      BeforeIrreflexive(a[1..]);
    }
  }

  lemma {:induction false} BeforeExtension(a: string, suffix: string)
    requires suffix != ""
    ensures Before(a, a + suffix)
  {
    if a != "" {
      assert (a + suffix)[1..] == a[1..] + suffix;
      BeforeExtension(a[1..], suffix);
    }
  }

  /** No id is a flat file name of an id that is migrated after it. */
  lemma NotAFlatNameOfALater(id: string, later: string)
    requires Before(id, later)
    ensures id !in FlatNames(later) && id != later
  {
    BeforeIrreflexive(id);
    if id in FlatNames(later) {
      var i :| 0 <= i < 5 && id == FlatNames(later)[i];
      var suffix := id[|later|..];
      assert id == later + suffix;
      BeforeExtension(later, suffix);
      BeforeTransitive(id, later, id);
    }
  }

  // ---------- What the migration reads ----------

  /** What a map's YAML says about its raster. */
  datatype Image = Unresolvable | InRoot(name: string) | Elsewhere

  /** The parsers, hashes and validity rules of map bundles, and the staging operation at which the disk fails, if any. */
  datatype Env = Env(
    image: string -> Image,
    foreign: (Tree, string) -> Option<string>,
    rewrite: string -> Option<string>,
    manifest: (string, Tree, Option<string>) -> Option<string>,
    validate: Tree -> bool,
    fault: string -> nat)

  function Content(t: Tree, n: string): Option<string> {
    if IsFile(t, n) then Some(t[n].content) else None
  }

  /** The raster a map's YAML refers to, if it is a file. */
  function ImageContent(env: Env, t: Tree, id: string): Option<string> {
    match Content(t, Yaml(id))
    case None => None
    case Some(yaml) =>
      match env.image(yaml)
      case Unresolvable => None
      case InRoot(n) => Content(t, n)
      case Elsewhere => env.foreign(t, yaml)
  }

  predicate NonEmpty(c: Option<string>) {
    c.Some? && c.value != ""
  }

  predicate Complete(env: Env, t: Tree, id: string) {
    && NonEmpty(Content(t, Posegraph(id)))
    && NonEmpty(Content(t, Data(id)))
    && NonEmpty(Content(t, Yaml(id)))
    && NonEmpty(ImageContent(env, t, id))
  }

  predicate Published(env: Env, t: Tree, id: string) {
    id in t && t[id].Dir? && env.validate(t[id].entries)
  }

  /** The raster to archive: the one the YAML refers to, if that is directly under the root, else the usual name. */
  function ArchiveImage(env: Env, t: Tree, id: string): Option<string> {
    match Content(t, Yaml(id))
    case None => Some(Raster(id))
    case Some(yaml) =>
      match env.image(yaml)
      case Unresolvable => Some(Raster(id))
      case InRoot(n) => Some(n)
      case Elsewhere => None
  }

  predicate HasSuffix(n: string, suffix: string) {
    |n| > |suffix| && n[|n| - |suffix|..] == suffix
  }

  /** Adds the raster to the files to archive; one with a core extension takes the place of that core file. */
  function WithImage(core: seq<string>, n: string): (names: seq<string>)
    requires |core| >= 3
  {
    if HasSuffix(n, ".posegraph") then core[0 := n]
    else if HasSuffix(n, ".data") then core[1 := n]
    else if HasSuffix(n, ".yaml") then core[2 := n]
    else core + [n]
  }

  function LegacyNames(env: Env, t: Tree, id: string): (names: seq<string>) {
    var core := [Posegraph(id), Data(id), Yaml(id)] + if IsFile(t, Manifest(id)) then [Manifest(id)] else [];
    var image := ArchiveImage(env, t, id);
    if image.Some? && IsFile(t, image.value) then WithImage(core, image.value) else core
  }

  ghost predicate RastersNamed(env: Env, t: Tree) {
    forall id :: IsFile(t, Yaml(id)) ==>
      env.image(t[Yaml(id)].content) == Unresolvable || env.image(t[Yaml(id)].content) == InRoot(Raster(id))
  }

  lemma RasterHasNoCoreSuffix(id: string)
    ensures !HasSuffix(Raster(id), ".posegraph") && !HasSuffix(Raster(id), ".data") && !HasSuffix(Raster(id), ".yaml")
  {
    var n := Raster(id);
    assert n[|n| - 1] == 'm';
  }

  /** With rasters named after their map, the files to archive are the map's five flat files. */
  lemma NamedLegacy(env: Env, t: Tree, id: string)
    requires RastersNamed(env, t)
    ensures forall n :: IsFile(t, n) ==> (n in LegacyNames(env, t, id) <==> n in FlatNames(id))
  {
    RasterHasNoCoreSuffix(id);
    assert ArchiveImage(env, t, id) == Some(Raster(id));
    hide RastersNamed, HasSuffix, ArchiveImage, Posegraph, Data, Yaml, Manifest, Raster;
    var core := [Posegraph(id), Data(id), Yaml(id)];
    var rest := (if IsFile(t, Manifest(id)) then [Manifest(id)] else []) + if IsFile(t, Raster(id)) then [Raster(id)] else [];
    assert LegacyNames(env, t, id) == core + rest;
    assert FlatNames(id) == core + [Manifest(id), Raster(id)];
    hide FlatNames, LegacyNames;
  }

  predicate Special(n: string) {
    n == STAGING_NAME || n == BACKUP_NAME
  }

  lemma SafeIsNotSpecial(id: string)
    requires SafeBasename(id)
    ensures !Special(id)
  {
  }

  lemma FlatIsNotSpecial(id: string, n: string)
    requires SafeBasename(id) && n in FlatNames(id)
    ensures !Special(n)
  {
    assert n[0] == id[0];
  }

  predicate BundleOf(env: Env, posegraph: Node, data: Node, yaml: string, bundle: Tree) {
    && "posegraph.posegraph" in bundle && bundle["posegraph.posegraph"] == posegraph
    && "posegraph.data" in bundle && bundle["posegraph.data"] == data
    && "map.yaml" in bundle && env.rewrite(yaml).Some? && bundle["map.yaml"] == File(env.rewrite(yaml).value)
  }

  // ---------- Staging ----------

  function WithStaged(s: Tree, id: string, bundle: Tree): Tree {
    s[STAGING_NAME := Dir(Sub(s, STAGING_NAME)[id := Dir(bundle)])]
  }

  function WithoutStaged(s: Tree, id: string): Tree {
    s[STAGING_NAME := Dir(Sub(s, STAGING_NAME) - {id})]
  }

  /** The directory that staging a complete map produces, or none when an operation fails or it does not validate. */
  function Staged(env: Env, s: Tree, id: string): (r: Option<Tree>)
    requires Complete(env, s, id)
    ensures r.Some? ==> env.validate(r.value) && BundleOf(env, s[Posegraph(id)], s[Data(id)], s[Yaml(id)].content, r.value)
  {
    var b2 := map["posegraph.posegraph" := s[Posegraph(id)], "posegraph.data" := s[Data(id)]];
    var image := ImageContent(env, WithStaged(s, id, b2), id);
    var yaml := env.rewrite(s[Yaml(id)].content);
    if env.fault(id) < 5 || image.None? || yaml.None? then None else
    var b4 := b2["occupancy.pgm" := File(image.value)]["map.yaml" := File(yaml.value)];
    var manifest := env.manifest(id, b4, Content(s, Manifest(id)));
    if manifest.None? then None else
    var b5 := b4["manifest.json" := File(manifest.value)];
    if env.validate(b5) then Some(b5) else None
  }

  lemma Restage(s: Tree, id: string, b: Tree, b': Tree)
    ensures WithStaged(WithStaged(s, id, b), id, b') == WithStaged(s, id, b')
    ensures WithoutStaged(WithStaged(s, id, b), id) == WithoutStaged(s, id)
    ensures Sub(Sub(WithStaged(s, id, b), STAGING_NAME), id) == b
  {
    var t := WithStaged(s, id, b);
    assert Sub(t, STAGING_NAME) == Sub(s, STAGING_NAME)[id := Dir(b)];
    assert Sub(t, STAGING_NAME)[id := Dir(b')] == Sub(s, STAGING_NAME)[id := Dir(b')];
    assert Sub(t, STAGING_NAME) - {id} == Sub(s, STAGING_NAME) - {id};
  }

  lemma ReadsThroughStaging(s: Tree, id: string, b: Tree)
    requires SafeBasename(id)
    ensures forall n :: n in FlatNames(id) ==> Content(WithStaged(s, id, b), n) == Content(s, n)
  {
    forall n | n in FlatNames(id)
      ensures n != STAGING_NAME
    {
      FlatIsNotSpecial(id, n);
    }
  }

  // ---------- The two operations on a map ----------

  /** Building one map either raises, or tells whether it published a directory and whether archiving is safe. */
  datatype Built = Raised | Done(published: bool, safe: bool)

  /** The result and the new tree of building `id` from `s`. */
  ghost predicate BuildResult(env: Env, s: Tree, t: Tree, id: string, dry: bool, r: Built) {
    if id in s then
      t == s && r == Done(false, Published(env, s, id))
    else if !Complete(env, s, id) then
      t == s && r == Done(false, false)
    else if dry then
      t == s && r == Done(true, false)
    else if (STAGING_NAME in s && s[STAGING_NAME].File?) || IsFile(Sub(s, STAGING_NAME), id) then
      t == s && r == Raised
    else match Staged(env, s, id)
      case None => t == WithoutStaged(s, id) && r == Done(false, false)
      case Some(bundle) => t == WithoutStaged(s, id)[id := Dir(bundle)] && r == Done(true, true)
  }

  /** A map whose files are all there is published with exactly these five files, if no operation fails and they validate. */
  lemma Publishes(
    env: Env, s: Tree, t: Tree, id: string, r: Built, posegraph: string, data: string, yaml: string, raster: string, image: string,
    rewritten: string, manifest: string)
    requires BuildResult(env, s, t, id, false, r) && id !in s && env.fault(id) >= 5
    requires (STAGING_NAME in s ==> s[STAGING_NAME].Dir? && (id in s[STAGING_NAME].entries ==> s[STAGING_NAME].entries[id].Dir?))
    requires Content(s, id + ".posegraph") == Some(posegraph) && Content(s, id + ".data") == Some(data) && Content(s, id + ".yaml") == Some(yaml)
    requires env.image(yaml) == InRoot(raster) && Content(s, raster) == Some(image) && env.rewrite(yaml) == Some(rewritten)
    requires posegraph != "" && data != "" && yaml != "" && image != "" && SafeBasename(id)
    requires var four := map["posegraph.posegraph" := File(posegraph), "posegraph.data" := File(data), "occupancy.pgm" := File(image),
                             "map.yaml" := File(rewritten)];
             env.manifest(id, four, Content(s, id + ".manifest.json")) == Some(manifest) &&
             env.validate(four["manifest.json" := File(manifest)])
    ensures r == Done(true, true) && id in t
    ensures t[id] == Dir(map["posegraph.posegraph" := File(posegraph), "posegraph.data" := File(data), "occupancy.pgm" := File(image),
                             "map.yaml" := File(rewritten), "manifest.json" := File(manifest)])
  {
    var two := map["posegraph.posegraph" := s[Posegraph(id)], "posegraph.data" := s[Data(id)]];
    assert Yaml(id) in FlatNames(id);
    ReadsThroughStaging(s, id, two);
    assert ImageContent(env, WithStaged(s, id, two), id) == Some(image);
    assert Staged(env, s, id).Some?;
  }

  /** With one of the four missing or empty, nothing is built. */
  lemma IncompleteIsLeft(env: Env, s: Tree, t: Tree, id: string, dry: bool, r: Built, missing: string)
    requires BuildResult(env, s, t, id, dry, r) && id !in s
    requires missing == id + ".posegraph" || missing == id + ".data" || missing == id + ".yaml" ||
             (Content(s, id + ".yaml").Some? && env.image(Content(s, id + ".yaml").value) == InRoot(missing))
    requires Content(s, missing) == None || Content(s, missing) == Some("")
    ensures t == s && r == Done(false, false)
  {
  }

  /** The result and the new tree of moving the flat files `names` of a map out of `s`. */
  ghost predicate ArchiveResult(s: Tree, t: Tree, names: seq<string>, dry: bool, r: Option<bool>) {
    var present := exists n :: n in names && IsFile(s, n);
    if dry || !present then
      t == s && r == Some(present)
    else if BACKUP_NAME in s && s[BACKUP_NAME].File? then
      t == s && r == None
    else
      && (BACKUP_NAME in t && t[BACKUP_NAME].Dir?)
      && MovedOut(s, t, names)
      && (forall n :: n in names && IsFile(t, n) ==> n in Sub(t, BACKUP_NAME))
      && r.Some? && (r.value <==> exists n :: n in s && n !in t)
  }

  /** `t` is `s` with some of the files `names` moved into the backup directory, where their names were free. */
  ghost predicate MovedOut(s: Tree, t: Tree, names: seq<string>) {
    && (forall n :: n in t && n != BACKUP_NAME ==> n in s && t[n] == s[n])
    && (forall n :: n in s && n !in t ==>
          n in names && IsFile(s, n) && n !in Sub(s, BACKUP_NAME) && n in Sub(t, BACKUP_NAME) && Sub(t, BACKUP_NAME)[n] == s[n])
    && (forall n :: n in Sub(s, BACKUP_NAME) ==> n in Sub(t, BACKUP_NAME) && Sub(t, BACKUP_NAME)[n] == Sub(s, BACKUP_NAME)[n])
    && (forall n :: n in Sub(t, BACKUP_NAME) && n !in Sub(s, BACKUP_NAME) ==> n in s && n !in t)
  }

  function Moved(s: Tree, n: string): Tree
    requires n in s
  {
    (s - {n})[BACKUP_NAME := Dir(Sub(s, BACKUP_NAME)[n := s[n]])]
  }

  predicate IsLegacyId(t: Tree, id: string) {
    SafeBasename(id) && exists n :: n in FlatNames(id) && IsFile(t, n)
  }

  function Present(t: Tree, names: seq<string>): (r: seq<string>)
    ensures forall n :: n in r <==> n in names && IsFile(t, n)
  {
    if names == [] then []
    else (if IsFile(t, names[0]) then [names[0]] else []) + Present(t, names[1..])
  }

  lemma MoveOut(s: Tree, t: Tree, names: seq<string>, n: string)
    requires MovedOut(s, t, names) && n in names && IsFile(t, n) && n !in Sub(t, BACKUP_NAME) && n in s
    requires BACKUP_NAME in t && t[BACKUP_NAME].Dir?
    ensures MovedOut(s, Moved(t, n), names)
  {
  }

  lemma MovedOutAfterMkdir(s: Tree, m: Tree, t: Tree, names: seq<string>, present: seq<string>)
    requires m == s || (BACKUP_NAME !in s && m == s[BACKUP_NAME := Dir(map[])])
    requires MovedOut(m, t, present) && forall n :: n in present <==> n in names && IsFile(s, n)
    requires BACKUP_NAME in t && t[BACKUP_NAME].Dir?
    requires forall n :: n in present && IsFile(t, n) ==> n in Sub(t, BACKUP_NAME)
    ensures MovedOut(s, t, names)
    ensures forall n :: n in names && IsFile(t, n) ==> n in Sub(t, BACKUP_NAME)
    ensures (exists n :: n in m && n !in t) <==> exists n :: n in s && n !in t
  {
  }

  // ---------- Discovery ----------

  /** What a file name is without the first legacy suffix that it ends in. */
  function LegacyStem(n: string): Option<string> {
    if HasSuffix(n, ".manifest.json") then Some(n[..|n| - 14])
    else if HasSuffix(n, ".posegraph") then Some(n[..|n| - 10])
    else if HasSuffix(n, ".data") then Some(n[..|n| - 5])
    else if HasSuffix(n, ".yaml") then Some(n[..|n| - 5])
    else if HasSuffix(n, ".pgm") then Some(n[..|n| - 4])
    else None
  }

  lemma StemIsOwner(n: string, id: string)
    requires id != ""
    ensures LegacyStem(n) == Some(id) <==> n in FlatNames(id)
  {
    if LegacyStem(n).Some? {
      var stem := LegacyStem(n).value;
      assert n == stem + n[|stem|..];
      assert n in FlatNames(stem);
      if n in FlatNames(id) {
        OwnerIsUnique(id, LegacyStem(n).value);
      }
    }
    if n in FlatNames(id) {
      assert HasSuffix(n, n[|id|..]);
    }
  }

  /** The map id a file name stands for. */
  function LegacyIdOf(n: string): (r: Option<string>)
    ensures forall id :: r == Some(id) <==> SafeBasename(id) && n in FlatNames(id)
  {
    assert forall id :: SafeBasename(id) ==> (LegacyStem(n) == Some(id) <==> n in FlatNames(id)) by {
      forall id | SafeBasename(id)
        ensures LegacyStem(n) == Some(id) <==> n in FlatNames(id)
      {
        StemIsOwner(n, id);
      }
    }
    var stem := LegacyStem(n);
    if stem.Some? && SafeBasename(stem.value) then stem else None
  }

  ghost predicate Ascending(ids: seq<string>) {
    forall i, j :: 0 <= i < j < |ids| ==> Before(ids[i], ids[j])
  }

  method Insert(ids: seq<string>, id: string) returns (r: seq<string>)
    requires Ascending(ids) && id !in ids
    ensures Ascending(r) && forall x :: x in r <==> x in ids || x == id
  {
    var i := 0;
    while i < |ids| && Before(ids[i], id)
      invariant 0 <= i <= |ids|
      invariant forall j :: 0 <= j < i ==> Before(ids[j], id)
    {
      i := i + 1;
    }
    forall j | i <= j < |ids|
      ensures Before(id, ids[j])
    {
      BeforeTotal(ids[i], id);
      if i < j {
        BeforeTransitive(id, ids[i], ids[j]);
      }
    }
    r := ids[..i] + [id] + ids[i..];
    hide Before;
  }

  /** The ids with at least one flat file under the root, in order. */
  method DiscoverLegacyIds(t: Tree) returns (ids: seq<string>)
    ensures Ascending(ids)
    ensures forall id :: id in ids <==> IsLegacyId(t, id)
  {
    hide SafeBasename, FlatNames, Before;
    ids := [];
    var todo := t.Keys;
    while todo != {}
      invariant todo <= t.Keys && Ascending(ids)
      invariant forall id :: id in ids <==> SafeBasename(id) && exists n :: n in FlatNames(id) && IsFile(t, n) && n !in todo
    {
      var n :| n in todo;
      todo := todo - {n};
      if t[n].File? {
        var id := LegacyIdOf(n);
        if id.Some? && id.value !in ids {
          ids := Insert(ids, id.value);
        }
      }
    }
  }
}
