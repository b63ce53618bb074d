/** A root whose second migration still moves a file: the YAML names another raster while the usual one is there too. */
module MapRerunFails {
  import opened Options
  import opened MapTree
  import opened MapSafety
  import opened MapRerun
  import opened MapRun
  import opened MapMigration

  /** The raster of a YAML "other" is floor.pgm under the root; that of any other YAML lies outside the root. */
  const SITE: Env := Env(
    (yaml: string) => if yaml == "other" then InRoot("floor.pgm") else Elsewhere,
    (t: Tree, yaml: string) => Some("P5"),
    (yaml: string) => Some("image: occupancy.pgm"),
    (id: string, b: Tree, legacy: Option<string>) => Some("{}"),
    (b: Tree) => true,
    (id: string) => 5)

  function Site(yaml: string): Tree {
    map["a.posegraph" := File("p"), "a.data" := File("d"), "a.yaml" := File(yaml), "a.pgm" := File("P5"), "floor.pgm" := File("P5")]
  }

  lemma Names()
    ensures Posegraph("a") == "a.posegraph" && Data("a") == "a.data" && Yaml("a") == "a.yaml"
    ensures Manifest("a") == "a.manifest.json" && Raster("a") == "a.pgm"
    ensures SafeBasename("a")
  {
  }

  /** What is left of the site at any time: flat files of `a`, the other raster, and no directory in that raster's name. */
  ghost predicate OfSite(t: Tree) {
    "floor" !in t && forall n :: IsFile(t, n) ==> n in FlatNames("a") || n == "floor.pgm"
  }

  /** The other raster counts as a flat file of a map `floor`, which has no other files. */
  lemma TwoMaps(t: Tree, id: string)
    requires OfSite(t) && IsLegacyId(t, id)
    ensures id == "a" || id == "floor"
  {
    FloorNames();
    var n :| n in FlatNames(id) && IsFile(t, n);
    FlatOwner(id, "a", n);
    FlatOwner(id, "floor", n);
  }

  lemma FloorNames()
    ensures Raster("floor") == "floor.pgm" && Raster("floor") in FlatNames("floor") && Posegraph("floor") in FlatNames("floor")
    ensures Posegraph("floor") != Raster("floor")
  {
    FlatDistinct("floor");
    var f := [Posegraph("floor"), Data("floor"), Yaml("floor"), Manifest("floor"), Raster("floor")];
    assert f[0] != f[4];
  }

  lemma FloorIsInert(t: Tree)
    requires OfSite(t)
    ensures Inert(SITE, t, "floor")
  {
    FloorNames();
    FlatOwner("a", "floor", Posegraph("floor"));
    hide FlatNames, Posegraph, Data, Yaml;
  }

  lemma SiteSeparate(t: Tree)
    requires OfSite(t)
    ensures Separate(SITE, t)
  {
    FloorIsInert(t);
    forall id | IsLegacyId(t, id)
      ensures id == "a" || id == "floor"
    {
      TwoMaps(t, id);
    }
    if WillPublish(SITE, t, "floor") {
      ActiveIsNotInert(SITE, t, "floor");
    }
    OtherRasterIsProper(t);
    hide IsLegacyId, WillPublish, Inert, Clears, Apart, Proper, OfSite;
  }

  lemma OtherRasterIsProper(t: Tree)
    ensures Proper(SITE, t, "a")
  {
    hide Yaml, KeepsDirs;
  }

  lemma SiteFiles(yaml: string)
    ensures IsFile(Site(yaml), Raster("a")) && IsFile(Site(yaml), Yaml("a")) && Site(yaml)[Yaml("a")] == File(yaml)
    ensures IsFile(Site(yaml), Posegraph("a")) && IsFile(Site(yaml), Data("a")) && !IsFile(Site(yaml), Manifest("a"))
    ensures Sub(Site(yaml), BACKUP_NAME) == map[] && Clear(Site(yaml)) && "a" !in Site(yaml)
    ensures OfSite(Site(yaml))
  {
    Names();
  }

  lemma SiteNames(yaml: string)
    ensures Raster("a") !in LegacyNames(SITE, Site(yaml), "a") && Yaml("a") in LegacyNames(SITE, Site(yaml), "a")
  {
    Names();
    SiteFiles(yaml);
    Members(SITE, Site(yaml), "a");
    assert "floor.pgm"[8] == 'm';
    assert !HasSuffix("floor.pgm", ".yaml");
    hide LegacyNames, Posegraph, Data, Yaml, Manifest, HasSuffix;
  }

  lemma SitePublished(yaml: string)
    requires yaml != ""
    ensures WillPublish(SITE, Site(yaml), "a")
  {
    Names();
    SiteFiles(yaml);
    hide Posegraph, Data, Yaml, Manifest, Raster;
    assert Complete(SITE, Site(yaml), "a");
    assert Staged(SITE, Site(yaml), "a").Some?;
  }

  lemma SiteLeftover(yaml: string)
    requires yaml != ""
    ensures IsLegacyId(Site(yaml), "a") && WillPublish(SITE, Site(yaml), "a") && Leftover(SITE, Site(yaml), "a")
  {
    Names();
    SiteFiles(yaml);
    SiteNames(yaml);
    SitePublished(yaml);
    assert Raster("a") in FlatNames("a");
    hide LegacyNames, WillPublish, Posegraph, Data, Yaml, Manifest, Raster, Site;
    assert Skipped(SITE, Site(yaml), "a", Raster("a"));
  }

  /** Whether the other raster lies under the root or elsewhere, the second run moves a.pgm. */
  method SecondRunMovesRaster(yaml: string) returns (root: MapRoot, between: Tree, second: Option<nat>)
    requires yaml != ""
    ensures fresh(root) && root.Valid() && root.env == SITE && root.origin == Site(yaml)
    ensures second.Some? && second.value > 0
    ensures IsFile(between, "a.pgm") && !IsFile(root.entries, "a.pgm") && BackedUp(root.entries, "a.pgm")
  {
    hide Kept, Separate, NothingLeftOver, RunResult, RastersNamed, Clear, Site, Published, BackedUp, FlatNames;
    root := new MapRoot(SITE, Site(yaml));
    SiteFiles(yaml);
    SiteSeparate(Site(yaml));
    var first;
    first, between, second := root.MigrateTwice();
    FirstRun(yaml, between);
    SiteStays(Site(yaml), between);
    SiteSeparate(between);
    SecondRun(between, root.entries);
  }

  lemma SiteStays(o: Tree, s: Tree)
    requires Kept(SITE, o, s) && OfSite(o)
    ensures OfSite(s)
  {
    FloorIsInert(o);
    assert RootKept(SITE, o, s);
    hide Kept, FlatNames, BundleOf, Posegraph, Data, Yaml;
    assert "floor" in s && s["floor"].Dir? ==> FromLegacy(SITE, o, s, "floor");
  }

  lemma FirstRun(yaml: string, between: Tree)
    requires yaml != "" && RunResult(SITE, Site(yaml), between)
    ensures !NothingLeftOver(SITE, Site(yaml))
    ensures IsFile(between, "a.pgm") && !BackedUp(between, "a.pgm") && !IsFile(between, "a.yaml") && Published(SITE, between, "a")
  {
    SiteLeftover(yaml);
    SiteFiles(yaml);
    SiteNames(yaml);
    Names();
    InFootprint(SITE, Site(yaml), "a");
    assert Raster("a") in FlatNames("a") && Yaml("a") in FlatNames("a");
    hide LegacyNames, WillPublish, Leftover, IsLegacyId, Site, Footprint, FlatNames, Posegraph, Data, Yaml, Manifest, Raster, Published, Settled, AllSettled;
    assert MapAfter(SITE, Site(yaml), between, "a");
    assert FileAfter(SITE, Site(yaml), between, "a", Raster("a")) && FileAfter(SITE, Site(yaml), between, "a", Yaml("a"));
  }

  lemma SecondRun(between: Tree, end: Tree)
    requires RunResult(SITE, between, end)
    requires IsFile(between, "a.pgm") && !BackedUp(between, "a.pgm") && !IsFile(between, "a.yaml") && Published(SITE, between, "a")
    ensures !IsFile(end, "a.pgm") && BackedUp(end, "a.pgm")
  {
    Names();
    InFootprint(SITE, between, "a");
    Members(SITE, between, "a");
    assert Raster("a") in FlatNames("a") && IsLegacyId(between, "a");
    assert ArchiveImage(SITE, between, "a") == Some(Raster("a"));
    hide LegacyNames, Footprint, FlatNames, IsLegacyId, Settled, Leftover, Posegraph, Data, Yaml, Manifest, Raster;
    assert MapAfter(SITE, between, end, "a");
    assert FileAfter(SITE, between, end, "a", Raster("a"));
  }
}
