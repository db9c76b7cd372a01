/**
 * `ClearSitemapCommand::handle`: deletes the generated sitemap files from
 * storage and forgets both cache keys of the sitemap service. Storage is a
 * map from path to file text.
 */
module ClearCommand {
  import opened Wrappers
  import opened Text
  import opened CacheStore
  import IndexGenerator
  import SitemapGate

  type Disk = map<string, string>

  /** The paths `files($dir)` lists: files directly in the directory, none in its subdirectories. */
  predicate DirectlyIn(dir: string, p: string) {
    if dir == "" then |p| > 0 && '/' !in p
    else StartsWith(p, dir + "/") && |p| > |dir| + 1 && '/' !in p[|dir| + 1..]
  }

  /** In index mode: a file directly in the directory whose name ends in `.xml`. */
  predicate IndexModeTarget(dir: string, p: string) {
    DirectlyIn(dir, p) && EndsWith(p, ".xml")
  }

  /** The files a run deletes. */
  function Targets(cfg: IndexGenerator.IndexConfig, disk: Disk): (t: set<string>)
    ensures t <= disk.Keys
    ensures IndexGenerator.Enabled(cfg) ==> forall p :: p in t <==> p in disk && IndexModeTarget(IndexGenerator.StoragePath(cfg), p)
    ensures !IndexGenerator.Enabled(cfg) ==> t == (if IndexGenerator.SinglePath(cfg) in disk then {IndexGenerator.SinglePath(cfg)} else {})
  {
    if IndexGenerator.Enabled(cfg) then set p | p in disk && IndexModeTarget(IndexGenerator.StoragePath(cfg), p)
    else if IndexGenerator.SinglePath(cfg) in disk then {IndexGenerator.SinglePath(cfg)}
    else {}
  }

  /** What a run leaves behind: storage, cache, the number of deleted files and the exit code. */
  datatype Cleared = Cleared(disk: Disk, cache: Store, filesDeleted: nat, exitCode: int)

  /**
   * `handle`: exactly the target files are deleted and counted, every other
   * file is untouched, both cache keys are gone, other cache keys stay, and
   * the exit code is 0.
   */
  function Clear(cfg: IndexGenerator.IndexConfig, disk: Disk, cache: Store): (r: Cleared)
    ensures r.disk.Keys == disk.Keys - Targets(cfg, disk)
    ensures forall p :: p in r.disk ==> r.disk[p] == disk[p]
    ensures r.filesDeleted == |Targets(cfg, disk)| == |disk.Keys| - |r.disk.Keys|
    ensures CooldownKey !in r.cache && ContentKey !in r.cache
    ensures forall k :: k != CooldownKey && k != ContentKey ==> (k in r.cache <==> k in cache) && (k in r.cache ==> r.cache[k] == cache[k])
    ensures r.exitCode == 0
  {
    var t := Targets(cfg, disk);
    var d := map p | p in disk && p !in t :: disk[p];
    assert d.Keys == disk.Keys - t;
    Cleared(d, Forget(Forget(cache, CooldownKey), ContentKey), |t|, 0)
  }

  lemma NoTargetsLeft(cfg: IndexGenerator.IndexConfig, disk: Disk, cache: Store)
    ensures Targets(cfg, Clear(cfg, disk, cache).disk) == {}
  {
  }

  lemma ForgetTwice(c: Store, a: string, b: string)
    ensures var once := Forget(Forget(c, a), b); Forget(Forget(once, a), b) == once
  {
    var once := Forget(Forget(c, a), b);
    assert Forget(Forget(once, a), b).Keys == once.Keys;
  }

  /** A second run deletes nothing and changes nothing. */
  lemma ClearIdempotent(cfg: IndexGenerator.IndexConfig, disk: Disk, cache: Store)
    ensures var once := Clear(cfg, disk, cache);
      var twice := Clear(cfg, once.disk, once.cache);
      twice.filesDeleted == 0 && twice.disk == once.disk && twice.cache == once.cache
  {
    var once := Clear(cfg, disk, cache);
    NoTargetsLeft(cfg, disk, cache);
    ForgetTwice(cache, CooldownKey, ContentKey);
    var twice := Clear(cfg, once.disk, once.cache);
    assert twice.disk.Keys == once.disk.Keys;
  }

  /** Index mode spares files in subdirectories and files of other types. */
  lemma IndexModeSparesOthers(cfg: IndexGenerator.IndexConfig, disk: Disk, cache: Store, p: string)
    requires IndexGenerator.Enabled(cfg) && p in disk
    requires !IndexModeTarget(IndexGenerator.StoragePath(cfg), p)
    ensures p in Clear(cfg, disk, cache).disk && Clear(cfg, disk, cache).disk[p] == disk[p]
  {
  }

  /** Everything an index-mode generation run writes (shards and index) is a target of a later index-mode clear. */
  lemma ClearRemovesGeneratedShard(cfg: IndexGenerator.IndexConfig, disk: Disk, cache: Store, name: string)
    requires IndexGenerator.Enabled(cfg) && IndexGenerator.StoragePath(cfg) != ""
    requires '/' !in name && EndsWith(name, ".xml")
    requires IndexGenerator.StoragePath(cfg) + "/" + name in disk
    ensures IndexGenerator.StoragePath(cfg) + "/" + name !in Clear(cfg, disk, cache).disk
  {
    var dir := IndexGenerator.StoragePath(cfg);
    var p := dir + "/" + name;
    assert p[..|dir + "/"|] == dir + "/";
    assert p[|dir| + 1..] == name;
    assert EndsWith(p, ".xml") by {
      assert p[|p| - 4..] == name[|name| - 4..];
    }
    assert IndexModeTarget(dir, p);
  }

  /** Clearing ends the cooldown: outside the local environment the next `generateIfDue` generates. */
  lemma ClearEndsCooldown(cfg: IndexGenerator.IndexConfig, disk: Disk, st: SitemapGate.ServiceState, produced: Option<string>, hours: int)
    requires !st.local
    ensures var cleared := st.(cache := Clear(cfg, disk, st.cache).cache);
      SitemapGate.GenerateIfDue(cleared, produced, hours).value
  {
  }
}
