/** The ruleset watcher: an on-disk copy of the active rules of each protection, in a directory
    named by a digest of their content, and loaded into the engine from there. */
module Ruleset {
  import opened Optional
  import RuleIds

  datatype RuleFile = RuleFile(name: string, content: string)

  /** A digest of texts, md5 in hexadecimal. */
  type Digest = string -> string

  datatype Path = Path(protection: nat, key: string)
  type Dir = map<string, string>

  // ---------- keys and file contents ----------

  /** The digests of all files, one after the other. */
  function DigestText(md5: Digest, files: seq<RuleFile>): string {
    if files == [] then "" else md5(files[0].content) + DigestText(md5, files[1..])
  }

  method RuleSetMD5(md5: Digest, files: seq<RuleFile>) returns (key: string)
    ensures key == Key(md5, files) == md5(DigestText(md5, files))
  {
    var h := "";
    for i := 0 to |files|
      invariant h + DigestText(md5, files[i..]) == DigestText(md5, files)
    {
      h := h + md5(files[i].content);
      assert files[i..][1..] == files[i + 1..];
    }
    assert h + "" == h;
    key := md5(h);
  }

  function Key(md5: Digest, files: seq<RuleFile>): string {
    md5(DigestText(md5, files))
  }

  /** strings.ReplaceAll for a non-empty pattern. */
  function ReplaceAll(s: string, pattern: string, text: string): string
    requires pattern != ""
  {
    if |s| < |pattern| then s
    else if pattern <= s then text + ReplaceAll(s[|pattern|..], pattern, text)
    else [s[0]] + ReplaceAll(s[1..], pattern, text)
  }

  const BASE_PATH_MARK := "<<<WAFIEIO_XPROC_RULES_BASE_PATH>>>"

  function PathText(p: Path): string {
    "/rules/" + RuleIds.Decimal(p.protection) + "/" + p.key
  }

  /** The directory after writing the files in order over dir. */
  function Written(dir: Dir, files: seq<RuleFile>, p: Path): Dir
    decreases |files|
  {
    if files == [] then dir
    else Written(dir[files[0].name := ReplaceAll(files[0].content, BASE_PATH_MARK, PathText(p))], files[1..], p)
  }

  // ---------- one tick ----------

  datatype Fetched = FetchError | NoVersions | Versions(versions: seq<seq<RuleFile>>)

  /** What the API server returns for one listed protection, and at which file writing it would
      fail, if it does. */
  datatype Item = Item(protection: nat, fetched: Fetched, fault: Option<nat>)

  /** A protection with one active version that has rule files. */
  predicate Active(it: Item) {
    it.fetched.Versions? && |it.fetched.versions| == 1 && it.fetched.versions[0] != []
  }

  function Files(it: Item): seq<RuleFile>
    requires Active(it)
  {
    it.fetched.versions[0]
  }

  function PathOf(md5: Digest, it: Item): Path
    requires Active(it)
  {
    Path(it.protection, Key(md5, Files(it)))
  }

  predicate ShouldWrite(disk: map<Path, Dir>, p: Path) {
    p !in disk || disk[p] == map[]
  }

  /** The part of the files that gets written. */
  function WrittenFiles(it: Item): seq<RuleFile>
    requires Active(it)
  {
    if it.fault.Some? && it.fault.value < |Files(it)| then Files(it)[..it.fault.value] else Files(it)
  }

  predicate WriteFails(it: Item)
    requires Active(it)
  {
    it.fault.Some? && it.fault.value < |Files(it)|
  }

  /** wrote remembers, for each directory, the rule files it was written from. */
  datatype World = World(disk: map<Path, Dir>, wrote: map<Path, seq<RuleFile>>, loaded: map<nat, string>, firstRun: bool)

  datatype Scan = Scan(disk: map<Path, Dir>, wrote: map<Path, seq<RuleFile>>, reload: bool, configs: seq<Path>)

  function ScanOne(md5: Digest, s: Scan, it: Item): Scan {
    if !Active(it) then s
    else
      var p := PathOf(md5, it);
      if !ShouldWrite(s.disk, p) then s.(configs := s.configs + [p])
      else if WrittenFiles(it) == [] then s.(configs := s.configs + [p])
      else Scan(s.disk[p := Written(map[], WrittenFiles(it), p)], s.wrote[p := WrittenFiles(it)],
                s.reload || !WriteFails(it), s.configs + [p])
  }

  function ScanAll(md5: Digest, s: Scan, items: seq<Item>): Scan
    decreases |items|
  {
    if items == [] then s else ScanAll(md5, ScanOne(md5, s, items[0]), items[1..])
  }

  /** The engine takes a configuration per protection. */
  function Load(loaded: map<nat, string>, configs: seq<Path>): map<nat, string>
    decreases |configs|
  {
    if configs == [] then loaded else Load(loaded[configs[0].protection := configs[0].key], configs[1..])
  }

  predicate Survives(configs: seq<Path>, p: Path) {
    forall i :: 0 <= i < |configs| && configs[i].protection == p.protection ==> configs[i] == p
  }

  /** Only the active directory of each reloaded protection is kept. */
  function Cleanup<T>(disk: map<Path, T>, configs: seq<Path>): map<Path, T> {
    map p | p in disk && Survives(configs, p) :: disk[p]
  }

  function Reloaded(w: World, s: Scan): World {
    World(Cleanup(s.disk, s.configs), Cleanup(s.wrote, s.configs), Load(w.loaded, s.configs), false)
  }

  function Tick(md5: Digest, w: World, items: seq<Item>): World {
    var s := ScanAll(md5, Scan(w.disk, w.wrote, false, []), items);
    if s.reload || w.firstRun then Reloaded(w, s)
    else World(s.disk, s.wrote, w.loaded, w.firstRun)
  }

  class Watcher {
    var disk: map<Path, Dir>
    ghost var wrote: map<Path, seq<RuleFile>>
    var loaded: map<nat, string>
    var firstRun: bool

    ghost function State(): World
      reads this
    {
      World(disk, wrote, loaded, firstRun)
    }

    constructor ()
      ensures State() == World(map[], map[], map[], true)
    {
      disk, wrote, loaded, firstRun := map[], map[], map[], true;
    }

    /** Write the rule files unless their directory is there already. Returns whether the rules
        must be reloaded. */
    method WriteRules(p: Path, it: Item) returns (reload: bool)
      requires Active(it)
      modifies this`disk, this`wrote
      ensures if !ShouldWrite(old(disk), p) || WrittenFiles(it) == []
              then disk == old(disk) && wrote == old(wrote) && !reload
              else && disk == old(disk)[p := Written(map[], WrittenFiles(it), p)]
                   && wrote == old(wrote)[p := WrittenFiles(it)] && reload == !WriteFails(it)
    {
      if !ShouldWrite(disk, p) {
        return false;
      }
      var files := Files(it);
      var dir: Dir := map[];
      var i := 0;
      while i < |WrittenFiles(it)|
        invariant 0 <= i <= |WrittenFiles(it)|
        invariant Written(dir, WrittenFiles(it)[i..], p) == Written(map[], WrittenFiles(it), p)
      {
        assert WrittenFiles(it)[i..][1..] == WrittenFiles(it)[i + 1..];
        dir := dir[files[i].name := ReplaceAll(files[i].content, BASE_PATH_MARK, PathText(p))];
        i := i + 1;
      }
      if i > 0 {
        disk := disk[p := dir];
        wrote := wrote[p := WrittenFiles(it)];
      }
      return !WriteFails(it);
    }

    method CleanupRules(configs: seq<Path>)
      modifies this`disk, this`wrote
      ensures disk == Cleanup(old(disk), configs) && wrote == Cleanup(old(wrote), configs)
    {
      for i := 0 to |configs|
        invariant disk == Cleanup(old(disk), configs[..i]) && wrote == Cleanup(old(wrote), configs[..i])
      {
        CleanupStep(old(disk), configs, i);
        CleanupStep(old(wrote), configs, i);
        disk := Purged(disk, configs[i]);
        wrote := Purged(wrote, configs[i]);
      }
      assert configs[..|configs|] == configs;
    }

    /** One turn of the watcher's loop. */
    method Turn(md5: Digest, items: seq<Item>)
      modifies this
      ensures State() == Tick(md5, old(State()), items)
    {
      var reloadRequire := false;
      var configs: seq<Path> := [];
      ghost var start := Scan(disk, wrote, false, []);
      assert items[0..] == items;
      for i := 0 to |items|
        invariant ScanAll(md5, start, items) == ScanAll(md5, Scan(disk, wrote, reloadRequire, configs), items[i..])
        invariant loaded == old(loaded) && firstRun == old(firstRun)
      {
        assert items[i..][1..] == items[i + 1..];
        if Active(items[i]) {
          var key := RuleSetMD5(md5, Files(items[i]));
          var p := Path(items[i].protection, key);
          var reload := WriteRules(p, items[i]);
          if reload {
            reloadRequire := true;
          }
          configs := configs + [p];
        }
      }
      if reloadRequire || firstRun {
        firstRun := false;
        loaded := Load(loaded, configs);
        CleanupRules(configs);
      }
    }
  }

  /** Remove the other directories of the protection of an active path. */
  function Purged<T>(disk: map<Path, T>, active: Path): map<Path, T> {
    map p | p in disk && (p.protection != active.protection || p == active) :: disk[p]
  }

  lemma CleanupStep<T>(disk: map<Path, T>, configs: seq<Path>, i: nat)
    requires i < |configs|
    ensures Purged(Cleanup(disk, configs[..i]), configs[i]) == Cleanup(disk, configs[..i + 1])
  {
    hide Survives;
    forall p
      ensures Survives(configs[..i + 1], p) <==>
              Survives(configs[..i], p) && (p.protection != configs[i].protection || p == configs[i])
    {
      SurvivesOneMore(configs, i, p);
    }
  }

  lemma SurvivesOneMore(configs: seq<Path>, i: nat, p: Path)
    requires i < |configs|
    ensures Survives(configs[..i + 1], p) <==>
            Survives(configs[..i], p) && (p.protection != configs[i].protection || p == configs[i])
  {
    var more := configs[..i + 1];
    assert forall k :: 0 <= k < i ==> more[k] == configs[..i][k];
    assert more[i] == configs[i];
  }
}
