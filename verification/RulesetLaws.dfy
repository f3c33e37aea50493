/** The ruleset copy agrees with the API server. */
module RulesetLaws {
  import opened Optional
  import opened Ruleset

  predicate DistinctIds(items: seq<Item>) {
    forall i, j :: 0 <= i < j < |items| ==> items[i].protection != items[j].protection
  }

  predicate NoFaults(items: seq<Item>) {
    forall i :: 0 <= i < |items| && Active(items[i]) ==> !WriteFails(items[i])
  }

  function ActivePaths(md5: Digest, items: seq<Item>): seq<Path> {
    if items == [] then []
    else if Active(items[0]) then [PathOf(md5, items[0])] + ActivePaths(md5, items[1..])
    else ActivePaths(md5, items[1..])
  }

  // ---------- directories ----------

  /** Every directory holds exactly the files it was written from, and is named by their key. */
  ghost predicate DirsOk(md5: Digest, disk: map<Path, Dir>, wrote: map<Path, seq<RuleFile>>) {
    && disk.Keys == wrote.Keys
    && forall p :: p in disk ==>
         wrote[p] != [] && Key(md5, wrote[p]) == p.key && disk[p] == Written(map[], wrote[p], p)
  }

  lemma {:induction false} WrittenSome(dir: Dir, files: seq<RuleFile>, p: Path)
    ensures dir.Keys <= Written(dir, files, p).Keys
    ensures files != [] ==> Written(dir, files, p) != map[]
    decreases |files|
  {
    if files != [] {
      var dir' := dir[files[0].name := ReplaceAll(files[0].content, BASE_PATH_MARK, PathText(p))];
      WrittenSome(dir', files[1..], p);
      assert files[0].name in dir'.Keys;
    }
  }

  /** What scanning without write failures does. */
  ghost predicate Scanned(s: Scan, s': Scan, paths: seq<Path>) {
    && s'.configs == s.configs + paths
    && (forall p :: p in s.disk ==> p in s'.disk && s'.disk[p] == s.disk[p])
    && (forall p :: p in s'.disk ==> p in s.disk || p in paths)
    && (forall p :: p in paths ==> p in s'.disk)
    && (s.reload ==> s'.reload)
    && (!s'.reload ==> s'.disk == s.disk && s'.wrote == s.wrote)
  }

  lemma ScanOneStep(md5: Digest, s: Scan, it: Item)
    requires DirsOk(md5, s.disk, s.wrote) && (Active(it) ==> !WriteFails(it))
    ensures var s' := ScanOne(md5, s, it);
            DirsOk(md5, s'.disk, s'.wrote) && Scanned(s, s', if Active(it) then [PathOf(md5, it)] else [])
  {
    hide Written, Key;
    if Active(it) {
      var p := PathOf(md5, it);
      if p in s.disk {
        WrittenSome(map[], s.wrote[p], p);
      }
    } else {
      assert s.configs + [] == s.configs;
    }
  }

  lemma ScannedTrans(s: Scan, s1: Scan, s2: Scan, a: seq<Path>, b: seq<Path>)
    requires Scanned(s, s1, a) && Scanned(s1, s2, b)
    ensures Scanned(s, s2, a + b)
  {
  }

  lemma {:induction false} ScanAllSteps(md5: Digest, s: Scan, items: seq<Item>)
    requires DirsOk(md5, s.disk, s.wrote) && NoFaults(items)
    ensures var s' := ScanAll(md5, s, items);
            DirsOk(md5, s'.disk, s'.wrote) && Scanned(s, s', ActivePaths(md5, items))
    decreases |items|
  {
    hide DirsOk, ScanOne, PathOf;
    if items == [] {
      assert s.configs + [] == s.configs;
    } else {
      var s1 := ScanOne(md5, s, items[0]);
      ScanOneStep(md5, s, items[0]);
      ScanAllSteps(md5, s1, items[1..]);
      var head := if Active(items[0]) then [PathOf(md5, items[0])] else [];
      ScannedTrans(s, s1, ScanAll(md5, s, items), head, ActivePaths(md5, items[1..]));
      assert head + ActivePaths(md5, items[1..]) == ActivePaths(md5, items);
    }
  }

  // ---------- loading ----------

  predicate DistinctPaths(configs: seq<Path>) {
    forall i, j :: 0 <= i < j < |configs| ==> configs[i].protection != configs[j].protection
  }

  lemma {:induction false} ActivePathIds(md5: Digest, items: seq<Item>, k: nat) returns (i: nat)
    requires k < |ActivePaths(md5, items)|
    ensures i < |items| && Active(items[i]) && ActivePaths(md5, items)[k] == PathOf(md5, items[i])
  {
    if Active(items[0]) && k == 0 {
      i := 0;
    } else {
      i := ActivePathIds(md5, items[1..], if Active(items[0]) then k - 1 else k);
      i := i + 1;
    }
  }

  lemma {:induction false} ActivePathsDistinct(md5: Digest, items: seq<Item>)
    requires DistinctIds(items)
    ensures DistinctPaths(ActivePaths(md5, items))
  {
    if items != [] {
      ActivePathsDistinct(md5, items[1..]);
      var rest := ActivePaths(md5, items[1..]);
      forall k | 0 <= k < |rest| ensures rest[k].protection != items[0].protection {
        var i := ActivePathIds(md5, items[1..], k);
        assert items[1..][i] == items[i + 1];
      }
    }
  }

  lemma {:induction false} ActivePathListed(md5: Digest, items: seq<Item>, i: nat)
    requires i < |items| && Active(items[i])
    ensures PathOf(md5, items[i]) in ActivePaths(md5, items)
  {
    if i > 0 {
      ActivePathListed(md5, items[1..], i - 1);
    }
  }

  predicate Mentions(paths: seq<Path>, protection: nat) {
    exists i :: 0 <= i < |paths| && paths[i].protection == protection
  }

  lemma {:induction false} LoadOther(loaded: map<nat, string>, configs: seq<Path>, n: nat)
    requires !Mentions(configs, n)
    ensures n in Load(loaded, configs) <==> n in loaded
    ensures n in loaded ==> Load(loaded, configs)[n] == loaded[n]
    decreases |configs|
  {
    if configs != [] {
      assert configs[0].protection != n;
      assert forall i :: 0 <= i < |configs[1..]| ==> configs[1..][i] == configs[i + 1];
      LoadOther(loaded[configs[0].protection := configs[0].key], configs[1..], n);
    }
  }

  lemma {:induction false} LoadAt(loaded: map<nat, string>, configs: seq<Path>, i: nat)
    requires DistinctPaths(configs) && i < |configs|
    ensures var n := configs[i].protection;
            n in Load(loaded, configs) && Load(loaded, configs)[n] == configs[i].key
    decreases |configs|
  {
    var loaded' := loaded[configs[0].protection := configs[0].key];
    if i == 0 {
      LoadOther(loaded', configs[1..], configs[0].protection);
    } else {
      LoadAt(loaded', configs[1..], i - 1);
    }
  }

  // ---------- the invariant ----------

  predicate Loaded(w: World, p: Path) {
    p.protection in w.loaded && w.loaded[p.protection] == p.key
  }

  /** Every directory on disk is the one loaded for its protection; hence each protection has at
      most one. */
  ghost predicate Inv(md5: Digest, w: World) {
    && DirsOk(md5, w.disk, w.wrote)
    && forall p :: p in w.disk ==> Loaded(w, p)
  }

  /** The copy agrees with the server: each protection with one active version and at least one
      rule file is loaded from the directory of its current content, and that is the only
      directory it has. */
  ghost predicate AgreesWith(md5: Digest, w: World, items: seq<Item>) {
    forall i :: 0 <= i < |items| && items[i].fetched.Versions? && |items[i].fetched.versions| == 1
                && items[i].fetched.versions[0] != [] ==>
      var p := Path(items[i].protection, md5(DigestText(md5, items[i].fetched.versions[0])));
      && p in w.disk
      && Loaded(w, p)
      && forall q :: q in w.disk && q.protection == p.protection ==> q == p
  }

  lemma CleanupDirs(md5: Digest, disk: map<Path, Dir>, wrote: map<Path, seq<RuleFile>>, paths: seq<Path>)
    requires DirsOk(md5, disk, wrote)
    ensures DirsOk(md5, Cleanup(disk, paths), Cleanup(wrote, paths))
  {
    hide Written, Key, Survives;
  }

  /** Loading and cleaning up make every remaining directory the loaded one of its protection. */
  lemma ReloadEffect(md5: Digest, w: World, s: Scan)
    requires Scanned(Scan(w.disk, w.wrote, false, []), s, s.configs) && DistinctPaths(s.configs)
    requires DirsOk(md5, s.disk, s.wrote)
    requires forall p :: p in w.disk ==> Loaded(w, p) || Mentions(s.configs, p.protection)
    ensures Inv(md5, Reloaded(w, s))
    ensures forall p :: p in s.configs ==> p in Reloaded(w, s).disk
  {
    hide Load, DirsOk;
    CleanupDirs(md5, s.disk, s.wrote, s.configs);
    forall p | p in Reloaded(w, s).disk ensures Loaded(Reloaded(w, s), p) {
      if Mentions(s.configs, p.protection) {
        var i :| 0 <= i < |s.configs| && s.configs[i].protection == p.protection;
        assert s.configs[i] == p;
        LoadAt(w.loaded, s.configs, i);
      } else {
        assert p in w.disk;
        LoadOther(w.loaded, s.configs, p.protection);
      }
    }
  }

  /** A tick without write failures establishes the invariant when every directory is the loaded
      one already, or belongs to a protection that a reloading tick mentions. */
  lemma TickEstablishes(md5: Digest, w: World, items: seq<Item>)
    requires DirsOk(md5, w.disk, w.wrote) && DistinctIds(items) && NoFaults(items)
    requires forall p :: p in w.disk ==> Loaded(w, p) || (w.firstRun && Mentions(ActivePaths(md5, items), p.protection))
    ensures Inv(md5, Tick(md5, w, items))
    ensures forall p :: p in ActivePaths(md5, items) ==> p in Tick(md5, w, items).disk
  {
    hide Reloaded, ActivePaths, ScanOne, DirsOk;
    var start := Scan(w.disk, w.wrote, false, []);
    var s := ScanAll(md5, start, items);
    ScanAllSteps(md5, start, items);
    assert s.configs == ActivePaths(md5, items);
    if s.reload || w.firstRun {
      ActivePathsDistinct(md5, items);
      ReloadEffect(md5, w, s);
    }
  }

  /** After every tick without write failures the copy agrees with what the tick fetched. */
  lemma TickAgrees(md5: Digest, w: World, items: seq<Item>)
    requires Inv(md5, w) && DistinctIds(items) && NoFaults(items)
    ensures Inv(md5, Tick(md5, w, items)) && AgreesWith(md5, Tick(md5, w, items), items)
  {
    hide Tick;
    TickEstablishes(md5, w, items);
    EstablishedAgrees(md5, Tick(md5, w, items), items);
  }

  lemma EstablishedAgrees(md5: Digest, w: World, items: seq<Item>)
    requires Inv(md5, w) && forall p :: p in ActivePaths(md5, items) ==> p in w.disk
    ensures AgreesWith(md5, w, items)
  {
    forall i | 0 <= i < |items| && Active(items[i]) ensures PathOf(md5, items[i]) in w.disk {
      ActivePathListed(md5, items, i);
    }
  }

  /** A tick that finds the copy in agreement writes nothing, reloads nothing, removes nothing. */
  lemma QuietTick(md5: Digest, w: World, items: seq<Item>)
    requires DirsOk(md5, w.disk, w.wrote) && !w.firstRun
    requires forall i :: 0 <= i < |items| && Active(items[i]) ==> PathOf(md5, items[i]) in w.disk
    ensures Tick(md5, w, items) == w
  {
    QuietScan(md5, Scan(w.disk, w.wrote, false, []), items);
  }

  lemma {:induction false} QuietScan(md5: Digest, s: Scan, items: seq<Item>)
    requires DirsOk(md5, s.disk, s.wrote)
    requires forall i :: 0 <= i < |items| && Active(items[i]) ==> PathOf(md5, items[i]) in s.disk
    ensures var s' := ScanAll(md5, s, items); s'.disk == s.disk && s'.wrote == s.wrote && s'.reload == s.reload
    decreases |items|
  {
    hide Written, Key;
    if items != [] {
      if Active(items[0]) {
        var p := PathOf(md5, items[0]);
        WrittenSome(map[], s.wrote[p], p);
      }
      QuietScan(md5, ScanOne(md5, s, items[0]), items[1..]);
    }
  }

  /** Ticking twice on the same content is ticking once. */
  lemma TickIdempotent(md5: Digest, w: World, items: seq<Item>)
    requires Inv(md5, w) && DistinctIds(items) && NoFaults(items)
    ensures Tick(md5, Tick(md5, w, items), items) == Tick(md5, w, items)
  {
    TickAgrees(md5, w, items);
    QuietTick(md5, Tick(md5, w, items), items);
  }

  // ---------- runs ----------

  function Run(md5: Digest, w: World, ticks: seq<seq<Item>>): World
    decreases |ticks|
  {
    if ticks == [] then w else Run(md5, Tick(md5, w, ticks[0]), ticks[1..])
  }

  /** Protections are listed once each and files can be written. */
  predicate Regular(ticks: seq<seq<Item>>) {
    forall i :: 0 <= i < |ticks| ==> DistinctIds(ticks[i]) && NoFaults(ticks[i])
  }

  lemma {:induction false} RunKeeps(md5: Digest, w: World, ticks: seq<seq<Item>>)
    requires Inv(md5, w) && Regular(ticks)
    ensures Inv(md5, Run(md5, w, ticks))
    decreases |ticks|
  {
    hide Inv, Tick;
    if ticks != [] {
      TickAgrees(md5, w, ticks[0]);
      RunKeeps(md5, Tick(md5, w, ticks[0]), ticks[1..]);
    }
  }

  const FRESH := World(map[], map[], map[], true)

  /** From an empty disk, after any run of ticks, the copy agrees with what the last tick fetched,
      whatever came before, and another tick on the same content changes nothing. In particular
      content that comes back after a change is loaded again. */
  lemma RulesetTheorem(md5: Digest, ticks: seq<seq<Item>>, last: seq<Item>)
    requires Regular(ticks) && DistinctIds(last) && NoFaults(last)
    ensures var w := Tick(md5, Run(md5, FRESH, ticks), last);
            AgreesWith(md5, w, last) && Tick(md5, w, last) == w
  {
    hide Tick, AgreesWith;
    RunKeeps(md5, FRESH, ticks);
    TickAgrees(md5, Run(md5, FRESH, ticks), last);
    TickIdempotent(md5, Run(md5, FRESH, ticks), last);
  }

  // ---------- a restart over an existing disk ----------

  /** The first tick after the start mentions every protection that has a directory. */
  predicate Covers(md5: Digest, first: seq<Item>, disk: map<Path, Dir>) {
    forall p :: p in disk ==> Mentions(ActivePaths(md5, first), p.protection)
  }

  /** Agreement with the last tick, over every run that goes on after the first tick. */
  ghost predicate AgreesForever(md5: Digest, w: World) {
    forall ticks, last :: Regular(ticks) && DistinctIds(last) && NoFaults(last) ==>
      AgreesWith(md5, Tick(md5, Run(md5, w, ticks), last), last)
  }

  lemma CoveredRestart(md5: Digest, w: World, first: seq<Item>)
    requires DirsOk(md5, w.disk, w.wrote) && w.firstRun && DistinctIds(first) && NoFaults(first)
    requires Covers(md5, first, w.disk)
    ensures AgreesForever(md5, Tick(md5, w, first))
  {
    hide Tick, AgreesWith, Inv;
    TickEstablishes(md5, w, first);
    var w' := Tick(md5, w, first);
    forall ticks, last | Regular(ticks) && DistinctIds(last) && NoFaults(last)
      ensures AgreesWith(md5, Tick(md5, Run(md5, w', ticks), last), last)
    {
      RunKeeps(md5, w', ticks);
      TickAgrees(md5, Run(md5, w', ticks), last);
    }
  }

  /** A directory that the first tick does not mention stays, and is not loaded. */
  lemma UncoveredFirst(md5: Digest, w: World, first: seq<Item>, p: Path)
    requires DirsOk(md5, w.disk, w.wrote) && w.firstRun && w.loaded == map[] && DistinctIds(first) && NoFaults(first)
    requires p in w.disk && !Mentions(ActivePaths(md5, first), p.protection)
    ensures var w' := Tick(md5, w, first);
            && DirsOk(md5, w'.disk, w'.wrote) && !w'.firstRun
            && p in w'.disk && p.protection !in w'.loaded
  {
    hide DirsOk, Load, ActivePaths, ScanOne;
    var start := Scan(w.disk, w.wrote, false, []);
    var s := ScanAll(md5, start, first);
    var paths := ActivePaths(md5, first);
    ScanAllSteps(md5, start, first);
    assert s.configs == paths;
    LoadOther(w.loaded, paths, p.protection);
    CleanupDirs(md5, s.disk, s.wrote, paths);
    assert Survives(paths, p);
  }

  /** An unloaded directory is not loaded when its content is listed. */
  lemma ComesBack(md5: Digest, w: World, p: Path) returns (last: seq<Item>)
    requires DirsOk(md5, w.disk, w.wrote) && !w.firstRun && p in w.disk && p.protection !in w.loaded
    ensures DistinctIds(last) && NoFaults(last) && !AgreesWith(md5, Tick(md5, w, last), last)
  {
    hide Tick, Written;
    var it := Item(p.protection, Versions([w.wrote[p]]), None);
    last := [it];
    assert PathOf(md5, it) == p;
    QuietTick(md5, w, last);
    assert Active(last[0]) && !Loaded(w, PathOf(md5, last[0]));
  }

  /** After a restart over an existing disk the copy agrees with the server ever after if and only
      if the first tick mentions every protection that has a directory: one that is missing from
      it, because fetching failed for instance, is not loaded when it comes back unchanged. */
  lemma RestartTheorem(md5: Digest, w: World, first: seq<Item>)
    requires DirsOk(md5, w.disk, w.wrote) && w.firstRun && w.loaded == map[] && DistinctIds(first) && NoFaults(first)
    ensures AgreesForever(md5, Tick(md5, w, first)) <==> Covers(md5, first, w.disk)
  {
    hide Tick, AgreesWith, DirsOk, Mentions;
    if Covers(md5, first, w.disk) {
      CoveredRestart(md5, w, first);
    } else {
      var p :| p in w.disk && !Mentions(ActivePaths(md5, first), p.protection);
      UncoveredFirst(md5, w, first, p);
      var last := ComesBack(md5, Tick(md5, w, first), p);
      assert Run(md5, Tick(md5, w, first), []) == Tick(md5, w, first);
    }
  }

  // ---------- what the key tells ----------

  function Texts(files: seq<RuleFile>): set<string> {
    set i | 0 <= i < |files| :: files[i].content
  }

  predicate CollisionFree(md5: Digest, texts: set<string>) {
    forall a, b :: a in texts && b in texts && md5(a) == md5(b) ==> a == b
  }

  ghost predicate FixedWidth(md5: Digest) {
    forall t :: |md5(t)| == 32
  }

  predicate SameContents(a: seq<RuleFile>, b: seq<RuleFile>) {
    |a| == |b| && forall i :: 0 <= i < |a| ==> a[i].content == b[i].content
  }

  predicate SameNames(a: seq<RuleFile>, b: seq<RuleFile>) {
    |a| == |b| && forall i :: 0 <= i < |a| ==> a[i].name == b[i].name
  }

  /** The digests of a rule set follow the order of its files. */
  lemma {:induction false} DigestTextConcat(md5: Digest, a: seq<RuleFile>, f: RuleFile)
    ensures DigestText(md5, a + [f]) == DigestText(md5, a) + md5(f.content)
  {
    if a == [] {
      assert a + [f] == [f] && [f][1..] == [];
      assert md5(f.content) + "" == md5(f.content) && "" + md5(f.content) == md5(f.content);
    } else {
      assert (a + [f])[1..] == a[1..] + [f];
      DigestTextConcat(md5, a[1..], f);
    }
  }

  lemma {:induction false} DigestTextSame(md5: Digest, a: seq<RuleFile>, b: seq<RuleFile>)
    requires SameContents(a, b)
    ensures DigestText(md5, a) == DigestText(md5, b)
  {
    if a != [] {
      DigestTextSame(md5, a[1..], b[1..]);
    }
  }

  lemma {:induction false} DigestTextInjective(md5: Digest, a: seq<RuleFile>, b: seq<RuleFile>)
    requires FixedWidth(md5) && CollisionFree(md5, Texts(a) + Texts(b))
    requires DigestText(md5, a) == DigestText(md5, b)
    ensures SameContents(a, b)
  {
    if a == [] || b == [] {
    } else {
      var (x, y) := (DigestText(md5, a), DigestText(md5, b));
      assert x[..32] == md5(a[0].content) && y[..32] == md5(b[0].content);
      assert x[32..] == DigestText(md5, a[1..]) && y[32..] == DigestText(md5, b[1..]);
      assert a[0].content in Texts(a) && b[0].content in Texts(b);
      assert Texts(a[1..]) <= Texts(a) && Texts(b[1..]) <= Texts(b);
      DigestTextInjective(md5, a[1..], b[1..]);
      assert forall i :: 0 < i < |a| ==> a[i] == a[1..][i - 1] && b[i] == b[1..][i - 1];
    }
  }

  /** While digests do not collide on the texts at hand, the key of a rule set is the sequence of
      its contents, and nothing more: file names do not enter. */
  lemma KeyTheorem(md5: Digest, a: seq<RuleFile>, b: seq<RuleFile>)
    requires FixedWidth(md5)
    requires CollisionFree(md5, Texts(a) + Texts(b)) && CollisionFree(md5, {DigestText(md5, a), DigestText(md5, b)})
    ensures Key(md5, a) == Key(md5, b) <==> SameContents(a, b)
  {
    if Key(md5, a) == Key(md5, b) {
      DigestTextInjective(md5, a, b);
    } else if SameContents(a, b) {
      DigestTextSame(md5, a, b);
    }
  }

  /** Where the copy agrees, digests do not collide and the files keep their names, the loaded
      directory holds exactly the server's current files. */
  lemma CurrentContent(md5: Digest, w: World, items: seq<Item>, i: nat)
    requires DirsOk(md5, w.disk, w.wrote) && AgreesWith(md5, w, items)
    requires i < |items| && Active(items[i]) && FixedWidth(md5)
    requires PathOf(md5, items[i]) in w.wrote
    requires var was, now := w.wrote[PathOf(md5, items[i])], Files(items[i]);
             && CollisionFree(md5, Texts(was) + Texts(now))
             && CollisionFree(md5, {DigestText(md5, was), DigestText(md5, now)})
             && SameNames(was, now)
    ensures var p := PathOf(md5, items[i]);
            w.disk[p] == Written(map[], Files(items[i]), p)
  {
    hide AgreesWith, Written;
    var p := PathOf(md5, items[i]);
    var was, now := w.wrote[p], Files(items[i]);
    KeyTheorem(md5, was, now);
    assert forall k :: 0 <= k < |was| ==> was[k] == now[k];
    assert was == now;
  }

  // ---------- names ----------

  /** The content of the last file of a name, as it is written into the directory. */
  function Latest(files: seq<RuleFile>, name: string, p: Path): Option<string> {
    if files == [] then None
    else
      var later := Latest(files[1..], name, p);
      if later.Some? then later
      else if files[0].name == name then Some(ReplaceAll(files[0].content, BASE_PATH_MARK, PathText(p)))
      else None
  }

  lemma {:induction false} WrittenLatest(dir: Dir, files: seq<RuleFile>, p: Path, name: string)
    ensures var last := Latest(files, name, p);
            && (name in Written(dir, files, p) <==> last.Some? || name in dir)
            && (last.Some? ==> Written(dir, files, p)[name] == last.value)
            && (last.None? && name in dir ==> Written(dir, files, p)[name] == dir[name])
    decreases |files|
  {
    hide ReplaceAll, PathText;
    if files != [] {
      WrittenLatest(dir[files[0].name := ReplaceAll(files[0].content, BASE_PATH_MARK, PathText(p))], files[1..], p, name);
    }
  }

  /** Both lists give every name the same text, or both give it none. */
  ghost predicate SameFiles(a: seq<RuleFile>, b: seq<RuleFile>, p: Path) {
    forall name :: Latest(a, name, p) == Latest(b, name, p)
  }

  lemma WrittenSame(a: seq<RuleFile>, b: seq<RuleFile>, p: Path)
    ensures Written(map[], a, p) == Written(map[], b, p) <==> SameFiles(a, b, p)
  {
    hide Written, Latest;
    var x, y := Written(map[], a, p), Written(map[], b, p);
    forall name
      ensures Latest(a, name, p) == (if name in x then Some(x[name]) else None)
      ensures Latest(b, name, p) == (if name in y then Some(y[name]) else None)
    {
      WrittenLatest(map[], a, p, name);
      WrittenLatest(map[], b, p, name);
    }
    if SameFiles(a, b, p) {
      forall name ensures name in x <==> name in y {
        assert Latest(a, name, p) == Latest(b, name, p);
      }
      forall name | name in x ensures x[name] == y[name] {
        assert Latest(a, name, p) == Latest(b, name, p);
      }
    }
  }

  /** Renamed files, with contents as before: the tick changes nothing, so the directory is that of
      the server's files if and only if the new names give every name the text it had. */
  lemma RenameTheorem(md5: Digest, w: World, was: Item, now: Item)
    requires Inv(md5, w) && !w.firstRun && Active(was) && Active(now) && was.protection == now.protection
    requires PathOf(md5, was) in w.disk && w.wrote[PathOf(md5, was)] == Files(was)
    requires SameContents(Files(was), Files(now))
    ensures PathOf(md5, now) == PathOf(md5, was) && Tick(md5, w, [now]) == w
    ensures var p := PathOf(md5, was);
            w.disk[p] == Written(map[], Files(now), p) <==> SameFiles(Files(was), Files(now), p)
  {
    DigestTextSame(md5, Files(was), Files(now));
    WrittenSame(Files(was), Files(now), PathOf(md5, was));
    QuietTick(md5, w, [now]);
  }

  predicate DistinctNames(files: seq<RuleFile>) {
    forall i, j :: 0 <= i < j < |files| ==> files[i].name != files[j].name
  }

  function TextAt(files: seq<RuleFile>, i: nat, p: Path): string
    requires i < |files|
  {
    ReplaceAll(files[i].content, BASE_PATH_MARK, PathText(p))
  }

  predicate DistinctTexts(files: seq<RuleFile>, p: Path) {
    forall i, j :: 0 <= i < j < |files| ==> TextAt(files, i, p) != TextAt(files, j, p)
  }

  lemma {:induction false} LatestOf(files: seq<RuleFile>, name: string, p: Path) returns (i: nat)
    requires Latest(files, name, p).Some?
    ensures i < |files| && files[i].name == name && Latest(files, name, p).value == TextAt(files, i, p)
  {
    if Latest(files[1..], name, p).Some? {
      var j := LatestOf(files[1..], name, p);
      i := j + 1;
    } else {
      i := 0;
    }
  }

  lemma {:induction false} LatestAt(files: seq<RuleFile>, i: nat, p: Path)
    requires DistinctNames(files) && i < |files|
    ensures Latest(files, files[i].name, p) == Some(TextAt(files, i, p))
  {
    hide ReplaceAll, PathText;
    if i > 0 {
      LatestAt(files[1..], i - 1, p);
    } else if Latest(files[1..], files[0].name, p).Some? {
      var j := LatestOf(files[1..], files[0].name, p);
      assert false;
    }
  }

  /** In particular, among distinct names with distinct texts, only the very same names do. */
  lemma SameFilesNames(a: seq<RuleFile>, b: seq<RuleFile>, p: Path)
    requires SameContents(a, b) && DistinctNames(a) && DistinctNames(b) && DistinctTexts(b, p)
    ensures SameFiles(a, b, p) <==> SameNames(a, b)
  {
    if SameNames(a, b) {
      assert forall i :: 0 <= i < |a| ==> a[i] == b[i];
      assert a == b;
    } else if SameFiles(a, b, p) {
      forall i | 0 <= i < |a| ensures a[i].name == b[i].name {
        LatestAt(a, i, p);
        assert Latest(b, a[i].name, p) == Some(TextAt(a, i, p));
        var j := LatestOf(b, a[i].name, p);
        assert TextAt(b, j, p) == TextAt(b, i, p);
      }
      assert false;
    }
  }

  // ---------- a failed write ----------

  /** The protection of p is listed, if at all, with the content that p is named by. */
  predicate Steady(md5: Digest, items: seq<Item>, p: Path) {
    forall i :: 0 <= i < |items| && Active(items[i]) && items[i].protection == p.protection ==>
      PathOf(md5, items[i]) == p
  }

  lemma {:induction false} ScanKeepsDir(md5: Digest, s: Scan, items: seq<Item>, p: Path)
    requires Steady(md5, items, p) && p in s.disk && s.disk[p] != map[] && Survives(s.configs, p)
    ensures var s' := ScanAll(md5, s, items);
            p in s'.disk && s'.disk[p] == s.disk[p] && Survives(s'.configs, p)
    decreases |items|
  {
    hide Written, Key;
    if items != [] {
      ScanKeepsDir(md5, ScanOne(md5, s, items[0]), items[1..], p);
    }
  }

  /** A directory with anything in it is never written again while the content stays. */
  lemma {:induction false} NeverRewritten(md5: Digest, w: World, ticks: seq<seq<Item>>, p: Path)
    requires p in w.disk && w.disk[p] != map[]
    requires forall i :: 0 <= i < |ticks| ==> Steady(md5, ticks[i], p)
    ensures var w' := Run(md5, w, ticks); p in w'.disk && w'.disk[p] == w.disk[p]
    decreases |ticks|
  {
    if ticks != [] {
      ScanKeepsDir(md5, Scan(w.disk, w.wrote, false, []), ticks[0], p);
      hide ScanAll, Steady;
      NeverRewritten(md5, Tick(md5, w, ticks[0]), ticks[1..], p);
    }
  }

  /** Hence a write that fails after the first file is never made good: ever after, while the
      content stays, the directory holds only the files before the failure. */
  lemma FailedWriteStays(md5: Digest, w: World, it: Item, ticks: seq<seq<Item>>)
    requires Active(it) && WriteFails(it) && it.fault.value > 0 && ShouldWrite(w.disk, PathOf(md5, it))
    requires forall i :: 0 <= i < |ticks| ==> Steady(md5, ticks[i], PathOf(md5, it))
    ensures var p := PathOf(md5, it);
            var w' := Run(md5, Tick(md5, w, [it]), ticks);
            p in w'.disk && w'.disk[p] == Written(map[], Files(it)[..it.fault.value], p)
  {
    FailedWrite(md5, w, it);
    NeverRewritten(md5, Tick(md5, w, [it]), ticks, PathOf(md5, it));
  }

  lemma FailedWrite(md5: Digest, w: World, it: Item)
    requires Active(it) && WriteFails(it) && it.fault.value > 0 && ShouldWrite(w.disk, PathOf(md5, it))
    ensures var p := PathOf(md5, it);
            var w' := Tick(md5, w, [it]);
            && p in w'.disk && w'.disk[p] != map[]
            && w'.disk[p] == Written(map[], Files(it)[..it.fault.value], p)
  {
    var p := PathOf(md5, it);
    WrittenSome(map[], Files(it)[..it.fault.value], p);
    hide Written, Key;
    var start := Scan(w.disk, w.wrote, false, []);
    assert ScanAll(md5, start, [it]) == ScanOne(md5, start, it);
  }

  // ---------- when rules are loaded, and what a tick leaves alone ----------

  /** The item has exactly one active version, with rule files. */
  predicate HasRules(it: Item) {
    it.fetched.Versions? && |it.fetched.versions| == 1 && it.fetched.versions[0] != []
  }

  /** The directory of the item's content has to be written, and all of it can be. */
  predicate WritesWhole(md5: Digest, disk: map<Path, Dir>, it: Item) {
    && HasRules(it)
    && var files := it.fetched.versions[0];
       var p := Path(it.protection, Key(md5, files));
       (p !in disk || disk[p] == map[]) && (it.fault.None? || it.fault.value >= |files|)
  }

  lemma ScanOneReload(md5: Digest, s: Scan, it: Item)
    ensures ScanOne(md5, s, it).reload <==> s.reload || WritesWhole(md5, s.disk, it)
    ensures forall p: Path :: p.protection != it.protection ==>
              (p in ScanOne(md5, s, it).disk <==> p in s.disk) && (p in s.disk ==> ScanOne(md5, s, it).disk[p] == s.disk[p])
    ensures HasRules(it) ==>
              ScanOne(md5, s, it).configs == s.configs + [Path(it.protection, Key(md5, it.fetched.versions[0]))]
    ensures !HasRules(it) ==> ScanOne(md5, s, it) == s
  {
    hide Written, Key;
  }

  lemma {:induction false} ScanReload(md5: Digest, s: Scan, items: seq<Item>)
    requires DistinctIds(items)
    ensures ScanAll(md5, s, items).reload <==>
            s.reload || exists i :: 0 <= i < |items| && WritesWhole(md5, s.disk, items[i])
    decreases |items|
  {
    hide ScanOne, Key;
    if items != [] {
      var it, rest := items[0], items[1..];
      ScanOneReload(md5, s, it);
      var s' := ScanOne(md5, s, it);
      ScanReload(md5, s', rest);
      forall i | 0 <= i < |rest| ensures WritesWhole(md5, s'.disk, rest[i]) <==> WritesWhole(md5, s.disk, items[i + 1]) {
        assert rest[i] == items[i + 1] && items[0].protection != items[i + 1].protection;
      }
      if i :| 0 <= i < |items| && WritesWhole(md5, s.disk, items[i]) {
        assert i > 0 ==> WritesWhole(md5, s'.disk, rest[i - 1]);
      }
    }
  }

  /** The engine is given new rules if and only if this is the first tick or some directory was
      written whole: then every listed protection with rules is loaded from its directory, also
      one whose own write failed; otherwise nothing is loaded. */
  lemma ReloadIff(md5: Digest, w: World, items: seq<Item>)
    requires DistinctIds(items)
    ensures w.firstRun || (exists i :: 0 <= i < |items| && WritesWhole(md5, w.disk, items[i])) ==>
              && !Tick(md5, w, items).firstRun
              && forall i :: 0 <= i < |items| && HasRules(items[i]) ==>
                   var n := items[i].protection;
                   n in Tick(md5, w, items).loaded && Tick(md5, w, items).loaded[n] == Key(md5, items[i].fetched.versions[0])
    ensures !w.firstRun && (forall i :: 0 <= i < |items| ==> !WritesWhole(md5, w.disk, items[i])) ==>
              Tick(md5, w, items).loaded == w.loaded
  {
    hide Key, Cleanup, ScanOne, Load;
    var start := Scan(w.disk, w.wrote, false, []);
    var s := ScanAll(md5, start, items);
    ScanReload(md5, start, items);
    ConfigsListed(md5, start, items);
    ActivePathsDistinct(md5, items);
    assert s.configs == ActivePaths(md5, items);
    if w.firstRun || exists i :: 0 <= i < |items| && WritesWhole(md5, w.disk, items[i]) {
      forall i | 0 <= i < |items| && HasRules(items[i])
        ensures var n := items[i].protection;
                n in Load(w.loaded, s.configs) && Load(w.loaded, s.configs)[n] == Key(md5, items[i].fetched.versions[0])
      {
        ActivePathListed(md5, items, i);
        var k :| 0 <= k < |s.configs| && s.configs[k] == PathOf(md5, items[i]);
        LoadAt(w.loaded, s.configs, k);
      }
    }
  }

  lemma {:induction false} ConfigsListed(md5: Digest, s: Scan, items: seq<Item>)
    ensures ScanAll(md5, s, items).configs == s.configs + ActivePaths(md5, items)
    decreases |items|
  {
    hide ScanOne, Key;
    if items == [] {
      assert s.configs + [] == s.configs;
    } else {
      ScanOneReload(md5, s, items[0]);
      ConfigsListed(md5, ScanOne(md5, s, items[0]), items[1..]);
    }
  }

  /** No item of protection n has rules: it is not listed, could not be fetched, or has no single
      active version with rule files. */
  predicate Skipped(items: seq<Item>, n: nat) {
    forall i :: 0 <= i < |items| && items[i].protection == n ==> !HasRules(items[i])
  }

  lemma {:induction false} ScanSkips(md5: Digest, s: Scan, items: seq<Item>, p: Path)
    requires Skipped(items, p.protection)
    ensures var s' := ScanAll(md5, s, items);
            (p in s'.disk <==> p in s.disk) && (p in s.disk ==> s'.disk[p] == s.disk[p])
    decreases |items|
  {
    hide ScanOne;
    if items != [] {
      ScanOneReload(md5, s, items[0]);
      ScanSkips(md5, ScanOne(md5, s, items[0]), items[1..], p);
    }
  }

  lemma SkippedUnmentioned(md5: Digest, items: seq<Item>, n: nat)
    requires Skipped(items, n)
    ensures !Mentions(ActivePaths(md5, items), n)
  {
    var paths := ActivePaths(md5, items);
    forall k | 0 <= k < |paths| ensures paths[k].protection != n {
      var i := ActivePathIds(md5, items, k);
    }
  }

  /** A tick leaves a skipped protection alone: its directories and what is loaded for it. */
  lemma SkippedUntouched(md5: Digest, w: World, items: seq<Item>, p: Path)
    requires Skipped(items, p.protection)
    ensures var w' := Tick(md5, w, items);
            && (p in w'.disk <==> p in w.disk) && (p in w.disk ==> w'.disk[p] == w.disk[p])
            && (p.protection in w'.loaded <==> p.protection in w.loaded)
            && (p.protection in w.loaded ==> w'.loaded[p.protection] == w.loaded[p.protection])
  {
    hide ScanAll, Load, ActivePaths;
    var start := Scan(w.disk, w.wrote, false, []);
    ScanSkips(md5, start, items, p);
    ConfigsListed(md5, start, items);
    SkippedUnmentioned(md5, items, p.protection);
    var paths := ActivePaths(md5, items);
    assert ScanAll(md5, start, items).configs == paths;
    LoadOther(w.loaded, paths, p.protection);
    assert Survives(paths, p);
  }
}
