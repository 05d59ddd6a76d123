/**
 * Runs of a master namespace under store failures: what the three maps and the store keep in
 * common, when an id is fresh, and that `init` rebuilds exactly what was in memory.
 */
module NamespaceRuns {
  import opened Base
  import opened Paths
  import opened ObjectIds
  import opened Namespaces

  // ---------------------------------------------------------------- the invariant

  /** The store's absolute keys are the metadata map. */
  ghost predicate StoreHasMetadata(metadata: map<string, Meta>, store: map<string, Value>) {
    && (forall p :: p in metadata ==> IsAbsolute(p) && p in store && store[p] == Record(metadata[p]))
    && (forall k :: k in store && IsAbsolute(k) ==> k in metadata)
  }

  /** The directories are the directory records, and their paths and entries are well formed. */
  ghost predicate DirectoriesMatch(metadata: map<string, Meta>, directories: map<string, set<string>>) {
    && (forall d :: d in directories <==> d in metadata && metadata[d].isDir)
    && (forall d :: d in directories ==> Normal(d))
    && (forall d, x :: d in directories && x in directories[d] ==> IsName(x))
  }

  /** The store's other keys are the directory entries. */
  ghost predicate StoreHasEntries(directories: map<string, set<string>>, store: map<string, Value>) {
    && (forall d, x :: d in directories && x in directories[d] ==> EntryKey(Join(d, x)) in store)
    && (forall k :: k in store && !IsAbsolute(k) ==> IsEntryOf(directories, k))
  }

  ghost predicate IsEntryOf(directories: map<string, set<string>>, k: string) {
    exists d, x :: d in directories && x in directories[d] && k == EntryKey(Join(d, x))
  }

  /** The id map is the inverse of the metadata map on files. */
  ghost predicate IdsInvert(metadata: map<string, Meta>, ids: map<int, string>) {
    && (forall p :: p in metadata && !metadata[p].isDir ==> metadata[p].objectId in ids && ids[metadata[p].objectId] == p)
    && (forall i :: i in ids ==> ids[i] in metadata && !metadata[ids[i]].isDir && metadata[ids[i]].objectId == i)
  }

  ghost predicate Inv(n: Ns) {
    && StoreHasMetadata(n.metadata, n.store)
    && DirectoriesMatch(n.metadata, n.directories)
    && StoreHasEntries(n.directories, n.store)
    && IdsInvert(n.metadata, n.ids)
  }

  lemma EntryKeyIsNotAbsolute(p: string)
    ensures !IsAbsolute(EntryKey(p)) && StartsWith(EntryKey(p), "dir:") && EntryKey(p)[4..] == p
  {
  }

  lemma EntryKeyInjective(d: string, x: string, d': string, x': string)
    requires Normal(d) && IsName(x) && Normal(d') && IsName(x') && EntryKey(Join(d, x)) == EntryKey(Join(d', x'))
    ensures d == d' && x == x'
  {
    EntryKeyIsNotAbsolute(Join(d, x));
    EntryKeyIsNotAbsolute(Join(d', x'));
    SplitJoined(d, x);
    SplitJoined(d', x');
  }

  // ---------------------------------------------------------------- every operation keeps it

  /**
   * A create keeps the maps and the store in step if and only if the id it is given is not in use,
   * whether or not the store then takes the record.
   */
  lemma CreateKeepsInvIff(n: Ns, path: string, hash: int, attrs: nat, storeOk: bool)
    requires Inv(n) && IsAbsolute(path) && path !in n.metadata
    ensures Inv(CreateNs(n, path, hash, attrs, storeOk).0) <==> ObjectId(hash, n.nextId) !in n.ids
  {
    var oid := ObjectId(hash, n.nextId);
    var n' := CreateNs(n, path, hash, attrs, storeOk).0;
    assert n'.directories == n.directories;
    if oid in n.ids {
      var q := n.ids[oid];
      assert q in n.metadata && n.metadata[q].objectId == oid && q != path;
      assert q in n'.metadata && n'.metadata[q] == n.metadata[q];
      assert !IdsInvert(n'.metadata, n'.ids);
    } else {
      CreateKeepsInv(n, path, hash, attrs, storeOk);
    }
  }

  lemma PutRecord(metadata: map<string, Meta>, store: map<string, Value>, path: string, meta: Meta)
    requires StoreHasMetadata(metadata, store) && IsAbsolute(path)
    ensures StoreHasMetadata(metadata[path := meta], store[path := Record(meta)])
  {
  }

  lemma DropRecord(metadata: map<string, Meta>, store: map<string, Value>, path: string)
    requires StoreHasMetadata(metadata, store)
    ensures StoreHasMetadata(metadata - {path}, store - {path})
  {
  }

  lemma CreateKeepsInv(n: Ns, path: string, hash: int, attrs: nat, storeOk: bool)
    requires Inv(n) && IsAbsolute(path) && path !in n.metadata && ObjectId(hash, n.nextId) !in n.ids
    ensures Inv(CreateNs(n, path, hash, attrs, storeOk).0)
  {
    var oid := ObjectId(hash, n.nextId);
    var n' := CreateNs(n, path, hash, attrs, storeOk).0;
    if storeOk {
      PutRecord(n.metadata, n.store, path, Meta(false, oid, attrs));
      MadeFile(n.metadata, n.directories, n.ids, path, Meta(false, oid, attrs));
      EntriesSurvive(n.directories, n.store, n'.directories, n'.store);
    } else {
      assert n'.ids == n.ids;
    }
  }

  lemma MadeFile(metadata: map<string, Meta>, directories: map<string, set<string>>, ids: map<int, string>,
                 path: string, meta: Meta)
    requires DirectoriesMatch(metadata, directories) && IdsInvert(metadata, ids)
    requires path !in metadata && !meta.isDir && meta.objectId !in ids
    ensures DirectoriesMatch(metadata[path := meta], directories)
    ensures IdsInvert(metadata[path := meta], ids[meta.objectId := path])
  {
  }

  /** Changing absolute keys, and adding or dropping empty directories, does not touch the entries. */
  lemma EntriesSurvive(dirs: map<string, set<string>>, store: map<string, Value>,
                       dirs': map<string, set<string>>, store': map<string, Value>)
    requires StoreHasEntries(dirs, store)
    requires forall k :: !IsAbsolute(k) ==> (k in store <==> k in store')
    requires forall d, x :: (d in dirs && x in dirs[d]) <==> (d in dirs' && x in dirs'[d])
    ensures StoreHasEntries(dirs', store')
  {
    forall d, x | d in dirs' && x in dirs'[d] ensures EntryKey(Join(d, x)) in store' {
      EntryKeyIsNotAbsolute(Join(d, x));
    }
    forall k | k in store' && !IsAbsolute(k) ensures IsEntryOf(dirs', k) {
      var d, x :| d in dirs && x in dirs[d] && k == EntryKey(Join(d, x));
      assert d in dirs' && x in dirs'[d];
    }
  }

  lemma RemoveKeepsInv(n: Ns, path: string, storeOk: bool)
    requires Inv(n)
    ensures Inv(RemoveNs(n, path, storeOk).0) && !RemoveNs(n, path, storeOk).1.Crashed?
  {
    var (n', r) := RemoveNs(n, path, storeOk);
    if r.Ok? {
      EntriesSurvive(n.directories, n.store, n'.directories, n'.store);
    }
  }

  lemma MkdirKeepsInv(n: Ns, path: string, attrs: nat, storeOk: bool)
    requires Inv(n) && Normal(path)
    ensures Inv(MkdirNs(n, path, attrs, storeOk).0)
  {
    if path !in n.metadata {
      assert path !in n.directories;
      if storeOk {
        PutRecord(n.metadata, n.store, path, Meta(true, 0, attrs));
        MadeDirectory(n.metadata, n.directories, n.ids, path, Meta(true, 0, attrs));
        MadeDirectoryEntries(n.directories, n.store, path, Record(Meta(true, 0, attrs)));
      } else {
        assert MkdirNs(n, path, attrs, storeOk).0.directories == n.directories;
      }
    }
  }

  lemma MadeDirectoryEntries(dirs: map<string, set<string>>, store: map<string, Value>, path: string, v: Value)
    requires StoreHasEntries(dirs, store) && path !in dirs && IsAbsolute(path)
    ensures StoreHasEntries(dirs[path := {}], store[path := v])
  {
    EntriesSurvive(dirs, store, dirs[path := {}], store[path := v]);
  }

  lemma MadeDirectory(metadata: map<string, Meta>, directories: map<string, set<string>>, ids: map<int, string>,
                      path: string, meta: Meta)
    requires DirectoriesMatch(metadata, directories) && IdsInvert(metadata, ids)
    requires path !in metadata && Normal(path) && meta.isDir
    ensures DirectoriesMatch(metadata[path := meta], directories[path := {}])
    ensures IdsInvert(metadata[path := meta], ids)
  {
  }

  lemma RmdirKeepsInv(n: Ns, path: string, storeOk: bool)
    requires Inv(n)
    ensures Inv(RmdirNs(n, path, storeOk).0)
  {
    var (n', r) := RmdirNs(n, path, storeOk);
    if r.Ok? {
      DropRecord(n.metadata, n.store, path);
      DroppedDirectory(n.metadata, n.directories, n.ids, path);
      EntriesSurvive(n.directories, n.store, n'.directories, n'.store);
    }
  }

  lemma DroppedDirectory(metadata: map<string, Meta>, directories: map<string, set<string>>, ids: map<int, string>, path: string)
    requires DirectoriesMatch(metadata, directories) && IdsInvert(metadata, ids) && path in directories
    ensures DirectoriesMatch(metadata - {path}, directories - {path})
    ensures IdsInvert(metadata - {path}, ids)
  {
  }

  /** Changing entry keys does not touch the metadata. */
  lemma MetadataSurvives(metadata: map<string, Meta>, store: map<string, Value>, key: string)
    requires StoreHasMetadata(metadata, store) && !IsAbsolute(key)
    ensures StoreHasMetadata(metadata, store[key := Empty]) && StoreHasMetadata(metadata, store - {key})
  {
  }

  /** Nor does changing the entries of a directory change which directories there are. */
  lemma DirectoriesSurvive(metadata: map<string, Meta>, dirs: map<string, set<string>>, dir: string, names: set<string>)
    requires DirectoriesMatch(metadata, dirs) && dir in dirs && forall x :: x in names ==> IsName(x)
    ensures DirectoriesMatch(metadata, dirs[dir := names])
  {
  }

  lemma AddedEntry(dirs: map<string, set<string>>, store: map<string, Value>, dir: string, name: string)
    requires StoreHasEntries(dirs, store) && dir in dirs
    ensures StoreHasEntries(dirs[dir := dirs[dir] + {name}], store[EntryKey(Join(dir, name)) := Empty])
  {
    var dirs', store' := dirs[dir := dirs[dir] + {name}], store[EntryKey(Join(dir, name)) := Empty];
    forall d, x | d in dirs' && x in dirs'[d] ensures EntryKey(Join(d, x)) in store' {
      if !(d == dir && x == name) { assert x in dirs[d]; }
    }
    forall k | k in store' && !IsAbsolute(k) ensures IsEntryOf(dirs', k) {
      if k == EntryKey(Join(dir, name)) {
        assert name in dirs'[dir];
      } else {
        var d, x :| d in dirs && x in dirs[d] && k == EntryKey(Join(d, x));
        assert x in dirs'[d];
      }
    }
  }

  lemma AddSubfileKeepsInv(n: Ns, dir: string, name: string, storeOk: bool)
    requires Inv(n) && IsName(name)
    ensures Inv(AddSubfileNs(n, dir, name, storeOk).0)
  {
    var (n', r) := AddSubfileNs(n, dir, name, storeOk);
    if r.Ok? {
      EntryKeyIsNotAbsolute(Join(dir, name));
      MetadataSurvives(n.metadata, n.store, EntryKey(Join(dir, name)));
      DirectoriesSurvive(n.metadata, n.directories, dir, n.directories[dir] + {name});
      AddedEntry(n.directories, n.store, dir, name);
    }
  }

  lemma RemovedEntry(dirs: map<string, set<string>>, store: map<string, Value>, dir: string, name: string)
    requires StoreHasEntries(dirs, store) && dir in dirs && name in dirs[dir]
    requires (forall e :: e in dirs ==> Normal(e)) && (forall e, y :: e in dirs && y in dirs[e] ==> IsName(y))
    ensures StoreHasEntries(dirs[dir := dirs[dir] - {name}], store - {EntryKey(Join(dir, name))})
  {
    var key := EntryKey(Join(dir, name));
    var dirs', store' := dirs[dir := dirs[dir] - {name}], store - {key};
    forall d, x | d in dirs' && x in dirs'[d] ensures EntryKey(Join(d, x)) in store' {
      assert x in dirs[d];
      if EntryKey(Join(d, x)) == key { EntryKeyInjective(d, x, dir, name); }
    }
    forall k | k in store' && !IsAbsolute(k) ensures IsEntryOf(dirs', k) {
      var d, x :| d in dirs && x in dirs[d] && k == EntryKey(Join(d, x));
      assert x in dirs'[d];
    }
  }

  lemma RemoveSubfileKeepsInv(n: Ns, dir: string, name: string, storeOk: bool)
    requires Inv(n)
    ensures Inv(RemoveSubfileNs(n, dir, name, storeOk).0)
  {
    var (n', r) := RemoveSubfileNs(n, dir, name, storeOk);
    if r.Ok? {
      EntryKeyIsNotAbsolute(Join(dir, name));
      MetadataSurvives(n.metadata, n.store, EntryKey(Join(dir, name)));
      DirectoriesSurvive(n.metadata, n.directories, dir, n.directories[dir] - {name});
      RemovedEntry(n.directories, n.store, dir, name);
    }
  }

  // ---------------------------------------------------------------- reloading

  /** What is rebuilt once the keys in `done` have been read. */
  ghost function Partial(n: Ns, done: set<string>): Loaded {
    Loaded(PartMetadata(n.metadata, done), PartDirectories(n.directories, done), PartIds(n.ids, done))
  }

  ghost function PartMetadata(metadata: map<string, Meta>, done: set<string>): map<string, Meta> {
    map p | p in metadata && p in done :: metadata[p]
  }

  ghost function PartDirectories(dirs: map<string, set<string>>, done: set<string>): map<string, set<string>> {
    map d | d in dirs && d in done :: EntriesIn(dirs, d, done)
  }

  ghost function PartIds(ids: map<int, string>, done: set<string>): map<int, string> {
    map i | i in ids && ids[i] in done :: ids[i]
  }

  ghost function EntriesIn(dirs: map<string, set<string>>, d: string, done: set<string>): set<string>
    requires d in dirs
  {
    set x | x in dirs[d] && EntryKey(Join(d, x)) in done
  }

  lemma IdsWithRecord(metadata: map<string, Meta>, ids: map<int, string>, done: set<string>, key: string)
    requires IdsInvert(metadata, ids) && key in metadata && key !in done
    ensures var meta := metadata[key];
            PartIds(ids, done + {key}) ==
            if meta.isDir then PartIds(ids, done) else PartIds(ids, done)[meta.objectId := key]
  {
    var meta := metadata[key];
    var part, part' := PartIds(ids, done), PartIds(ids, done + {key});
    forall i ensures i in part' <==> i in part || (!meta.isDir && i == meta.objectId) {
      if i in ids && ids[i] == key { assert !meta.isDir && meta.objectId == i; }
    }
    assert part' == if meta.isDir then part else part[meta.objectId := key];
  }

  lemma IdsWithEntry(metadata: map<string, Meta>, ids: map<int, string>, done: set<string>, key: string)
    requires IdsInvert(metadata, ids) && key !in metadata
    ensures PartIds(ids, done + {key}) == PartIds(ids, done)
  {
    forall i | i in ids ensures ids[i] != key { assert ids[i] in metadata; }
  }

  /** No entry is read while only metadata keys have been. */
  lemma NoEntriesYet(dirs: map<string, set<string>>, done: set<string>, d: string)
    requires d in dirs && forall k :: k in done ==> IsAbsolute(k)
    ensures EntriesIn(dirs, d, done) == {}
  {
    forall x | x in dirs[d] ensures EntryKey(Join(d, x)) !in done {
      EntryKeyIsNotAbsolute(Join(d, x));
    }
  }

  lemma DirectoriesWithRecord(dirs: map<string, set<string>>, done: set<string>, key: string)
    requires key !in done && forall k :: k in done + {key} ==> IsAbsolute(k)
    ensures key !in PartDirectories(dirs, done)
    ensures PartDirectories(dirs, done + {key}) ==
            if key in dirs then PartDirectories(dirs, done)[key := {}] else PartDirectories(dirs, done)
  {
    forall d | d in dirs ensures EntriesIn(dirs, d, done) == {} && EntriesIn(dirs, d, done + {key}) == {} {
      assert forall k :: k in done ==> k in done + {key};
      NoEntriesYet(dirs, done, d);
      NoEntriesYet(dirs, done + {key}, d);
    }
    var part, part' := PartDirectories(dirs, done), PartDirectories(dirs, done + {key});
    assert part' == if key in dirs then part[key := {}] else part;
  }

  /** Reading a metadata record, before any entry. */
  lemma LoadRecord(n: Ns, done: set<string>, key: string)
    requires Inv(n) && key in n.store && IsAbsolute(key) && key !in done
    requires forall k :: k in done ==> IsAbsolute(k)
    ensures LoadOne(Partial(n, done), key, n.store[key]) == Good(Partial(n, done + {key}))
  {
    assert PartMetadata(n.metadata, done + {key}) == PartMetadata(n.metadata, done)[key := n.metadata[key]];
    IdsWithRecord(n.metadata, n.ids, done, key);
    DirectoriesWithRecord(n.directories, done, key);
  }

  lemma EntriesWithOne(dirs: map<string, set<string>>, done: set<string>, d: string, x: string, d': string)
    requires (forall e :: e in dirs ==> Normal(e)) && (forall e, y :: e in dirs && y in dirs[e] ==> IsName(y))
    requires d in dirs && x in dirs[d] && d' in dirs
    ensures EntriesIn(dirs, d', done + {EntryKey(Join(d, x))}) ==
            if d' == d then EntriesIn(dirs, d', done) + {x} else EntriesIn(dirs, d', done)
  {
    var key := EntryKey(Join(d, x));
    forall x' | x' in dirs[d'] && EntryKey(Join(d', x')) == key ensures d' == d && x' == x {
      EntryKeyInjective(d', x', d, x);
    }
  }

  lemma DirectoriesWithEntry(dirs: map<string, set<string>>, done: set<string>, d: string, x: string)
    requires (forall e :: e in dirs ==> Normal(e)) && (forall e, y :: e in dirs && y in dirs[e] ==> IsName(y))
    requires d in dirs && x in dirs[d] && d in done
    ensures var part := PartDirectories(dirs, done);
            d in part && PartDirectories(dirs, done + {EntryKey(Join(d, x))}) == part[d := part[d] + {x}]
  {
    var key := EntryKey(Join(d, x));
    var part, part' := PartDirectories(dirs, done), PartDirectories(dirs, done + {key});
    EntryKeyIsNotAbsolute(Join(d, x));
    forall d' | d' in dirs ensures d' != key { assert Normal(d'); }
    assert part'.Keys == part.Keys;
    forall d' | d' in dirs
      ensures EntriesIn(dirs, d', done + {key}) == if d' == d then EntriesIn(dirs, d', done) + {x} else EntriesIn(dirs, d', done)
    {
      EntriesWithOne(dirs, done, d, x, d');
    }
    assert part' == part[d := part[d] + {x}];
  }

  /** Reading a directory entry, after all metadata records. */
  lemma LoadEntry(n: Ns, done: set<string>, d: string, x: string)
    requires Inv(n) && d in n.directories && x in n.directories[d] && EntryKey(Join(d, x)) !in done
    requires forall k :: k in n.metadata ==> k in done
    ensures var key := EntryKey(Join(d, x));
            key in n.store && LoadOne(Partial(n, done), key, n.store[key]) == Good(Partial(n, done + {key}))
  {
    var key := EntryKey(Join(d, x));
    EntryKeyIsNotAbsolute(Join(d, x));
    SplitJoined(d, x);
    assert key !in n.metadata;
    assert PartMetadata(n.metadata, done + {key}) == PartMetadata(n.metadata, done);
    IdsWithEntry(n.metadata, n.ids, done, key);
    DirectoriesWithEntry(n.directories, done, d, x);
  }

  /**
   * What `init` refuses: an absolute key without metadata, a key of an unknown kind, and an entry whose directory is
   * not known; system-wide records it passes over.
   */
  lemma LoadRefuses(l: Loaded, rest: string, key: string, meta: Meta)
    ensures LoadOne(l, "/" + rest, Empty).Corrupted? && LoadOne(l, "/" + rest, Record(meta)).Good?
    ensures LoadOne(l, "meta:" + rest, Empty) == Good(l)
    ensures LoadOne(l, "dir:" + rest, Empty).CheckFailed? <==> ParentPath(rest) !in l.directories
    ensures !StartsWith(key, "/") && !StartsWith(key, "dir:") && !StartsWith(key, "meta:") ==> LoadOne(l, key, Empty).Corrupted?
  {
    assert ("meta:" + rest)[..5] == "meta:" && ("meta:" + rest)[0] == 'm' && ("meta:" + rest)[..4] == "meta";
    assert "meta"[0] != "dir:"[0];
    assert ("dir:" + rest)[..4] == "dir:" && ("dir:" + rest)[4..] == rest && ("dir:" + rest)[0] == 'd';
    if key != "" && key[0] == '/' { assert key[..1] == "/"; }
  }

  /** Metadata keys come before entry keys, because '/' sorts before 'd'. */
  lemma MetadataComesFirst(p: string, other: string)
    requires IsAbsolute(other)
    ensures !Leq(EntryKey(p), other)
  {
    assert EntryKey(p)[0] == 'd';
  }

  /** The keys are read up to some point, and no entry before the last metadata record. */
  ghost predicate Cut(keys: set<string>, done: set<string>, rest: set<string>) {
    && done !! rest && done + rest == keys
    && ((forall k :: k in rest ==> !IsAbsolute(k)) || (forall k :: k in done ==> IsAbsolute(k)))
  }

  /** Reading the next record, in key order. */
  lemma LoadNext(n: Ns, done: set<string>, rest: set<string>, key: string)
    requires Inv(n) && Cut(n.store.Keys, done, rest) && key in rest && forall k :: k in rest ==> Leq(key, k)
    ensures key in n.store && LoadOne(Partial(n, done), key, n.store[key]) == Good(Partial(n, done + {key}))
    ensures Cut(n.store.Keys, done + {key}, rest - {key})
  {
    assert key in n.store.Keys;
    assert (done + {key}) + (rest - {key}) == n.store.Keys;
    if IsAbsolute(key) {
      LoadRecord(n, done, key);
    } else {
      assert IsEntryOf(n.directories, key);
      var d, x :| d in n.directories && x in n.directories[d] && key == EntryKey(Join(d, x));
      forall k | k in rest ensures !IsAbsolute(k) {
        if IsAbsolute(k) { MetadataComesFirst(Join(d, x), k); }
      }
      forall k | k in n.metadata ensures k in done { assert k in n.store.Keys && IsAbsolute(k); }
      LoadEntry(n, done, d, x);
    }
  }

  lemma {:induction false} LoadRest(n: Ns, done: set<string>, rest: set<string>)
    requires Inv(n) && Cut(n.store.Keys, done, rest)
    ensures LoadAll(Partial(n, done), n.store, rest) == Good(Partial(n, n.store.Keys))
    decreases |rest|
  {
    if rest == {} {
      assert done == n.store.Keys;
    } else {
      var key := LeastOf(rest);
      LoadNext(n, done, rest, key);
      LoadRest(n, done + {key}, rest - {key});
    }
  }

  /**
   * Restarting on the store of any namespace that is in step with it succeeds, never fails the parent check,
   * and rebuilds the very same metadata, directories and id map.
   */
  lemma InitRebuilds(n: Ns)
    requires Inv(n)
    ensures LoadAll(NOTHING, n.store, n.store.Keys) == Good(Loaded(n.metadata, n.directories, n.ids))
  {
    assert Partial(n, {}) == NOTHING;
    LoadRest(n, {}, n.store.Keys);
    AllLoaded(n.metadata, n.directories, n.ids, n.store);
  }

  lemma AllLoaded(metadata: map<string, Meta>, dirs: map<string, set<string>>, ids: map<int, string>, store: map<string, Value>)
    requires StoreHasMetadata(metadata, store) && DirectoriesMatch(metadata, dirs) && StoreHasEntries(dirs, store)
    requires IdsInvert(metadata, ids)
    ensures PartMetadata(metadata, store.Keys) == metadata
    ensures PartIds(ids, store.Keys) == ids
    ensures PartDirectories(dirs, store.Keys) == dirs
  {
    forall i | i in ids ensures ids[i] in store.Keys { assert ids[i] in metadata; }
    assert PartIds(ids, store.Keys) == ids;
    forall d | d in dirs ensures d in store.Keys && EntriesIn(dirs, d, store.Keys) == dirs[d] { assert d in metadata; }
    assert PartDirectories(dirs, store.Keys) == dirs;
  }

  // ---------------------------------------------------------------- runs

  datatype Event =
    | Create(path: string, attrs: nat, storeOk: bool)
    | Remove(path: string, storeOk: bool)
    | Mkdir(path: string, attrs: nat, storeOk: bool)
    | Rmdir(path: string, storeOk: bool)
    | AddSubfile(dir: string, name: string, storeOk: bool)
    | RemoveSubfile(dir: string, name: string, storeOk: bool)

  /** Callers use absolute paths, normalised ones for directories, and plain names for entries. */
  predicate WellFormed(ev: Event) {
    match ev
    case Create(p, _, _) => IsAbsolute(p)
    case Mkdir(p, _, _) => Normal(p)
    case AddSubfile(_, x, _) => IsName(x)
    case _ => true
  }

  function Step(hash: string -> int, n: Ns, ev: Event): Ns {
    match ev
    case Create(p, attrs, storeOk) => CreateNs(n, p, hash(p), attrs, storeOk).0
    case Remove(p, storeOk) => RemoveNs(n, p, storeOk).0
    case Mkdir(p, attrs, storeOk) => MkdirNs(n, p, attrs, storeOk).0
    case Rmdir(p, storeOk) => RmdirNs(n, p, storeOk).0
    case AddSubfile(d, x, storeOk) => AddSubfileNs(n, d, x, storeOk).0
    case RemoveSubfile(d, x, storeOk) => RemoveSubfileNs(n, d, x, storeOk).0
  }

  function Run(hash: string -> int, n: Ns, evs: seq<Event>): Ns {
    if evs == [] then n else Step(hash, Run(hash, n, evs[..|evs|-1]), evs[|evs|-1])
  }

  function Creates(evs: seq<Event>): nat {
    if evs == [] then 0 else Creates(evs[..|evs|-1]) + (if evs[|evs|-1].Create? then 1 else 0)
  }

  function EmptyNs(counter: int): Ns { Ns(map[], map[], map[], counter, map[]) }

  /** The id was made from some hash and this value of the counter. */
  ghost predicate HasCounter(id: int, c: int) { exists h :: IsInt64(h) && id == ObjectId(h, c) }

  ghost predicate MadeBetween(id: int, start: int, next: int) { exists c :: start <= c < next && HasCounter(id, c) }

  /** Every id in use was made from the hash of some path and one of the counter values used so far. */
  ghost predicate IdsFromCounter(n: Ns, start: int) {
    && start <= n.nextId
    && (forall i :: i in n.ids ==> MadeBetween(i, start, n.nextId))
  }

  lemma FreshWithinLifetime(n: Ns, start: int, hash: int)
    requires IdsFromCounter(n, start) && IsInt64(hash) && n.nextId - start < P48
    ensures ObjectId(hash, n.nextId) !in n.ids
  {
    forall i | i in n.ids ensures i != ObjectId(hash, n.nextId) {
      LaterIdDiffers(i, start, n.nextId, hash);
    }
  }

  lemma LaterIdDiffers(id: int, start: int, next: int, hash: int)
    requires MadeBetween(id, start, next) && IsInt64(hash) && next - start < P48
    ensures id != ObjectId(hash, next)
  {
    var c :| start <= c < next && HasCounter(id, c);
    var h :| IsInt64(h) && id == ObjectId(h, c);
    IdsDiffer(h, hash, c, 0, next - c);
  }

  lemma CreateStep(n: Ns, p: string, hash: int, attrs: nat, storeOk: bool, start: int)
    requires Inv(n) && IdsFromCounter(n, start) && n.nextId - start < P48 && IsAbsolute(p) && IsInt64(hash)
    ensures var n' := CreateNs(n, p, hash, attrs, storeOk).0;
            Inv(n') && IdsFromCounter(n', start) && n.nextId <= n'.nextId <= n.nextId + 1
  {
    if p !in n.metadata {
      FreshWithinLifetime(n, start, hash);
      CreateKeepsInv(n, p, hash, attrs, storeOk);
      CreateCounts(n, p, hash, attrs, storeOk, start);
    }
  }

  lemma StepKeeps(hash: string -> int, n: Ns, ev: Event, start: int)
    requires Inv(n) && IdsFromCounter(n, start) && n.nextId - start < P48 && WellFormed(ev) && forall p :: IsInt64(hash(p))
    ensures var n' := Step(hash, n, ev);
            Inv(n') && IdsFromCounter(n', start) && n.nextId <= n'.nextId <= n.nextId + if ev.Create? then 1 else 0
  {
    match ev {
      case Create(p, attrs, storeOk) => CreateStep(n, p, hash(p), attrs, storeOk, start);
      case Remove(p, storeOk) => RemoveKeepsInv(n, p, storeOk); FewerIds(hash, n, ev, start);
      case Mkdir(p, attrs, storeOk) => MkdirKeepsInv(n, p, attrs, storeOk); FewerIds(hash, n, ev, start);
      case Rmdir(p, storeOk) => RmdirKeepsInv(n, p, storeOk); FewerIds(hash, n, ev, start);
      case AddSubfile(d, x, storeOk) => AddSubfileKeepsInv(n, d, x, storeOk); FewerIds(hash, n, ev, start);
      case RemoveSubfile(d, x, storeOk) => RemoveSubfileKeepsInv(n, d, x, storeOk); FewerIds(hash, n, ev, start);
    }
  }

  /** Only a create takes an id. */
  lemma FewerIds(hash: string -> int, n: Ns, ev: Event, start: int)
    requires IdsFromCounter(n, start) && !ev.Create?
    ensures IdsFromCounter(Step(hash, n, ev), start) && Step(hash, n, ev).nextId == n.nextId
  {
    assert Step(hash, n, ev).ids.Keys <= n.ids.Keys;
  }

  lemma CreateCounts(n: Ns, p: string, hash: int, attrs: nat, storeOk: bool, start: int)
    requires IdsFromCounter(n, start) && IsInt64(hash) && p !in n.metadata && ObjectId(hash, n.nextId) !in n.ids
    ensures IdsFromCounter(CreateNs(n, p, hash, attrs, storeOk).0, start)
  {
    var n' := CreateNs(n, p, hash, attrs, storeOk).0;
    assert HasCounter(ObjectId(hash, n.nextId), n.nextId);
    forall i | i in n'.ids ensures MadeBetween(i, start, n'.nextId) {
      if i in n.ids {
        var c :| start <= c < n.nextId && HasCounter(i, c);
      }
    }
  }

  /** A run from any namespace whose ids all come from counter values since `start`. */
  lemma {:induction false} RunFrom(hash: string -> int, n: Ns, start: int, evs: seq<Event>)
    requires Inv(n) && IdsFromCounter(n, start) && n.nextId - start + Creates(evs) < P48
    requires (forall p :: IsInt64(hash(p))) && forall i :: 0 <= i < |evs| ==> WellFormed(evs[i])
    ensures var n' := Run(hash, n, evs);
            Inv(n') && IdsFromCounter(n', start) && n.nextId <= n'.nextId <= n.nextId + Creates(evs)
  {
    if evs != [] {
      RunFrom(hash, n, start, evs[..|evs|-1]);
      StepKeeps(hash, Run(hash, n, evs[..|evs|-1]), evs[|evs|-1], start);
    }
  }

  /**
   * Within one process lifetime, over any run with fewer than 2^48 creates from an empty store and any initial
   * counter, with arbitrary store failures: the id map is at every step the inverse of the metadata map on files,
   * and memory and store stay in step.
   */
  lemma RunKeepsInv(hash: string -> int, counter: int, evs: seq<Event>)
    requires (forall p :: IsInt64(hash(p))) && (forall i :: 0 <= i < |evs| ==> WellFormed(evs[i])) && Creates(evs) < P48
    ensures var n := Run(hash, EmptyNs(counter), evs);
            Inv(n) && IdsFromCounter(n, counter) && n.nextId - counter <= Creates(evs)
  {
    RunFrom(hash, EmptyNs(counter), counter, evs);
  }

  /** So a restart after any such run rebuilds the three maps. */
  lemma RestartRebuilds(hash: string -> int, counter: int, evs: seq<Event>)
    requires (forall p :: IsInt64(hash(p))) && (forall i :: 0 <= i < |evs| ==> WellFormed(evs[i])) && Creates(evs) < P48
    ensures var n := Run(hash, EmptyNs(counter), evs);
            LoadAll(NOTHING, n.store, n.store.Keys) == Good(Loaded(n.metadata, n.directories, n.ids))
  {
    RunKeepsInv(hash, counter, evs);
    InitRebuilds(Run(hash, EmptyNs(counter), evs));
  }

  /** And no two files ever share an id. */
  lemma FileIdsAreDistinct(hash: string -> int, counter: int, evs: seq<Event>, p: string, q: string)
    requires (forall p :: IsInt64(hash(p))) && (forall i :: 0 <= i < |evs| ==> WellFormed(evs[i])) && Creates(evs) < P48
    requires var n := Run(hash, EmptyNs(counter), evs);
             p in n.metadata && q in n.metadata && !n.metadata[p].isDir && !n.metadata[q].isDir && p != q
    ensures var n := Run(hash, EmptyNs(counter), evs); n.metadata[p].objectId != n.metadata[q].objectId
  {
    RunKeepsInv(hash, counter, evs);
  }

  /** The id an operation takes, if it is a create that gets as far, whatever becomes of it then. */
  function TakenBy(hash: string -> int, n: Ns, ev: Event): seq<int> {
    if ev.Create? && ev.path !in n.metadata then [ObjectId(hash(ev.path), n.nextId)] else []
  }

  /** The ids handed out over a run. */
  function Issued(hash: string -> int, n: Ns, evs: seq<Event>): seq<int> {
    if evs == [] then []
    else Issued(hash, n, evs[..|evs|-1]) + TakenBy(hash, Run(hash, n, evs[..|evs|-1]), evs[|evs|-1])
  }

  /** The i-th id carries the i-th value of the counter. */
  ghost predicate InOrder(ids: seq<int>, start: int) { forall i :: 0 <= i < |ids| ==> HasCounter(ids[i], start + i) }

  lemma {:induction false} IssuedInOrder(hash: string -> int, n: Ns, evs: seq<Event>)
    requires forall p :: IsInt64(hash(p))
    ensures Run(hash, n, evs).nextId == n.nextId + |Issued(hash, n, evs)| && InOrder(Issued(hash, n, evs), n.nextId)
  {
    if evs != [] {
      var before := evs[..|evs|-1];
      IssuedInOrder(hash, n, before);
      TakenInOrder(hash, Run(hash, n, before), evs[|evs|-1], Issued(hash, n, before), n.nextId);
    }
  }

  lemma TakenInOrder(hash: string -> int, n: Ns, ev: Event, ids: seq<int>, start: int)
    requires (forall p :: IsInt64(hash(p))) && InOrder(ids, start) && n.nextId == start + |ids|
    ensures Step(hash, n, ev).nextId == n.nextId + |TakenBy(hash, n, ev)|
    ensures InOrder(ids + TakenBy(hash, n, ev), start)
  {
    if ev.Create? { assert IsInt64(hash(ev.path)) && HasCounter(ObjectId(hash(ev.path), n.nextId), n.nextId); }
  }

  /** No id is ever handed out twice in a process lifetime, not even one whose file is gone or was never stored. */
  lemma IssuedIdsAreDistinct(hash: string -> int, counter: int, evs: seq<Event>, i: nat, j: nat)
    requires (forall p :: IsInt64(hash(p))) && (forall i :: 0 <= i < |evs| ==> WellFormed(evs[i])) && Creates(evs) < P48
    requires i < j < |Issued(hash, EmptyNs(counter), evs)|
    ensures Issued(hash, EmptyNs(counter), evs)[i] != Issued(hash, EmptyNs(counter), evs)[j]
  {
    var ids := Issued(hash, EmptyNs(counter), evs);
    IssuedInOrder(hash, EmptyNs(counter), evs);
    RunKeepsInv(hash, counter, evs);
    assert HasCounter(ids[i], counter + i) && HasCounter(ids[j], counter + j);
    var h1 :| IsInt64(h1) && ids[i] == ObjectId(h1, counter + i);
    var h2 :| IsInt64(h2) && ids[j] == ObjectId(h2, counter + j);
    IdsDiffer(h1, h2, counter, i, j);
  }

  // ---------------------------------------------------------------- after a restart

  /** The namespace of a new process on an old store: the maps are rebuilt by `init`, the counter is not. */
  ghost function Restarted(n: Ns, counter: int): Ns {
    match LoadAll(NOTHING, n.store, n.store.Keys)
    case Good(l) => Ns(l.metadata, l.directories, l.ids, counter, n.store)
    case _ => Ns(map[], map[], map[], counter, n.store)
  }

  lemma RestartedIs(n: Ns, counter: int)
    requires Inv(n)
    ensures Restarted(n, counter) == n.(nextId := counter) && Inv(Restarted(n, counter))
  {
    InitRebuilds(n);
  }

  /** With the counter back at an old value, a create on a path in the same block takes an id that is in use. */
  lemma RestartCanReuseAnId(n: Ns, q: string, path: string, hash: int, attrs: nat, storeOk: bool)
    requires Inv(n) && q in n.metadata && !n.metadata[q].isDir && IsAbsolute(path) && path !in n.metadata
    requires IsInt64(hash) && Block(hash) == Block(n.metadata[q].objectId)
    ensures !Inv(CreateNs(Restarted(n, n.metadata[q].objectId), path, hash, attrs, storeOk).0)
  {
    var oid := n.metadata[q].objectId;
    RestartedIs(n, oid);
    CreateKeepsInvIff(Restarted(n, oid), path, hash, attrs, storeOk);
  }

  /**
   * Which counters are safe to restart with: whatever paths the next `k` creates are for, none of their ids is in
   * use, if and only if none of the next `k` counter values agrees modulo 2^48 with an id in use.
   */
  lemma RestartIsSafeIff(ids: set<int>, counter: int, k: nat)
    requires forall id :: id in ids ==> IsInt64(id)
    ensures (forall h, c :: IsInt64(h) && counter <= c < counter + k ==> ObjectId(h, c) !in ids) <==>
            forall id, c :: id in ids && counter <= c < counter + k ==> InBlock(id) != InBlock(c)
  {
    if h, c :| IsInt64(h) && counter <= c < counter + k && ObjectId(h, c) in ids {
      ObjectIdParts(h, c);
    }
    if id, c :| id in ids && counter <= c < counter + k && InBlock(id) == InBlock(c) {
      assert ObjectId(id, c) == id;
    }
  }

  /** One process: the counter it starts with, and its run. */
  datatype Life = Life(counter: int, evs: seq<Event>)

  /** Processes one after the other on the same store. */
  ghost function RunLives(hash: string -> int, lives: seq<Life>): Ns {
    if lives == [] then EmptyNs(0)
    else
      var life := lives[|lives|-1];
      Run(hash, Restarted(RunLives(hash, lives[..|lives|-1]), life.counter), life.evs)
  }

  /** The counter value by which a process is sure to have stopped. */
  function EndOf(life: Life): int { life.counter + Creates(life.evs) }

  /** Every process starts its counter past the last one's, and all stay within 2^48. */
  predicate InTurn(lives: seq<Life>) {
    && (forall i :: 0 < i < |lives| ==> EndOf(lives[i-1]) <= lives[i].counter)
    && (forall i :: 0 <= i < |lives| ==> EndOf(lives[i]) - lives[0].counter < P48)
    && (forall i, j :: 0 <= i < |lives| && 0 <= j < |lives[i].evs| ==> WellFormed(lives[i].evs[j]))
  }

  /**
   * Over any number of process lifetimes whose counters take turns, with arbitrary store failures, memory and store
   * stay in step and every restart rebuilds what was there.
   */
  lemma {:induction false} LivesKeepInv(hash: string -> int, lives: seq<Life>)
    requires (forall p :: IsInt64(hash(p))) && InTurn(lives) && lives != []
    ensures var n := RunLives(hash, lives);
            Inv(n) && IdsFromCounter(n, lives[0].counter) && n.nextId <= EndOf(lives[|lives|-1])
    decreases |lives|
  {
    var last := |lives| - 1;
    var life, start := lives[last], lives[0].counter;
    var before := RunLives(hash, lives[..last]);
    if last > 0 {
      LivesInTurn(lives);
      LivesKeepInv(hash, lives[..last]);
    }
    RestartedIs(before, life.counter);
    Restarts(before, start, life.counter);
    RunFrom(hash, Restarted(before, life.counter), start, life.evs);
  }

  lemma LivesInTurn(lives: seq<Life>)
    requires InTurn(lives) && |lives| > 1
    ensures InTurn(lives[..|lives|-1])
  {
  }

  lemma Restarts(n: Ns, start: int, counter: int)
    requires Inv(n) && (n.ids == map[] || (IdsFromCounter(n, start) && n.nextId <= counter)) && start <= counter
    ensures IdsFromCounter(Restarted(n, counter), start)
  {
    RestartedIs(n, counter);
    forall i | i in n.ids ensures MadeBetween(i, start, counter) {
      var c :| start <= c < n.nextId && HasCounter(i, c);
    }
  }

  // ---------------------------------------------------------------- many masters

  /** The id of a file lies in the block of its own path's hash. */
  ghost predicate IdsFromPaths(hash: string -> int, metadata: map<string, Meta>) {
    forall p :: p in metadata && !metadata[p].isDir ==> Block(metadata[p].objectId) == Block(hash(p))
  }

  lemma {:induction false} RunIdsFromPaths(hash: string -> int, counter: int, evs: seq<Event>)
    requires forall p :: IsInt64(hash(p))
    ensures IdsFromPaths(hash, Run(hash, EmptyNs(counter), evs).metadata)
  {
    if evs != [] {
      RunIdsFromPaths(hash, counter, evs[..|evs|-1]);
      var before, ev := Run(hash, EmptyNs(counter), evs[..|evs|-1]), evs[|evs|-1];
      if ev.Create? { ObjectIdParts(hash(ev.path), before.nextId); }
    }
  }

  /**
   * Resolving a search result, after any run on every master: if files are created on the master that owns their
   * path's hash, and the ring's separators are multiples of 2^48, then the master that owns an object id is the one
   * that made it, and answers with the path.
   */
  lemma IdResolvesToItsPath(hash: string -> int, seps: set<int>, counters: int -> int, runs: int -> seq<Event>, m: int, p: string, m': int)
    requires (forall q :: IsInt64(hash(q))) && (forall x :: x in seps ==> InBlock(x) == 0)
    requires (forall i :: 0 <= i < |runs(m)| ==> WellFormed(runs(m)[i])) && Creates(runs(m)) < P48
    requires Owner(seps, hash(p), m)
    requires var n := Run(hash, EmptyNs(counters(m)), runs(m)); p in n.metadata && !n.metadata[p].isDir
    requires Owner(seps, Run(hash, EmptyNs(counters(m)), runs(m)).metadata[p].objectId, m')
    ensures var id := Run(hash, EmptyNs(counters(m)), runs(m)).metadata[p].objectId;
            var ids := Run(hash, EmptyNs(counters(m')), runs(m')).ids;
            m' == m && id in ids && ids[id] == p
  {
    RunKeepsInv(hash, counters(m), runs(m));
    RunIdsFromPaths(hash, counters(m), runs(m));
    SameBlockSameOwner(seps, hash(p), Run(hash, EmptyNs(counters(m)), runs(m)).metadata[p].objectId, m, m');
  }
}
