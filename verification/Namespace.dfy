/**
 * The file namespace of a master server: metadata, directory entries and the object-id map in
 * memory, kept in step with an ordered key-value store, and rebuilt from it by `init`.
 */
module Namespaces {
  import opened Base
  import opened Paths
  import opened ObjectIds

  /** File metadata; `attrs` stands for owner, mode bits and times, which no decision depends on. */
  datatype Meta = Meta(isDir: bool, objectId: int, attrs: nat)

  /** What a store key can hold: a serialised metadata record or the empty payload of a directory entry. */
  datatype Value = Record(meta: Meta) | Empty

  datatype Result = Ok | Exists | Missing | IsDirectory | NotEmpty | StoreFailed | Crashed

  datatype Ns = Ns(metadata: map<string, Meta>, directories: map<string, set<string>>, ids: map<int, string>,
                   nextId: int, store: map<string, Value>)

  function EntryKey(path: string): string { "dir:" + path }

  predicate IsAbsolute(key: string) { key != "" && key[0] == '/' }

  // ---------------------------------------------------------------- operations

  /** `create` on a path with the given hash; `storeOk` is whether the store takes the record. */
  function CreateNs(n: Ns, path: string, hash: int, attrs: nat, storeOk: bool): (Ns, Result) {
    if path in n.metadata then (n, Exists)
    else
      var oid := ObjectId(hash, n.nextId);
      var counted := n.(nextId := n.nextId + 1);
      if oid in n.ids && n.ids[oid] == path then (counted, Crashed)
      else
        var meta := Meta(false, oid, attrs);
        if storeOk then
          (counted.(metadata := n.metadata[path := meta], ids := n.ids[oid := path],
                    store := n.store[path := Record(meta)]), Ok)
        else (counted.(ids := n.ids - {oid}), StoreFailed)
  }

  function RemoveNs(n: Ns, path: string, storeOk: bool): (Ns, Result) {
    if path !in n.metadata then (n, Missing)
    else if n.metadata[path].isDir then (n, IsDirectory)
    else if !storeOk then (n, StoreFailed)
    else
      var oid := n.metadata[path].objectId;
      if !(oid in n.ids && n.ids[oid] == path) then (n.(store := n.store - {path}), Crashed)
      else (n.(metadata := n.metadata - {path}, ids := n.ids - {oid}, store := n.store - {path}), Ok)
  }

  function MkdirNs(n: Ns, path: string, attrs: nat, storeOk: bool): (Ns, Result) {
    if path in n.metadata then (n, Exists)
    else if !storeOk then (n.(directories := n.directories - {path}), StoreFailed)
    else
      var meta := Meta(true, 0, attrs);
      (n.(metadata := n.metadata[path := meta], store := n.store[path := Record(meta)],
          directories := if path in n.directories then n.directories else n.directories[path := {}]), Ok)
  }

  function RmdirNs(n: Ns, path: string, storeOk: bool): (Ns, Result) {
    if path !in n.directories then (n, Missing)
    else if n.directories[path] != {} then (n, NotEmpty)
    else if !storeOk then (n, StoreFailed)
    else (n.(metadata := n.metadata - {path}, directories := n.directories - {path}, store := n.store - {path}), Ok)
  }

  function AddSubfileNs(n: Ns, dir: string, name: string, storeOk: bool): (Ns, Result) {
    if dir !in n.directories then (n, Missing)
    else if name in n.directories[dir] then (n, Exists)
    else if !storeOk then (n, StoreFailed)
    else (n.(store := n.store[EntryKey(Join(dir, name)) := Empty],
             directories := n.directories[dir := n.directories[dir] + {name}]), Ok)
  }

  function RemoveSubfileNs(n: Ns, dir: string, name: string, storeOk: bool): (Ns, Result) {
    if dir !in n.directories || name !in n.directories[dir] then (n, Missing)
    else if !storeOk then (n, StoreFailed)
    else (n.(store := n.store - {EntryKey(Join(dir, name))},
             directories := n.directories[dir := n.directories[dir] - {name}]), Ok)
  }

  // ---------------------------------------------------------------- init

  /** What `init` rebuilds. */
  datatype Loaded = Loaded(metadata: map<string, Meta>, directories: map<string, set<string>>, ids: map<int, string>)

  datatype LoadResult = Good(loaded: Loaded) | Corrupted | CheckFailed

  const NOTHING := Loaded(map[], map[], map[])

  /** One store record. The check that the parent directory is already known is the one that can abort. */
  function LoadOne(l: Loaded, key: string, value: Value): LoadResult {
    if IsAbsolute(key) then
      if value.Empty? then Corrupted
      else
        var meta := value.meta;
        var l' := l.(metadata := l.metadata[key := meta]);
        Good(if meta.isDir
             then l'.(directories := if key in l.directories then l.directories else l.directories[key := {}])
             else l'.(ids := l.ids[meta.objectId := key]))
    else if StartsWith(key, "dir:") then
      var full := key[4..];
      var parent := ParentPath(full);
      if parent !in l.directories then CheckFailed
      else Good(l.(directories := l.directories[parent := l.directories[parent] + {FileName(full)}]))
    else if StartsWith(key, "meta:") then Good(l)
    else Corrupted
  }

  /** The records from the least of the keys on, in key order. */
  ghost function LoadAll(l: Loaded, store: map<string, Value>, keys: set<string>): LoadResult
    requires keys <= store.Keys
    decreases |keys|
  {
    if keys == {} then Good(l)
    else
      var key := LeastOf(keys);
      match LoadOne(l, key, store[key])
      case Good(l') => LoadAll(l', store, keys - {key})
      case failed => failed
  }

  ghost function LeastOf(keys: set<string>): (m: string)
    requires keys != {}
    ensures m in keys && forall x :: x in keys ==> Leq(m, x)
  {
    LeastKeyIsThere(keys);
    var m :| m in keys && forall x :: x in keys ==> Leq(m, x);
    m
  }

  lemma LeastKeyIsThere(keys: set<string>)
    requires keys != {}
    ensures exists m :: m in keys && forall x :: x in keys ==> Leq(m, x)
  {
    var m := LeastKeyExists(keys);
  }

  // ---------------------------------------------------------------- the class

  class Namespace {
    const pathHash: string -> int
    var metadata: map<string, Meta>
    var directories: map<string, set<string>>
    var ids: map<int, string>
    var nextId: int
    var store: map<string, Value>

    ghost function View(): Ns
      reads this
    {
      Ns(metadata, directories, ids, nextId, store)
    }

    /** A namespace over a store that may hold records; the counter starts at an arbitrary value. */
    constructor (hash: string -> int, s: map<string, Value>, counter: int)
      ensures pathHash == hash && View() == Ns(map[], map[], map[], counter, s)
    {
      pathHash := hash;
      metadata, directories, ids, nextId, store := map[], map[], map[], counter, s;
    }

    method GetObjectId(path: string) returns (oid: int)
      requires IsInt64(pathHash(path))
      modifies this`nextId
      ensures oid == ObjectId(pathHash(path), old(nextId)) && nextId == old(nextId) + 1
    {
      oid := MaskedId(pathHash(path), nextId);
      MaskedIdIsObjectId(pathHash(path), nextId);
      nextId := nextId + 1;
    }

    method Create(path: string, attrs: nat, storeOk: bool) returns (r: Result, oid: int)
      requires IsInt64(pathHash(path))
      modifies this
      ensures (View(), r) == CreateNs(old(View()), path, pathHash(path), attrs, storeOk)
      ensures r.Ok? ==> oid == metadata[path].objectId
    {
      oid := 0;
      if path in metadata {
        return Exists, oid;
      }
      oid := GetObjectId(path);
      if oid in ids && ids[oid] == path {
        return Crashed, oid;
      }
      var meta := Meta(false, oid, attrs);
      ghost var before := metadata;
      metadata := metadata[path := meta];
      ids := ids[oid := path];
      if storeOk {
        store := store[path := Record(meta)];
        return Ok, oid;
      }
      metadata := metadata - {path};
      assert metadata == before;
      ids := ids - {oid};
      assert ids == old(ids) - {oid};
      return StoreFailed, oid;
    }

    method Remove(path: string, storeOk: bool) returns (r: Result, oid: int)
      modifies this
      ensures (View(), r) == RemoveNs(old(View()), path, storeOk)
      ensures r.Ok? ==> oid == old(metadata)[path].objectId
    {
      oid := 0;
      if path !in metadata {
        return Missing, oid;
      }
      var meta := metadata[path];
      if meta.isDir {
        return IsDirectory, oid;
      }
      if !storeOk {
        return StoreFailed, oid;
      }
      store := store - {path};
      if !(meta.objectId in ids && ids[meta.objectId] == path) {
        return Crashed, oid;
      }
      metadata := metadata - {path};
      ids := ids - {meta.objectId};
      return Ok, meta.objectId;
    }

    method Mkdir(path: string, attrs: nat, storeOk: bool) returns (r: Result)
      modifies this
      ensures (View(), r) == MkdirNs(old(View()), path, attrs, storeOk)
      ensures r.Ok? ==> metadata[path] == Meta(true, 0, attrs)
    {
      if path in metadata {
        return Exists;
      }
      var meta := Meta(true, 0, attrs);
      metadata := metadata[path := meta];
      if path !in directories {
        directories := directories[path := {}];
      }
      if !storeOk {
        metadata := metadata - {path};
        directories := directories - {path};
        assert metadata == old(metadata) && directories == old(directories) - {path};
        return StoreFailed;
      }
      store := store[path := Record(meta)];
      return Ok;
    }

    method Rmdir(path: string, storeOk: bool) returns (r: Result)
      modifies this
      ensures (View(), r) == RmdirNs(old(View()), path, storeOk)
    {
      if path !in directories {
        return Missing;
      }
      if directories[path] != {} {
        return NotEmpty;
      }
      if !storeOk {
        return StoreFailed;
      }
      store := store - {path};
      metadata := metadata - {path};
      directories := directories - {path};
      return Ok;
    }

    method AddSubfile(dir: string, name: string, storeOk: bool) returns (r: Result)
      modifies this
      ensures (View(), r) == AddSubfileNs(old(View()), dir, name, storeOk)
      ensures r.Ok? ==> store == old(store)["dir:" + Join(dir, name) := Empty]
    {
      if dir !in directories {
        return Missing;
      }
      if name in directories[dir] {
        return Exists;
      }
      if !storeOk {
        return StoreFailed;
      }
      store := store[EntryKey(Join(dir, name)) := Empty];
      directories := directories[dir := directories[dir] + {name}];
      return Ok;
    }

    method RemoveSubfile(dir: string, name: string, storeOk: bool) returns (r: Result)
      modifies this
      ensures (View(), r) == RemoveSubfileNs(old(View()), dir, name, storeOk)
    {
      if dir !in directories {
        return Missing;
      }
      if name !in directories[dir] {
        return Missing;
      }
      if !storeOk {
        return StoreFailed;
      }
      store := store - {EntryKey(Join(dir, name))};
      directories := directories[dir := directories[dir] - {name}];
      return Ok;
    }

    /** Object ids in batch; a path without a record gives 0. */
    method FindObjects(paths: seq<string>) returns (oids: seq<int>)
      ensures |oids| == |paths|
      ensures forall i :: 0 <= i < |paths| ==> oids[i] == if paths[i] in metadata then metadata[paths[i]].objectId else 0
    {
      oids := [];
      for k := 0 to |paths|
        invariant |oids| == k
        invariant forall i :: 0 <= i < k ==> oids[i] == if paths[i] in metadata then metadata[paths[i]].objectId else 0
      {
        oids := oids + [if paths[k] in metadata then metadata[paths[k]].objectId else 0];
      }
    }

    /** Paths in batch; an unknown id gives the empty path. */
    method FindFiles(oids: seq<int>) returns (paths: seq<string>)
      ensures |paths| == |oids|
      ensures forall i :: 0 <= i < |oids| ==> paths[i] == if oids[i] in ids then ids[oids[i]] else ""
    {
      paths := [];
      for k := 0 to |oids|
        invariant |paths| == k
        invariant forall i :: 0 <= i < k ==> paths[i] == if oids[i] in ids then ids[oids[i]] else ""
      {
        paths := paths + [if oids[k] in ids then ids[oids[k]] else ""];
      }
    }

    /** Rebuilds the maps from the store, record by record in key order. */
    method Init() returns (r: LoadResult)
      requires metadata == map[] && directories == map[] && ids == map[]
      modifies this`metadata, this`directories, this`ids
      ensures r == LoadAll(NOTHING, store, store.Keys)
      ensures r.Good? ==> r.loaded == Loaded(metadata, directories, ids)
    {
      var rest := store.Keys;
      r := Good(NOTHING);
      while rest != {}
        invariant rest <= store.Keys
        invariant r == Good(Loaded(metadata, directories, ids))
        invariant LoadAll(r.loaded, store, rest) == LoadAll(NOTHING, store, store.Keys)
        decreases |rest|
      {
        var key := LeastKey(rest);
        LeqAntisymmetric(key, LeastOf(rest));
        r := LoadOne(Loaded(metadata, directories, ids), key, store[key]);
        if !r.Good? {
          return;
        }
        metadata, directories, ids := r.loaded.metadata, r.loaded.directories, r.loaded.ids;
        rest := rest - {key};
      }
    }
  }
}
