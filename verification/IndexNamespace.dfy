/**
 * The index namespace of a master: which directories carry an index of which name, kept in an
 * ordered map in front of a store, with look-ups along and below a path.
 */
module IndexNamespaces {
  import opened Base
  import opened Paths
  import opened IndexPaths

  type Nodes = map<string, set<string>>

  datatype Result = Ok | Exists | Missing | StoreFailed

  datatype State = State(nodes: Nodes, store: Nodes)

  /** There is an index of that name on that path. */
  predicate Carries(nodes: Nodes, p: string, name: string) { p in nodes && name in nodes[p] }

  /** All trailing slashes go, but never the first character. */
  function Cleanup(path: string): string
    requires path != ""
  {
    if |path| > 1 && path[|path|-1] == '/' then Cleanup(path[..|path|-1]) else path
  }

  /** What is left is the path without the slashes at its end, of which a path of slashes keeps one. */
  lemma {:induction false} CleanupTrims(path: string)
    requires path != ""
    ensures var r := Cleanup(path);
            && r != "" && StartsWith(path, r)
            && (forall i :: |r| <= i < |path| ==> path[i] == '/')
            && (|r| == 1 || r[|r|-1] != '/')
  {
    var n := |path| - 1;
    if n > 0 && path[n] == '/' {
      CleanupTrims(path[..n]);
      var r := Cleanup(path[..n]);
      assert path[..|r|] == path[..n][..|r|];
      forall i | |r| <= i < |path| ensures path[i] == '/' { if i < n { assert path[..n][i] == path[i]; } }
    }
  }

  /** A slash more at the end makes no difference, and a normalised path is left alone. */
  lemma CleanupIgnoresSlash(path: string)
    requires path != ""
    ensures Cleanup(path + "/") == Cleanup(path) && (Normal(path) ==> Cleanup(path) == path)
  {
    assert (path + "/")[..|path|] == path;
  }

  // ---------------------------------------------------------------- updates

  function InsertState(s: State, path: string, name: string, storeOk: bool): (State, Result)
    requires path != ""
  {
    var key := Cleanup(path);
    if Carries(s.nodes, key, name) then (s, Exists)
    else
      var names := if key in s.nodes then s.nodes[key] else {};
      if storeOk then (State(s.nodes[key := names + {name}], s.store[key := names + {name}]), Ok)
      else (State(s.nodes[key := names], s.store), StoreFailed)
  }

  function RemoveState(s: State, path: string, name: string, storeOk: bool): (State, Result)
    requires path != ""
  {
    var key := Cleanup(path);
    if !Carries(s.nodes, key, name) then (s, Missing)
    else if storeOk then (State(s.nodes[key := s.nodes[key] - {name}], s.store[key := s.nodes[key] - {name}]), Ok)
    else (s, StoreFailed)
  }

  function RemovePathState(s: State, path: string, storeOk: bool): (State, Result)
    requires path != ""
  {
    var key := Cleanup(path);
    if key !in s.nodes then (s, Missing)
    else if storeOk then (State(s.nodes - {key}, s.store - {key}), Ok)
    else (s, StoreFailed)
  }

  datatype Event =
    | Insert(path: string, name: string, storeOk: bool)
    | Remove(path: string, name: string, storeOk: bool)
    | RemovePath(path: string, storeOk: bool)
    | Restart

  function Step(s: State, ev: Event): State
    requires !ev.Restart? ==> ev.path != ""
  {
    match ev
    case Insert(p, x, ok) => InsertState(s, p, x, ok).0
    case Remove(p, x, ok) => RemoveState(s, p, x, ok).0
    case RemovePath(p, ok) => RemovePathState(s, p, ok).0
    case Restart => State(s.store, s.store)
  }

  predicate AllPaths(evs: seq<Event>) { forall i :: 0 <= i < |evs| ==> evs[i].Restart? || evs[i].path != "" }

  function Run(evs: seq<Event>): State
    requires AllPaths(evs)
  {
    if evs == [] then State(map[], map[]) else Step(Run(evs[..|evs|-1]), evs[|evs|-1])
  }

  /** A node agrees with its stored copy, and a node that was never stored carries nothing. */
  ghost predicate InStep(s: State) {
    && (forall p :: p in s.store ==> p in s.nodes && s.nodes[p] == s.store[p])
    && (forall p :: p in s.nodes && p !in s.store ==> s.nodes[p] == {})
  }

  lemma {:induction false} RunInStep(evs: seq<Event>)
    requires AllPaths(evs)
    ensures InStep(Run(evs))
  {
    if evs != [] {
      RunInStep(evs[..|evs|-1]);
    }
  }

  /**
   * After any run of inserts, removals and restarts with arbitrary store failures, what `have` answers is what
   * the store says: failed writes leave no trace in the relation, and reloading preserves it.
   */
  lemma HaveEqualsStore(evs: seq<Event>, p: string, name: string)
    requires AllPaths(evs)
    ensures Carries(Run(evs).nodes, p, name) <==> Carries(Run(evs).store, p, name)
  {
    RunInStep(evs);
  }

  /** So the same index is asked for with or without a slash at the end, and set that way too. */
  lemma SlashMakesNoDifference(s: State, path: string, name: string, storeOk: bool)
    requires path != ""
    ensures Carries(s.nodes, Cleanup(path + "/"), name) <==> Carries(s.nodes, Cleanup(path), name)
    ensures InsertState(s, path + "/", name, storeOk) == InsertState(s, path, name, storeOk)
    ensures RemoveState(s, path + "/", name, storeOk) == RemoveState(s, path, name, storeOk)
    ensures RemovePathState(s, path + "/", storeOk) == RemovePathState(s, path, storeOk)
  {
    CleanupIgnoresSlash(path);
  }

  /** After an insert through a path with a slash, the index is there without it. */
  lemma InsertedWithSlash(s: State, path: string, name: string)
    requires Normal(path) && !Carries(s.nodes, path, name)
    ensures var (s', r) := InsertState(s, path + "/", name, true); r.Ok? && Carries(s'.nodes, path, name)
  {
    CleanupIgnoresSlash(path);
  }

  /**
   * What the operations report, over any run: an insert that the pair exists, a removal that it is missing, exactly
   * when the plain set says so; otherwise whether the store took the change.
   */
  lemma ReportsAreRight(evs: seq<Event>, path: string, name: string, storeOk: bool)
    requires AllPaths(evs) && path != ""
    ensures var there := (Cleanup(path), name) in Relation(evs);
            var taken := if storeOk then Ok else StoreFailed;
            && InsertState(Run(evs), path, name, storeOk).1 == (if there then Exists else taken)
            && RemoveState(Run(evs), path, name, storeOk).1 == (if there then taken else Missing)
    ensures RemovePathState(Run(evs), path, storeOk).1.Missing? ==> (Cleanup(path), name) !in Relation(evs)
  {
    RunIsRelation(evs, Cleanup(path), name);
  }

  /**
   * Removing a path reports that it is missing exactly when there is no node, not when there is no index: a node
   * outlives its last name, and an insert that the store refused leaves an empty one.
   */
  lemma EmptyNodeIsRemoved(path: string, name: string)
    requires path != ""
    ensures var evs := [Insert(path, name, false)];
            AllPaths(evs) && Relation(evs) == {} && RemovePathState(Run(evs), path, true).1.Ok?
  {
    var evs := [Insert(path, name, false)];
    assert evs[..0] == [];
  }

  /** The plain form: a set of (path, name) pairs, which a failed write and a restart leave alone. */
  function Relation(evs: seq<Event>): set<(string, string)>
    requires AllPaths(evs)
  {
    if evs == [] then {}
    else
      var before := Relation(evs[..|evs|-1]);
      match evs[|evs|-1]
      case Insert(p, x, storeOk) => if storeOk then before + {(Cleanup(p), x)} else before
      case Remove(p, x, storeOk) => if storeOk then before - {(Cleanup(p), x)} else before
      case RemovePath(p, storeOk) => if storeOk then set q | q in before && q.0 != Cleanup(p) else before
      case Restart => before
  }

  /** After any run, the node map holds exactly the pairs of the plain set. */
  lemma {:induction false} RunIsRelation(evs: seq<Event>, p: string, x: string)
    requires AllPaths(evs)
    ensures Carries(Run(evs).nodes, p, x) <==> (p, x) in Relation(evs)
  {
    if evs != [] {
      RunIsRelation(evs[..|evs|-1], p, x);
      RunInStep(evs[..|evs|-1]);
      StepIsRelation(Run(evs[..|evs|-1]), Relation(evs[..|evs|-1]), evs[|evs|-1], p, x);
    }
  }

  lemma StepIsRelation(s: State, before: set<(string, string)>, ev: Event, p: string, x: string)
    requires (ev.Restart? || ev.path != "") && InStep(s) && (Carries(s.nodes, p, x) <==> (p, x) in before)
    ensures Carries(Step(s, ev).nodes, p, x) <==>
            match ev
            case Insert(q, y, storeOk) => (p, x) in before || (storeOk && p == Cleanup(q) && x == y)
            case Remove(q, y, storeOk) => (p, x) in before && !(storeOk && p == Cleanup(q) && x == y)
            case RemovePath(q, storeOk) => (p, x) in before && !(storeOk && p == Cleanup(q))
            case Restart => (p, x) in before
  {
  }

  // ---------------------------------------------------------------- ancestors

  /** The path itself or a directory above it. */
  predicate IsAncestor(a: string, p: string)
    requires Normal(p)
    decreases |p|
  {
    a == p || (p != "/" && (JoinSplit(p); IsAncestor(a, ParentPath(p))))
  }

  /** The reference for both look-ups: from the path upwards, the first directory that carries the name. */
  function Deepest(nodes: Nodes, p: string, name: string): Option<string>
    requires Normal(p)
    decreases |p|
  {
    if Carries(nodes, p, name) then Some(p)
    else if p == "/" then None
    else
      JoinSplit(p);
      Deepest(nodes, ParentPath(p), name)
  }

  /** One step up, by the last slash. */
  lemma DeepestStep(nodes: Nodes, p: string, name: string)
    requires Normal(p) && !Carries(nodes, p, name)
    ensures LastSlash(p) >= 0
    ensures LastSlash(p) > 0 ==> Normal(p[..LastSlash(p)]) && Deepest(nodes, p, name) == Deepest(nodes, p[..LastSlash(p)], name)
    ensures LastSlash(p) == 0 ==> Deepest(nodes, p, name) == if Carries(nodes, "/", name) then Some("/") else None
  {
    if p == "/" {
      LastSlashIs(p, 0);
    } else {
      ParentIsPrefix(p);
      JoinSplit(p);
      assert Normal("/");
    }
  }

  lemma {:induction false} AncestorIsShorter(a: string, p: string)
    requires Normal(p) && IsAncestor(a, p)
    ensures |a| <= |p|
    decreases |p|
  {
    if a != p {
      JoinSplit(p);
      AncestorIsShorter(a, ParentPath(p));
    }
  }

  /** It is the longest ancestor that carries the name, and there is none exactly when no ancestor does. */
  lemma {:induction false} DeepestIsDeepest(nodes: Nodes, p: string, name: string)
    requires Normal(p)
    ensures match Deepest(nodes, p, name)
            case Some(r) => IsAncestor(r, p) && Carries(nodes, r, name) &&
                            forall a :: IsAncestor(a, p) && Carries(nodes, a, name) ==> |a| <= |r|
            case None => forall a :: IsAncestor(a, p) ==> !Carries(nodes, a, name)
    decreases |p|
  {
    if Carries(nodes, p, name) {
      forall a | IsAncestor(a, p) ensures |a| <= |p| { AncestorIsShorter(a, p); }
    } else if p != "/" {
      JoinSplit(p);
      DeepestIsDeepest(nodes, ParentPath(p), name);
    }
  }

  /** What the client's `getattr` can say about a path. */
  datatype Attr = Directory | NotDirectory | NoEntry | Broken

  /** The index directories are there exactly for the indices of that name. */
  ghost predicate Mirrors(getattr: string -> Attr, nodes: Nodes, name: string) {
    forall q :: Normal(q) ==> (getattr(IndexPath(q, name)).Directory? <==> Carries(nodes, q, name))
  }

  /** What the client's walk comes to. */
  datatype Walk = Found(path: string) | NoIndex | CannotTell

  function WalkUp(getattr: string -> Attr, dir: string, name: string): Walk
    requires Normal(dir)
    decreases |dir|
  {
    var attr := getattr(IndexPath(dir, name));
    if attr.Directory? then Found(IndexPath(dir, name))
    else if attr.Broken? then CannotTell
    else if dir == "/" then NoIndex
    else
      JoinSplit(dir);
      WalkUp(getattr, ParentPath(dir), name)
  }

  /**
   * With index directories that mirror the index namespace, the walk gives the same answer as the master's look-up,
   * and it gives up only when some ancestor cannot be examined.
   */
  lemma {:induction false} WalkIsDeepest(getattr: string -> Attr, nodes: Nodes, dir: string, name: string)
    requires Normal(dir)
    ensures Mirrors(getattr, nodes, name) && !WalkUp(getattr, dir, name).CannotTell? ==>
              WalkUp(getattr, dir, name) ==
              match Deepest(nodes, dir, name) case Some(r) => Found(IndexPath(r, name)) case None => NoIndex
    ensures WalkUp(getattr, dir, name).CannotTell? ==> exists q :: IsAncestor(q, dir) && getattr(IndexPath(q, name)).Broken?
    decreases |dir|
  {
    var attr := getattr(IndexPath(dir, name));
    if attr.Broken? {
      assert IsAncestor(dir, dir);
    } else if !attr.Directory? && dir != "/" {
      JoinSplit(dir);
      WalkIsDeepest(getattr, nodes, ParentPath(dir), name);
    }
  }

  /** The client's walk from a file's parent upwards, asking for the index directory at every step. */
  method WalkParents(parent: string, name: string, getattr: string -> Attr) returns (walk: Walk)
    requires Normal(parent)
    ensures walk == WalkUp(getattr, parent, name)
  {
    var dir := parent;
    while true
      invariant Normal(dir) && WalkUp(getattr, dir, name) == WalkUp(getattr, parent, name)
      decreases |dir|
    {
      var indexPath := IndexPath(dir, name);
      var attr := getattr(indexPath);
      if attr.Directory? {
        return Found(indexPath);
      }
      if attr.Broken? {
        return CannotTell;
      }
      if dir == "/" {
        return NoIndex;
      }
      JoinSplit(dir);
      dir := ParentPath(dir);
    }
  }

  // ---------------------------------------------------------------- the class

  /** Strictly ascending in key order. */
  ghost predicate Sorted(ps: seq<string>) { forall i, j :: 0 <= i < j < |ps| ==> ps[i] != ps[j] && Leq(ps[i], ps[j]) }

  /** A scan from the lower bound of `root`: what is done comes before what is left, and nothing else qualifies. */
  ghost predicate Scanned(nodes: Nodes, root: string, rest: set<string>, done: set<string>) {
    && (forall p :: p in nodes && Leq(root, p) <==> p in rest || p in done)
    && (forall p, q :: p in done && q in rest ==> p != q && Leq(p, q))
  }

  /** Once the least key left does not start with the root, none of the others does: the early stop is right. */
  lemma NoneBelow(rest: set<string>, path: string, root: string)
    requires path in rest && Leq(root, path) && !StartsWith(path, root) && forall q :: q in rest ==> Leq(path, q)
    ensures forall q :: q in rest ==> !StartsWith(q, root)
  {
    forall q | q in rest ensures !StartsWith(q, root) {
      if StartsWith(q, root) { PrefixIsContiguous(root, path, q); }
    }
  }

  lemma AllBelow(nodes: Nodes, root: string, rest: set<string>, done: set<string>)
    requires Scanned(nodes, root, rest, done) && forall q :: q in rest ==> !StartsWith(q, root)
    ensures forall p :: p in nodes && StartsWith(p, root) ==> p in done
  {
    forall p | p in nodes && StartsWith(p, root) ensures p in done { PrefixIsBelow(root, p); }
  }

  lemma ScanOne(nodes: Nodes, root: string, rest: set<string>, done: set<string>, path: string)
    requires Scanned(nodes, root, rest, done) && path in rest && forall q :: q in rest ==> Leq(path, q)
    ensures Scanned(nodes, root, rest - {path}, done + {path}) && path in nodes && Leq(root, path)
    ensures forall p :: p in done ==> p != path && Leq(p, path)
  {
  }

  /** Everything before the first unreadable node is loaded, and nothing else. */
  ghost predicate LoadedUpto(nodes: Nodes, store: Nodes, readable: string -> bool, bad: string) {
    && (forall k :: k in nodes ==> k in store && nodes[k] == store[k] && readable(k) && k != bad && Leq(k, bad))
    && (forall k :: k in store && k !in nodes ==> Leq(bad, k))
  }

  // ---------------------------------------------------------------- prefixes and subtrees

  /** A directory is above a path if and only if it is the path, the root, or the path goes on with a slash. */
  lemma {:induction false} AncestorIsPrefix(root: string, p: string)
    requires Normal(root) && Normal(p)
    ensures IsAncestor(root, p) <==> p == root || root == "/" || StartsWith(p, root + "/")
    decreases |p|
  {
    if p != root && p != "/" {
      var i := LastSlash(p);
      ParentIsPrefix(p);
      JoinSplit(p);
      AncestorIsPrefix(root, ParentPath(p));
      if root != "/" {
        if StartsWith(p, root + "/") { PrefixOfParent(root, p, i); }
        if i > 0 && StartsWith(p[..i], root + "/") { assert p[..|root| + 1] == p[..i][..|root| + 1]; }
        if i > 0 && p[..i] == root { assert p[..i + 1] == root + "/"; }
      }
    }
  }

  lemma PrefixOfParent(root: string, p: string, i: nat)
    requires StartsWith(p, root + "/") && root != "" && i < |p| && p[i] == '/' && forall j :: i < j < |p| ==> p[j] != '/'
    ensures p[..i] == root || StartsWith(p[..i], root + "/")
  {
    var n := |root|;
    assert p[..n + 1][n] == '/';
    assert p[..n] == p[..n + 1][..n] == root;
    if n < i { assert p[..i][..n + 1] == p[..n + 1]; }
  }

  /** The path goes on after the root with something other than a slash: it names a sibling, not something inside. */
  predicate IsSibling(root: string, p: string) { StartsWith(p, root) && |root| < |p| && p[|root|] != '/' }

  lemma PrefixAndSlash(root: string, p: string)
    ensures StartsWith(p, root + "/") <==> StartsWith(p, root) && |root| < |p| && p[|root|] == '/'
  {
    var n := |root|;
    if n < |p| { assert p[..n + 1] == p[..n] + [p[n]]; }
  }

  lemma PrefixIsAncestorIff(root: string, p: string)
    requires Normal(root) && Normal(p)
    ensures IsAncestor(root, p) <==> StartsWith(p, root) && (root == "/" || !IsSibling(root, p))
  {
    AncestorIsPrefix(root, p);
    PrefixAndSlash(root, p);
    if root == "/" { assert p[..1] == "/"; }
  }

  /**
   * `collect` goes by string prefix. Its answer is the subtree of the directory if and only if the root is "/" or no
   * path that carries the name is a sibling whose name merely starts like the root.
   */
  lemma CollectsSubtreeIff(nodes: Nodes, root: string, name: string, indices: seq<string>)
    requires Normal(root) && forall p :: p in nodes ==> Normal(p)
    requires forall p :: p in indices <==> StartsWith(p, root) && Carries(nodes, p, name)
    ensures (forall p :: p in indices <==> Carries(nodes, p, name) && IsAncestor(root, p)) <==>
            root == "/" || forall p :: Carries(nodes, p, name) ==> !IsSibling(root, p)
  {
    forall p | Carries(nodes, p, name)
      ensures IsAncestor(root, p) <==> StartsWith(p, root) && (root == "/" || !IsSibling(root, p))
    {
      PrefixIsAncestorIff(root, p);
    }
    if !(root == "/" || forall p :: Carries(nodes, p, name) ==> !IsSibling(root, p)) {
      var p :| Carries(nodes, p, name) && IsSibling(root, p);
      assert p in indices && !IsAncestor(root, p);
    }
  }

  /** The same for all indices below a directory. */
  lemma ListsSubtreeIff(nodes: Nodes, root: string, src: seq<(string, string)>)
    requires Normal(root) && (forall p :: p in nodes ==> Normal(p)) && ListsBelow(nodes, root, src)
    ensures (forall p, x :: (p, x) in src <==> Carries(nodes, p, x) && IsAncestor(root, p)) <==>
            root == "/" || forall p, x :: Carries(nodes, p, x) ==> !IsSibling(root, p)
  {
    forall p, x | Carries(nodes, p, x)
      ensures IsAncestor(root, p) <==> StartsWith(p, root) && (root == "/" || !IsSibling(root, p))
    {
      PrefixIsAncestorIff(root, p);
    }
    if !(root == "/" || forall p, x :: Carries(nodes, p, x) ==> !IsSibling(root, p)) {
      var p, x :| Carries(nodes, p, x) && IsSibling(root, p);
      assert (p, x) in src && !IsAncestor(root, p);
    }
  }

  /** Collecting below /foo finds an index on /foobar. */
  lemma SiblingIsCollected(indices: seq<string>)
    requires forall p :: p in indices <==> StartsWith(p, "/foo") && Carries(map["/foobar" := {"x"}], p, "x")
    ensures "/foobar" in indices && Normal("/foo") && Normal("/foobar") && !IsAncestor("/foo", "/foobar")
  {
    assert "/foobar"[..4] == "/foo";
    assert Carries(map["/foobar" := {"x"}], "/foobar", "x");
    assert IsSibling("/foo", "/foobar");
    PrefixIsAncestorIff("/foo", "/foobar");
  }

  // ---------------------------------------------------------------- the nodes in memory

  class IndexNamespace {
    var nodes: Nodes
    var store: Nodes

    ghost function View(): State
      reads this
    {
      State(nodes, store)
    }

    constructor (s: Nodes)
      ensures View() == State(map[], s)
    {
      nodes, store := map[], s;
    }

    /** Loads the nodes in key order, up to one that cannot be read. */
    method Init(readable: string -> bool) returns (ok: bool)
      requires nodes == map[]
      modifies this`nodes
      ensures ok <==> forall k :: k in store ==> readable(k)
      ensures ok ==> View() == State(old(store), old(store))
      ensures !ok ==> exists bad :: bad in store && !readable(bad) && LoadedUpto(nodes, store, readable, bad)
    {
      var rest := store.Keys;
      while rest != {}
        invariant rest <= store.Keys && nodes == store - rest
        invariant forall k :: k in nodes ==> readable(k)
        invariant forall k, x :: k in nodes && x in rest ==> Leq(k, x)
        decreases |rest|
      {
        var key := LeastKey(rest);
        if !readable(key) {
          assert LoadedUpto(nodes, store, readable, key);
          return false;
        }
        nodes := nodes[key := store[key]];
        rest := rest - {key};
      }
      return true;
    }

    method CleanupPath(path: string) returns (r: string)
      requires path != ""
      ensures r == Cleanup(path)
    {
      var pos := |path| - 1;
      assert path[..|path|] == path;
      while pos > 0 && path[pos] == '/'
        invariant 0 <= pos < |path| && Cleanup(path[..pos+1]) == Cleanup(path)
      {
        assert path[..pos+1][..pos] == path[..pos];
        pos := pos - 1;
      }
      r := path[..pos+1];
    }

    method InsertName(path: string, name: string, storeOk: bool) returns (r: Result)
      requires path != ""
      modifies this
      ensures (View(), r) == InsertState(old(View()), path, name, storeOk)
    {
      var key := CleanupPath(path);
      if key in nodes {
        if name in nodes[key] {
          return Exists;
        }
      } else {
        nodes := nodes[key := {}];
      }
      nodes := nodes[key := nodes[key] + {name}];
      ghost var names := if key in old(nodes) then old(nodes)[key] else {};
      assert nodes == old(nodes)[key := names + {name}];
      if !storeOk {
        nodes := nodes[key := nodes[key] - {name}];
        assert names + {name} - {name} == names;
        assert nodes == old(nodes)[key := names];
        return StoreFailed;
      }
      store := store[key := nodes[key]];
      return Ok;
    }

    method RemoveName(path: string, name: string, storeOk: bool) returns (r: Result)
      requires path != ""
      modifies this
      ensures (View(), r) == RemoveState(old(View()), path, name, storeOk)
    {
      var key := CleanupPath(path);
      if key !in nodes || name !in nodes[key] {
        return Missing;
      }
      nodes := nodes[key := nodes[key] - {name}];
      if !storeOk {
        nodes := nodes[key := nodes[key] + {name}];
        assert nodes[key] == old(nodes)[key];
        assert nodes == old(nodes);
        return StoreFailed;
      }
      store := store[key := nodes[key]];
      return Ok;
    }

    method RemoveAll(path: string, storeOk: bool) returns (r: Result)
      requires path != ""
      modifies this
      ensures (View(), r) == RemovePathState(old(View()), path, storeOk)
    {
      var key := CleanupPath(path);
      if key !in nodes {
        return Missing;
      }
      if !storeOk {
        return StoreFailed;
      }
      store := store - {key};
      nodes := nodes - {key};
      return Ok;
    }

    method Have(path: string, name: string) returns (b: bool)
      requires path != ""
      ensures b == Carries(nodes, Cleanup(path), name)
    {
      var key := CleanupPath(path);
      b := key in nodes && name in nodes[key];
    }

    /** Tries the path, then shorter and shorter prefixes up to a slash, and the root directory last. */
    method FindIndex(file: string, name: string) returns (found: Option<string>)
      ensures Normal(file) ==> found == Deepest(nodes, file, name)
      ensures found.Some? ==> Carries(nodes, found.value, name)
    {
      var partial := file;
      ghost var normal := Normal(file);
      while true
        invariant normal ==> Normal(partial) && Deepest(nodes, partial, name) == Deepest(nodes, file, name)
        decreases |partial|
      {
        if partial in nodes && name in nodes[partial] {
          return Some(partial);
        }
        if normal { DeepestStep(nodes, partial, name); }
        var slash := LastSlash(partial);
        if slash <= 0 {
          break;
        }
        partial := partial[..slash];
      }
      if "/" in nodes && name in nodes["/"] {
        return Some("/");
      }
      return None;
    }

    /** The scan from the lower bound of the root with early stop finds every path that starts with it, in key order. */
    method Collect(root: string, name: string) returns (indices: seq<string>)
      ensures Sorted(indices)
      ensures forall p :: p in indices <==> StartsWith(p, root) && Carries(nodes, p, name)
    {
      indices := [];
      var rest := set p | p in nodes && Leq(root, p);
      ghost var done: set<string> := {};
      while rest != {}
        invariant Scanned(nodes, root, rest, done)
        invariant forall p :: p in indices <==> p in done && StartsWith(p, root) && Carries(nodes, p, name)
        invariant Sorted(indices)
        decreases |rest|
      {
        var path := LeastKey(rest);
        ScanOne(nodes, root, rest, done, path);
        if !StartsWith(path, root) {
          NoneBelow(rest, path, root);
          break;
        }
        if name in nodes[path] {
          indices := indices + [path];
        }
        rest, done := rest - {path}, done + {path};
      }
      AllBelow(nodes, root, rest, done);
    }

    /** All index paths whose directory starts with the root: directories in key order, and the names of each in key order. */
    method GetIndices(root: string) returns (results: seq<string>)
      ensures exists src :: Rendered(results, src) && Ordered(src) && ListsBelow(nodes, root, src)
    {
      results := [];
      ghost var src: seq<(string, string)> := [];
      var rest := set p | p in nodes && Leq(root, p);
      ghost var done: set<string> := {};
      while rest != {}
        invariant Scanned(nodes, root, rest, done)
        invariant Gathered(nodes, root, done, src) && Ordered(src) && Rendered(results, src)
        decreases |rest|
      {
        var path := LeastKey(rest);
        ScanOne(nodes, root, rest, done, path);
        if !StartsWith(path, root) {
          NoneBelow(rest, path, root);
          break;
        }
        var names := SortedNames(nodes[path]);
        GatherPath(nodes, root, done, results, src, path, names);
        results, src := results + IndexPathsOf(path, names), src + Tagged(path, names);
        rest, done := rest - {path}, done + {path};
      }
      AllBelow(nodes, root, rest, done);
      assert ListsBelow(nodes, root, src);
    }
  }

  /** Exactly the pairs of the paths that start with the root. */
  ghost predicate ListsBelow(nodes: Nodes, root: string, src: seq<(string, string)>) {
    forall p, x :: (p, x) in src <==> StartsWith(p, root) && Carries(nodes, p, x)
  }

  /** The pairs of the paths visited so far. */
  ghost predicate Gathered(nodes: Nodes, root: string, done: set<string>, src: seq<(string, string)>) {
    && (forall p :: p in done ==> p in nodes)
    && (forall p, x :: (p, x) in src <==> p in done && StartsWith(p, root) && Carries(nodes, p, x))
  }

  ghost predicate Ordered(src: seq<(string, string)>) { forall i, j :: 0 <= i < j < |src| ==> Before(src[i], src[j]) }

  ghost predicate Rendered(results: seq<string>, src: seq<(string, string)>) {
    |results| == |src| && forall i :: 0 <= i < |src| ==> results[i] == IndexPath(src[i].0, src[i].1)
  }

  lemma GatherPath(nodes: Nodes, root: string, done: set<string>, results: seq<string>, src: seq<(string, string)>,
                   path: string, names: seq<string>)
    requires Gathered(nodes, root, done, src) && Ordered(src) && Rendered(results, src)
    requires path in nodes && StartsWith(path, root) && Sorted(names) && forall x :: x in names <==> x in nodes[path]
    requires forall p :: p in done ==> p != path && Leq(p, path)
    ensures var src' := src + Tagged(path, names);
            Gathered(nodes, root, done + {path}, src') && Ordered(src') && Rendered(results + IndexPathsOf(path, names), src')
  {
    forall i | 0 <= i < |src| ensures src[i].0 != path && Leq(src[i].0, path) {
      assert (src[i].0, src[i].1) in src;
    }
    AddedPairs(src, path, names);
    GatheredMore(nodes, root, done, src, path, names);
    RenderedMore(results, src, path, names);
  }

  lemma GatheredMore(nodes: Nodes, root: string, done: set<string>, src: seq<(string, string)>, path: string, names: seq<string>)
    requires Gathered(nodes, root, done, src) && path in nodes && path !in done && StartsWith(path, root)
    requires forall x :: x in names <==> x in nodes[path]
    requires forall p, x :: (p, x) in src + Tagged(path, names) <==> (p, x) in src || (p == path && x in names)
    ensures Gathered(nodes, root, done + {path}, src + Tagged(path, names))
  {
  }

  lemma RenderedMore(results: seq<string>, src: seq<(string, string)>, path: string, names: seq<string>)
    requires Rendered(results, src)
    ensures Rendered(results + IndexPathsOf(path, names), src + Tagged(path, names))
  {
  }

  function IndexPathsOf(path: string, names: seq<string>): (r: seq<string>)
    ensures |r| == |names| && forall i :: 0 <= i < |names| ==> r[i] == IndexPath(path, names[i])
  {
    seq(|names|, i requires 0 <= i < |names| => IndexPath(path, names[i]))
  }

  function Tagged(path: string, names: seq<string>): (r: seq<(string, string)>)
    ensures |r| == |names| && forall i :: 0 <= i < |names| ==> r[i] == (path, names[i])
  {
    seq(|names|, i requires 0 <= i < |names| => (path, names[i]))
  }

  /** Adding the names of the next path keeps the order and adds exactly its pairs. */
  lemma AddedPairs(src: seq<(string, string)>, path: string, names: seq<string>)
    requires Sorted(names) && Ordered(src)
    requires forall i :: 0 <= i < |src| ==> src[i].0 != path && Leq(src[i].0, path)
    ensures var all := src + Tagged(path, names);
            && Ordered(all)
            && (forall p, x :: (p, x) in all <==> (p, x) in src || (p == path && x in names))
  {
    var added := Tagged(path, names);
    forall p, x ensures (p, x) in added <==> p == path && x in names {
      if p == path && x in names { var i :| 0 <= i < |names| && names[i] == x; assert added[i] == (p, x); }
    }
  }

  /** Ordered by path, then by name. */
  ghost predicate Before(a: (string, string), b: (string, string)) {
    (a.0 != b.0 && Leq(a.0, b.0)) || (a.0 == b.0 && a.1 != b.1 && Leq(a.1, b.1))
  }

  method SortedNames(s: set<string>) returns (r: seq<string>)
    ensures Sorted(r) && forall x :: x in r <==> x in s
  {
    r := [];
    var rest := s;
    while rest != {}
      invariant rest <= s && forall x :: x in r <==> x in s && x !in rest
      invariant forall x, y :: x in r && y in rest ==> Leq(x, y)
      invariant Sorted(r)
      decreases |rest|
    {
      var x := LeastKey(rest);
      r := r + [x];
      rest := rest - {x};
    }
  }
}
