/** Which packages' sources go into a build fingerprint: the local ones the root reaches through local ones. */
module DependencyClosure {
  import opened Wrappers

  /** A local package: its manifest, and its source files, or nothing when a target lies outside the package. */
  datatype Package = Package(manifest: string, sources: Option<set<string>>)

  /** Package ids are strings; `local` holds the packages without a registry source. */
  datatype Graph = Graph(local: map<string, Package>, dependencies: map<string, seq<string>>)

  function DependsOn(g: Graph, id: string): seq<string> {
    if id in g.dependencies then g.dependencies[id] else []
  }

  /** A chain of dependencies that leaves only local packages. */
  ghost predicate Chain(g: Graph, ids: seq<string>) {
    && ids != []
    && forall i | 0 <= i < |ids| - 1 :: Link(g, ids, i)
  }

  ghost predicate Link(g: Graph, ids: seq<string>, i: nat)
    requires i + 1 < |ids|
  {
    ids[i] in g.local && ids[i + 1] in DependsOn(g, ids[i])
  }

  ghost predicate Reaches(g: Graph, root: string, id: string) {
    exists ids :: Chain(g, ids) && ids[0] == root && ids[|ids| - 1] == id
  }

  /** The packages whose manifests and sources are hashed. */
  ghost predicate Hashed(g: Graph, root: string, id: string) { id in g.local && Reaches(g, root, id) }

  ghost predicate FileOf(p: Package, f: string) { f == p.manifest || (p.sources.Some? && f in p.sources.value) }

  lemma ReachesRoot(g: Graph, root: string)
    ensures Reaches(g, root, root)
  {
    assert Chain(g, [root]) && [root][0] == root;
  }

  lemma ReachesNext(g: Graph, root: string, id: string, next: string)
    requires Reaches(g, root, id) && id in g.local && next in DependsOn(g, id)
    ensures Reaches(g, root, next)
  {
    var ids :| Chain(g, ids) && ids[0] == root && ids[|ids| - 1] == id;
    var longer := ids + [next];
    forall i | 0 <= i < |longer| - 1 ensures Link(g, longer, i) {
      if i < |ids| - 1 { assert Link(g, ids, i); }
    }
    assert Chain(g, longer) && longer[0] == root && longer[|longer| - 1] == next;
  }

  /** A set that holds the root and is closed under the dependencies of local packages holds all that is reached. */
  ghost predicate Closed(g: Graph, seen: set<string>) {
    forall id, next | id in seen && id in g.local && next in DependsOn(g, id) :: next in seen
  }

  lemma {:induction false} ClosedHoldsChain(g: Graph, seen: set<string>, ids: seq<string>, n: nat)
    requires Closed(g, seen) && Chain(g, ids) && ids[0] in seen && n < |ids|
    ensures ids[n] in seen
  {
    if n > 0 {
      ClosedHoldsChain(g, seen, ids, n - 1);
      assert Link(g, ids, n - 1);
    }
  }

  lemma ClosedHoldsReached(g: Graph, seen: set<string>, root: string, id: string)
    requires Closed(g, seen) && root in seen && Reaches(g, root, id)
    ensures id in seen
  {
    var ids :| Chain(g, ids) && ids[0] == root && ids[|ids| - 1] == id;
    ClosedHoldsChain(g, seen, ids, |ids| - 1);
  }

  /** Every id that is named anywhere. */
  function Universe(g: Graph, root: string): set<string> {
    {root} + set id, next | id in g.dependencies && next in g.dependencies[id] :: next
  }

  /** The files gathered so far are those of the local packages visited so far. */
  ghost predicate Gathered(g: Graph, base: set<string>, visited: set<string>, files: set<string>) {
    forall f :: f in files <==> f in base || exists id <- visited :: id in g.local && FileOf(g.local[id], f)
  }

  lemma GatherForeign(g: Graph, base: set<string>, visited: set<string>, files: set<string>, id: string)
    requires Gathered(g, base, visited, files) && id !in g.local
    ensures Gathered(g, base, visited + {id}, files)
  {
  }

  lemma GatherLocal(g: Graph, base: set<string>, visited: set<string>, files: set<string>, id: string)
    requires Gathered(g, base, visited, files) && id in g.local && g.local[id].sources.Some?
    ensures Gathered(g, base, visited + {id}, files + {g.local[id].manifest} + g.local[id].sources.value)
  {
    var more := files + {g.local[id].manifest} + g.local[id].sources.value;
    forall f ensures f in more <==> f in base || exists x <- visited + {id} :: x in g.local && FileOf(g.local[x], f) {
      if FileOf(g.local[id], f) { assert id in visited + {id}; }
    }
  }

  lemma HashedVisited(g: Graph, visited: set<string>, root: string)
    requires Closed(g, visited) && root in visited
    ensures forall id | Hashed(g, root, id) :: id in visited
  {
    forall id | Hashed(g, root, id) ensures id in visited { ClosedHoldsReached(g, visited, root, id); }
  }

  /**
   The worklist. It ends on every graph, cyclic ones too; it succeeds exactly when the root
   is local and every hashed package has its sources, and then returns the base files and
   the files of exactly the hashed packages.
   */
  method PackageSources(g: Graph, root: string, base: set<string>) returns (r: Option<set<string>>)
    ensures r.Some? <==> root in g.local && forall id | Hashed(g, root, id) :: g.local[id].sources.Some?
    ensures r.Some? ==>
              forall f :: f in r.value <==> f in base || exists id :: Hashed(g, root, id) && FileOf(g.local[id], f)
  {
    var files, pending, visited := base, [root], {};
    ReachesRoot(g, root);
    while pending != []
      invariant visited <= Universe(g, root) && forall id <- pending :: id in Universe(g, root)
      invariant forall id <- visited :: Reaches(g, root, id)
      invariant forall id <- pending :: Reaches(g, root, id)
      invariant forall id, next | id in visited && id in g.local && next in DependsOn(g, id) ::
                  next in visited || next in pending
      invariant root in visited || root in pending
      invariant forall id <- visited :: id in g.local ==> g.local[id].sources.Some?
      invariant Gathered(g, base, visited, files)
      decreases Universe(g, root) - visited, |pending|
    {
      var id := pending[|pending| - 1];
      assert pending == pending[..|pending| - 1] + [id];
      pending := pending[..|pending| - 1];
      if id in visited { continue; }
      if id in g.local && g.local[id].sources.Some? {
        GatherLocal(g, base, visited, files, id);
      } else if id !in g.local {
        GatherForeign(g, base, visited, files, id);
      }
      visited := visited + {id};
      if id !in g.local { continue; }
      var package := g.local[id];
      if package.sources.None? {
        assert Hashed(g, root, id);
        return None;
      }
      files := files + {package.manifest} + package.sources.value;
      var next := DependsOn(g, id);
      forall n <- next ensures Reaches(g, root, n) { ReachesNext(g, root, id, n); }
      pending := pending + next;
    }
    HashedVisited(g, visited, root);
    if root !in g.local { return None; }
    return Some(files);
  }

  /** The graphs agree on every package the root reaches in the first. */
  ghost predicate AgreeWhereReached(g: Graph, h: Graph, root: string) {
    forall id | Reaches(g, root, id) ::
      && (id in g.local <==> id in h.local)
      && (id in g.local ==> g.local[id] == h.local[id] && DependsOn(g, id) == DependsOn(h, id))
  }

  lemma {:induction false} ChainCarries(g: Graph, h: Graph, ids: seq<string>, n: nat)
    requires Chain(g, ids) && n < |ids| && AgreeWhereReached(g, h, ids[0])
    ensures Reaches(g, ids[0], ids[n]) && Reaches(h, ids[0], ids[n])
  {
    if n == 0 {
      ReachesRoot(g, ids[0]);
      ReachesRoot(h, ids[0]);
    } else {
      ChainCarries(g, h, ids, n - 1);
      assert Link(g, ids, n - 1);
      ReachesNext(g, ids[0], ids[n - 1], ids[n]);
      ReachesNext(h, ids[0], ids[n - 1], ids[n]);
    }
  }

  lemma {:induction false} ChainReturns(g: Graph, h: Graph, ids: seq<string>, n: nat)
    requires Chain(h, ids) && n < |ids| && AgreeWhereReached(g, h, ids[0])
    ensures Reaches(g, ids[0], ids[n])
  {
    if n == 0 {
      ReachesRoot(g, ids[0]);
    } else {
      ChainReturns(g, h, ids, n - 1);
      assert Link(h, ids, n - 1);
      ReachesNext(g, ids[0], ids[n - 1], ids[n]);
    }
  }

  /** Changing, adding or removing any package that is not reached leaves the hashed packages as they were. */
  lemma OtherPackagesDoNotMatter(g: Graph, h: Graph, root: string, id: string)
    requires AgreeWhereReached(g, h, root)
    ensures Hashed(g, root, id) <==> Hashed(h, root, id)
    ensures Hashed(g, root, id) ==> g.local[id] == h.local[id]
  {
    if Reaches(g, root, id) {
      var ids :| Chain(g, ids) && ids[0] == root && ids[|ids| - 1] == id;
      ChainCarries(g, h, ids, |ids| - 1);
    }
    if Reaches(h, root, id) {
      var ids :| Chain(h, ids) && ids[0] == root && ids[|ids| - 1] == id;
      ChainReturns(g, h, ids, |ids| - 1);
    }
  }
}
