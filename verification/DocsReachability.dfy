/**
 * The docs link walk. A site is what the file system answers: for each readable file the
 * resolved targets of its links (a directory already replaced by its README when it has
 * one), and the set of existing Markdown files under the docs root.
 */
module DocsReachability {
  type Path = string

  datatype Site = Site(links: map<Path, seq<Path>>, docs: set<Path>) {
    /** Link targets the walk follows; an unreadable file has none. */
    function Targets(p: Path): (r: seq<Path>)
      ensures forall t :: t in r <==> p in links && t in links[p] && t in docs
    {
      if p in links then Kept(links[p], docs) else []
    }
  }

  function Kept(targets: seq<Path>, docs: set<Path>): (r: seq<Path>)
    ensures forall t :: t in r <==> t in targets && t in docs
  {
    if targets == [] then []
    else
      assert targets == [targets[0]] + targets[1..];
      (if targets[0] in docs then [targets[0]] else []) + Kept(targets[1..], docs)
  }

  /** A chain of followed links from its first file to its last. */
  ghost predicate LinkPath(site: Site, path: seq<Path>) {
    path != [] && forall i | 0 <= i < |path| - 1 :: path[i + 1] in site.Targets(path[i])
  }

  ghost predicate Linked(site: Site, start: Path, p: Path) {
    exists path :: LinkPath(site, path) && path[0] == start && path[|path| - 1] == p
  }

  ghost predicate ClosedUnder(site: Site, s: set<Path>) {
    forall p, t | p in s && t in site.Targets(p) :: t in s
  }

  lemma LinkedSelf(site: Site, start: Path)
    ensures Linked(site, start, start)
  {
    assert LinkPath(site, [start]);
  }

  lemma LinkedMore(site: Site, start: Path, p: Path, t: Path)
    requires Linked(site, start, p) && t in site.Targets(p)
    ensures Linked(site, start, t)
  {
    var path :| LinkPath(site, path) && path[0] == start && path[|path| - 1] == p;
    var longer := path + [t];
    forall i | 0 <= i < |longer| - 1 ensures longer[i + 1] in site.Targets(longer[i]) {
      if i == |path| - 1 {
        assert longer[i] == p;
      }
    }
    assert LinkPath(site, longer);
  }

  /** A closed set that holds the start of a link path holds its end. */
  lemma {:induction false} ClosedHoldsPath(site: Site, s: set<Path>, path: seq<Path>)
    requires ClosedUnder(site, s) && LinkPath(site, path) && path[0] in s
    ensures path[|path| - 1] in s
    decreases |path|
  {
    if |path| > 1 {
      assert path[0 + 1] in site.Targets(path[0]);
      forall i | 0 <= i < |path[1..]| - 1 ensures path[1..][i + 1] in site.Targets(path[1..][i]) {
        assert path[i + 1 + 1] in site.Targets(path[i + 1]);
      }
      ClosedHoldsPath(site, s, path[1..]);
    }
  }

  /** Every link of a walked file leads to a walked file or one still waiting in the queue. */
  ghost predicate Frontier(site: Site, reachable: set<Path>, queue: seq<Path>) {
    forall p, t | p in reachable && t in site.Targets(p) :: t in reachable || t in queue
  }

  /** The inner loop: append the targets not walked yet, duplicates included. */
  method Enqueue(waiting: seq<Path>, targets: seq<Path>, reachable: set<Path>) returns (queue: seq<Path>)
    ensures forall p :: p in queue <==> p in waiting || (p in targets && p !in reachable)
  {
    queue := waiting;
    for i := 0 to |targets|
      invariant forall p :: p in queue <==> p in waiting || (p in targets[..i] && p !in reachable)
    {
      assert targets[..i + 1] == targets[..i] + [targets[i]];
      if targets[i] !in reachable {
        queue := queue + [targets[i]];
      }
    }
    assert targets[..|targets|] == targets;
  }

  /** What the walk keeps: it only meets linked files, and misses none. */
  ghost predicate Walking(site: Site, start: Path, reachable: set<Path>, queue: seq<Path>) {
    && (start in reachable || start in queue)
    && (forall p | p in reachable || p in queue :: Linked(site, start, p) && (p == start || p in site.docs))
    && Frontier(site, reachable, queue)
  }

  lemma WalkStep(site: Site, start: Path, reachable: set<Path>, waiting: seq<Path>, current: Path, queue: seq<Path>)
    requires Walking(site, start, reachable, waiting + [current])
    requires forall p :: p in queue <==> p in waiting || (p in site.Targets(current) && p !in reachable + {current})
    ensures Walking(site, start, reachable + {current}, queue)
  {
    hide Linked;
    assert current in waiting + [current];
    forall t | t in site.Targets(current) ensures Linked(site, start, t) && t in site.docs {
      LinkedMore(site, start, current, t);
    }
    FrontierStep(site, reachable, waiting, current, queue);
    hide Frontier;
    forall p | p in reachable + {current} || p in queue
      ensures Linked(site, start, p) && (p == start || p in site.docs)
    {
      assert p in waiting ==> p in waiting + [current];
    }
  }

  lemma FrontierStep(site: Site, reachable: set<Path>, waiting: seq<Path>, current: Path, queue: seq<Path>)
    requires Frontier(site, reachable, waiting + [current])
    requires forall p :: p in queue <==> p in waiting || (p in site.Targets(current) && p !in reachable + {current})
    ensures Frontier(site, reachable + {current}, queue)
  {
    hide Site.Targets;
    forall p, t | p in reachable + {current} && t in site.Targets(p) ensures t in reachable + {current} || t in queue {
      if p in reachable {
        assert t in reachable || t in waiting + [current];
      }
    }
  }

  lemma WalkSkip(site: Site, start: Path, reachable: set<Path>, waiting: seq<Path>, current: Path)
    requires Walking(site, start, reachable, waiting + [current]) && current in reachable
    ensures Walking(site, start, reachable, waiting)
  {
    hide Linked;
  }

  lemma WalkDone(site: Site, start: Path, reachable: set<Path>)
    requires Walking(site, start, reachable, [])
    ensures forall p :: p in reachable <==> Linked(site, start, p)
  {
    forall p | Linked(site, start, p) ensures p in reachable {
      var path :| LinkPath(site, path) && path[0] == start && path[|path| - 1] == p;
      ClosedHoldsPath(site, reachable, path);
    }
  }

  /**
   * `walk_reachable`: a stack that may hold duplicates. It returns exactly the files some
   * chain of links leads to from the start.
   */
  method WalkReachable(site: Site, start: Path) returns (reachable: set<Path>)
    ensures forall p :: p in reachable <==> Linked(site, start, p)
  {
    reachable := {};
    var queue := [start];
    LinkedSelf(site, start);
    while queue != []
      invariant Walking(site, start, reachable, queue)
      decreases {start} + site.docs - reachable, |queue|
    {
      var current, waiting := queue[|queue| - 1], queue[..|queue| - 1];
      assert queue == waiting + [current];
      assert current in queue;
      if current in reachable {
        WalkSkip(site, start, reachable, waiting, current);
        queue := waiting;
        continue;
      }
      hide Walking, Linked;
      queue := Enqueue(waiting, site.Targets(current), reachable + {current});
      WalkStep(site, start, reachable, waiting, current, queue);
      assert current in {start} + site.docs - reachable;
      reachable := reachable + {current};
    }
    WalkDone(site, start, reachable);
  }

  /** The walked files are the least set that holds the start and follows every link. */
  lemma LinkedIsLeast(site: Site, start: Path, s: set<Path>, p: Path)
    requires start in s && ClosedUnder(site, s) && Linked(site, start, p)
    ensures p in s
  {
    var path :| LinkPath(site, path) && path[0] == start && path[|path| - 1] == p;
    ClosedHoldsPath(site, s, path);
  }

  lemma LinkedIsClosed(site: Site, start: Path, s: set<Path>)
    requires forall p :: p in s <==> Linked(site, start, p)
    ensures start in s && ClosedUnder(site, s)
  {
    LinkedSelf(site, start);
    hide Linked;
    forall p, t | p in s && t in site.Targets(p) ensures t in s {
      LinkedMore(site, start, p, t);
    }
  }

  /** The orphan check passes exactly when every collected doc has a link path from the entry. */
  method Orphans(site: Site, entry: Path, docs: seq<Path>) returns (orphaned: set<Path>)
    ensures forall p :: p in orphaned <==> p in docs && !Linked(site, entry, p)
    ensures orphaned == {} <==> forall p | p in docs :: Linked(site, entry, p)
  {
    var reachable := WalkReachable(site, entry);
    orphaned := (set p | p in docs) - reachable;
    if orphaned == {} {
      forall p | p in docs ensures Linked(site, entry, p) {
        assert p !in orphaned;
      }
    }
  }
}
