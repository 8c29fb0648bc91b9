/** The two passes of the docs link checker (check-docs-links.py:171-229): a search from the root
    page for what it reaches, then a scan of every page of the tree for links that lead nowhere. */
module LinkGraph {

  type Path = string
  type Target = string

  /** What the checker sees of the file system: the files that exist, the link targets each one
      holds, and where a target written in a file points. */
  datatype Site = Site(files: set<Path>, links: Path -> seq<Target>, resolve: (Path, Target) -> Path)
  {
    predicate IsMissing(page: Path, t: Target) {
      resolve(page, t) !in files
    }

    predicate IsDead(page: Path, t: Target) {
      t in links(page) && IsMissing(page, t)
    }

    /** A link of `page` to a Markdown file that exists. */
    predicate Leads(page: Path, t: Target, next: Path) {
      t in links(page) && resolve(page, t) == next && next in files && |next| >= 3 && next[|next| - 3..] == ".md"
    }

    ghost predicate Edge(page: Path, next: Path) {
      exists t :: Leads(page, t, next)
    }

    /** Following links, page by page. */
    ghost predicate IsWalk(w: seq<Path>) {
      w != [] && forall i :: 0 < i < |w| ==> Edge(w[i - 1], w[i])
    }

    ghost predicate Reaches(start: Path, page: Path) {
      exists w :: IsWalk(w) && w[0] == start && w[|w| - 1] == page
    }
  }

  predicate IsMarkdown(p: Path) {
    |p| >= 3 && p[|p| - 3..] == ".md"
  }

  lemma StandsStill(s: Site, p: Path)
    ensures s.Reaches(p, p)
  {
    assert s.IsWalk([p]);
  }

  lemma OneFurther(s: Site, start: Path, p: Path, q: Path)
    requires s.Reaches(start, p) && s.Edge(p, q)
    ensures s.Reaches(start, q)
  {
    var w :| s.IsWalk(w) && w[0] == start && w[|w| - 1] == p;
    assert s.IsWalk(w + [q]);
  }

  /** A set that holds the start and every page its pages link to holds all that is reached. */
  lemma {:induction false} ClosedHoldsWalk(s: Site, r: set<Path>, w: seq<Path>)
    requires s.IsWalk(w) && w[0] in r
    requires forall p, q :: p in r && s.Edge(p, q) ==> q in r
    ensures w[|w| - 1] in r
    decreases |w|
  {
    if |w| > 1 {
      var v := w[..|w| - 1];
      assert s.Edge(w[|w| - 2], w[|w| - 1]);
      assert s.IsWalk(v);
      ClosedHoldsWalk(s, r, v);
    }
  }

  lemma ClosedHoldsAll(s: Site, start: Path, r: set<Path>)
    requires start in r
    requires forall p, q :: p in r && s.Edge(p, q) ==> q in r
    ensures forall p :: s.Reaches(start, p) ==> p in r
  {
    forall p | s.Reaches(start, p) ensures p in r {
      var w :| s.IsWalk(w) && w[0] == start && w[|w| - 1] == p;
      ClosedHoldsWalk(s, r, w);
    }
  }

  /** How often each dead link of `page` stands in the first `n` of its links. */
  function DeadOf(s: Site, page: Path, n: nat): seq<(Path, Target)>
    requires n <= |s.links(page)|
  {
    if n == 0 then []
    else
      var t := s.links(page)[n - 1];
      DeadOf(s, page, n - 1) + if s.IsMissing(page, t) then [(page, t)] else []
  }

  function AllDeadOf(s: Site, page: Path): seq<(Path, Target)> {
    DeadOf(s, page, |s.links(page)|)
  }

  lemma {:induction false} DeadOfIsDead(s: Site, page: Path, n: nat)
    requires n <= |s.links(page)|
    ensures forall p, t :: (p, t) in DeadOf(s, page, n) <==> p == page && t in s.links(page)[..n] && s.IsMissing(page, t)
  {
    if n > 0 {
      DeadOfIsDead(s, page, n - 1);
      assert s.links(page)[..n] == s.links(page)[..n - 1] + [s.links(page)[n - 1]];
    }
  }

  lemma AllDeadIsDead(s: Site, page: Path)
    ensures forall p, t :: (p, t) in AllDeadOf(s, page) <==> p == page && s.IsDead(page, t)
  {
    DeadOfIsDead(s, page, |s.links(page)|);
    assert s.links(page)[..|s.links(page)|] == s.links(page);
  }

  /** One page's turn in the search: what its links add to the pages found, to the queue and to
      the dead links. */
  method Visit(s: Site, page: Path, found: set<Path>) returns (added: seq<Path>, dead: seq<(Path, Target)>)
    ensures dead == AllDeadOf(s, page)
    ensures forall q :: q in added <==> s.Edge(page, q) && q !in found
    ensures forall i, j :: 0 <= i < j < |added| ==> added[i] != added[j]
  {
    added, dead := [], [];
    var links := s.links(page);
    for n := 0 to |links|
      invariant dead == DeadOf(s, page, n)
      invariant forall q :: q in added <==> q !in found && LeadsWithin(s, page, n, q)
      invariant forall i, j :: 0 <= i < j < |added| ==> added[i] != added[j]
    {
      var dest := s.resolve(page, links[n]);
      assert forall q :: LeadsWithin(s, page, n + 1, q) <==> LeadsWithin(s, page, n, q) || s.Leads(page, links[n], q);
      if dest !in s.files {
        dead := dead + [(page, links[n])];
      } else if IsMarkdown(dest) && dest !in found && dest !in added {
        added := added + [dest];
      }
    }
    assert forall q, t :: s.Leads(page, t, q) ==> exists k :: 0 <= k < |links| && links[k] == t;
  }

  /** One of the first `n` links of `page` leads to `q`. */
  ghost predicate LeadsWithin(s: Site, page: Path, n: nat, q: Path)
    requires n <= |s.links(page)|
  {
    exists k :: 0 <= k < n && s.Leads(page, s.links(page)[k], q)
  }

  /** `page` is found and its turn has come and gone. */
  predicate Visited(found: set<Path>, queue: seq<Path>, page: Path) {
    page in found && page !in queue
  }

  predicate Distinct(q: seq<Path>) {
    forall i, j :: 0 <= i < j < |q| ==> q[i] != q[j]
  }

  /** How often the search reports the link `t` of `page`: as often as the page holds it, once
      the page has been visited. */
  function Reported(s: Site, visited: bool, page: Path, t: Target): nat {
    if visited then multiset(AllDeadOf(s, page))[(page, t)] else 0
  }

  /** What holds between two turns of the search. */
  ghost predicate Searching(s: Site, root: Path, found: set<Path>, queue: seq<Path>, dead: seq<(Path, Target)>) {
    && root in found && found <= s.files
    && Distinct(queue)
    && (forall p :: p in queue ==> p in found)
    && (forall p :: p in found ==> s.Reaches(root, p))
    && (forall p, q :: Visited(found, queue, p) && s.Edge(p, q) ==> q in found)
    && (forall p, t :: multiset(dead)[(p, t)] == Reported(s, Visited(found, queue, p), p, t))
  }

  /** The search: what it finds is what the root reaches, each page once, and it ends whatever
      cycles the links make. */
  method Search(s: Site, root: Path) returns (found: set<Path>, dead: seq<(Path, Target)>)
    requires root in s.files
    ensures forall p :: p in found <==> s.Reaches(root, p)
    ensures found <= s.files
    ensures forall p, t :: multiset(dead)[(p, t)] == Reported(s, p in found, p, t)
  {
    found, dead := {root}, [];
    var queue := [root];
    StandsStill(s, root);
    while queue != []
      invariant Searching(s, root, found, queue, dead)
      decreases |s.files - found|, |queue|
    {
      var page := queue[|queue| - 1];
      var rest := queue[..|queue| - 1];
      assert queue == rest + [page];
      var added, gone := Visit(s, page, found);
      TurnKeeps(s, root, found, rest, dead, page, added);
      Progress(s.files, found, added);
      found, queue, dead := found + Elements(added), rest + added, dead + gone;
    }
    ClosedHoldsAll(s, root, found);
  }

  function Elements(q: seq<Path>): set<Path> {
    set p | p in q
  }

  lemma Progress(files: set<Path>, found: set<Path>, added: seq<Path>)
    requires forall p :: p in added ==> p in files && p !in found
    ensures |files - (found + Elements(added))| <= |files - found|
    ensures added != [] ==> |files - (found + Elements(added))| < |files - found|
  {
    var now, was := files - (found + Elements(added)), files - found;
    assert was == now + (was - now);
    if added != [] { assert added[0] in was - now; }
  }

  lemma TurnKeeps(s: Site, root: Path, found: set<Path>, rest: seq<Path>, dead: seq<(Path, Target)>, page: Path, added: seq<Path>)
    requires Searching(s, root, found, rest + [page], dead)
    requires Distinct(added) && forall q :: q in added <==> s.Edge(page, q) && q !in found
    ensures Searching(s, root, found + Elements(added), rest + added, dead + AllDeadOf(s, page))
  {
    var queue := rest + [page];
    assert page in queue && page in found;
    assert forall i :: 0 <= i < |rest| ==> queue[i] == rest[i];
    assert queue[|rest|] == page;
    assert page !in rest;
    var found' := found + Elements(added);
    forall p | p in added ensures p in s.files && s.Reaches(root, p) {
      OneFurther(s, root, page, p);
    }
    var next := rest + added;
    forall i, j | 0 <= i < j < |next| ensures next[i] != next[j] {
      assert i < |rest| ==> next[i] in queue;
      assert j >= |rest| ==> next[j] in added;
    }
    forall p, t
      ensures multiset(dead + AllDeadOf(s, page))[(p, t)] == Reported(s, Visited(found', rest + added, p), p, t)
    {
      AllDeadIsDead(s, page);
      assert Visited(found', rest + added, p) <==> Visited(found, queue, p) || p == page;
      assert p != page ==> (p, t) !in AllDeadOf(s, page);
    }
  }

  /** How often a dead link is in the report after `pages` have been scanned: as often as the
      search reported it, else once. */
  function CountAfter(s: Site, pages: seq<Path>, reported: seq<(Path, Target)>, p: Path, t: Target): nat {
    if (p, t) in reported then multiset(reported)[(p, t)] else if p in pages && s.IsDead(p, t) then 1 else 0
  }

  function CountWithin(s: Site, pages: seq<Path>, reported: seq<(Path, Target)>, page: Path, links: seq<Target>, p: Path, t: Target): nat {
    if p == page && t in links && s.IsMissing(page, t) && (p, t) !in reported then 1
    else CountAfter(s, pages, reported, p, t)
  }

  /** The second pass: a dead link of a page the search missed is reported once. */
  method ScanRest(s: Site, pages: seq<Path>, reported: seq<(Path, Target)>) returns (dead: seq<(Path, Target)>)
    ensures forall p, t :: multiset(dead)[(p, t)] == CountAfter(s, pages, reported, p, t)
  {
    dead := reported;
    var seen := set r | r in reported;
    for i := 0 to |pages|
      invariant forall r :: r in seen <==> r in dead
      invariant forall p, t :: multiset(dead)[(p, t)] == CountAfter(s, pages[..i], reported, p, t)
    {
      var page := pages[i];
      var links := s.links(page);
      assert pages[..i + 1] == pages[..i] + [page];
      for n := 0 to |links|
        invariant forall r :: r in seen <==> r in dead
        invariant forall p, t :: multiset(dead)[(p, t)] == CountWithin(s, pages[..i], reported, page, links[..n], p, t)
      {
        assert links[..n + 1] == links[..n] + [links[n]];
        var t := links[n];
        if s.resolve(page, t) !in s.files && (page, t) !in seen {
          dead := dead + [(page, t)];
          seen := seen + {(page, t)};
        }
      }
      assert links[..|links|] == links;
    }
    assert pages[..|pages|] == pages;
  }

  /** The whole check of a tree whose Markdown files are `pages`, with its exit code. */
  method CheckDocs(s: Site, root: Path, pages: seq<Path>)
    returns (code: nat, dead: seq<(Path, Target)>, orphans: set<Path>)
    ensures code == 2 <==> root !in s.files
    ensures code == 0 <==> root in s.files && dead == [] && orphans == {}
    ensures code <= 2
    ensures root in s.files ==> forall p :: p in orphans <==> p in pages && !s.Reaches(root, p)
    ensures root in s.files ==>
      forall p, t :: (p, t) in dead <==> (p in pages || s.Reaches(root, p)) && s.IsDead(p, t)
    ensures forall p, t :: p in pages && !s.Reaches(root, p) ==> multiset(dead)[(p, t)] <= 1
  {
    if root !in s.files { return 2, [], {}; }
    var found, first := Search(s, root);
    forall p, t ensures (p, t) in first <==> p in found && s.IsDead(p, t) {
      AllDeadIsDead(s, p);
      assert (p, t) in first <==> multiset(first)[(p, t)] > 0;
    }
    dead := ScanRest(s, pages, first);
    forall p, t ensures (p, t) in dead <==> (p in pages || p in found) && s.IsDead(p, t) {
      assert (p, t) in dead <==> multiset(dead)[(p, t)] > 0;
    }
    orphans := Elements(pages) - found;
    code := if dead == [] && orphans == {} then 0 else 1;
  }
}
