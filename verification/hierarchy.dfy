/** The concept hierarchy of the knowledge base (`get_direct_concepts` and
    `get_all_concepts` in data.py). The hierarchy is given as the `isA` list of
    every id in the merged entity/concept table. */
module Hierarchy {

  /** id -> the ids it `isA` (instance-of for entities, subclass-of for concepts). */
  type Parents = map<string, seq<string>>

  /** The parents of `e` that are in the table and differ from `e`, in list order. */
  function KnownParents(g: Parents, e: string, isA: seq<string>): (r: seq<string>)
    ensures forall c :: c in r <==> c in isA && c in g && c != e
    ensures |r| <= |isA|
  {
    if |isA| == 0 then []
    else
      var prefix := KnownParents(g, e, isA[..|isA| - 1]);
      var c := isA[|isA| - 1];
      assert isA == isA[..|isA| - 1] + [c];
      if c in g && c != e then prefix + [c] else prefix
  }

  /** `get_direct_concepts`: an unknown id has none. */
  function Direct(g: Parents, e: string): (r: seq<string>)
    ensures forall c :: c in r <==> e in g && c in g[e] && c in g && c != e
    ensures forall c :: c in r ==> c in g && c != e
    ensures e !in g ==> r == []
  {
    if e in g then KnownParents(g, e, g[e]) else []
  }

  /** No parent in the table of a member of `s` lies outside `s`. */
  ghost predicate Closed(g: Parents, s: set<string>) {
    forall c, p :: c in s && c in g && p in g[c] && p in g ==> p in s
  }

  /** Every known parent of a visited id is visited or still queued. */
  ghost predicate Pending(g: Parents, visited: set<string>, queue: seq<string>) {
    forall c, p :: c in visited && c in g && p in g[c] && p in g ==> p in visited || p in queue
  }

  /** The breadth-first loop of `get_all_concepts`: take the queue head; if it is a known id
      not yet visited, mark it and queue all its parents. The visited set stops cycles. */
  function Bfs(g: Parents, queue: seq<string>, visited: set<string>): (r: set<string>)
    requires visited <= g.Keys
    ensures visited <= r <= g.Keys
    ensures forall q :: q in queue && q in g ==> q in r
    ensures Pending(g, visited, queue) ==> Closed(g, r)
    decreases g.Keys - visited, |queue|
  {
    if |queue| == 0 then visited
    else
      var c := queue[0];
      assert forall q :: q in queue ==> q == c || q in queue[1..];
      if c in g && c !in visited then
        assert g.Keys - (visited + {c}) < g.Keys - visited;
        Bfs(g, queue[1..] + g[c], visited + {c})
      else
        Bfs(g, queue[1..], visited)
  }

  /** `get_all_concepts`: the ancestors reached from the direct concepts. */
  function AllConcepts(g: Parents, e: string): (r: set<string>)
    ensures r <= g.Keys
    ensures forall c :: c in Direct(g, e) ==> c in r
    ensures Closed(g, r)
  {
    Bfs(g, Direct(g, e), {})
  }

  /** The search visits nothing outside a closed set that holds what it starts from. */
  lemma {:induction false} BfsMinimal(g: Parents, queue: seq<string>, visited: set<string>, s: set<string>)
    requires visited <= g.Keys
    requires Closed(g, s) && visited <= s
    requires forall q :: q in queue && q in g ==> q in s
    ensures Bfs(g, queue, visited) <= s
    decreases g.Keys - visited, |queue|
  {
    if |queue| > 0 {
      var c := queue[0];
      assert forall q :: q in queue[1..] ==> q in queue;
      if c in g && c !in visited {
        assert g.Keys - (visited + {c}) < g.Keys - visited;
        assert forall q :: q in queue[1..] + g[c] ==> q in queue[1..] || q in g[c];
        BfsMinimal(g, queue[1..] + g[c], visited + {c}, s);
      } else {
        BfsMinimal(g, queue[1..], visited, s);
      }
    }
  }

  /** The ancestors are the least closed set holding the direct concepts. */
  lemma AllConceptsMinimal(g: Parents, e: string, s: set<string>)
    requires Closed(g, s)
    requires forall c :: c in Direct(g, e) ==> c in s
    ensures AllConcepts(g, e) <= s
  {
    BfsMinimal(g, Direct(g, e), {}, s);
  }

  /** On the cycle a -> b -> a the search still ends, and the start id itself comes back as an ancestor. */
  lemma CycleReachesItself()
    ensures AllConcepts(map["a" := ["b"], "b" := ["a"]], "a") == {"a", "b"}
  {
    var g := map["a" := ["b"], "b" := ["a"]];
    assert Direct(g, "a") == ["b"] by {
      assert "b" in Direct(g, "a");
      assert forall c :: c in Direct(g, "a") ==> c == "b";
      assert |Direct(g, "a")| <= 1;
    }
    assert Closed(g, {"a", "b"});
    AllConceptsMinimal(g, "a", {"a", "b"});
    assert "a" in g["b"];
  }
}
