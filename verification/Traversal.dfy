/** translation/parser.go: the walk over the models nested in a model.

    A model is a pointer; what it points at is a struct, whose slices of models
    are its edges, or something else. */
module Traversal {
  import opened Common

  type Pointer = nat

  /** A field of a struct: a slice of models, whose elements may be nil or out of reach,
      or any other field. */
  datatype Field = Models(elems: seq<Option<Pointer>>) | Plain

  datatype Object = Struct(fields: seq<Field>) | NotStruct

  type Heap = map<Pointer, Object>

  // ----- the graph -----

  /** The models among the first n elements. */
  function Elements(elems: seq<Option<Pointer>>, n: nat): seq<Pointer>
    requires n <= |elems|
  {
    if n == 0 then [] else
      Elements(elems, n - 1) + (if elems[n - 1].Some? then [elems[n - 1].value] else [])
  }

  function FieldModels(f: Field): seq<Pointer> {
    if f.Models? then Elements(f.elems, |f.elems|) else []
  }

  /** The models in the first n fields. */
  function FieldsModels(fields: seq<Field>, n: nat): seq<Pointer>
    requires n <= |fields|
  {
    if n == 0 then [] else FieldsModels(fields, n - 1) + FieldModels(fields[n - 1])
  }

  /** The out-edges of a model, in the order of its fields and elements. */
  function Edges(h: Heap, p: Pointer): seq<Pointer> {
    if p in h && h[p].Struct? then FieldsModels(h[p].fields, |h[p].fields|) else []
  }

  /** Which models there are, and the edges of each. */
  datatype Graph = Graph(nodes: set<Pointer>, edges: Pointer -> seq<Pointer>)

  function GraphOf(h: Heap): Graph {
    Graph(h.Keys, p => Edges(h, p))
  }

  /** The edges of several models together. */
  function EdgesOf(g: Graph, ps: seq<Pointer>): seq<Pointer> {
    if ps == [] then [] else EdgesOf(g, ps[..|ps| - 1]) + g.edges(ps[|ps| - 1])
  }

  function OutDegree(g: Graph, ps: seq<Pointer>): nat {
    if ps == [] then 0 else OutDegree(g, ps[..|ps| - 1]) + |g.edges(ps[|ps| - 1])|
  }

  /** No model dangles. */
  predicate Closed(g: Graph) {
    forall p <- g.nodes :: forall q <- g.edges(p) :: q in g.nodes
  }

  /** b is n edges away from a, by some way. */
  ghost predicate Away(g: Graph, a: Pointer, b: Pointer, n: nat)
    decreases n
  {
    if n == 0 then a == b else exists m :: Away(g, a, m, n - 1) && b in g.edges(m)
  }

  /** b can be reached from a by at least `least` edges. */
  ghost predicate Reaches(g: Graph, a: Pointer, b: Pointer, least: nat) {
    exists n: nat :: n >= least && Away(g, a, b, n)
  }

  lemma ReachesItself(g: Graph, a: Pointer)
    ensures Reaches(g, a, a, 0)
  {
    assert Away(g, a, a, 0);
  }

  lemma {:induction false} AwayFromNext(g: Graph, a: Pointer, b: Pointer, c: Pointer, n: nat)
    requires b in g.edges(a) && Away(g, b, c, n)
    ensures Away(g, a, c, n + 1)
    decreases n
  {
    if n == 0 {
      assert Away(g, a, a, 0);
    } else {
      var m :| Away(g, b, m, n - 1) && c in g.edges(m);
      AwayFromNext(g, a, b, m, n - 1);
    }
  }

  lemma ReachesThrough(g: Graph, a: Pointer, b: Pointer, c: Pointer)
    requires b in g.edges(a) && Reaches(g, b, c, 0)
    ensures Reaches(g, a, c, 0)
  {
    var n: nat :| Away(g, b, c, n);
    AwayFromNext(g, a, b, c, n);
  }

  lemma ReachesOnward(g: Graph, a: Pointer, b: Pointer, c: Pointer)
    requires Reaches(g, a, b, 0) && c in g.edges(b)
    ensures Reaches(g, a, c, 1)
  {
    var n: nat :| Away(g, a, b, n);
    assert Away(g, a, c, n + 1);
  }

  lemma LastStep(g: Graph, a: Pointer, c: Pointer) returns (b: Pointer)
    requires Reaches(g, a, c, 1)
    ensures Reaches(g, a, b, 0) && c in g.edges(b)
  {
    var n: nat :| n >= 1 && Away(g, a, c, n);
    b :| Away(g, a, b, n - 1) && c in g.edges(b);
  }

  /** A set closed under edges holds everything reachable from it. */
  lemma {:induction false} ClosedSetHolds(g: Graph, s: set<Pointer>, a: Pointer, b: Pointer, n: nat)
    requires Away(g, a, b, n) && a in s && forall x <- s :: forall y <- g.edges(x) :: y in s
    ensures b in s
    decreases n
  {
    if n > 0 {
      var m :| Away(g, a, m, n - 1) && b in g.edges(m);
      ClosedSetHolds(g, s, a, m, n - 1);
    }
  }

  lemma EdgesOfAppend(g: Graph, ps: seq<Pointer>, qs: seq<Pointer>)
    ensures EdgesOf(g, ps + qs) == EdgesOf(g, ps) + EdgesOf(g, qs)
    decreases |qs|
  {
    if qs == [] {
      assert ps + qs == ps;
    } else {
      assert (ps + qs)[..|ps + qs| - 1] == ps + qs[..|qs| - 1];
      EdgesOfAppend(g, ps, qs[..|qs| - 1]);
    }
  }

  lemma {:induction false} InEdgesOf(g: Graph, ps: seq<Pointer>, y: Pointer)
    ensures y in EdgesOf(g, ps) <==> exists x :: x in ps && y in g.edges(x)
    ensures |EdgesOf(g, ps)| == OutDegree(g, ps)
  {
    if ps != [] {
      InEdgesOf(g, ps[..|ps| - 1], y);
      assert ps == ps[..|ps| - 1] + [ps[|ps| - 1]];
    }
  }

  predicate Distinct(ps: seq<Pointer>) {
    ps == [] || (ps[|ps| - 1] !in ps[..|ps| - 1] && Distinct(ps[..|ps| - 1]))
  }

  lemma {:induction false} DistinctAt(ps: seq<Pointer>, i: nat, j: nat)
    requires Distinct(ps) && i < j < |ps|
    ensures ps[i] != ps[j]
  {
    if j < |ps| - 1 { DistinctAt(ps[..|ps| - 1], i, j); }
  }

  lemma {:induction false} DistinctAppend(ps: seq<Pointer>, qs: seq<Pointer>)
    requires Distinct(ps) && Distinct(qs) && forall q <- qs :: q !in ps
    ensures Distinct(ps + qs)
    decreases |qs|
  {
    if qs == [] {
      assert ps + qs == ps;
    } else {
      var front := qs[..|qs| - 1];
      assert (ps + qs)[..|ps + qs| - 1] == ps + front;
      DistinctAppend(ps, front);
    }
  }

  // ----- the walk -----

  /** A walk: the models visited, those it expanded, in order, and its result. */
  datatype Walk = Walk(visited: set<Pointer>, expanded: seq<Pointer>, result: seq<Pointer>)

  ghost function Visit(g: Graph, visited: set<Pointer>, p: Pointer): (w: Walk)
    ensures visited <= w.visited
    decreases g.nodes - visited, 0
  {
    if p in visited || p !in g.nodes then Walk(visited, [], []) else
      var w := VisitAll(g, visited + {p}, g.edges(p));
      Walk(w.visited, [p] + w.expanded, w.result)
  }

  ghost function VisitAll(g: Graph, visited: set<Pointer>, qs: seq<Pointer>): (w: Walk)
    ensures visited <= w.visited
    decreases g.nodes - visited, |qs|
  {
    if qs == [] then Walk(visited, [], []) else
      var q := qs[|qs| - 1];
      var front := VisitAll(g, visited, qs[..|qs| - 1]);
      var last := Visit(g, front.visited, q);
      Walk(last.visited, front.expanded + last.expanded, front.result + [q] + last.result)
  }

  lemma VisitNext(g: Graph, visited: set<Pointer>, qs: seq<Pointer>, q: Pointer)
    ensures var front := VisitAll(g, visited, qs);
            var last := Visit(g, front.visited, q);
            VisitAll(g, visited, qs + [q]) ==
              Walk(last.visited, front.expanded + last.expanded, front.result + [q] + last.result)
  {
    assert (qs + [q])[..|qs + [q]| - 1] == qs;
  }

  /** The walk has done the edges `done` since it entered a model. */
  ghost predicate Follows(g: Graph, entered: set<Pointer>, done: seq<Pointer>,
                          visited: set<Pointer>, start: seq<Pointer>, expanded: seq<Pointer>, result: seq<Pointer>)
  {
    var w := VisitAll(g, entered, done);
    visited == w.visited && expanded == start + w.expanded && result == w.result
  }

  lemma FollowsNext(g: Graph, entered: set<Pointer>, done: seq<Pointer>, q: Pointer, visited: set<Pointer>,
                    start: seq<Pointer>, expanded: seq<Pointer>, result: seq<Pointer>)
    requires Follows(g, entered, done, visited, start, expanded, result)
    ensures var w := Visit(g, visited, q);
            Follows(g, entered, done + [q], w.visited, start, expanded + w.expanded, result + [q] + w.result)
  {
    VisitNext(g, entered, done, q);
  }

  /** A slice element: nothing for nil, else the model and what is nested in it. */
  lemma FollowsElement(g: Graph, entered: set<Pointer>, done: seq<Pointer>, elems: seq<Option<Pointer>>, j: nat,
                       visited: set<Pointer>, start: seq<Pointer>, expanded: seq<Pointer>,
                       sofar: seq<Pointer>, result: seq<Pointer>)
    requires j < |elems| && Follows(g, entered, done + Elements(elems, j), visited, start, expanded, sofar + result)
    ensures elems[j].None? ==>
      Follows(g, entered, done + Elements(elems, j + 1), visited, start, expanded, sofar + result)
    ensures elems[j].Some? ==>
      var w := Visit(g, visited, elems[j].value);
      Follows(g, entered, done + Elements(elems, j + 1), w.visited, start, expanded + w.expanded,
              sofar + (result + [elems[j].value] + w.result))
  {
    if elems[j].None? {
      assert Elements(elems, j + 1) == Elements(elems, j);
    } else {
      var q := elems[j].value;
      var w := Visit(g, visited, q);
      FollowsNext(g, entered, done + Elements(elems, j), q, visited, start, expanded, sofar + result);
      assert done + Elements(elems, j) + [q] == done + Elements(elems, j + 1);
      assert sofar + result + [q] + w.result == sofar + (result + [q] + w.result);
    }
  }

  lemma FollowsToTheEnd(g: Graph, p: Pointer, before: set<Pointer>, visited: set<Pointer>,
                        start: seq<Pointer>, expanded: seq<Pointer>, result: seq<Pointer>)
    requires p in g.nodes && p !in before &&
             Follows(g, before + {p}, g.edges(p), visited, start + [p], expanded, result)
    ensures Visit(g, before, p).visited == visited && Visit(g, before, p).result == result
    ensures start + Visit(g, before, p).expanded == expanded
  {
  }

  /** g is the graph of the heap, and no model dangles. */
  ghost predicate Shows(g: Graph, h: Heap) {
    && g.nodes == h.Keys
    && (forall p {:trigger Edges(h, p)} :: g.edges(p) == Edges(h, p))
    && (forall p, q {:trigger p in h, q in Edges(h, p)} :: p in h && q in Edges(h, p) ==> q in h)
  }

  class Walker {
    const heap: Heap
    ghost const graph: Graph
    var visited: set<Pointer>
    ghost var expanded: seq<Pointer>

    constructor (heap: Heap)
      ensures this.heap == heap && graph == GraphOf(heap) && visited == {} && expanded == []
    {
      this.heap := heap;
      this.graph := GraphOf(heap);
      visited := {};
      expanded := [];
    }

    method CollectNested(model: Option<Pointer>) returns (result: seq<Pointer>)
      requires Shows(graph, heap) && (model.Some? ==> model.value in heap)
      modifies this`visited, this`expanded
      ensures model.None? ==> result == [] && visited == old(visited) && expanded == old(expanded)
      ensures model.Some? ==>
        var w := Visit(graph, old(visited), model.value);
        visited == w.visited && expanded == old(expanded) + w.expanded && result == w.result
      decreases heap.Keys - visited, 0
    {
      if model.None? {
        return [];
      }
      var p := model.value;
      if p in visited {
        return [];
      }
      visited := visited + {p};
      expanded := expanded + [p];
      result := [];
      if heap[p].NotStruct? {
        assert graph.edges(p) == Edges(heap, p);
        FollowsToTheEnd(graph, p, old(visited), visited, old(expanded), expanded, result);
        return;
      }
      ghost var start, entered := expanded, visited;
      var fields := heap[p].fields;
      for i := 0 to |fields|
        invariant Follows(graph, entered, FieldsModels(fields, i), visited, start, expanded, result)
      {
        if fields[i].Plain? {
          assert FieldsModels(fields, i + 1) == FieldsModels(fields, i);
          continue;
        }
        ElementsAreIn(graph, heap, p, i);
        var nested := CollectSlice(fields[i].elems, entered, FieldsModels(fields, i), start, result);
        result := result + nested;
      }
      assert graph.edges(p) == Edges(heap, p);
      FollowsToTheEnd(graph, p, old(visited), visited, old(expanded), expanded, result);
    }

    /** The elements of one slice field, each followed by what is nested in it. */
    method CollectSlice(elems: seq<Option<Pointer>>, ghost entered: set<Pointer>, ghost done: seq<Pointer>,
                        ghost start: seq<Pointer>, ghost sofar: seq<Pointer>)
      returns (result: seq<Pointer>)
      requires Shows(graph, heap) && ElementsIn(elems, heap)
      requires entered <= visited && Follows(graph, entered, done, visited, start, expanded, sofar)
      modifies this`visited, this`expanded
      ensures Follows(graph, entered, done + Elements(elems, |elems|), visited, start, expanded, sofar + result)
      decreases heap.Keys - entered, 1
    {
      result := [];
      assert done + Elements(elems, 0) == done && sofar + result == sofar;
      for j := 0 to |elems|
        invariant entered <= visited
        invariant Follows(graph, entered, done + Elements(elems, j), visited, start, expanded, sofar + result)
      {
        FollowsElement(graph, entered, done, elems, j, visited, start, expanded, sofar, result);
        if elems[j].None? {
          continue;
        }
        result := result + [elems[j].value];
        var nested := CollectNested(elems[j]);
        result := result + nested;
      }
    }
  }

  lemma {:induction false} ElementIn(elems: seq<Option<Pointer>>, n: nat, j: nat)
    requires j < n <= |elems| && elems[j].Some?
    ensures elems[j].value in Elements(elems, n)
  {
    if j < n - 1 { ElementIn(elems, n - 1, j); }
  }

  lemma {:induction false} FieldIn(fields: seq<Field>, n: nat, i: nat, q: Pointer)
    requires i < n <= |fields| && q in FieldModels(fields[i])
    ensures q in FieldsModels(fields, n)
  {
    if i < n - 1 { FieldIn(fields, n - 1, i, q); }
  }

  predicate ElementsIn(elems: seq<Option<Pointer>>, h: Heap) {
    forall j | 0 <= j < |elems| && elems[j].Some? :: elems[j].value in h
  }

  lemma ElementsAreIn(g: Graph, h: Heap, p: Pointer, i: nat)
    requires Shows(g, h) && p in h && h[p].Struct? && i < |h[p].fields| && h[p].fields[i].Models?
    ensures ElementsIn(h[p].fields[i].elems, h)
  {
    var elems := h[p].fields[i].elems;
    forall j | 0 <= j < |elems| && elems[j].Some? ensures elems[j].value in h {
      ElementIsEdge(h, p, i, j);
    }
  }

  lemma ElementIsEdge(h: Heap, p: Pointer, i: nat, j: nat)
    requires p in h && h[p].Struct? && i < |h[p].fields| && h[p].fields[i].Models?
    requires j < |h[p].fields[i].elems| && h[p].fields[i].elems[j].Some?
    ensures h[p].fields[i].elems[j].value in Edges(h, p)
  {
    var f := h[p].fields[i];
    ElementIn(f.elems, |f.elems|, j);
    FieldIn(h[p].fields, |h[p].fields|, i, f.elems[j].value);
  }

  // ----- what a walk finds -----

  /** `grown` are the models expanded since `before`, all reachable from p. */
  ghost predicate Found(g: Graph, p: Pointer, before: set<Pointer>, grown: seq<Pointer>) {
    && Distinct(grown)
    && forall x <- grown :: x !in before && x in g.nodes && Reaches(g, p, x, 0)
  }

  ghost predicate EdgesIn(g: Graph, ps: seq<Pointer>, s: set<Pointer>) {
    forall x <- ps :: forall y <- g.edges(x) :: y in s
  }

  predicate Joins(after: set<Pointer>, before: set<Pointer>, grown: seq<Pointer>) {
    after == before + set x | x in grown
  }

  /** What one call leaves behind: `grown` are the models it expanded. */
  ghost predicate Walked(g: Graph, p: Pointer, before: set<Pointer>, after: set<Pointer>,
                         grown: seq<Pointer>, result: seq<Pointer>)
  {
    && Joins(after, before, grown)
    && Found(g, p, before, grown)
    && EdgesIn(g, grown, after)
    && multiset(result) == multiset(EdgesOf(g, grown))
  }

  /** The state inside a call, after the edges `done` of p; `before` holds p. */
  ghost predicate Walking(g: Graph, p: Pointer, before: set<Pointer>, now: set<Pointer>, done: seq<Pointer>,
                          grown: seq<Pointer>, result: seq<Pointer>)
  {
    && Joins(now, before, grown)
    && Found(g, p, before, grown)
    && EdgesIn(g, grown, now)
    && (forall y <- done :: y in now)
    && multiset(result) == multiset(done) + multiset(EdgesOf(g, grown))
  }

  lemma FoundOn(g: Graph, p: Pointer, q: Pointer, before: set<Pointer>, now: set<Pointer>,
                grown: seq<Pointer>, more: seq<Pointer>)
    requires Joins(now, before, grown) && Found(g, p, before, grown)
    requires q in g.edges(p) && Found(g, q, now, more)
    ensures Found(g, p, before, grown + more)
  {
    forall x <- more ensures Reaches(g, p, x, 0) {
      ReachesThrough(g, p, q, x);
    }
    assert forall x <- grown :: x in now;
    DistinctAppend(grown, more);
  }

  lemma EdgesInOn(g: Graph, grown: seq<Pointer>, more: seq<Pointer>, now: set<Pointer>, after: set<Pointer>)
    requires EdgesIn(g, grown, now) && EdgesIn(g, more, after) && now <= after
    ensures EdgesIn(g, grown + more, after)
  {
  }

  lemma CountedOn(g: Graph, q: Pointer, done: seq<Pointer>, grown: seq<Pointer>, more: seq<Pointer>,
                  result: seq<Pointer>, nested: seq<Pointer>)
    requires multiset(result) == multiset(done) + multiset(EdgesOf(g, grown))
    requires multiset(nested) == multiset(EdgesOf(g, more))
    ensures multiset(result + [q] + nested) == multiset(done + [q]) + multiset(EdgesOf(g, grown + more))
  {
    EdgesOfAppend(g, grown, more);
    assert multiset(result + [q] + nested) == multiset(result) + multiset{q} + multiset(nested);
    assert multiset(done + [q]) == multiset(done) + multiset{q};
  }

  lemma WalkedOn(g: Graph, p: Pointer, q: Pointer, before: set<Pointer>, now: set<Pointer>, after: set<Pointer>,
                 done: seq<Pointer>, grown: seq<Pointer>, more: seq<Pointer>, result: seq<Pointer>,
                 nested: seq<Pointer>)
    requires Walking(g, p, before, now, done, grown, result)
    requires q in g.edges(p) && q in after && Walked(g, q, now, after, more, nested)
    ensures Walking(g, p, before, after, done + [q], grown + more, result + [q] + nested)
  {
    FoundOn(g, p, q, before, now, grown, more);
    EdgesInOn(g, grown, more, now, after);
    CountedOn(g, q, done, grown, more, result, nested);
  }

  lemma FoundFirst(g: Graph, p: Pointer, before: set<Pointer>, grown: seq<Pointer>)
    requires p in g.nodes && p !in before && Found(g, p, before + {p}, grown)
    ensures Found(g, p, before, [p] + grown)
  {
    ReachesItself(g, p);
    DistinctAppend([p], grown);
  }

  lemma WalkEnds(g: Graph, p: Pointer, before: set<Pointer>, after: set<Pointer>, grown: seq<Pointer>,
                 result: seq<Pointer>)
    requires p in g.nodes && p !in before && Walking(g, p, before + {p}, after, g.edges(p), grown, result)
    ensures Walked(g, p, before, after, [p] + grown, result)
  {
    FoundFirst(g, p, before, grown);
    EdgesInOn(g, [p], grown, after, after);
    EdgesOfAppend(g, [p], grown);
    assert [p][..0] == [];
    assert EdgesOf(g, [p]) == [] + g.edges(p);
  }

  /** One call expands each model it expands once, all of them reachable, and
      leaves no edge of theirs unvisited. */
  ghost predicate OneWalks(g: Graph, visited: set<Pointer>, p: Pointer) {
    var w := Visit(g, visited, p);
    p in w.visited && Walked(g, p, visited, w.visited, w.expanded, w.result)
  }

  ghost predicate AllWalk(g: Graph, visited: set<Pointer>, p: Pointer, qs: seq<Pointer>) {
    var w := VisitAll(g, visited, qs);
    Walking(g, p, visited, w.visited, qs, w.expanded, w.result)
  }

  lemma {:induction false} VisitWalks(g: Graph, visited: set<Pointer>, p: Pointer)
    requires Closed(g) && p in g.nodes
    ensures OneWalks(g, visited, p)
    decreases g.nodes - visited, 0
  {
    if p !in visited {
      VisitAllWalks(g, visited + {p}, p, g.edges(p));
      var w := VisitAll(g, visited + {p}, g.edges(p));
      WalkEnds(g, p, visited, w.visited, w.expanded, w.result);
    }
  }

  lemma {:induction false} VisitAllWalks(g: Graph, visited: set<Pointer>, p: Pointer, qs: seq<Pointer>)
    requires Closed(g) && p in g.nodes && forall q <- qs :: q in g.edges(p)
    ensures AllWalk(g, visited, p, qs)
    decreases g.nodes - visited, |qs|
  {
    if qs == [] {
      NoneWalk(g, visited, p);
    } else {
      var before, q := qs[..|qs| - 1], qs[|qs| - 1];
      var v := VisitAll(g, visited, before).visited;
      assert g.nodes - v <= g.nodes - visited && q in g.nodes;
      VisitWalks(g, v, q);
      VisitAllWalks(g, visited, p, before);
      NextWalks(g, visited, p, before, q);
      assert before + [q] == qs;
    }
  }

  lemma NoneWalk(g: Graph, visited: set<Pointer>, p: Pointer)
    ensures AllWalk(g, visited, p, [])
  {
  }

  lemma NextWalks(g: Graph, visited: set<Pointer>, p: Pointer, qs: seq<Pointer>, q: Pointer)
    requires q in g.edges(p)
    requires AllWalk(g, visited, p, qs) && OneWalks(g, VisitAll(g, visited, qs).visited, q)
    ensures AllWalk(g, visited, p, qs + [q])
  {
    var front := VisitAll(g, visited, qs);
    var last := Visit(g, front.visited, q);
    VisitNext(g, visited, qs, q);
    WalkedOn(g, p, q, visited, front.visited, last.visited, qs, front.expanded, last.expanded, front.result,
             last.result);
  }

  /** `expanded` are the models reachable from the root, each once; `result` lists
      their edges, so it is what at least one edge reaches, in number the total
      out-degree. */
  ghost predicate Complete(g: Graph, root: Pointer, expanded: seq<Pointer>, result: seq<Pointer>) {
    && (forall i, j | 0 <= i < j < |expanded| :: expanded[i] != expanded[j])
    && (forall x :: x in expanded <==> Reaches(g, root, x, 0))
    && (forall y :: y in result <==> Reaches(g, root, y, 1))
    && |result| == OutDegree(g, expanded)
    && multiset(result) == multiset(EdgesOf(g, expanded))
  }

  /** No pointer to a model dangles. */
  ghost predicate NothingDangles(h: Heap) {
    forall p, q :: p in h && q in Edges(h, p) ==> q in h
  }

  /** The whole walk. */
  method CollectNestedTranslatables(heap: Heap, model: Option<Pointer>)
    returns (result: seq<Pointer>, ghost expanded: seq<Pointer>)
    requires NothingDangles(heap) && (model.Some? ==> model.value in heap)
    ensures model.None? ==> result == []
    ensures model.Some? ==> Complete(GraphOf(heap), model.value, expanded, result)
  {
    var w := new Walker(heap);
    GraphShowsHeap(heap);
    result := w.CollectNested(model);
    expanded := w.expanded;
    if model.Some? {
      VisitFindsReachable(w.graph, model.value);
      assert expanded == Visit(w.graph, {}, model.value).expanded;
    }
  }

  lemma GraphShowsHeap(h: Heap)
    requires NothingDangles(h)
    ensures Shows(GraphOf(h), h) && Closed(GraphOf(h))
  {
  }

  lemma VisitFindsReachable(g: Graph, root: Pointer)
    requires Closed(g) && root in g.nodes
    ensures var w := Visit(g, {}, root); Complete(g, root, w.expanded, w.result)
  {
    var w := Visit(g, {}, root);
    VisitWalks(g, {}, root);
    forall i, j | 0 <= i < j < |w.expanded| ensures w.expanded[i] != w.expanded[j] {
      DistinctAt(w.expanded, i, j);
    }
    forall x ensures x in w.expanded <==> Reaches(g, root, x, 0) {
      ExpandedIsReachable(g, root, w.visited, w.expanded, w.result, x);
    }
    forall y ensures y in w.result <==> Reaches(g, root, y, 1) {
      ResultIsReachable(g, root, w.visited, w.expanded, w.result, y);
    }
    ResultLength(g, w.expanded, w.result);
  }

  lemma ResultLength(g: Graph, expanded: seq<Pointer>, result: seq<Pointer>)
    requires multiset(result) == multiset(EdgesOf(g, expanded))
    ensures |result| == OutDegree(g, expanded)
  {
    InEdgesOf(g, expanded, 0);
    assert |multiset(result)| == |result| && |multiset(EdgesOf(g, expanded))| == |EdgesOf(g, expanded)|;
  }

  lemma ExpandedIsReachable(g: Graph, root: Pointer, visited: set<Pointer>, expanded: seq<Pointer>,
                            result: seq<Pointer>, x: Pointer)
    requires Walked(g, root, {}, visited, expanded, result) && root in visited
    ensures x in expanded <==> Reaches(g, root, x, 0)
  {
    if Reaches(g, root, x, 0) {
      var n: nat :| Away(g, root, x, n);
      ClosedSetHolds(g, visited, root, x, n);
    }
  }

  lemma ResultIsReachable(g: Graph, root: Pointer, visited: set<Pointer>, expanded: seq<Pointer>,
                          result: seq<Pointer>, y: Pointer)
    requires Walked(g, root, {}, visited, expanded, result) && root in visited
    ensures y in result <==> Reaches(g, root, y, 1)
  {
    assert y in result <==> y in multiset(result);
    assert y in EdgesOf(g, expanded) <==> y in multiset(EdgesOf(g, expanded));
    if y in result {
      EdgeIsReachable(g, root, expanded, y);
    }
    if Reaches(g, root, y, 1) {
      var x := LastStep(g, root, y);
      ExpandedIsReachable(g, root, visited, expanded, result, x);
      InEdgesOf(g, expanded, y);
    }
  }

  lemma EdgeIsReachable(g: Graph, root: Pointer, expanded: seq<Pointer>, y: Pointer)
    requires Found(g, root, {}, expanded) && y in EdgesOf(g, expanded)
    ensures Reaches(g, root, y, 1)
  {
    InEdgesOf(g, expanded, y);
    var x :| x in expanded && y in g.edges(x);
    ReachesOnward(g, root, x, y);
  }
}
