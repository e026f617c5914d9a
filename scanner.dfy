/**
 * The tree scanner: collect every mapping whose `keyword_list` is a list
 * with an element whose lower-cased `str()` contains "hazardlookup". A
 * matched mapping is a leaf of the search: nothing inside it is visited.
 */
module Scanner {
  import opened Wrappers
  import opened Text
  import opened Json

  const Target := "hazardlookup"

  /** `any("hazardlookup" in str(k).lower() for k in kw)`. */
  predicate HasHazardKeyword(kws: seq<Json>)
  {
    exists i :: 0 <= i < |kws| && Contains(Lower(Str(kws[i])), Target)
  }

  /** The match test for one node; a missing or falsy `keyword_list` is `[]`, a non-list never matches. */
  predicate IsHazardLayer(j: Json)
  {
    j.JObj? &&
    match Get(j.members, "keyword_list")
    case Some(JArr(kws)) => HasHazardKeyword(kws)
    case _ => false
  }

  // ------------------------------------------------- reference definition

  /**
   * The layers found below `j`, in the order the stack walk finds them:
   * a list's elements and a mapping's values are pushed in order and
   * popped last-first, so the last child is explored first.
   */
  function Layers(j: Json): seq<Json>
  {
    match j
    case JObj(ms) => if IsHazardLayer(j) then [j] else LayersMembers(ms)
    case JArr(xs) => LayersItems(xs)
    case _ => []
  }

  /** The layers of a sequence of pending nodes, the last one first. */
  function LayersItems(xs: seq<Json>): seq<Json>
  {
    if xs == [] then [] else Layers(xs[|xs| - 1]) + LayersItems(xs[..|xs| - 1])
  }

  function LayersMembers(ms: seq<Member>): seq<Json>
  {
    if ms == [] then [] else Layers(ms[|ms| - 1].value) + LayersMembers(ms[..|ms| - 1])
  }

  /**
   * `x` is reachable from `j` through lists and non-matching mappings only:
   * the nodes the walk visits.
   */
  ghost predicate Reaches(j: Json, x: Json)
  {
    x == j ||
    match j
    case JArr(xs) => exists i :: 0 <= i < |xs| && Reaches(xs[i], x)
    case JObj(ms) => !IsHazardLayer(j) && exists i :: 0 <= i < |ms| && Reaches(ms[i].value, x)
    case _ => false
  }

  // ------------------------------------------------------------- lemmas

  lemma {:induction false} LayersItemsAppend(a: seq<Json>, b: seq<Json>)
    ensures LayersItems(a + b) == LayersItems(b) + LayersItems(a)
    decreases |b|
  {
    if b == [] {
      assert a + b == a;
    } else {
      assert (a + b)[..|a + b| - 1] == a + b[..|b| - 1];
      LayersItemsAppend(a, b[..|b| - 1]);
    }
  }

  lemma {:induction false} LayersOfValues(ms: seq<Member>)
    ensures LayersItems(Values(ms)) == LayersMembers(ms)
    decreases |ms|
  {
    if ms != [] {
      assert Values(ms)[..|ms| - 1] == Values(ms[..|ms| - 1]);
      LayersOfValues(ms[..|ms| - 1]);
    }
  }

  lemma {:induction false} InLayersItems(xs: seq<Json>, x: Json)
    ensures x in LayersItems(xs) <==> exists i :: 0 <= i < |xs| && x in Layers(xs[i])
    decreases |xs|
  {
    if xs != [] {
      var init := xs[..|xs| - 1];
      InLayersItems(init, x);
      assert forall i :: 0 <= i < |init| ==> init[i] == xs[i];
    }
  }

  lemma {:induction false} InLayersMembers(ms: seq<Member>, x: Json)
    ensures x in LayersMembers(ms) <==> exists i :: 0 <= i < |ms| && x in Layers(ms[i].value)
    decreases |ms|
  {
    if ms != [] {
      var init := ms[..|ms| - 1];
      InLayersMembers(init, x);
      assert forall i :: 0 <= i < |init| ==> init[i] == ms[i];
    }
  }

  /**
   * What the walk collects, independently of order: exactly the matching
   * mappings reachable without passing through another match.
   */
  lemma {:induction false} LayersMembership(j: Json, x: Json)
    ensures x in Layers(j) <==> IsHazardLayer(x) && Reaches(j, x)
    decreases j
  {
    match j
    case JArr(xs) =>
      InLayersItems(xs, x);
      forall i | 0 <= i < |xs| ensures x in Layers(xs[i]) <==> IsHazardLayer(x) && Reaches(xs[i], x) {
        LayersMembership(xs[i], x);
      }
    case JObj(ms) =>
      if !IsHazardLayer(j) {
        InLayersMembers(ms, x);
        forall i | 0 <= i < |ms| ensures x in Layers(ms[i].value) <==> IsHazardLayer(x) && Reaches(ms[i].value, x) {
          LayersMembership(ms[i].value, x);
        }
      }
    case _ =>
  }

  /** Every collected node is a matching mapping. */
  lemma LayersAreHazard(j: Json)
    ensures forall x :: x in Layers(j) ==> IsHazardLayer(x)
  {
    forall x | x in Layers(j) ensures IsHazardLayer(x) { LayersMembership(j, x); }
  }

  /** Pruning: a match is returned alone, whatever matching mappings it contains. */
  lemma MatchIsLeaf(j: Json)
    requires IsHazardLayer(j)
    ensures Layers(j) == [j]
    ensures forall x :: Reaches(j, x) ==> x == j
  {
  }

  // ------------------------------------------------------------- the walk

  /**
   * `find_hazard_layers(obj, results)`: an explicit stack is popped from
   * the end; a matching mapping is appended to the results, a non-matching
   * mapping pushes its values, a list pushes its elements, scalars are
   * dropped. The entries already in `results` are kept unchanged.
   */
  method FindHazardLayers(obj: Json, results: seq<Json>) returns (found: seq<Json>)
    ensures found == results + Layers(obj)
    ensures |found| >= |results| && found[..|results|] == results
    ensures forall k :: |results| <= k < |found| ==> IsHazardLayer(found[k]) && Reaches(obj, found[k])
  {
    var stack := [obj];
    found := results;
    assert LayersItems(stack) == Layers(obj) + LayersItems([]);
    while stack != []
      invariant found + LayersItems(stack) == results + Layers(obj)
      decreases SizeItems(stack)
    {
      var node := stack[|stack| - 1];
      var rest := stack[..|stack| - 1];
      assert SizeItems(stack) == SizeItems(rest) + Size(node);
      stack := rest;
      match node {
        case JObj(ms) =>
          if IsHazardLayer(node) {
            found := found + [node];
          } else {
            LayersItemsAppend(rest, Values(ms));
            LayersOfValues(ms);
            SizeItemsAppend(rest, Values(ms));
            SizeOfValues(ms);
            stack := rest + Values(ms);
          }
        case JArr(xs) =>
          LayersItemsAppend(rest, xs);
          SizeItemsAppend(rest, xs);
          stack := rest + xs;
        case _ =>
      }
    }
    assert found == results + Layers(obj) by { assert LayersItems(stack) == []; }
    forall k | |results| <= k < |found| ensures IsHazardLayer(found[k]) && Reaches(obj, found[k]) {
      assert found[k] in Layers(obj) by { assert found[k] == Layers(obj)[k - |results|]; }
      LayersMembership(obj, found[k]);
    }
  }
}
