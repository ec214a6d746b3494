/** Trie nodes: edge and match vectors that grow in place, edge lookup and edge sorting. */
module AcNode {
  import opened AcTypes

  datatype Edge = Edge(alpha: Alpha, next: Node)

  ghost predicate DistinctAlphas(es: seq<Edge>) {
    forall i, j :: 0 <= i < j < |es| ==> es[i].alpha != es[j].alpha
  }

  ghost predicate SortedByAlpha(es: seq<Edge>) {
    forall i, j :: 0 <= i < j < |es| ==> es[i].alpha < es[j].alpha
  }

  ghost predicate HasEdge(es: seq<Edge>, a: Alpha) {
    exists i :: 0 <= i < |es| && es[i].alpha == a
  }

  ghost predicate HasText(ps: seq<Pattern>, w: Word) {
    exists i :: 0 <= i < |ps| && ps[i].ptext == w
  }

  /** Both vectors hold the same edges. */
  ghost predicate SameEdges(es: seq<Edge>, es': seq<Edge>) {
    |es| == |es'| && multiset(es) == multiset(es')
  }

  /** Accepting patterns one after the other, skipping those whose text is there. */
  function AcceptedAll(ps: seq<Pattern>, more: seq<Pattern>): seq<Pattern> {
    if more == [] then ps
    else
      var before := AcceptedAll(ps, more[..|more| - 1]);
      var last := more[|more| - 1];
      if exists i :: 0 <= i < |before| && before[i].ptext == last.ptext then before else before + [last]
  }

  lemma {:induction false} AcceptedAllNew(ps: seq<Pattern>, more: seq<Pattern>)
    requires forall i, j :: 0 <= i < |ps| && 0 <= j < |more| ==> ps[i].ptext != more[j].ptext
    requires forall i, j :: 0 <= i < j < |more| ==> more[i].ptext != more[j].ptext
    ensures AcceptedAll(ps, more) == ps + more
  {
    if more != [] {
      AcceptedAllNew(ps, more[..|more| - 1]);
      assert more == more[..|more| - 1] + [more[|more| - 1]];
    }
  }

  lemma {:induction false} AcceptedAllKnown(ps: seq<Pattern>, more: seq<Pattern>)
    requires forall j :: 0 <= j < |more| ==> HasText(ps, more[j].ptext)
    ensures AcceptedAll(ps, more) == ps
  {
    if more != [] {
      assert HasText(ps, more[|more| - 1].ptext);
      AcceptedAllKnown(ps, more[..|more| - 1]);
    }
  }

  lemma {:induction false} AcceptedAllEmpty(ps: seq<Pattern>, more: seq<Pattern>)
    ensures AcceptedAll(ps, more) == [] <==> ps == [] && more == []
  {
    if more != [] {
      AcceptedAllEmpty(ps, more[..|more| - 1]);
    }
  }

  // ----- sorting: the library's qsort, as an insertion sort -----

  /** node_edge_compare: positive unless the left letter is strictly smaller. */
  function CompareEdges(l: Edge, r: Edge): int {
    if l.alpha >= r.alpha then 1 else -1
  }

  function InsertEdge(e: Edge, es: seq<Edge>): seq<Edge> {
    if es == [] || CompareEdges(e, es[0]) < 0 then [e] + es
    else [es[0]] + InsertEdge(e, es[1..])
  }

  function SortEdges(es: seq<Edge>): seq<Edge> {
    if es == [] then [] else InsertEdge(es[0], SortEdges(es[1..]))
  }

  lemma {:induction false} InsertEdgeKeeps(e: Edge, es: seq<Edge>)
    ensures SameEdges(InsertEdge(e, es), [e] + es)
  {
    if es != [] && CompareEdges(e, es[0]) >= 0 {
      InsertEdgeKeeps(e, es[1..]);
      assert es == [es[0]] + es[1..];
    }
  }

  lemma {:induction false} SortEdgesKeeps(es: seq<Edge>)
    ensures SameEdges(SortEdges(es), es)
  {
    if es != [] {
      SortEdgesKeeps(es[1..]);
      InsertEdgeKeeps(es[0], SortEdges(es[1..]));
      assert es == [es[0]] + es[1..];
    }
  }

  lemma {:induction false} InsertEdgeSorts(e: Edge, es: seq<Edge>)
    requires SortedByAlpha(es) && forall i :: 0 <= i < |es| ==> es[i].alpha != e.alpha
    ensures SortedByAlpha(InsertEdge(e, es))
  {
    if es != [] && CompareEdges(e, es[0]) >= 0 {
      var rest := InsertEdge(e, es[1..]);
      InsertEdgeSorts(e, es[1..]);
      InsertEdgeKeeps(e, es[1..]);
      forall i | 0 <= i < |rest| ensures es[0].alpha < rest[i].alpha {
        assert rest[i] in multiset(rest);
        assert rest[i] in multiset([e] + es[1..]);
        assert rest[i] in [e] + es[1..];
      }
    }
  }

  /** Letters are distinct in a node, so any correct sort yields this one order. */
  lemma {:induction false} SortEdgesSorts(es: seq<Edge>)
    requires DistinctAlphas(es)
    ensures SortedByAlpha(SortEdges(es))
  {
    if es != [] {
      SortEdgesSorts(es[1..]);
      SortEdgesKeeps(es[1..]);
      var rest := SortEdges(es[1..]);
      forall i | 0 <= i < |rest| ensures rest[i].alpha != es[0].alpha {
        assert rest[i] in multiset(rest);
        assert rest[i] in multiset(es[1..]);
        assert rest[i] in es[1..];
      }
      InsertEdgeSorts(es[0], rest);
    }
  }

  lemma SameEdgesMember(es: seq<Edge>, es': seq<Edge>, e: Edge)
    requires SameEdges(es, es')
    ensures e in es <==> e in es'
  {
    assert e in es <==> e in multiset(es);
    assert e in es' <==> e in multiset(es');
  }

  lemma HasEdgeMember(es: seq<Edge>, a: Alpha)
    ensures HasEdge(es, a) <==> exists e :: e in es && e.alpha == a
  {
    if HasEdge(es, a) {
      var i :| 0 <= i < |es| && es[i].alpha == a;
      assert es[i] in es;
    }
  }

  /** Two sorted vectors of the same edges are equal: the sorting algorithm does not matter. */
  lemma {:induction false} SortedUnique(es: seq<Edge>, es': seq<Edge>)
    requires SameEdges(es, es') && SortedByAlpha(es) && SortedByAlpha(es')
    ensures es == es'
  {
    if es != [] {
      SameEdgesMember(es, es', es[0]);
      SameEdgesMember(es, es', es'[0]);
      assert es[0] == es'[0];
      SameEdgesRest(es, es');
      hide SameEdges;
      SortedUnique(es[1..], es'[1..]);
    }
  }

  lemma SameEdgesRest(es: seq<Edge>, es': seq<Edge>)
    requires SameEdges(es, es') && es != [] && es' != [] && es[0] == es'[0]
    ensures SameEdges(es[1..], es'[1..])
  {
    assert es == [es[0]] + es[1..] && es' == [es'[0]] + es'[1..];
    assert multiset(es[1..]) == multiset(es) - multiset{es[0]};
    assert multiset(es'[1..]) == multiset(es') - multiset{es'[0]};
  }

  // ----- nodes -----

  /** By how much the edge vector of a node grows at a depth. */
  function GrowthAt(depth: nat): (n: nat)
    ensures 1 <= n <= 9 && (n == 1 <==> depth >= 8) && (n == 9 <==> depth == 0)
  {
    8 / (depth + 1) + 1
  }

  /** Deeper nodes never grow faster. */
  lemma GrowthFalls(depth: nat, depth': nat)
    requires depth <= depth'
    ensures GrowthAt(depth') <= GrowthAt(depth)
  {
    if depth' < 8 {
      assert depth' in {0, 1, 2, 3, 4, 5, 6, 7};
    }
  }

  class Node {
    var final: bool
    var depth: nat
    var failure: Node?
    var outgoing: seq<Edge>
    var outgoingCapacity: nat
    var matched: seq<Pattern>
    var matchedCapacity: nat
    /** The word spelt from the root to this node. */
    ghost const path: Word

    ghost predicate CapacityOk()
      reads this`outgoing, this`outgoingCapacity, this`matched, this`matchedCapacity
    {
      |outgoing| <= outgoingCapacity && |matched| <= matchedCapacity
    }

    /** As node_init leaves it. */
    ghost predicate Blank(w: Word)
      reads this
    {
      path == w && !final && depth == 0 && failure == null && outgoing == [] && matched == [] && CapacityOk()
    }

    constructor (ghost path: Word)
      ensures Blank(path)
    {
      this.path := path;
      final, depth, failure := false, 0, null;
      outgoing, outgoingCapacity := [], 0;
      matched, matchedCapacity := [], 0;
    }

    /** Linear edge lookup, for tries whose edges are not sorted yet. */
    method FindNext(alpha: Alpha) returns (next: Node?)
      ensures next == null ==> !HasEdge(outgoing, alpha)
      ensures next != null ==> Edge(alpha, next) in outgoing
    {
      for i := 0 to |outgoing|
        invariant forall j :: 0 <= j < i ==> outgoing[j].alpha != alpha
      {
        if outgoing[i].alpha == alpha {
          return outgoing[i].next;
        }
      }
      return null;
    }

    /** Binary edge lookup, for sorted edges. */
    method FindNextBs(alpha: Alpha) returns (next: Node?)
      requires SortedByAlpha(outgoing)
      ensures next == null ==> !HasEdge(outgoing, alpha)
      ensures next != null ==> Edge(alpha, next) in outgoing
    {
      var min, max := 0, |outgoing| - 1;
      while min <= max
        invariant 0 <= min <= |outgoing| && -1 <= max < |outgoing|
        invariant forall i :: 0 <= i < min ==> outgoing[i].alpha < alpha
        invariant forall i :: max < i < |outgoing| ==> alpha < outgoing[i].alpha
        decreases max - min
      {
        var mid := (min + max) / 2;
        var amid := outgoing[mid].alpha;
        if alpha > amid {
          min := mid + 1;
        } else if alpha < amid {
          max := mid - 1;
        } else {
          return outgoing[mid].next;
        }
      }
      return null;
    }

    method HasPattern(patt: Pattern) returns (found: bool)
      ensures found <==> HasText(matched, patt.ptext)
    {
      for i := 0 to |matched|
        invariant forall k :: 0 <= k < i ==> matched[k].ptext != patt.ptext
      {
        var txt := matched[i].ptext;
        if |txt| != |patt.ptext| {
          continue;
        }
        var j := 0;
        while j < |txt|
          invariant 0 <= j <= |txt|
          invariant txt[..j] == patt.ptext[..j]
        {
          if txt[j] != patt.ptext[j] {
            break;
          }
          j := j + 1;
        }
        if j == |txt| {
          assert txt == txt[..j] && patt.ptext == patt.ptext[..j];
          return true;
        }
      }
      return false;
    }

    /** Appends a pattern unless one with the same text is there. */
    method AcceptPattern(patt: Pattern)
      requires CapacityOk()
      modifies this`matched, this`matchedCapacity
      ensures CapacityOk()
      ensures matched == old(matched) + if HasText(old(matched), patt.ptext) then [] else [patt]
    {
      var found := HasPattern(patt);
      if found {
        return;
      }
      if |matched| == matchedCapacity {
        GrowMatchedVector();
      }
      matched := matched + [patt];
    }

    method AcceptAll(more: seq<Pattern>)
      requires CapacityOk()
      modifies this`matched, this`matchedCapacity
      ensures CapacityOk()
      ensures matched == AcceptedAll(old(matched), more)
    {
      for i := 0 to |more|
        invariant CapacityOk()
        invariant matched == AcceptedAll(old(matched), more[..i])
      {
        assert more[..i + 1][..i] == more[..i];
        AcceptPattern(more[i]);
      }
      assert more[..|more|] == more;
    }

    method GrowMatchedVector()
      modifies this`matchedCapacity
      ensures matchedCapacity == if old(matchedCapacity) == 0 then 1 else old(matchedCapacity) + 2
    {
      if matchedCapacity == 0 {
        matchedCapacity := 1;
      } else {
        matchedCapacity := matchedCapacity + 2;
      }
    }

    /** Shallow nodes grow faster: the root by nine edges, nodes from depth 8 on by one. */
    method GrowOutgoingVector()
      modifies this`outgoingCapacity
      ensures outgoingCapacity == old(outgoingCapacity) + GrowthAt(depth)
    {
      var growFactor := 8 / (depth + 1) + 1;
      outgoingCapacity := outgoingCapacity + growFactor;
    }

    method AddEdge(next: Node, alpha: Alpha)
      requires CapacityOk()
      modifies this`outgoing, this`outgoingCapacity
      ensures CapacityOk()
      ensures outgoing == old(outgoing) + [Edge(alpha, next)]
    {
      if |outgoing| == outgoingCapacity {
        GrowOutgoingVector();
      }
      outgoing := outgoing + [Edge(alpha, next)];
    }

    /** A fresh child along `alpha`, or null if the edge is taken. */
    method CreateNext(alpha: Alpha) returns (next: Node?)
      requires CapacityOk()
      modifies this`outgoing, this`outgoingCapacity
      ensures CapacityOk()
      ensures next == null <==> HasEdge(old(outgoing), alpha)
      ensures next == null ==> outgoing == old(outgoing)
      ensures next != null ==> outgoing == old(outgoing) + [Edge(alpha, next)]
      ensures next != null ==> fresh(next) && next.Blank(path + [alpha])
    {
      var there := FindNext(alpha);
      if there != null {
        assert HasEdge(outgoing, alpha) by {
          HasEdgeMember(outgoing, alpha);
        }
        return null;
      }
      var node := new Node(path + [alpha]);
      AddEdge(node, alpha);
      return node;
    }

    method SortOutgoing()
      requires CapacityOk() && DistinctAlphas(outgoing)
      modifies this`outgoing
      ensures CapacityOk()
      ensures SortedByAlpha(outgoing) && SameEdges(outgoing, old(outgoing))
    {
      SortEdgesSorts(outgoing);
      SortEdgesKeeps(outgoing);
      outgoing := SortEdges(outgoing);
    }
  }
}
