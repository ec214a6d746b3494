/** How clients drive the automaton: enumerating the matches of a text, and of a text in chunks. */
module AcClient {
  import opened AcTypes
  import opened AcSpec
  import opened AcTrie

  function Concat(chunks: seq<Word>): Word {
    if chunks == [] then [] else Concat(chunks[..|chunks| - 1]) + chunks[|chunks| - 1]
  }

  /** A client that asks for the next match until there is none. */
  method FindAll(trie: Trie) returns (ms: seq<Match>)
    requires trie.Valid() && !trie.trieOpen && trie.text.Some? && trie.position <= |trie.text.value|
    modifies trie`lastNode, trie`basePosition, trie`position, trie`wm
    ensures trie.Valid()
    ensures ms == old(trie.Pending())
    ensures var c, c' := old(trie.At()), AtEnd(trie.paths.Keys, old(trie.At()), trie.text.value);
      trie.At().state == c'.state && trie.At().base == c'.base
  {
    hide Trie.Automaton, Hits, Longest;
    ms := [];
    trie.Basics();
    ghost var all, c := trie.Pending(), trie.At();
    while true
      invariant trie.Valid() && trie.position <= |trie.text.value|
      invariant all == ms + trie.Pending()
      invariant AtEnd(trie.paths.Keys, trie.At(), trie.text.value).state == AtEnd(trie.paths.Keys, c, trie.text.value).state
      invariant trie.basePosition == c.base
      decreases |trie.Pending()|
    {
      var m := trie.FindNext();
      if |m.patterns| == 0 {
        break;
      }
      ms := ms + [m];
    }
  }

  /**
   * A text delivered in chunks: the first set with keep 0, the others with keep 1. The matches found
   * are those of one naive scan of the whole text, with absolute positions, whatever the cuts.
   */
  method FindInChunks(trie: Trie, chunks: seq<Word>) returns (ms: seq<Match>)
    requires trie.Valid() && !trie.trieOpen
    modifies trie`lastNode, trie`basePosition, trie`position, trie`wm, trie`text
    ensures trie.Valid()
    ensures ms == Hits(trie.dict, Concat(chunks), 0, |Concat(chunks)|, 0)
  {
    hide Trie.Automaton, Hits, Longest;
    ms := [];
    ghost var s := trie.paths.Keys;
    trie.Basics();
    NothingRead(trie.dict, s);
    for i := 0 to |chunks|
      invariant trie.Valid()
      invariant ms == Hits(trie.dict, Concat(chunks[..i]), 0, |Concat(chunks[..i])|, 0)
      invariant i > 0 ==> trie.lastNode.path == Longest(s, Concat(chunks[..i]))
                          && trie.basePosition == |Concat(chunks[..i])|
    {
      ghost var h, x := Concat(chunks[..i]), chunks[i];
      assert chunks[..i + 1][..i] == chunks[..i];
      trie.SetText(chunks[i], i > 0);
      trie.Basics();
      ChunkAhead(trie.dict, s, h, x, trie.At());
      var more := FindAll(trie);
      ms := ms + more;
      assert Rest(x, 0) == x;
    }
    assert chunks[..|chunks|] == chunks;
  }

  lemma NothingRead(d: Dict, s: set<Word>)
    requires [] in s
    ensures Hits(d, [], 0, 0, 0) == [] && Longest(s, []) == []
  {
  }

  lemma ChunkAhead(d: Dict, s: set<Word>, h: Word, x: Word, c: Cursor)
    requires PrefixClosed(s) && d.Keys <= s
    requires c == Cursor(Longest(s, h), |h|, 0)
    ensures Hits(d, h + x, 0, |h + x|, 0) == Hits(d, h, 0, |h|, 0) + Ahead(d, c, x)
    ensures AtEnd(s, c, x).state == Longest(s, h + x) && AtEnd(s, c, x).base == |h + x|
  {
    hide Hits, Longest;
    assert Rest(x, 0) == x && (h + x)[..|h|] == h == h[..|h|];
    HitsSplit(d, h + x, 0, |h|, |h + x|, 0);
    HitsPrefix(d, h, h + x, 0, |h|, 0);
    HitsFromState(d, s, h, x, |x|, 0);
    LongestAppend(s, h, x);
  }
}
