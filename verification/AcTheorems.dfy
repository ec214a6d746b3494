/** What the finalized automaton promises, and where the search departs from it. */
module AcTheorems {
  import opened AcTypes
  import opened AcSpec
  import opened AcTrie

  /** Failure links lead to the longest proper suffix that is in the trie, and strictly up. */
  lemma FailureLinks(t: Trie, w: Word)
    requires t.Valid() && !t.trieOpen && w in t.paths
    ensures w == [] ==> t.paths[w].failure == null
    ensures w != [] ==>
      var f := t.paths[w].failure;
      && f != null && t.IsNode(f) && f.depth < t.paths[w].depth
      && IsSuffix(f.path, w) && f.path != w
      && forall v :: v in t.paths && IsSuffix(v, w) && v != w ==> |v| <= |f.path|
  {
    assert t.FailOk(w) && t.NodeOk(w);
    if w != [] {
      var s := t.paths.Keys;
      var u := Fail(s, w);
      assert t.NodeOk(u) && IsSuffix(w, w);
      FailIsNext(s, w, w);
      forall v | v in t.paths && IsSuffix(v, w) && v != w ensures |v| <= |u| {
        assert |v| < |w|;
      }
    }
  }

  /** A node's match list holds exactly the accepted patterns its word ends with, longest first, each once. */
  lemma MatchList(t: Trie, w: Word, p: Pattern)
    requires t.Valid() && !t.trieOpen && w in t.paths
    ensures var n := t.paths[w];
      && (p in n.matched <==> p.ptext in t.dict && t.dict[p.ptext] == p && IsSuffix(p.ptext, w))
      && (forall i, j :: 0 <= i < j < |n.matched| ==> |n.matched[i].ptext| > |n.matched[j].ptext|)
      && (n.final <==> n.matched != [])
  {
    assert t.FullOk(w);
    SuffixedExact(t.dict, w, p);
    forall i, j | 0 <= i < j < |t.paths[w].matched|
      ensures |t.paths[w].matched[i].ptext| > |t.paths[w].matched[j].ptext|
    {
      SuffixedDecreasing(t.dict, w, i, j);
    }
  }

  /**
   * Exact matching: from the root, what lies ahead in a text is one report for each position where an
   * accepted pattern ends, in increasing order, with exactly the patterns that end there.
   */
  lemma ExactMatching(d: Dict, text: Word)
    requires WellKeyed(d)
    ensures var ms := Ahead(d, Cursor([], 0, 0), text);
      ReportsSound(d, text, 0, |text|, 0, ms) && ReportsComplete(d, text, 0, |text|, 0, ms)
  {
    hide Hits, Suffixed, ReportsSound, ReportsComplete;
    assert Rest(text, 0) == text && [] + text == text;
    HitsSound(d, text, 0, |text|, 0);
    HitsComplete(d, text, 0, |text|, 0);
  }

  // ----- a search without `keep` still starts in the state left over -----

  /** No pattern starts in what state `u` remembers and ends after it. */
  ghost predicate NothingPending(d: Dict, u: Word) {
    forall p, k :: p in d && 0 < k < |p| ==> !IsSuffix(p[..k], u)
  }

  /**
   * `ac_trie_search` with keep 0 resets the cursor after reading the state. Its answer is that of a
   * fresh search for every text if and only if no pattern is pending in the state left over.
   */
  lemma StaleStart(d: Dict, u: Word)
    requires WellKeyed(d)
    ensures (forall text :: Ahead(d, Cursor(u, 0, 0), text) == Ahead(d, Cursor([], 0, 0), text))
            <==> NothingPending(d, u)
  {
    if NothingPending(d, u) {
      forall text ensures Ahead(d, Cursor(u, 0, 0), text) == Ahead(d, Cursor([], 0, 0), text) {
        assert Rest(text, 0) == text && [] + text == text;
        NothingPendingSame(d, u, text, |text|);
      }
    } else {
      var p, k :| p in d && 0 < k < |p| && IsSuffix(p[..k], u);
      PendingDiffers(d, u, p, k);
    }
  }

  lemma {:induction false} NothingPendingSame(d: Dict, u: Word, x: Word, k: nat)
    requires WellKeyed(d) && NothingPending(d, u) && k <= |x|
    ensures Hits(d, u + x, |u|, |u| + k, -|u|) == Hits(d, x, 0, k, 0)
  {
    if k > 0 {
      NothingPendingSame(d, u, x, k - 1);
      assert (u + x)[..|u| + k] == u + x[..k];
      SameSuffixed(d, u, x[..k]);
    }
  }

  lemma {:induction false} SameSuffixed(d: Dict, u: Word, x: Word)
    requires WellKeyed(d) && NothingPending(d, u) && x != []
    ensures Suffixed(d, u + x) == Suffixed(d, x)
    decreases |u|
  {
    if u == [] {
      assert u + x == x;
    } else {
      assert (u + x)[1..] == u[1..] + x;
      if u + x in d {
        assert (u + x)[..|u|] == u && IsSuffix(u, u);
      }
      forall p, k | p in d && 0 < k < |p| ensures !IsSuffix(p[..k], u[1..]) {
        if IsSuffix(p[..k], u[1..]) {
          SuffixTransitive(p[..k], u[1..], u);
        }
      }
      SameSuffixed(d, u[1..], x);
    }
  }

  /** A scan of `x` alone reports no pattern longer than `x`. */
  lemma {:induction false} ReportsFit(d: Dict, x: Word, n: nat, p: Pattern, position: int)
    requires WellKeyed(d) && n <= |x| && Reported(Hits(d, x, 0, n, 0), position, p)
    ensures |p.ptext| <= |x|
  {
    if n > 0 {
      var ms, last := Hits(d, x, 0, n - 1, 0), HitAt(d, x[..n], n);
      var all := ms + last;
      var i :| 0 <= i < |all| && all[i].position == position && p in all[i].patterns;
      if i < |ms| {
        ReportsFit(d, x, n - 1, p, position);
      } else {
        SuffixedExact(d, x[..n], p);
      }
    }
  }

  lemma PendingReported(d: Dict, u: Word, x: Word, p: Word)
    requires WellKeyed(d) && p in d && x != [] && IsSuffix(p, u + x)
    ensures Reported(Ahead(d, Cursor(u, 0, 0), x), |x|, d[p])
  {
    hide Hits, Suffixed;
    var h := u + x;
    assert Rest(x, 0) == x && h[..|h|] == h;
    HitsComplete(d, h, |u|, |h|, -|u|);
    assert Reported(Hits(d, h, |u|, |h|, -|u|), |h| + -|u|, d[p]);
  }

  lemma PendingDiffers(d: Dict, u: Word, p: Word, k: nat)
    requires WellKeyed(d) && p in d && 0 < k < |p| && IsSuffix(p[..k], u)
    ensures Ahead(d, Cursor(u, 0, 0), p[k..]) != Ahead(d, Cursor([], 0, 0), p[k..])
  {
    hide Hits, Suffixed;
    var x := p[k..];
    assert p[..k] + x == p && Rest(x, 0) == x && [] + x == x;
    SuffixAppend(p[..k], u, x);
    PendingReported(d, u, x, p);
    if Reported(Ahead(d, Cursor([], 0, 0), x), |x|, d[p]) {
      ReportsFit(d, x, |x|, d[p], |x|);
    }
  }

  /** For instance: "ab" is reported in the text "b" if the scan before it ended in "a". */
  lemma StaleStartInstance(ab: Pattern)
    requires ab.ptext == [97, 98]
    ensures Ahead(map[ab.ptext := ab], Cursor([97], 0, 0), [98]) == [Match([ab], 1)]
    ensures Ahead(map[ab.ptext := ab], Cursor([], 0, 0), [98]) == []
  {
    var d: Dict := map[ab.ptext := ab];
    var a: Word, b: Word := [97], [98];
    var h := a + b;
    assert Rest(b, 0) == b && [] + b == b && h == ab.ptext;
    assert h[..2] == h && b[..1] == b;
    assert b[1..] == [] && h[1..] == b;
    assert Suffixed(d, b) == [];
    assert Suffixed(d, h) == [ab];
    assert Hits(d, h, 1, 1, -1) == [] && Hits(d, b, 0, 0, 0) == [];
    assert Hits(d, h, 1, 2, -1) == HitAt(d, h[..2], 1);
    assert Hits(d, b, 0, 1, 0) == HitAt(d, b[..1], 1);
  }

  // ----- find-next after its last match -----

  /**
   * Exhausting a text leaves the position of the last match in place. A further find-next, without a
   * new text, scans what follows that match a second time, as a continuation of the whole text, at
   * positions shifted by that position.
   */
  lemma FindNextAfterEnd(d: Dict, s: set<Word>, c: Cursor, text: Word)
    requires PrefixClosed(s) && d.Keys <= s && c.position <= |text|
    ensures var rest, h := text[c.position..], c.state + text[c.position..];
      Ahead(d, AtEnd(s, c, text), text) ==
      Hits(d, h + rest, |h|, |h| + |rest|, c.base + |text| + c.position - |h|)
  {
    hide Hits, Longest;
    var rest, h := text[c.position..], c.state + text[c.position..];
    HitsFromState(d, s, h, rest, |rest|, c.base + |text| + c.position - |h|);
  }

  ghost predicate NoneEnds(d: Dict, x: Word, lo: nat, hi: nat)
    requires hi <= |x|
  {
    forall k :: lo < k <= hi ==> Suffixed(d, x[..k]) == []
  }

  lemma {:induction false} HitsEmpty(d: Dict, x: Word, lo: nat, hi: nat, off: int)
    requires lo <= hi <= |x| && 0 <= lo + off
    ensures Hits(d, x, lo, hi, off) == [] <==> NoneEnds(d, x, lo, hi)
    decreases hi
  {
    hide Suffixed;
    if lo < hi {
      HitsEmpty(d, x, lo, hi - 1, off);
    }
  }

  lemma SuffixedEmpty(d: Dict, w: Word)
    requires WellKeyed(d)
    ensures Suffixed(d, w) == [] <==> forall p :: p in d ==> !IsSuffix(p, w)
  {
    if Suffixed(d, w) != [] {
      SuffixedExact(d, w, Suffixed(d, w)[0]);
    }
    forall p | p in d && IsSuffix(p, w) ensures Suffixed(d, w) != [] {
      SuffixedExact(d, w, d[p]);
    }
    hide Suffixed;
  }

  /** A pattern ends in `rest` when it is read after `h`. */
  ghost predicate EndsIn(d: Dict, h: Word, rest: Word) {
    exists p, k :: p in d && 0 < k <= |rest| && IsSuffix(p, h + rest[..k])
  }

  /**
   * So after its empty answer, find-next finds nothing again exactly if no accepted pattern ends in what it
   * reads for the second time.
   */
  lemma NothingAgain(d: Dict, s: set<Word>, c: Cursor, text: Word)
    requires PrefixClosed(s) && d.Keys <= s && WellKeyed(d) && c.position <= |text|
    ensures Ahead(d, AtEnd(s, c, text), text) == [] <==> !EndsIn(d, c.state + text[c.position..], text[c.position..])
  {
    hide Hits, Longest, Suffixed, Ahead, AtEnd, NoneEnds, EndsIn;
    var rest, h := text[c.position..], c.state + text[c.position..];
    FindNextAfterEnd(d, s, c, text);
    HitsEmpty(d, h + rest, |h|, |h| + |rest|, c.base + |text| + c.position - |h|);
    NoneEndsIn(d, h, rest);
  }

  lemma NoneEndsIn(d: Dict, h: Word, rest: Word)
    requires WellKeyed(d)
    ensures NoneEnds(d, h + rest, |h|, |h| + |rest|) <==> !EndsIn(d, h, rest)
  {
    hide Suffixed;
    if NoneEnds(d, h + rest, |h|, |h| + |rest|) {
      forall p, k | p in d && 0 < k <= |rest| ensures !IsSuffix(p, h + rest[..k]) {
        assert (h + rest)[..|h| + k] == h + rest[..k];
        assert Suffixed(d, (h + rest)[..|h| + k]) == [];
        SuffixedEmpty(d, h + rest[..k]);
      }
    }
    if !EndsIn(d, h, rest) {
      forall k | |h| < k <= |h| + |rest| ensures Suffixed(d, (h + rest)[..k]) == [] {
        assert (h + rest)[..k] == h + rest[..k - |h|];
        SuffixedEmpty(d, (h + rest)[..k]);
      }
    }
  }

  lemma Keyed(trie: Trie)
    requires trie.Valid()
    ensures WellKeyed(trie.dict)
  {
  }

  /** Two calls of find-next where the first finds nothing: when the second one does. */
  method FindNextTwice(trie: Trie) returns (first: Match, second: Match)
    requires trie.Valid() && !trie.trieOpen && trie.text.Some? && trie.position <= |trie.text.value| && trie.Pending() == []
    modifies trie`lastNode, trie`basePosition, trie`position, trie`wm
    ensures first.patterns == []
    ensures second.patterns == [] <==>
      old(!EndsIn(trie.dict, trie.lastNode.path + trie.text.value[trie.position..], trie.text.value[trie.position..]))
  {
    hide Trie.Automaton, Hits, Longest, Ahead, AtEnd, EndsIn, WellKeyed, PrefixClosed;
    trie.Basics();
    Keyed(trie);
    NothingAgain(trie.dict, trie.paths.Keys, trie.At(), trie.text.value);
    first := trie.FindNext();
    second := trie.FindNext();
  }

  /** For instance: the pattern "ba" is not in the text "ab", and find-next finds it there when it is asked twice. */
  method FindNextInstance(ba: Pattern) returns (first: Match, second: Match)
    requires ba.ptext == [98, 97]
    ensures first.patterns == [] && second.patterns != []
  {
    var trie := new Trie();
    var status := trie.Add(ba);
    trie.Finalize();
    var ab: Word := [97, 98];
    trie.SetText(ab, false);
    hide Trie.Automaton, Trie.Valid, Hits, Longest, Ahead, AtEnd, EndsIn;
    InstanceAhead(ba, ab);
    first, second := FindNextTwice(trie);
  }

  lemma InstanceAhead(ba: Pattern, ab: Word)
    requires ba.ptext == [98, 97] && ab == [97, 98]
    ensures Ahead(map[ba.ptext := ba], Cursor([], 0, 0), ab) == []
    ensures EndsIn(map[ba.ptext := ba], [] + ab[0..], ab[0..])
  {
    var d: Dict, p := map[ba.ptext := ba], ba.ptext;
    assert Rest(ab, 0) == ab && [] + ab == ab && ab[0..] == ab;
    assert ab[..1] == [97] && ab[..2] == ab;
    HitsEmpty(d, ab, 0, 2, 0);
    SuffixedEmpty(d, ab[..1]);
    SuffixedEmpty(d, ab[..2]);
    assert ab[..1] != p && !IsSuffix(p, ab[..1]) && !IsSuffix(p, ab[..2]);
    assert Ahead(d, Cursor([], 0, 0), ab) == Hits(d, ab, 0, 2, 0);
    assert (ab + ab[..1])[1..] == p && IsSuffix(p, ab + ab[..1]);
    hide Suffixed, Hits;
  }
}
