/** The automaton: building, finalizing and searching the trie. */
module AcTrie {
  import opened Wrappers
  import opened AcTypes
  import opened AcSpec
  import opened AcNode

  /** What adding a pattern answers, in the order the source tests the conditions. */
  function AddStatus(isOpen: bool, d: Dict, w: Word): Status {
    if !isOpen then TrieClosed
    else if w == [] then ZeroPattern
    else if |w| > MAX_PATTERN_LENGTH then LongPattern
    else if w in d then DuplicatePattern
    else Success
  }

  ghost predicate StartsPattern(d: Dict, w: Word) {
    exists p :: p in d && w <= p
  }

  /** Every non-empty word of `s` starts an accepted pattern or is a prefix of `extra`. */
  ghost predicate Backed(s: set<Word>, d: Dict, extra: Word) {
    forall w {:trigger StartsPattern(d, w)} :: w in s && w != [] ==> w <= extra || StartsPattern(d, w)
  }

  lemma KeyedWith(d: Dict, patt: Pattern)
    requires WellKeyed(d) && patt.ptext != []
    ensures WellKeyed(d[patt.ptext := patt])
  {
  }

  lemma BackedWith(s: set<Word>, d: Dict, patt: Pattern)
    requires Backed(s, d, patt.ptext)
    ensures Backed(s, d[patt.ptext := patt], [])
  {
    var d' := d[patt.ptext := patt];
    forall w | w in s && w != [] ensures StartsPattern(d', w) {
      if StartsPattern(d, w) {
        var p :| p in d && w <= p;
        assert p in d';
      } else {
        assert patt.ptext in d' && w <= patt.ptext;
      }
    }
  }

  lemma KnownBacked(s: set<Word>, d: Dict, w: Word)
    requires Backed(s, d, w) && WellKeyed(d) && w in d
    ensures Backed(s, d, [])
  {
    BackedWith(s, d, d[w]);
    assert d[w := d[w]] == d;
  }

  lemma BackedMore(s: set<Word>, d: Dict, extra: Word)
    requires Backed(s, d, [])
    ensures Backed(s, d, extra)
  {
    forall w | w in s && w != [] ensures w <= extra || StartsPattern(d, w) {
      assert StartsPattern(d, w);
    }
  }

  lemma {:induction false} PrefixesIn(s: set<Word>, w: Word, k: nat)
    requires PrefixClosed(s) && w in s && k <= |w|
    ensures w[..k] in s
    decreases |w|
  {
    if k < |w| {
      PrefixesIn(s, Parent(w), k);
      assert Parent(w)[..k] == w[..k];
    } else {
      assert w[..k] == w;
    }
  }

  /** The first suffix found in `s`, trying longer ones first, is the longest. */
  lemma {:induction false} LongestAt(s: set<Word>, w: Word, i: nat)
    requires [] in s && i <= |w| && w[i..] in s
    requires forall k :: 0 <= k < i ==> w[k..] !in s
    ensures Longest(s, w) == w[i..]
  {
    if i == 0 {
      assert w[0..] == w;
    } else {
      assert w[0..] !in s && w[0..] == w;
      forall k | 0 <= k < i - 1 ensures w[1..][k..] !in s {
        assert w[1..][k..] == w[k + 1..];
      }
      assert w[1..][i - 1..] == w[i..];
      LongestAt(s, w[1..], i - 1);
    }
  }

  /** The edges of the node of `w` lead exactly to the words one letter longer. */
  ghost predicate EdgesOk(paths: map<Word, Node>, w: Word, es: seq<Edge>) {
    && DistinctAlphas(es)
    && (forall e :: e in es ==> w + [e.alpha] in paths && paths[w + [e.alpha]] == e.next)
    && (forall a :: w + [a] in paths ==> HasEdge(es, a))
  }

  lemma EdgesKept(paths: map<Word, Node>, w: Word, es: seq<Edge>, word: Word, next: Node)
    requires EdgesOk(paths, w, es) && word !in paths
    requires word != [] && w != Parent(word)
    ensures EdgesOk(paths[word := next], w, es)
  {
    forall a ensures w + [a] != word {
      assert Parent(w + [a]) == w;
    }
  }

  lemma EdgesGrown(paths: map<Word, Node>, w: Word, es: seq<Edge>, alpha: Alpha, next: Node)
    requires EdgesOk(paths, w, es) && w + [alpha] !in paths
    ensures EdgesOk(paths[w + [alpha] := next], w, es + [Edge(alpha, next)])
  {
    var es', paths' := es + [Edge(alpha, next)], paths[w + [alpha] := next];
    assert forall i :: 0 <= i < |es| ==> es[i] in es && es[i].alpha != alpha;
    forall e | e in es' ensures w + [e.alpha] in paths' && paths'[w + [e.alpha]] == e.next {
      if e in es {
        assert w + [e.alpha] in paths;
      }
    }
    forall a | w + [a] in paths' ensures HasEdge(es', a) {
      if w + [a] in paths {
        var i :| 0 <= i < |es| && es[i].alpha == a;
        assert es'[i].alpha == a;
      } else {
        assert (w + [a])[|w|] == (w + [alpha])[|w|];
        assert es'[|es|].alpha == a;
      }
    }
  }

  lemma EdgesSorted(paths: map<Word, Node>, w: Word, es: seq<Edge>, es': seq<Edge>)
    requires EdgesOk(paths, w, es) && SameEdges(es, es') && SortedByAlpha(es')
    ensures EdgesOk(paths, w, es')
  {
    forall e | e in es' ensures w + [e.alpha] in paths && paths[w + [e.alpha]] == e.next {
      SameEdgesMember(es, es', e);
    }
    forall a | w + [a] in paths ensures HasEdge(es', a) {
      assert HasEdge(es, a);
      HasEdgeMember(es, a);
      var e :| e in es && e.alpha == a;
      SameEdgesMember(es, es', e);
      HasEdgeMember(es', a);
    }
  }

  // ----- collecting matches along failure links -----

  /** What a node holds before or after its matches are collected. */
  ghost predicate RawOrFull(d: Dict, u: Word, ps: seq<Pattern>) {
    ps == (if u in d then [d[u]] else []) || ps == Suffixed(d, u)
  }

  /** The list `ps` for `w` is complete, or complete down to length `k` with `u` the next state to visit. */
  ghost predicate Collecting(d: Dict, s: set<Word>, w: Word, ps: seq<Pattern>, u: Option<Word>, k: nat) {
    ps == Suffixed(d, w) ||
    (&& u.Some? && u.value in s && IsSuffix(u.value, w) && |u.value| < k
     && ps == SuffixedDown(d, w, k)
     && forall v :: v in s && IsSuffix(v, w) && |v| < k ==> |v| <= |u.value|)
  }

  lemma CollectEnd(d: Dict, s: set<Word>, w: Word, ps: seq<Pattern>, k: nat)
    requires Collecting(d, s, w, ps, None, k)
    ensures ps == Suffixed(d, w)
  {
  }

  function NextFail(s: set<Word>, u: Word): Option<Word>
    requires [] in s
  {
    if u == [] then None else Some(Fail(s, u))
  }

  lemma FailIsNext(s: set<Word>, w: Word, u: Word)
    requires [] in s && u != [] && IsSuffix(u, w)
    ensures IsSuffix(Fail(s, u), w) && |Fail(s, u)| < |u|
    ensures forall v :: v in s && IsSuffix(v, w) && |v| < |u| ==> |v| <= |Fail(s, u)|
  {
    LongestIsSuffix(s, u[1..]);
    SuffixTransitive(Fail(s, u), u[1..], u);
    SuffixTransitive(Fail(s, u), u, w);
    forall v | v in s && IsSuffix(v, w) && |v| < |u| ensures |v| <= |Fail(s, u)| {
      SuffixOfSame(v, u, w);
      SuffixOfSame(v, u[1..], u);
      LongestIsMax(s, u[1..], v);
    }
  }

  lemma CollectStart(d: Dict, s: set<Word>, w: Word, ps: seq<Pattern>)
    requires WellKeyed(d) && [] in s && RawOrFull(d, w, ps)
    ensures Collecting(d, s, w, ps, NextFail(s, w), |w|)
  {
    if w != [] {
      FailIsNext(s, w, w);
      assert SuffixedDown(d, w[1..], |w|) == [];
    }
  }

  lemma CollectKnown(d: Dict, w: Word, u: Word, more: seq<Pattern>)
    requires WellKeyed(d) && IsSuffix(u, w) && RawOrFull(d, u, more)
    ensures AcceptedAll(Suffixed(d, w), more) == Suffixed(d, w)
  {
    var ps := Suffixed(d, w);
    forall j | 0 <= j < |more| ensures HasText(ps, more[j].ptext) {
      assert IsSuffix(u, u);
      SuffixedExact(d, u, more[j]);
      SuffixTransitive(more[j].ptext, u, w);
      SuffixedExact(d, w, more[j]);
    }
    AcceptedAllKnown(ps, more);
  }

  lemma CollectNew(d: Dict, w: Word, u: Word, k: nat, more: seq<Pattern>)
    requires WellKeyed(d) && RawOrFull(d, u, more) && |u| < k
    ensures AcceptedAll(SuffixedDown(d, w, k), more) == SuffixedDown(d, w, k) + more
  {
    var ps := SuffixedDown(d, w, k);
    forall i, j | 0 <= i < |ps| && 0 <= j < |more| ensures ps[i].ptext != more[j].ptext {
      SuffixedDownLong(d, w, k, ps[i]);
      assert IsSuffix(u, u);
      SuffixedExact(d, u, more[j]);
    }
    forall i, j | 0 <= i < j < |more| ensures more[i].ptext != more[j].ptext {
      if more == Suffixed(d, u) {
        SuffixedDecreasing(d, u, i, j);
      }
    }
    AcceptedAllNew(ps, more);
  }

  /** Visiting one failure node brings the list one step closer to complete, whatever was visited before. */
  lemma CollectStep(d: Dict, s: set<Word>, w: Word, ps: seq<Pattern>, u: Word, k: nat, more: seq<Pattern>)
    requires WellKeyed(d) && d.Keys <= s && [] in s
    requires IsSuffix(u, w) && Collecting(d, s, w, ps, Some(u), k) && RawOrFull(d, u, more)
    ensures Collecting(d, s, w, AcceptedAll(ps, more), NextFail(s, u), |u|)
  {
    if ps == Suffixed(d, w) {
      CollectKnown(d, w, u, more);
    } else {
      CollectNew(d, w, u, k, more);
      if more == Suffixed(d, u) || u == [] {
        SuffixedJoin(d, w, u, k);
      } else {
        SuffixedDownTo(d, w, u, k);
        FailIsNext(s, w, u);
      }
    }
  }

  // ----- searching -----

  /** Where a search stands: the state reached, the letters before this text, the letters of it consumed. */
  datatype Cursor = Cursor(state: Word, base: nat, position: nat)

  function Rest(text: Word, position: nat): Word {
    if position <= |text| then text[position..] else []
  }

  /** The naive answer for what lies ahead of the cursor, with positions counted from the first text. */
  ghost function Ahead(d: Dict, c: Cursor, text: Word): seq<Match> {
    var rest := Rest(text, c.position);
    Hits(d, c.state + rest, |c.state|, |c.state| + |rest|, c.base + c.position - |c.state|)
  }

  /** The cursor after everything ahead of `c` was read; the position itself is left as it was. */
  ghost function AtEnd(s: set<Word>, c: Cursor, text: Word): Cursor
    requires [] in s
  {
    Cursor(Longest(s, c.state + Rest(text, c.position)), c.base + if c.position <= |text| then |text| else c.position,
           c.position)
  }

  /** Where a search starts: the state is the one left over even if `keep` is false. */
  function Start(c: Cursor, wm: WorkingMode, keep: bool): Cursor {
    Cursor(c.state, if keep then c.base else 0, if wm == FindNextMode then c.position else 0)
  }

  /** A search in find-next mode that stopped: on the last report, in the state reached there. */
  ghost predicate StoppedAt(d: Dict, s: set<Word>, c: Cursor, text: Word, reported: seq<Match>, c': Cursor)
    requires [] in s
  {
    && c.position < c'.position <= |text| && c'.base == c.base
    && c'.state == Longest(s, Read(c, text, c'.position))
    && reported == ReportedAt(d, c, text, c'.position)
  }

  /** The text consumed so far, after the history of the cursor. */
  ghost function Read(c: Cursor, text: Word, p: nat): Word
    requires c.position <= p <= |text|
  {
    c.state + text[c.position..p]
  }

  /** In node `cur` with the letters before `p` consumed: failure transitions have lost nothing. */
  ghost predicate OnTrack(s: set<Word>, c: Cursor, text: Word, cur: Word, p: nat)
    requires [] in s
  {
    && c.position <= p <= |text| && cur in s
    && (p < |text| ==> Longest(s, cur + [text[p]]) == Longest(s, Read(c, text, p + 1)))
    && (p == |text| ==> cur == Longest(s, Read(c, text, p)))
  }

  /** What must have been reported when the letters before `p` are consumed. */
  ghost function ReportedAt(d: Dict, c: Cursor, text: Word, p: nat): seq<Match>
    requires c.position <= p <= |text|
  {
    Hits(d, Read(c, text, p), |c.state|, |c.state| + p - c.position, c.base + c.position - |c.state|)
  }

  /** Arriving by a letter. */
  lemma Arrive(s: set<Word>, c: Cursor, text: Word, cur: Word, p: nat)
    requires PrefixClosed(s) && c.position <= p <= |text|
    requires cur == Longest(s, Read(c, text, p))
    ensures OnTrack(s, c, text, cur, p)
  {
    if p < |text| {
      assert Read(c, text, p + 1) == Read(c, text, p) + [text[p]];
      LongestStep(s, Read(c, text, p), text[p]);
    }
  }

  /** Following an edge. */
  lemma ArriveByEdge(s: set<Word>, c: Cursor, text: Word, cur: Word, p: nat)
    requires PrefixClosed(s) && OnTrack(s, c, text, cur, p) && p < |text| && cur + [text[p]] in s
    ensures cur + [text[p]] == Longest(s, Read(c, text, p + 1))
    ensures OnTrack(s, c, text, cur + [text[p]], p + 1)
  {
    Arrive(s, c, text, cur + [text[p]], p + 1);
  }

  /** Skipping a letter in the root. */
  lemma TrackEnd(s: set<Word>, c: Cursor, text: Word, cur: Word)
    requires [] in s && OnTrack(s, c, text, cur, |text|)
    ensures cur == Longest(s, Read(c, text, |text|))
  {
    hide Longest;
  }

  lemma ArriveAtRoot(d: Dict, s: set<Word>, c: Cursor, text: Word, p: nat)
    requires PrefixClosed(s) && OnTrack(s, c, text, [], p) && p < |text| && [text[p]] !in s
    requires d.Keys <= s
    ensures [] == Longest(s, Read(c, text, p + 1)) && OnTrack(s, c, text, [], p + 1)
    ensures ReportedAt(d, c, text, p + 1) == ReportedAt(d, c, text, p)
  {
    ReportNext(d, s, c, text, p);
    assert [] + [text[p]] == [text[p]];
    RootStep(s, text[p]);
    Arrive(s, c, text, [], p + 1);
  }

  /** Following a failure link. */
  lemma FallBack(s: set<Word>, c: Cursor, text: Word, cur: Word, p: nat)
    requires PrefixClosed(s) && OnTrack(s, c, text, cur, p) && p < |text|
    requires cur != [] && cur + [text[p]] !in s
    ensures OnTrack(s, c, text, Fail(s, cur), p)
  {
    FailStep(s, cur, text[p]);
  }

  lemma Depart(d: Dict, s: set<Word>, c: Cursor, text: Word)
    requires PrefixClosed(s) && c.state in s && c.position <= |text|
    ensures OnTrack(s, c, text, c.state, c.position)
    ensures ReportedAt(d, c, text, c.position) == []
  {
    assert Read(c, text, c.position) == c.state;
    Arrive(s, c, text, c.state, c.position);
  }

  /** One letter more adds what ends in the node it leads to. */
  lemma ReportNext(d: Dict, s: set<Word>, c: Cursor, text: Word, p: nat)
    requires [] in s && d.Keys <= s && c.position <= p < |text|
    ensures ReportedAt(d, c, text, p + 1) ==
            ReportedAt(d, c, text, p) + HitAt(d, Longest(s, Read(c, text, p + 1)), c.base + p + 1)
  {
    hide Hits, Read, Suffixed, Longest;
    ReadNext(c, text, p);
    HitsNext(d, Read(c, text, p), text[p], |c.state|, c.base + c.position - |c.state|);
    SuffixedOfState(d, s, Read(c, text, p + 1));
  }

  lemma ReadNext(c: Cursor, text: Word, p: nat)
    requires c.position <= p < |text|
    ensures Read(c, text, p + 1) == Read(c, text, p) + [text[p]]
    ensures |Read(c, text, p)| == |c.state| + p - c.position
  {
  }

  lemma HitsNext(d: Dict, g: Word, a: Alpha, lo: nat, off: int)
    requires lo <= |g| && 0 <= lo + off
    ensures Hits(d, g + [a], lo, |g| + 1, off) == Hits(d, g, lo, |g|, off) + HitAt(d, g + [a], |g| + 1 + off)
  {
    var h := g + [a];
    assert h[..|g|] == g == g[..|g|] && h[..|h|] == h;
    HitsPrefix(d, g, h, lo, |g|, off);
    hide Suffixed;
  }

  lemma ReportedIsAhead(d: Dict, s: set<Word>, c: Cursor, text: Word)
    requires [] in s
    ensures c.position <= |text| ==> ReportedAt(d, c, text, |text|) == Ahead(d, c, text)
    ensures c.position <= |text| ==> Read(c, text, |text|) == c.state + Rest(text, c.position)
    ensures c.position > |text| ==> Ahead(d, c, text) == [] && c.state + Rest(text, c.position) == c.state
  {
    if c.position <= |text| {
      assert text[c.position..|text|] == Rest(text, c.position);
    }
  }

  /** The reports so far are a prefix of all reports. */
  lemma ReportedPrefix(d: Dict, c: Cursor, text: Word, p: nat)
    requires c.position <= p <= |text|
    ensures ReportedAt(d, c, text, p) <= Ahead(d, c, text)
  {
    hide Hits;
    var g, h := Read(c, text, p), c.state + Rest(text, c.position);
    assert h[..|g|] == g == g[..|g|];
    HitsPrefix(d, g, h, |c.state|, |g|, c.base + c.position - |c.state|);
    HitsSplit(d, h, |c.state|, |g|, |h|, c.base + c.position - |c.state|);
  }

  /** Both cursors lead to the same state and base when the text is read to its end. */
  ghost predicate SameEnd(s: set<Word>, c: Cursor, c': Cursor, text: Word)
    requires [] in s
  {
    && c.position < c'.position <= |text| && c'.base == c.base
    && AtEnd(s, c', text).state == AtEnd(s, c, text).state
  }

  /** Stopping splits what lies ahead into what was reported and what lies ahead of the new cursor. */
  lemma AheadSplit(d: Dict, s: set<Word>, c: Cursor, text: Word, c': Cursor)
    requires PrefixClosed(s) && d.Keys <= s
    requires c.position <= c'.position <= |text| && c'.base == c.base
    requires c'.state == Longest(s, Read(c, text, c'.position))
    ensures Ahead(d, c, text) == ReportedAt(d, c, text, c'.position) + Ahead(d, c', text)
    ensures AtEnd(s, c', text).state == AtEnd(s, c, text).state
  {
    hide Hits, Longest, PrefixClosed;
    var g, x := Read(c, text, c'.position), text[c'.position..];
    var h := c.state + Rest(text, c.position);
    var off := c.base + c.position - |c.state|;
    assert h == g + x && h[..|g|] == g == g[..|g|];
    HitsSplit(d, h, |c.state|, |g|, |h|, off);
    HitsPrefix(d, g, h, |c.state|, |g|, off);
    HitsFromState(d, s, g, x, |x|, off);
    LongestAppend(s, g, x);
  }

  lemma StoppedAtOnce(stop: seq<Match> -> bool, ms: seq<Match>)
    requires NeverStopped(stop, ms)
    requires forall k :: 0 < k <= |ms| ==> stop(ms[..k])
    ensures ms == []
  {
    var whole := ms[..|ms|];
  }

  /** A callback that always stops is given one match, if there is any. */
  lemma FirstOnly(all: seq<Match>, r: int, reported: seq<Match>)
    requires UpToStop(all, _ => true, r, reported)
    ensures r == 1 <==> all != []
    ensures r == 1 ==> reported == [all[0]]
  {
    if r == 0 {
      StoppedAtOnce(_ => true, reported);
    } else {
      StoppedAtOnce(_ => true, reported[..|reported| - 1]);
    }
  }

  lemma {:induction false} HitsNonEmpty(d: Dict, h: Word, lo: nat, hi: nat, off: int)
    requires hi <= |h| && 0 <= lo + off
    ensures forall i :: 0 <= i < |Hits(d, h, lo, hi, off)| ==> Hits(d, h, lo, hi, off)[i].patterns != []
  {
    if lo < hi {
      HitsNonEmpty(d, h, lo, hi - 1, off);
    }
  }

  lemma AheadNonEmpty(d: Dict, c: Cursor, text: Word)
    ensures Ahead(d, c, text) != [] ==> Ahead(d, c, text)[0].patterns != []
  {
    var rest := Rest(text, c.position);
    HitsNonEmpty(d, c.state + rest, |c.state|, |c.state| + |rest|, c.base + c.position - |c.state|);
  }

  lemma LongestOfState(s: set<Word>, u: Word)
    requires [] in s && u in s
    ensures Longest(s, u) == u
  {
  }

  /** The callback let the search continue after each of `ms`. */
  ghost predicate NeverStopped(stop: seq<Match> -> bool, ms: seq<Match>) {
    forall k :: 0 < k <= |ms| ==> !stop(ms[..k])
  }

  lemma NeverStoppedMore(stop: seq<Match> -> bool, ms: seq<Match>, m: Match)
    requires NeverStopped(stop, ms)
    ensures (ms + [m])[..|ms|] == ms
    ensures !stop(ms + [m]) ==> NeverStopped(stop, ms + [m])
  {
    var ms' := ms + [m];
    forall k | 0 < k <= |ms'| && !stop(ms') ensures !stop(ms'[..k]) {
      if k == |ms'| {
        assert ms'[..k] == ms';
      } else {
        assert ms'[..k] == ms[..k];
      }
    }
  }

  /** `reported` is what the callback was given, up to and including the first match it stopped on. */
  ghost predicate UpToStop(all: seq<Match>, stop: seq<Match> -> bool, r: int, reported: seq<Match>) {
    && reported <= all
    && (r == 0 ==> reported == all && NeverStopped(stop, reported))
    && (r == 1 ==> reported != [] && stop(reported) && NeverStopped(stop, reported[..|reported| - 1]))
    && (r == 0 || r == 1)
  }

  class Trie {
    const root: Node
    var patternsCount: nat
    var trieOpen: bool
    var lastNode: Node
    var basePosition: nat
    var text: Option<Word>
    var position: nat
    var wm: WorkingMode

    /** Every node, by the word it spells. */
    ghost var paths: map<Word, Node>
    /** The accepted patterns, by text. */
    ghost var dict: Dict

    // ----- invariants -----

    ghost predicate NodeOk(w: Word)
      requires w in paths
      reads this`paths, paths.Values`depth, paths.Values`outgoing
    {
      var n := paths[w];
      n.path == w && n.depth == |w| && EdgesOk(paths, w, n.outgoing)
    }

    /** The heap graph is the tree of the words in `paths`. */
    ghost predicate Tree()
      reads this`paths, paths.Values`depth, paths.Values`outgoing
    {
      && PrefixClosed(paths.Keys)
      && paths[[]] == root
      && (forall w :: w in paths ==> paths[w].path == w)
      && (forall w {:trigger NodeOk(w)} :: w in paths ==> |w| <= MAX_PATTERN_LENGTH && NodeOk(w))
    }

    ghost predicate DictOk()
      reads this`paths, this`dict
    {
      WellKeyed(dict) && dict.Keys <= paths.Keys
    }

    ghost predicate CapacitiesOk()
      reads this`paths, paths.Values`outgoing, paths.Values`outgoingCapacity
      reads paths.Values`matched, paths.Values`matchedCapacity
    {
      forall w :: w in paths ==> paths[w].CapacityOk()
    }

    ghost predicate IsNode(n: Node)
      reads this`paths
    {
      n.path in paths && paths[n.path] == n
    }

    /** As patterns are added: a node matches its own word at most. */
    ghost predicate RawOk(w: Word)
      requires w in paths
      reads this`paths, this`dict, paths.Values`matched, paths.Values`final
    {
      var n := paths[w];
      n.matched == (if w in dict then [dict[w]] else []) && n.final == (n.matched != [])
    }

    /** After collection: a node matches every pattern its word ends with, longest first. */
    ghost predicate FullOk(w: Word)
      requires w in paths
      reads this`paths, this`dict, paths.Values`matched, paths.Values`final
    {
      var n := paths[w];
      n.matched == Suffixed(dict, w) && n.final == (n.matched != [])
    }

    ghost predicate FailOk(w: Word)
      requires w in paths && [] in paths
      reads this`paths, paths.Values`failure
    {
      if w == [] then paths[w].failure == null
      else paths[w].failure == paths[Fail(paths.Keys, w)]
    }

    ghost predicate Fresh()
      reads this`paths, this`dict, paths.Values`matched, paths.Values`final, paths.Values`failure
    {
      forall w {:trigger RawOk(w)} :: w in paths ==> paths[w].failure == null && RawOk(w)
    }

    ghost predicate Ready()
      requires [] in paths
      reads this`paths, this`dict, paths.Values`matched, paths.Values`final
      reads paths.Values`failure, paths.Values`outgoing
    {
      forall w {:trigger FullOk(w)} {:trigger FailOk(w)} :: w in paths ==>
        FailOk(w) && FullOk(w) && SortedByAlpha(paths[w].outgoing)
    }

    /** Everything but the search cursor. */
    ghost predicate Automaton()
      reads this`paths, this`dict, this`trieOpen, paths.Values
    {
      && Tree() && DictOk() && CapacitiesOk() && Backed(paths.Keys, dict, [])
      && (if trieOpen then Fresh() else Ready())
    }

    ghost predicate Valid()
      reads this, paths.Values
    {
      Automaton() && IsNode(lastNode) && (trieOpen ==> lastNode == root)
    }

    /** The objects of the trie. */
    ghost function Repr(): set<object>
      reads this`paths
    {
      {this} + paths.Values
    }

    // ----- building -----

    constructor ()
      ensures Valid() && trieOpen && dict == map[] && patternsCount == 0
      ensures fresh(paths.Values)
      ensures lastNode == root && basePosition == 0 && wm == SearchMode
    {
      var r := new Node([]);
      root := r;
      patternsCount := 0;
      lastNode, basePosition := r, 0;
      text, position := None, 0;
      wm, trieOpen := SearchMode, true;
      paths, dict := map[[] := r], map[];
    }

    /** One more step along the path of a pattern `w` that is being added. */
    method Descend(n: Node, alpha: Alpha, ghost w: Word) returns (next: Node)
      requires Tree() && DictOk() && CapacitiesOk() && Fresh() && Backed(paths.Keys, dict, w)
      requires IsNode(n) && n.path + [alpha] <= w && |w| <= MAX_PATTERN_LENGTH
      modifies this`paths, n`outgoing, n`outgoingCapacity
      ensures Tree() && DictOk() && CapacitiesOk() && Fresh() && Backed(paths.Keys, dict, w)
      ensures IsNode(next) && next.path == n.path + [alpha]
      ensures fresh(paths.Values - old(paths.Values)) && old(paths.Keys) <= paths.Keys
    {
      assert NodeOk(n.path);
      var found := n.FindNext(alpha);
      if found != null {
        next := found;
        assert Edge(alpha, next) in n.outgoing && NodeOk(n.path + [Edge(alpha, next).alpha]);
      } else {
        next := CreateChild(n, alpha);
      }
    }

    method Attach(n: Node, alpha: Alpha) returns (next: Node)
      requires n.CapacityOk() && !HasEdge(n.outgoing, alpha)
      modifies this`paths, n`outgoing, n`outgoingCapacity
      ensures n.CapacityOk() && n.outgoing == old(n.outgoing) + [Edge(alpha, next)]
      ensures fresh(next) && next.path == n.path + [alpha] && next.depth == n.depth + 1
      ensures !next.final && next.failure == null && next.outgoing == [] && next.matched == [] && next.CapacityOk()
      ensures paths == old(paths)[n.path + [alpha] := next]
    {
      var node := n.CreateNext(alpha);
      next := node;
      next.depth := n.depth + 1;
      paths := paths[next.path := next];
    }

    method CreateChild(n: Node, alpha: Alpha) returns (next: Node)
      requires Tree() && DictOk() && CapacitiesOk() && Fresh()
      requires IsNode(n) && |n.path| < MAX_PATTERN_LENGTH && !HasEdge(n.outgoing, alpha)
      modifies this`paths, n`outgoing, n`outgoingCapacity
      ensures Tree() && DictOk() && CapacitiesOk() && Fresh()
      ensures fresh(next) && paths == old(paths)[n.path + [alpha] := next]
      ensures next.path == n.path + [alpha]
    {
      ghost var word, es := n.path + [alpha], n.outgoing;
      assert NodeOk(n.path) && Parent(word) == n.path;
      next := Attach(n, alpha);
      forall v | v in paths ensures |v| <= MAX_PATTERN_LENGTH && NodeOk(v) {
        if v == word {
          forall a ensures word + [a] !in paths {
            assert Parent(word + [a]) == word;
          }
        } else if v == n.path {
          EdgesGrown(old(paths), v, es, alpha, next);
        } else {
          assert old(NodeOk(v));
          EdgesKept(old(paths), v, paths[v].outgoing, word, next);
        }
      }
      forall v | v in paths ensures paths[v].failure == null && RawOk(v) {
        if v != word {
          assert old(RawOk(v));
        }
      }
    }

    method Add(patt: Pattern) returns (status: Status)
      requires Valid()
      modifies this`paths, this`dict, this`patternsCount, paths.Values
      ensures Valid()
      ensures status == AddStatus(trieOpen, old(dict), patt.ptext) && trieOpen == old(trieOpen)
      ensures status == TrieClosed <==> !trieOpen
      ensures status == ZeroPattern <==> trieOpen && patt.ptext == []
      ensures status == LongPattern <==> trieOpen && |patt.ptext| > 1024
      ensures status == DuplicatePattern <==> trieOpen && 0 < |patt.ptext| <= 1024 && patt.ptext in old(dict)
      ensures status == Success ==> dict == old(dict)[patt.ptext := patt] && patternsCount == old(patternsCount) + 1
      ensures status != Success ==> dict == old(dict) && patternsCount == old(patternsCount)
      ensures fresh(paths.Values - old(paths.Values))
    {
      hide Automaton, Tree, CapacitiesOk, Backed, Fresh;
      if !trieOpen {
        return TrieClosed;
      }
      if |patt.ptext| == 0 {
        return ZeroPattern;
      }
      if |patt.ptext| > MAX_PATTERN_LENGTH {
        return LongPattern;
      }
      BeforeAdd(patt.ptext);
      var n := Walk(patt.ptext);
      FinalIfKnown(n);
      if n.final {
        KnownBacked(paths.Keys, dict, patt.ptext);
        AfterAdd();
        return DuplicatePattern;
      }
      MarkFinal(n, patt);
      patternsCount := patternsCount + 1;
      AfterAdd();
      return Success;
    }

    lemma BeforeAdd(w: Word)
      requires Automaton() && trieOpen
      ensures Tree() && DictOk() && CapacitiesOk() && Fresh() && Backed(paths.Keys, dict, w)
    {
      BackedMore(paths.Keys, dict, w);
    }

    lemma FinalIfKnown(n: Node)
      requires Fresh() && IsNode(n)
      ensures n.final <==> n.path in dict
    {
      assert RawOk(n.path);
    }

    lemma AfterAdd()
      requires Tree() && DictOk() && CapacitiesOk() && Fresh() && Backed(paths.Keys, dict, []) && trieOpen
      ensures Automaton() && IsNode(root)
    {
    }

    /** The node of `w`, after creating what is missing of its path. */
    method Walk(w: Word) returns (n: Node)
      requires Tree() && DictOk() && CapacitiesOk() && Fresh() && Backed(paths.Keys, dict, w)
      requires |w| <= MAX_PATTERN_LENGTH
      modifies this`paths, paths.Values`outgoing, paths.Values`outgoingCapacity
      ensures Tree() && DictOk() && CapacitiesOk() && Fresh() && Backed(paths.Keys, dict, w)
      ensures IsNode(n) && n.path == w
      ensures fresh(paths.Values - old(paths.Values))
    {
      n := root;
      for i := 0 to |w|
        invariant Tree() && DictOk() && CapacitiesOk() && Fresh() && Backed(paths.Keys, dict, w)
        invariant IsNode(n) && n.path == w[..i]
        invariant fresh(paths.Values - old(paths.Values))
      {
        assert w[..i + 1] == w[..i] + [w[i]];
        n := Descend(n, w[i], w);
      }
      assert w[..|w|] == w;
    }

    lemma OnlyAt(n: Node)
      requires Tree()
      ensures forall v :: v in paths && paths[v] == n ==> v == n.path
    {
    }

    method MarkFinal(n: Node, patt: Pattern)
      requires Tree() && DictOk() && CapacitiesOk() && Fresh() && Backed(paths.Keys, dict, patt.ptext)
      requires IsNode(n) && n.path == patt.ptext != [] && patt.ptext !in dict
      modifies this`dict, n`final, n`matched, n`matchedCapacity
      ensures Tree() && DictOk() && CapacitiesOk() && Fresh() && Backed(paths.Keys, dict, [])
      ensures dict == old(dict)[patt.ptext := patt]
    {
      hide Backed, Tree, WellKeyed;
      assert RawOk(n.path);
      KeyedWith(dict, patt);
      OnlyAt(n);
      n.final := true;
      n.AcceptPattern(patt);
      dict := dict[patt.ptext := patt];
      forall v | v in paths ensures paths[v].failure == null && RawOk(v) {
        assert old(RawOk(v));
      }
      BackedWith(paths.Keys, old(dict), patt);
    }

    // ----- finalizing -----

    /** Not set yet, or right. */
    ghost predicate FailPending(w: Word)
      requires w in paths && [] in paths
      reads this`paths, paths.Values`failure
    {
      paths[w].failure == null || FailOk(w)
    }

    ghost predicate AllFailPending()
      requires [] in paths
      reads this`paths, paths.Values`failure
    {
      forall w {:trigger FailPending(w)} :: w in paths ==> FailPending(w)
    }

    ghost predicate FailOkBelow(u: Word)
      requires [] in paths
      reads this`paths, paths.Values`failure
    {
      forall w {:trigger FailOk(w)} :: w in paths && u <= w ==> FailOk(w)
    }

    /** The node that spells `w`, by linear lookups from the root; null if there is none. */
    method Lookup(prefix: array<Alpha>, from: nat, to: nat) returns (n: Node?)
      requires Tree() && from <= to <= prefix.Length
      ensures n == null <==> prefix[from..to] !in paths
      ensures n != null ==> n == paths[prefix[from..to]]
    {
      n := root;
      var j := from;
      assert prefix[from..from] == [];
      while j < to && n != null
        invariant from <= j <= to
        invariant n == null ==> prefix[from..to] !in paths
        invariant n != null ==> prefix[from..j] in paths && n == paths[prefix[from..j]]
      {
        assert NodeOk(prefix[from..j]);
        assert prefix[from..j + 1] == prefix[from..j] + [prefix[j]];
        if prefix[from..to] in paths {
          PrefixesIn(paths.Keys, prefix[from..to], j + 1 - from);
          assert prefix[from..to][..j + 1 - from] == prefix[from..j + 1];
        }
        n := n.FindNext(prefix[j]);
        j := j + 1;
      }
    }

    /** The failure node by brute force: the first proper suffix, longest first, that is in the trie. */
    method SetFailure(node: Node, prefix: array<Alpha>)
      requires Tree() && AllFailPending() && IsNode(node)
      requires |node.path| <= prefix.Length == MAX_PATTERN_LENGTH && prefix[..|node.path|] == node.path
      modifies node`failure
      ensures FailOk(node.path) && AllFailPending()
      ensures forall w :: w in paths && paths[w] != node ==> paths[w].failure == old(paths[w].failure)
    {
      ghost var w := node.path;
      assert NodeOk(w) && FailPending(w);
      if node == root {
        return;
      }
      for i := 1 to node.depth
        invariant node.failure == old(node.failure)
        invariant forall k :: 1 <= k < i ==> w[k..] !in paths
      {
        var n := Lookup(prefix, i, node.depth);
        assert prefix[i..node.depth] == w[i..];
        if n != null {
          FailAt(w, i);
          node.failure := n;
          break;
        }
      }
      if node.failure == null {
        assert w[|w|..] == [];
        FailAt(w, |w|);
        node.failure := root;
      }
      forall v | v in paths ensures FailPending(v) {
        assert old(FailPending(v));
      }
    }

    lemma FailAt(w: Word, i: nat)
      requires [] in paths && 1 <= i <= |w| && w[i..] in paths
      requires forall k :: 1 <= k < i ==> w[k..] !in paths
      ensures Fail(paths.Keys, w) == w[i..]
    {
      forall k | 0 <= k < i - 1 ensures w[1..][k..] !in paths.Keys {
        assert w[1..][k..] == w[k + 1..];
      }
      assert w[1..][i - 1..] == w[i..];
      LongestAt(paths.Keys, w[1..], i - 1);
    }

    /** The edge that leads from `w` towards a longer word `v`. */
    lemma ChildTowards(w: Word, v: Word) returns (j: nat)
      requires Tree() && w in paths && v in paths && w <= v && w != v
      ensures j < |paths[w].outgoing| && w + [paths[w].outgoing[j].alpha] <= v
    {
      assert NodeOk(w);
      PrefixesIn(paths.Keys, v, |w| + 1);
      assert v[..|w| + 1] == w + [v[|w|]];
      assert HasEdge(paths[w].outgoing, v[|w|]);
      j :| 0 <= j < |paths[w].outgoing| && paths[w].outgoing[j].alpha == v[|w|];
    }

    /** Depth-first: sets the failure node of every node below `node`, spelling its path in `prefix`. */
    method TraverseSetFailure(node: Node, prefix: array<Alpha>)
      requires Tree() && AllFailPending() && IsNode(node)
      requires |node.path| <= prefix.Length == MAX_PATTERN_LENGTH && prefix[..|node.path|] == node.path
      modifies prefix, paths.Values`failure
      ensures AllFailPending()
      ensures prefix[..|node.path|] == node.path
      ensures FailOkBelow(node.path)
      ensures forall w {:trigger FailOk(w)} :: w in paths && old(FailOk(w)) ==> FailOk(w)
      decreases MAX_PATTERN_LENGTH - |node.path|, 1
    {
      hide Fail, NodeOk, AllFailPending, FailPending;
      ghost var w := node.path;
      SetFailure(node, prefix);
      for i := 0 to |node.outgoing|
        invariant AllFailPending() && FailOk(w)
        invariant prefix[..|w|] == w
        invariant forall v {:trigger FailOk(v)} :: v in paths && old(FailOk(v)) ==> FailOk(v)
        invariant forall j :: 0 <= j < i ==> FailOkBelow(w + [node.outgoing[j].alpha])
      {
        SetFailureBelow(node, i, prefix);
      }
      forall v | v in paths && w <= v ensures FailOk(v) {
        if v != w {
          var j := ChildTowards(w, v);
          assert FailOkBelow(w + [node.outgoing[j].alpha]);
        }
      }
    }

    method SetFailureBelow(node: Node, i: nat, prefix: array<Alpha>)
      requires Tree() && AllFailPending() && IsNode(node) && i < |node.outgoing|
      requires |node.path| <= prefix.Length == MAX_PATTERN_LENGTH && prefix[..|node.path|] == node.path
      modifies prefix, paths.Values`failure
      ensures AllFailPending()
      ensures prefix[..|node.path|] == node.path
      ensures FailOkBelow(node.path + [node.outgoing[i].alpha])
      ensures forall v {:trigger FailOk(v)} :: v in paths && old(FailOk(v)) ==> FailOk(v)
      ensures forall u :: old(FailOkBelow(u)) ==> FailOkBelow(u)
      decreases MAX_PATTERN_LENGTH - |node.path|, 0
    {
      ghost var w := node.path;
      var edge := node.outgoing[i];
      assert NodeOk(w);
      assert edge in node.outgoing && NodeOk(w + [edge.alpha]);
      prefix[node.depth] := edge.alpha;
      assert prefix[..|w| + 1] == w + [edge.alpha];
      TraverseSetFailure(edge.next, prefix);
      assert prefix[..|w|] == prefix[..|w| + 1][..|w|];
    }

    ghost predicate AllFailOk()
      requires [] in paths
      reads this`paths, paths.Values`failure
    {
      forall w {:trigger FailOk(w)} :: w in paths ==> FailOk(w)
    }

    ghost predicate Collectable(w: Word)
      requires w in paths
      reads this`paths, this`dict, paths.Values`matched, paths.Values`final
    {
      RawOrFull(dict, w, paths[w].matched) && paths[w].final == (paths[w].matched != [])
    }

    ghost predicate AllCollectable()
      reads this`paths, this`dict, paths.Values`matched, paths.Values`final
    {
      forall w {:trigger Collectable(w)} :: w in paths ==> Collectable(w)
    }

    ghost predicate Done(w: Word)
      requires w in paths
      reads this`paths, this`dict, paths.Values`matched, paths.Values`final, paths.Values`outgoing
    {
      FullOk(w) && SortedByAlpha(paths[w].outgoing)
    }

    /** Merges the matches of every node on the failure chain, collected already or not. */
    method MergeFailures(nod: Node)
      requires Tree() && DictOk() && CapacitiesOk() && AllFailOk() && AllCollectable() && IsNode(nod)
      modifies nod`matched, nod`matchedCapacity, nod`final
      ensures CapacitiesOk() && FullOk(nod.path)
    {
      hide Collecting, EdgesOk, Suffixed, Fail, RawOrFull;
      ghost var s, w := paths.Keys, nod.path;
      assert FailOk(w) && Collectable(w) && IsSuffix(w, w);
      CollectStart(dict, s, w, nod.matched);
      var n := nod.failure;
      ghost var u, k: nat := NextFail(s, w), |w|;
      if w != [] {
        FailIsNext(s, w, w);
      }
      while n != null
        invariant nod.CapacityOk() && nod.final == (nod.matched != [])
        invariant n == null <==> u.None?
        invariant n != null ==> IsNode(n) && u == Some(n.path) && IsSuffix(n.path, w) && |n.path| < |w|
        invariant Collecting(dict, s, w, nod.matched, u, k)
        decreases if n == null then 0 else 1 + |n.path|
      {
        assert old(Collectable(n.path)) && FailOk(n.path);
        MergeNode(nod, n, k);
        k := |n.path|;
        u := NextFail(s, n.path);
        if n.path != [] {
          FailIsNext(s, w, n.path);
        }
        n := n.failure;
      }
      CollectEnd(dict, s, w, nod.matched, k);
    }

    /** The body of the loop over the failure chain. */
    method MergeNode(nod: Node, n: Node, ghost k: nat)
      requires [] in paths && DictOk()
      requires nod.CapacityOk() && nod.final == (nod.matched != [])
      requires nod != n && IsSuffix(n.path, nod.path)
      requires Collecting(dict, paths.Keys, nod.path, nod.matched, Some(n.path), k)
      requires RawOrFull(dict, n.path, n.matched) && n.final == (n.matched != [])
      modifies nod`matched, nod`matchedCapacity, nod`final
      ensures nod.CapacityOk() && nod.final == (nod.matched != [])
      ensures Collecting(dict, paths.Keys, nod.path, nod.matched, NextFail(paths.Keys, n.path), |n.path|)
    {
      CollectStep(dict, paths.Keys, nod.path, nod.matched, n.path, k, n.matched);
      AcceptedAllEmpty(nod.matched, n.matched);
      nod.AcceptAll(n.matched);
      if n.final {
        nod.final := true;
      }
    }

    method SortEdgesOf(nod: Node)
      requires Tree() && CapacitiesOk() && IsNode(nod)
      modifies nod`outgoing
      ensures Tree() && CapacitiesOk() && SortedByAlpha(nod.outgoing)
    {
      assert NodeOk(nod.path);
      nod.SortOutgoing();
      EdgesSorted(paths, nod.path, old(nod.outgoing), nod.outgoing);
      forall w | w in paths ensures |w| <= MAX_PATTERN_LENGTH && NodeOk(w) {
        assert old(NodeOk(w));
      }
    }

    /** node_collect_matches: merge along the failure chain, then sort the edges. */
    method CollectMatches(nod: Node)
      requires Tree() && DictOk() && CapacitiesOk() && AllFailOk() && AllCollectable() && IsNode(nod)
      modifies nod`matched, nod`matchedCapacity, nod`final, nod`outgoing
      ensures Tree() && CapacitiesOk() && AllCollectable()
      ensures Done(nod.path)
      ensures forall w {:trigger Done(w)} :: w in paths && old(Done(w)) ==> Done(w)
    {
      MergeFailures(nod);
      SortEdgesOf(nod);
      forall w | w in paths ensures Collectable(w) {
        assert old(Collectable(w));
      }
    }

    ghost predicate DoneBelow(u: Word)
      reads this`paths, this`dict, paths.Values`matched, paths.Values`final, paths.Values`outgoing
    {
      forall w {:trigger Done(w)} :: w in paths && u <= w ==> Done(w)
    }

    /** Depth-first, parents first: collects the matches of every node below `node`. */
    method TraverseCollect(node: Node)
      requires Tree() && DictOk() && CapacitiesOk() && AllFailOk() && AllCollectable() && IsNode(node)
      modifies paths.Values`matched, paths.Values`matchedCapacity, paths.Values`final, paths.Values`outgoing
      ensures Tree() && CapacitiesOk() && AllCollectable()
      ensures DoneBelow(node.path)
      ensures forall w {:trigger Done(w)} :: w in paths && old(Done(w)) ==> Done(w)
      ensures forall w :: w in paths && !(node.path <= w) ==> paths[w].outgoing == old(paths[w].outgoing)
      decreases MAX_PATTERN_LENGTH - |node.path|, 1
    {
      hide Fail, Tree, CapacitiesOk, AllCollectable, AllFailOk, DictOk, Done;
      ghost var w := node.path;
      CollectMatches(node);
      ghost var es := node.outgoing;
      for i := 0 to |node.outgoing|
        invariant Tree() && CapacitiesOk() && AllCollectable()
        invariant Done(w) && node.outgoing == es
        invariant forall v {:trigger Done(v)} :: v in paths && old(Done(v)) ==> Done(v)
        invariant forall v :: v in paths && !(w <= v) ==> paths[v].outgoing == old(paths[v].outgoing)
        invariant forall j :: 0 <= j < i ==> DoneBelow(w + [es[j].alpha])
      {
        CollectBelow(node, i);
      }
      AllDoneBelow(node);
    }

    lemma AllDoneBelow(node: Node)
      requires Tree() && IsNode(node) && Done(node.path)
      requires forall j :: 0 <= j < |node.outgoing| ==> DoneBelow(node.path + [node.outgoing[j].alpha])
      ensures DoneBelow(node.path)
    {
      hide Tree, Done;
      forall v | v in paths && node.path <= v ensures Done(v) {
        if v != node.path {
          var j := ChildTowards(node.path, v);
          assert DoneBelow(node.path + [node.outgoing[j].alpha]);
        }
      }
    }

    method CollectBelow(node: Node, i: nat)
      requires Tree() && DictOk() && CapacitiesOk() && AllFailOk() && AllCollectable() && IsNode(node)
      requires i < |node.outgoing|
      modifies paths.Values`matched, paths.Values`matchedCapacity, paths.Values`final, paths.Values`outgoing
      ensures Tree() && CapacitiesOk() && AllCollectable()
      ensures node.outgoing == old(node.outgoing) && DoneBelow(node.path + [node.outgoing[i].alpha])
      ensures forall w {:trigger Done(w)} :: w in paths && old(Done(w)) ==> Done(w)
      ensures forall u :: old(DoneBelow(u)) ==> DoneBelow(u)
      ensures forall w :: w in paths && !(node.path <= w) ==> paths[w].outgoing == old(paths[w].outgoing)
      decreases MAX_PATTERN_LENGTH - |node.path|, 0
    {
      var edge := node.outgoing[i];
      assert NodeOk(node.path);
      assert edge in node.outgoing && NodeOk(node.path + [edge.alpha]);
      TraverseCollect(edge.next);
    }

    /** ac_trie_finalize: failure links, then match collection; no patterns are accepted any more. */
    method Finalize()
      requires Valid()
      modifies this`trieOpen, paths.Values
      ensures Valid() && !trieOpen
    {
      hide Valid, Automaton, Tree, AllFailOk, AllFailPending, AllCollectable, CapacitiesOk, Backed, Ready;
      StartFinalize();
      var prefix := new Alpha[MAX_PATTERN_LENGTH];
      assert prefix[..0] == [];
      TraverseSetFailure(root, prefix);
      FailOkFromRoot();
      TraverseCollect(root);
      DoneFromRoot();
      trieOpen := false;
      ReadyIsValid();
    }

    lemma ReadyIsValid()
      requires Tree() && DictOk() && CapacitiesOk() && Backed(paths.Keys, dict, [])
      requires IsNode(lastNode) && !trieOpen && Ready()
      ensures Valid()
    {
    }

    lemma FailOkFromRoot()
      requires [] in paths && FailOkBelow([])
      ensures AllFailOk()
    {
      forall w | w in paths ensures FailOk(w) {
        assert [] <= w;
      }
    }

    lemma DoneFromRoot()
      requires [] in paths && AllFailOk() && DoneBelow([])
      ensures Ready()
    {
      forall w | w in paths ensures FailOk(w) && FullOk(w) && SortedByAlpha(paths[w].outgoing) {
        assert [] <= w && Done(w);
      }
    }

    /** Open or closed, a valid trie is ready for the two passes. */
    lemma StartFinalize()
      requires Valid()
      ensures AllFailPending() && AllCollectable()
      ensures Tree() && DictOk() && CapacitiesOk() && Backed(paths.Keys, dict, [])
      ensures IsNode(root) && root.path == [] && IsNode(lastNode)
    {
      forall w | w in paths ensures FailPending(w) && Collectable(w) {
        assert !trieOpen ==> FailOk(w) && FullOk(w);
        assert trieOpen ==> RawOk(w);
      }
    }

    // ----- searching -----

    ghost function At(): Cursor
      reads this`lastNode, this`basePosition, this`position
    {
      Cursor(lastNode.path, basePosition, position)
    }

    method Reset()
      modifies this`lastNode, this`basePosition
      ensures lastNode == root && basePosition == 0
    {
      lastNode := root;
      basePosition := 0;
    }

    /** The edge lookup of the search, in terms of words. */
    method Advance(current: Node, alpha: Alpha) returns (next: Node?)
      requires Tree() && IsNode(current) && SortedByAlpha(current.outgoing)
      ensures next == null <==> current.path + [alpha] !in paths
      ensures next != null ==> IsNode(next) && next.path == current.path + [alpha]
    {
      assert NodeOk(current.path);
      next := current.FindNextBs(alpha);
      if next != null {
        assert Edge(alpha, next) in current.outgoing && NodeOk(current.path + [Edge(alpha, next).alpha]);
      }
    }

    /**
     * The main loop of a search that starts in node `from` at letter `start`, after `base` letters of
     * earlier texts. It makes at most two edge lookups for each letter, plus the depth it starts at.
     */
    method Scan(txt: Word, start: nat, base: nat, from: Node, stop: seq<Match> -> bool)
      returns (r: int, p: nat, current: Node, reported: seq<Match>, ghost lookups: nat)
      requires Automaton() && !trieOpen && IsNode(from) && start <= |txt|
      ensures IsNode(current) && start <= p <= |txt|
      ensures var c := Cursor(from.path, base, start);
        && UpToStop(Ahead(dict, c, txt), stop, r, reported)
        && reported == ReportedAt(dict, c, txt, p)
        && current.path == Longest(paths.Keys, Read(c, txt, p))
        && lookups <= 2 * (p - start) + |c.state|
        && (r == 0 ==> p == |txt|)
        && (r == 1 ==> start < p)
    {
      hide Longest, Fail, Suffixed, Hits, PrefixClosed, NodeOk, CapacitiesOk, Backed, EdgesOk, WellKeyed, OnTrack, Read,
        ReportedAt;
      ghost var s, c := paths.Keys, Cursor(from.path, base, start);
      Basics();
      p, current, reported, lookups := start, from, [], 0;
      Depart(dict, s, c, txt);
      while p < |txt|
        invariant start <= p <= |txt| && IsNode(current)
        invariant OnTrack(s, c, txt, current.path, p)
        invariant reported == ReportedAt(dict, c, txt, p)
        invariant NeverStopped(stop, reported)
        invariant lookups + |current.path| <= 2 * (p - start) + |c.state|
        decreases |txt| - p, |current.path|
      {
        assert FailOk(current.path) && FullOk(current.path);
        var next := Advance(current, txt[p]);
        lookups := lookups + 1;
        if next == null {
          if current.failure != null {
            FallBack(s, c, txt, current.path, p);
            current := current.failure;
          } else {
            assert [] + [txt[p]] == [txt[p]];
            ArriveAtRoot(dict, s, c, txt, p);
            p := p + 1;
          }
        } else {
          ReportNext(dict, s, c, txt, p);
          ArriveByEdge(s, c, txt, current.path, p);
          current := next;
          p := p + 1;
          assert FullOk(current.path);
        }
        if current.final && next != null {
          NeverStoppedMore(stop, reported, Match(current.matched, p + base));
          reported := reported + [Match(current.matched, p + base)];
          if stop(reported) {
            ReportedPrefix(dict, c, txt, p);
            return 1, p, current, reported, lookups;
          }
        }
      }
      ReportedIsAhead(dict, s, c, txt);
      TrackEnd(s, c, txt, current.path);
      return 0, p, current, reported, lookups;
    }

    lemma Basics()
      requires Automaton()
      ensures PrefixClosed(paths.Keys) && [] in paths && dict.Keys <= paths.Keys
      ensures IsNode(root) && root.path == []
    {
    }

    /**
     * Scans `txt`. The callback is any function of the matches it was given so far; true stops the
     * search. `keep` is false for a fresh text, but the state the scan starts from is read before
     * the reset.
     */
    method Search(txt: Word, keep: bool, stop: seq<Match> -> bool)
      returns (r: int, reported: seq<Match>, ghost lookups: nat)
      requires Valid()
      modifies this`lastNode, this`basePosition, this`position
      ensures Valid()
      ensures trieOpen ==> r == -1 && reported == [] && At() == old(At())
      ensures !trieOpen ==>
        var c := Start(old(At()), wm, keep);
        && UpToStop(Ahead(dict, c, txt), stop, r, reported)
        && lookups <= 2 * |Rest(txt, c.position)| + |c.state|
        && (r == 0 ==> At() == AtEnd(paths.Keys, c, txt).(position := old(position)))
        && (r == 1 && wm == FindNextMode ==> StoppedAt(dict, paths.Keys, c, txt, reported, At()))
        && (r == 1 && wm != FindNextMode ==>
              At() == if keep then old(At()) else Cursor([], 0, old(position)))
    {
      hide Automaton, Hits, Longest, PrefixClosed;
      if trieOpen {
        return -1, [], 0;
      }
      Basics();
      var start := if wm == FindNextMode then position else 0;
      var current := lastNode;
      ghost var c := Start(At(), wm, keep);
      if !keep {
        Reset();
      }
      ReportedIsAhead(dict, paths.Keys, c, txt);
      var p;
      if start <= |txt| {
        r, p, current, reported, lookups := Scan(txt, start, basePosition, current, stop);
        if r == 1 {
          if wm == FindNextMode {
            position := p;
            lastNode := current;
          }
          return;
        }
      } else {
        LongestOfState(paths.Keys, c.state);
        r, p, reported, lookups := 0, start, [], 0;
      }
      lastNode := current;
      basePosition := basePosition + p;
    }

    /** ac_trie_settext. */
    method SetText(txt: Word, keep: bool)
      requires Valid()
      modifies this`lastNode, this`basePosition, this`position, this`text
      ensures Valid() && text == Some(txt)
      ensures At() == if keep then old(At()).(position := 0) else Cursor([], 0, 0)
    {
      if !keep {
        Reset();
      }
      text := Some(txt);
      position := 0;
    }

    /** What is still to be found in the text that was set. */
    ghost function Pending(): seq<Match>
      requires text.Some?
      reads this`dict, this`text, this`lastNode, this`basePosition, this`position
    {
      Ahead(dict, At(), text.value)
    }

    /** ac_trie_findnext: the next match, or a match without patterns if there is none. */
    method FindNext() returns (m: Match)
      requires Valid() && text.Some?
      modifies this`lastNode, this`basePosition, this`position, this`wm
      ensures Valid()
      ensures trieOpen ==> m == Match([], 0) && At() == old(At())
      ensures !trieOpen && old(Pending()) == [] ==>
                m == Match([], 0) && At() == AtEnd(paths.Keys, old(At()), text.value)
      ensures !trieOpen && old(Pending()) != [] ==>
                m == old(Pending())[0] && m.patterns != [] && Pending() == old(Pending())[1..]
                && SameEnd(paths.Keys, old(At()), At(), text.value)
    {
      hide Automaton, Hits, Longest;
      ghost var c, s := At(), paths.Keys;
      Basics();
      wm := FindNextMode;
      var r, reported;
      ghost var lookups;
      r, reported, lookups := Search(text.value, true, _ => true);
      if !trieOpen {
        FirstOnly(Ahead(dict, c, text.value), r, reported);
      }
      if r == 1 {
        m := reported[|reported| - 1];
        AheadSplit(dict, s, c, text.value, At());
        AheadNonEmpty(dict, c, text.value);
      } else {
        m := Match([], 0);
      }
      wm := SearchMode;
    }
  }
}
