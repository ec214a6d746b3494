/**
 * What multi-pattern matching means, with no automaton in it, and the string theory that ties the
 * automaton's states (words of a prefix-closed set) to that meaning.
 */
module AcSpec {
  import opened AcTypes

  /** The accepted patterns, by their text. */
  type Dict = map<Word, Pattern>

  predicate IsSuffix(u: Word, w: Word) {
    |u| <= |w| && w[|w| - |u|..] == u
  }

  ghost predicate WellKeyed(d: Dict) {
    forall w :: w in d ==> w != [] && d[w].ptext == w
  }

  /** The naive answer: every accepted pattern that `w` ends with, longest first. */
  function Suffixed(d: Dict, w: Word): seq<Pattern> {
    if w == [] then []
    else (if w in d then [d[w]] else []) + Suffixed(d, w[1..])
  }

  /** The report for one end position: none if no pattern ends there. */
  function HitAt(d: Dict, w: Word, position: nat): seq<Match> {
    if Suffixed(d, w) == [] then [] else [Match(Suffixed(d, w), position)]
  }

  /**
   * The naive scan: one match for every end position `e` with `lo < e <= hi` of `h` at which some
   * pattern ends, reported at `e + off`.
   */
  function Hits(d: Dict, h: Word, lo: nat, hi: nat, off: int): (ms: seq<Match>)
    requires hi <= |h|
    requires 0 <= lo + off
  {
    if hi <= lo then [] else Hits(d, h, lo, hi - 1, off) + HitAt(d, h[..hi], hi + off)
  }

  lemma SuffixOfTail(v: Word, w: Word)
    requires w != []
    ensures IsSuffix(v, w) <==> v == w || IsSuffix(v, w[1..])
  {
    if |v| < |w| {
      assert w[1..][|w[1..]| - |v|..] == w[|w| - |v|..];
    }
  }

  /** `Suffixed` holds exactly the accepted patterns `w` ends with. */
  lemma {:induction false} SuffixedExact(d: Dict, w: Word, p: Pattern)
    requires WellKeyed(d)
    ensures p in Suffixed(d, w) <==> p.ptext in d && d[p.ptext] == p && IsSuffix(p.ptext, w)
  {
    if w != [] {
      var v, rest := p.ptext, Suffixed(d, w[1..]);
      SuffixedExact(d, w[1..], p);
      SuffixOfTail(v, w);
      if w in d {
        assert Suffixed(d, w) == [d[w]] + rest;
      }
    }
  }

  /** ... each once, in strictly decreasing length. */
  lemma {:induction false} SuffixedDecreasing(d: Dict, w: Word, i: nat, j: nat)
    requires WellKeyed(d)
    requires i < j < |Suffixed(d, w)|
    ensures |Suffixed(d, w)[i].ptext| > |Suffixed(d, w)[j].ptext|
  {
    var rest := Suffixed(d, w[1..]);
    if w in d {
      if i == 0 {
        SuffixedExact(d, w[1..], rest[j - 1]);
      } else {
        SuffixedDecreasing(d, w[1..], i - 1, j - 1);
      }
    } else {
      SuffixedDecreasing(d, w[1..], i, j);
    }
  }

  /** The part of the answer that is at least `k` long. */
  function SuffixedDown(d: Dict, w: Word, k: nat): seq<Pattern> {
    if w == [] || |w| < k then []
    else (if w in d then [d[w]] else []) + SuffixedDown(d, w[1..], k)
  }

  lemma JoinAssoc(a: seq<Pattern>, b: seq<Pattern>, c: seq<Pattern>)
    ensures a + (b + c) == (a + b) + c
  {
  }

  lemma SuffixShorter(d: Dict, w: Word, u: Word, k: nat)
    requires IsSuffix(u, w) && u != w
    requires forall v :: v in d && IsSuffix(v, w) && |v| < k ==> |v| <= |u|
    ensures IsSuffix(u, w[1..])
    ensures forall v :: v in d && IsSuffix(v, w[1..]) && |v| < k ==> |v| <= |u|
  {
    SuffixOfSame(u, w[1..], w);
    forall v | v in d && IsSuffix(v, w[1..]) && |v| < k ensures |v| <= |u| {
      SuffixTransitive(v, w[1..], w);
    }
  }

  /**
   * Collecting along failure links: if no pattern among the suffixes of `w` is shorter than `k` and
   * longer than `u`, the answer for `w` down to `k` and the answer for `u` make the answer for `w`.
   */
  lemma {:induction false} SuffixedJoin(d: Dict, w: Word, u: Word, k: nat)
    requires IsSuffix(u, w) && |u| < k
    requires forall v :: v in d && IsSuffix(v, w) && |v| < k ==> |v| <= |u|
    ensures Suffixed(d, w) == SuffixedDown(d, w, k) + Suffixed(d, u)
    decreases |w|
  {
    if w == u {
      assert SuffixedDown(d, w, k) == [];
    } else {
      SuffixShorter(d, w, u, k);
      SuffixedJoin(d, w[1..], u, k);
      assert IsSuffix(w, w);
      if |w| < k {
        assert SuffixedDown(d, w[1..], k) == [];
      } else {
        JoinAssoc(if w in d then [d[w]] else [], SuffixedDown(d, w[1..], k), Suffixed(d, u));
      }
    }
  }

  /** One own pattern more. */
  lemma {:induction false} SuffixedDownTo(d: Dict, w: Word, u: Word, k: nat)
    requires IsSuffix(u, w) && u != [] && |u| < k
    requires forall v :: v in d && IsSuffix(v, w) && |v| < k ==> |v| <= |u|
    ensures SuffixedDown(d, w, |u|) == SuffixedDown(d, w, k) + (if u in d then [d[u]] else [])
    decreases |w|
  {
    if w == u {
      assert SuffixedDown(d, w[1..], |u|) == [];
    } else {
      SuffixShorter(d, w, u, k);
      SuffixedDownTo(d, w[1..], u, k);
    }
  }

  lemma {:induction false} SuffixedDownLong(d: Dict, w: Word, k: nat, p: Pattern)
    requires WellKeyed(d) && p in SuffixedDown(d, w, k)
    ensures |p.ptext| >= k
  {
    if !(w in d && p == d[w]) {
      SuffixedDownLong(d, w[1..], k, p);
    }
  }

  // ----- states of the automaton: words of a prefix-closed set -----

  /** The word without its last letter. */
  function Parent(w: Word): Word
    requires w != []
  {
    w[..|w| - 1]
  }

  ghost predicate PrefixClosed(s: set<Word>) {
    [] in s && forall w {:trigger Parent(w)} :: w in s && w != [] ==> Parent(w) in s
  }

  /** The longest suffix of `w` that is a state. */
  function Longest(s: set<Word>, w: Word): (u: Word)
    requires [] in s
    ensures u in s && |u| <= |w|
    decreases |w|
  {
    if w in s then w else Longest(s, w[1..])
  }

  /** It is a suffix, and no state that is a suffix is longer. */
  lemma {:induction false} LongestIsSuffix(s: set<Word>, w: Word)
    requires [] in s
    ensures IsSuffix(Longest(s, w), w)
    decreases |w|
  {
    if w !in s {
      LongestIsSuffix(s, w[1..]);
      SuffixTransitive(Longest(s, w), w[1..], w);
    }
  }

  lemma {:induction false} LongestIsMax(s: set<Word>, w: Word, v: Word)
    requires [] in s
    requires v in s && IsSuffix(v, w)
    ensures |v| <= |Longest(s, w)|
    decreases |w|
  {
    if w !in s {
      SuffixOfSame(v, w[1..], w);
      LongestIsMax(s, w[1..], v);
    }
  }

  /** The failure transition: the longest proper suffix that is a state. */
  function Fail(s: set<Word>, w: Word): (u: Word)
    requires [] in s && w != []
    ensures u in s && |u| < |w|
  {
    Longest(s, w[1..])
  }

  lemma SuffixOfSame(u: Word, v: Word, w: Word)
    requires IsSuffix(u, w) && IsSuffix(v, w) && |u| <= |v|
    ensures IsSuffix(u, v)
  {
    assert v[|v| - |u|..] == w[|w| - |u|..];
  }

  lemma SuffixTransitive(u: Word, v: Word, w: Word)
    requires IsSuffix(u, v) && IsSuffix(v, w)
    ensures IsSuffix(u, w)
  {
    assert w[|w| - |u|..] == v[|v| - |u|..];
  }

  lemma SuffixAppend(u: Word, w: Word, x: Word)
    requires IsSuffix(u, w)
    ensures IsSuffix(u + x, w + x)
  {
    assert (w + x)[|w + x| - |u + x|..] == w[|w| - |u|..] + x;
  }

  /** The longest suffix is the one and only. */
  lemma LongestUnique(s: set<Word>, w: Word, u: Word)
    requires [] in s
    requires u in s && IsSuffix(u, w)
    requires forall v :: v in s && IsSuffix(v, w) ==> |v| <= |u|
    ensures Longest(s, w) == u
  {
    LongestIsSuffix(s, w);
    LongestIsMax(s, w, u);
  }

  /** A state that is a suffix of `w + [c]` is empty or extends a state that is a suffix of `w`. */
  lemma StateSuffixStep(s: set<Word>, w: Word, c: Alpha, v: Word)
    requires PrefixClosed(s)
    requires v in s && v != [] && IsSuffix(v, w + [c])
    ensures Parent(v) in s && IsSuffix(Parent(v), w) && v == Parent(v) + [c]
  {
    var k := |v| - 1;
    assert (w + [c])[|w| + 1 - |v|..] == v;
    assert v[k] == (w + [c])[|w|] == c;
    assert w[|w| - k..] == v[..k];
  }

  /** Reading a letter only needs the current state, not the history. */
  lemma LongestStep(s: set<Word>, w: Word, c: Alpha)
    requires PrefixClosed(s)
    ensures Longest(s, w + [c]) == Longest(s, Longest(s, w) + [c])
  {
    var l := Longest(s, w);
    var u := Longest(s, l + [c]);
    LongestIsSuffix(s, w);
    LongestIsSuffix(s, l + [c]);
    SuffixAppend(l, w, [c]);
    SuffixTransitive(u, l + [c], w + [c]);
    forall v | v in s && IsSuffix(v, w + [c]) ensures |v| <= |u| {
      if v != [] {
        StateSuffixStep(s, w, c, v);
        var v' := Parent(v);
        LongestIsMax(s, w, v');
        SuffixOfSame(v', l, w);
        SuffixAppend(v', l, [c]);
        LongestIsMax(s, l + [c], v);
      }
    }
    LongestUnique(s, w + [c], u);
  }

  /** ... and the same for a whole text: the state carries all that matters of the past. */
  lemma {:induction false} LongestAppend(s: set<Word>, w: Word, x: Word)
    requires PrefixClosed(s)
    ensures Longest(s, w + x) == Longest(s, Longest(s, w) + x)
    decreases |x|
  {
    if x == [] {
      assert w + x == w && Longest(s, w) + x == Longest(s, w);
      LongestUnique(s, Longest(s, w), Longest(s, w));
    } else {
      var y, c := x[..|x| - 1], x[|x| - 1];
      assert w + x == (w + y) + [c];
      assert Longest(s, w) + x == (Longest(s, w) + y) + [c];
      LongestAppend(s, w, y);
      LongestStep(s, w + y, c);
      LongestStep(s, Longest(s, w) + y, c);
    }
  }

  /** Following one failure transition does not change where a letter leads. */
  lemma FailStep(s: set<Word>, u: Word, c: Alpha)
    requires PrefixClosed(s) && u in s && u != []
    requires u + [c] !in s
    ensures Longest(s, u + [c]) == Longest(s, Fail(s, u) + [c])
  {
    assert (u + [c])[1..] == u[1..] + [c];
    assert Longest(s, u + [c]) == Longest(s, u[1..] + [c]);
    LongestStep(s, u[1..], c);
  }

  /** In the root a letter with no edge leads back to the root. */
  lemma RootStep(s: set<Word>, c: Alpha)
    requires PrefixClosed(s) && [c] !in s
    ensures Longest(s, [c]) == []
  {
    assert [c][1..] == [];
  }

  /** Every pattern that ends in `w` ends in the state reached on `w`: the state loses no match. */
  lemma {:induction false} SuffixedOfState(d: Dict, s: set<Word>, w: Word)
    requires [] in s && d.Keys <= s
    ensures Suffixed(d, w) == Suffixed(d, Longest(s, w))
    decreases |w|
  {
    if w !in s {
      SuffixedOfState(d, s, w[1..]);
    }
  }

  // ----- facts about scans -----

  lemma {:induction false} HitsSplit(d: Dict, h: Word, lo: nat, mid: nat, hi: nat, off: int)
    requires lo <= mid <= hi <= |h| && 0 <= lo + off
    ensures Hits(d, h, lo, hi, off) == Hits(d, h, lo, mid, off) + Hits(d, h, mid, hi, off)
  {
    hide HitAt;
    if mid < hi {
      HitsSplit(d, h, lo, mid, hi - 1, off);
    }
  }

  /** The scan of a prefix does not look at what follows. */
  lemma {:induction false} HitsPrefix(d: Dict, h: Word, h': Word, lo: nat, hi: nat, off: int)
    requires hi <= |h| && hi <= |h'| && h[..hi] == h'[..hi] && 0 <= lo + off
    ensures Hits(d, h, lo, hi, off) == Hits(d, h', lo, hi, off)
  {
    if lo < hi {
      assert h[..hi - 1] == h[..hi][..hi - 1] == h'[..hi][..hi - 1] == h'[..hi - 1];
      HitsPrefix(d, h, h', lo, hi - 1, off);
    }
  }

  /** Whatever follows, a history and its state have the same answer. */
  lemma SameAnswer(d: Dict, s: set<Word>, w: Word, x: Word)
    requires PrefixClosed(s) && d.Keys <= s
    ensures Suffixed(d, w + x) == Suffixed(d, Longest(s, w) + x)
  {
    SuffixedOfState(d, s, w + x);
    SuffixedOfState(d, s, Longest(s, w) + x);
    LongestAppend(s, w, x);
  }

  lemma SameHit(d: Dict, s: set<Word>, w: Word, x: Word, k: nat, position: nat)
    requires PrefixClosed(s) && d.Keys <= s && k <= |x|
    ensures var u := Longest(s, w);
      HitAt(d, (w + x)[..|w| + k], position) == HitAt(d, (u + x)[..|u| + k], position)
  {
    var u := Longest(s, w);
    assert (w + x)[..|w| + k] == w + x[..k];
    assert (u + x)[..|u| + k] == u + x[..k];
    SameAnswer(d, s, w, x[..k]);
  }

  /**
   * A scan of `x` that continues from history `w` reports what a scan from the state of `w` reports:
   * histories may be forgotten down to their state, and positions stay absolute.
   */
  lemma {:induction false} HitsFromState(d: Dict, s: set<Word>, w: Word, x: Word, k: nat, off: int)
    requires PrefixClosed(s) && d.Keys <= s
    requires k <= |x| && 0 <= |w| + off
    ensures var u := Longest(s, w);
      Hits(d, w + x, |w|, |w| + k, off) == Hits(d, u + x, |u|, |u| + k, off + |w| - |u|)
  {
    if k > 0 {
      HitsFromState(d, s, w, x, k - 1, off);
      SameHit(d, s, w, x, k, |w| + k + off);
    }
  }

  /** Each report is of one position in range and carries exactly the patterns that end there. */
  ghost predicate ReportsSound(d: Dict, h: Word, lo: nat, hi: nat, off: int, ms: seq<Match>)
    requires hi <= |h|
  {
    && (forall i :: 0 <= i < |ms| ==>
          (lo + off < ms[i].position <= hi + off && ms[i].patterns != []
           && ms[i].patterns == Suffixed(d, h[..ms[i].position - off])))
    && (forall i, j :: 0 <= i < j < |ms| ==> ms[i].position < ms[j].position)
  }

  /** Each pattern that ends in range is in some report. */
  ghost predicate ReportsComplete(d: Dict, h: Word, lo: nat, hi: nat, off: int, ms: seq<Match>)
    requires hi <= |h|
  {
    forall e, w :: lo < e <= hi && w in d && IsSuffix(w, h[..e]) ==> Reported(ms, e + off, d[w])
  }

  ghost predicate Reported(ms: seq<Match>, position: int, p: Pattern) {
    exists i :: 0 <= i < |ms| && ms[i].position == position && p in ms[i].patterns
  }

  /** The scan is exact: positions are reported in increasing order, each with exactly the patterns that end there ... */
  lemma {:induction false} HitsSound(d: Dict, h: Word, lo: nat, hi: nat, off: int)
    requires lo <= hi <= |h| && 0 <= lo + off
    ensures ReportsSound(d, h, lo, hi, off, Hits(d, h, lo, hi, off))
  {
    hide Suffixed, ReportsSound;
    if lo < hi {
      HitsSound(d, h, lo, hi - 1, off);
      SoundMore(d, h, lo, hi, off, Hits(d, h, lo, hi - 1, off));
    } else {
      SoundNone(d, h, lo, off);
    }
  }

  lemma SoundNone(d: Dict, h: Word, lo: nat, off: int)
    requires lo <= |h|
    ensures ReportsSound(d, h, lo, lo, off, [])
  {
  }

  /** One position more. */
  lemma SoundMore(d: Dict, h: Word, lo: nat, hi: nat, off: int, ms: seq<Match>)
    requires lo < hi <= |h| && 0 <= lo + off && ReportsSound(d, h, lo, hi - 1, off, ms)
    ensures ReportsSound(d, h, lo, hi, off, ms + HitAt(d, h[..hi], hi + off))
  {
    hide Suffixed;
    var last := HitAt(d, h[..hi], hi + off);
    forall i | 0 <= i < |ms + last|
      ensures var m := (ms + last)[i];
        lo + off < m.position <= hi + off && m.patterns != [] && m.patterns == Suffixed(d, h[..m.position - off])
    {
      if i < |ms| {
        assert (ms + last)[i] == ms[i];
      } else {
        assert (ms + last)[i] == last[0] && hi + off - off == hi;
      }
    }
  }

  /** ... and no position where a pattern ends is missed. */
  lemma {:induction false} HitsComplete(d: Dict, h: Word, lo: nat, hi: nat, off: int)
    requires WellKeyed(d) && lo <= hi <= |h| && 0 <= lo + off
    ensures ReportsComplete(d, h, lo, hi, off, Hits(d, h, lo, hi, off))
  {
    if lo < hi {
      var ms', last := Hits(d, h, lo, hi - 1, off), HitAt(d, h[..hi], hi + off);
      HitsComplete(d, h, lo, hi - 1, off);
      forall e, w | lo < e <= hi && w in d && IsSuffix(w, h[..e])
        ensures Reported(ms' + last, e + off, d[w])
      {
        if e == hi {
          SuffixedExact(d, h[..hi], d[w]);
          assert (ms' + last)[|ms'|] == last[0];
        } else {
          assert Reported(ms', e + off, d[w]);
          var i :| 0 <= i < |ms'| && ms'[i].position == e + off && d[w] in ms'[i].patterns;
          assert (ms' + last)[i] == ms'[i];
        }
      }
    }
  }
}
