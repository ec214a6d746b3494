/** What the router's configuration means: which keys are in use, and where a text goes. */
module FlowKeys {
  import opened Wrappers
  import opened AcTypes
  import opened AcSpec
  import opened AcTrie

  /** Number of hash slots of the key and item tables (FLOW_CONFIG_SLOT_SIZE). */
  const SLOTS: nat := 4096

  /** The device used when no transmit index is bound to an item. */
  const DEFAULT_IDX: nat := 0

  datatype Key = Key(itemid: nat, text: Word)
  datatype Item = Item(itemid: nat, isRx: bool)
  datatype Idx = Idx(itemid: nat, bound: bool, idx: nat)

  /** The loaded configuration: two hash tables of lists and the transmit index list. */
  datatype Config = Config(keySlots: seq<seq<Key>>, itemSlots: seq<seq<Item>>, txIdx: seq<Idx>) {
    predicate Valid() {
      |keySlots| == SLOTS && |itemSlots| == SLOTS
    }
  }

  // ----- what the configuration means -----

  function FirstItem(items: seq<Item>, itemid: nat): Option<Item> {
    if items == [] then None
    else if items[0].itemid == itemid then Some(items[0])
    else FirstItem(items[1..], itemid)
  }

  function FirstIdx(list: seq<Idx>, itemid: nat): nat {
    if list == [] then DEFAULT_IDX
    else if list[0].itemid == itemid && list[0].bound then list[0].idx
    else FirstIdx(list[1..], itemid)
  }

  /** A key is used if it is not empty and belongs to a transmitting item. */
  predicate Used(cfg: Config, k: Key)
    requires cfg.Valid()
  {
    var item := FirstItem(cfg.itemSlots[k.itemid % SLOTS], k.itemid);
    k.text != [] && item.Some? && !item.value.isRx
  }

  /** The patterns of a list of keys, numbered from 1. */
  function Patterns(cfg: Config, keys: seq<Key>): seq<Pattern>
    requires cfg.Valid()
  {
    if keys == [] then []
    else
      var ps, k := Patterns(cfg, keys[..|keys| - 1]), keys[|keys| - 1];
      if Used(cfg, k) then ps + [Pattern(k.text, |ps| + 1, k.itemid, FirstIdx(cfg.txIdx, k.itemid))] else ps
  }

  function Flatten(slots: seq<seq<Key>>): seq<Key> {
    if slots == [] then [] else Flatten(slots[..|slots| - 1]) + slots[|slots| - 1]
  }

  /** The dictionary after adding patterns one by one, with the refused ones left out. */
  function AddAll(isOpen: bool, d: Dict, ps: seq<Pattern>): Dict {
    if ps == [] then d
    else
      var d', p := AddAll(isOpen, d, ps[..|ps| - 1]), ps[|ps| - 1];
      if AddStatus(isOpen, d', p.ptext) == Success then d'[p.ptext := p] else d'
  }

  lemma NoPatterns(cfg: Config, isOpen: bool, d: Dict)
    requires cfg.Valid()
    ensures Patterns(cfg, Flatten([])) == [] && AddAll(isOpen, d, Patterns(cfg, Flatten([]))) == d
  {
  }

  lemma {:induction false} AddAllMore(isOpen: bool, d: Dict, ps: seq<Pattern>, p: Pattern)
    ensures AddAll(isOpen, AddAll(isOpen, d, ps), [p]) == AddAll(isOpen, d, ps + [p])
  {
    assert (ps + [p])[..|ps|] == ps;
    assert [p][..0] == [];
  }

  /** The position of the first pattern with text `w`. */
  ghost predicate FirstWith(ps: seq<Pattern>, w: Word, i: int) {
    0 <= i < |ps| && ps[i].ptext == w && forall j :: 0 <= j < i ==> ps[j].ptext != w
  }

  /** Every text of legal length is in the dictionary, for the first pattern that has it. */
  lemma {:induction false} AddAllExact(ps: seq<Pattern>, w: Word)
    ensures var d := AddAll(true, map[], ps);
      && (w in d <==> 0 < |w| <= MAX_PATTERN_LENGTH && exists i :: FirstWith(ps, w, i))
      && (forall i :: FirstWith(ps, w, i) && w in d ==> d[w] == ps[i])
  {
    if ps != [] {
      var n := |ps| - 1;
      AddAllExact(ps[..n], w);
      assert forall i :: 0 <= i < n ==> ps[..n][i] == ps[i];
      forall i | FirstWith(ps[..n], w, i) ensures FirstWith(ps, w, i) {}
      forall i | FirstWith(ps, w, i) && i < n ensures FirstWith(ps[..n], w, i) {}
      if ps[n].ptext == w && !exists i :: FirstWith(ps[..n], w, i) {
        NoFirst(ps[..n], w);
        assert FirstWith(ps, w, n);
      }
    }
  }

  lemma {:induction false} NoFirst(ps: seq<Pattern>, w: Word)
    requires !exists i :: FirstWith(ps, w, i)
    ensures forall j :: 0 <= j < |ps| ==> ps[j].ptext != w
  {
    for n := 0 to |ps|
      invariant forall j :: 0 <= j < n ==> ps[j].ptext != w
    {
      assert !FirstWith(ps, w, n);
    }
  }

  // ----- what the configuration means, key by key -----

  /** The item with an id: the first one with it in the slot of the id. */
  ghost predicate IsItem(cfg: Config, itemid: nat, i: nat)
    requires cfg.Valid()
  {
    var items := cfg.itemSlots[itemid % SLOTS];
    i < |items| && items[i].itemid == itemid && forall j :: 0 <= j < i ==> items[j].itemid != itemid
  }

  /** There is such an item, and it is not a receiving one. */
  ghost predicate Transmits(cfg: Config, itemid: nat)
    requires cfg.Valid()
  {
    exists i: nat :: IsItem(cfg, itemid, i) && !cfg.itemSlots[itemid % SLOTS][i].isRx
  }

  ghost predicate IsBound(list: seq<Idx>, itemid: nat, t: int) {
    0 <= t < |list| && list[t].itemid == itemid && list[t].bound
  }

  /** The device of an item: that of the first entry bound to it, or device 0. */
  ghost predicate SendsTo(list: seq<Idx>, itemid: nat, port: int) {
    || (port == 0 && forall t :: !IsBound(list, itemid, t))
    || exists t :: IsBound(list, itemid, t) && list[t].idx == port && forall u :: 0 <= u < t ==> !IsBound(list, itemid, u)
  }

  /** A key in use: it is not empty, and its item transmits. */
  ghost predicate InUse(cfg: Config, k: Key)
    requires cfg.Valid()
  {
    k.text != [] && Transmits(cfg, k.itemid)
  }

  /** A place in the table of keys: a slot and an index in its list. */
  type Place = (nat, nat)

  predicate IsPlace(slots: seq<seq<Key>>, at: Place) {
    at.0 < |slots| && at.1 < |slots[at.0]|
  }

  predicate Earlier(at: Place, other: Place) {
    at.0 < other.0 || (at.0 == other.0 && at.1 < other.1)
  }

  function KeyAt(slots: seq<seq<Key>>, at: Place): Key
    requires IsPlace(slots, at)
  {
    slots[at.0][at.1]
  }

  /** The place of a key in use with text `w`. */
  ghost predicate InUseAt(cfg: Config, w: Word, at: Place)
    requires cfg.Valid()
  {
    IsPlace(cfg.keySlots, at) && KeyAt(cfg.keySlots, at).text == w && InUse(cfg, KeyAt(cfg.keySlots, at))
  }

  /** The place of the first one. */
  ghost predicate FirstInUse(cfg: Config, w: Word, at: Place)
    requires cfg.Valid()
  {
    InUseAt(cfg, w, at) && forall other :: InUseAt(cfg, w, other) ==> !Earlier(other, at)
  }

  /** A pattern is that of the `n`-th key in use. */
  ghost predicate IsPatternOf(cfg: Config, p: Pattern, n: nat, k: Key)
    requires cfg.Valid()
  {
    InUse(cfg, k) && p.ptext == k.text && p.id == n && p.itemid == k.itemid && SendsTo(cfg.txIdx, k.itemid, p.idx)
  }

  lemma {:induction false} FirstItemIs(items: seq<Item>, itemid: nat)
    ensures var item := FirstItem(items, itemid);
      && (item.None? ==> forall j :: 0 <= j < |items| ==> items[j].itemid != itemid)
      && (item.Some? ==> exists i :: && 0 <= i < |items| && items[i] == item.value && items[i].itemid == itemid
                                     && forall j :: 0 <= j < i ==> items[j].itemid != itemid)
  {
    if items != [] && items[0].itemid != itemid {
      FirstItemIs(items[1..], itemid);
      assert forall j :: 0 < j < |items| ==> items[j] == items[1..][j - 1];
      if FirstItem(items[1..], itemid).Some? {
        var i :| && 0 <= i < |items[1..]| && items[1..][i] == FirstItem(items, itemid).value
                 && items[1..][i].itemid == itemid && forall j :: 0 <= j < i ==> items[1..][j].itemid != itemid;
        assert items[i + 1] == items[1..][i];
      }
    }
  }

  lemma {:induction false} FirstIdxIs(list: seq<Idx>, itemid: nat)
    ensures SendsTo(list, itemid, FirstIdx(list, itemid))
  {
    if list != [] && !(list[0].itemid == itemid && list[0].bound) {
      FirstIdxIs(list[1..], itemid);
      assert forall t :: IsBound(list, itemid, t) <==> IsBound(list[1..], itemid, t - 1);
      if t :| && IsBound(list[1..], itemid, t) && list[1..][t].idx == FirstIdx(list, itemid)
              && forall u :: 0 <= u < t ==> !IsBound(list[1..], itemid, u) {
        assert IsBound(list, itemid, t + 1) && list[t + 1] == list[1..][t];
      }
    } else if list != [] {
      assert IsBound(list, itemid, 0);
    }
  }

  /** The keys that are used are those in use. */
  lemma UsedIs(cfg: Config, k: Key)
    requires cfg.Valid()
    ensures Used(cfg, k) <==> InUse(cfg, k)
  {
    var items := cfg.itemSlots[k.itemid % SLOTS];
    FirstItemIs(items, k.itemid);
    if FirstItem(items, k.itemid).Some? {
      var i :| && 0 <= i < |items| && items[i] == FirstItem(items, k.itemid).value && items[i].itemid == k.itemid
               && forall j :: 0 <= j < i ==> items[j].itemid != k.itemid;
      assert IsItem(cfg, k.itemid, i);
      forall j: nat | IsItem(cfg, k.itemid, j) ensures j == i {}
    }
  }

  /** The patterns of a list of keys are those of the keys in use, at increasing indices. */
  lemma {:induction false} PatternsAre(cfg: Config, keys: seq<Key>) returns (js: seq<nat>)
    requires cfg.Valid()
    ensures |js| == |Patterns(cfg, keys)|
    ensures forall n :: 0 <= n < |js| ==> js[n] < |keys| && IsPatternOf(cfg, Patterns(cfg, keys)[n], n + 1, keys[js[n]])
    ensures forall n, o :: 0 <= n < o < |js| ==> js[n] < js[o]
    ensures forall j :: 0 <= j < |keys| && InUse(cfg, keys[j]) ==> j in js
  {
    hide InUse, Used, SendsTo, FirstIdx;
    if keys == [] {
      js := [];
    } else {
      var keys', k := keys[..|keys| - 1], keys[|keys| - 1];
      js := PatternsAre(cfg, keys');
      UsedIs(cfg, k);
      FirstIdxIs(cfg.txIdx, k.itemid);
      assert forall j :: 0 <= j < |keys'| ==> keys[j] == keys'[j];
      if Used(cfg, k) {
        var n := |js|;
        js := js + [|keys'|];
        assert js[n] == |keys'|;
      }
    }
  }

  // ----- places in the table of keys -----

  /** The number of keys in the slots before one. */
  function Before(slots: seq<seq<Key>>, s: nat): nat
    requires s <= |slots|
  {
    |Flatten(slots[..s])|
  }

  lemma BeforeNext(slots: seq<seq<Key>>, s: nat)
    requires s < |slots|
    ensures Flatten(slots[..s + 1]) == Flatten(slots[..s]) + slots[s]
  {
    assert slots[..s + 1][..s] == slots[..s];
  }

  lemma {:induction false} BeforeGrows(slots: seq<seq<Key>>, s: nat, t: nat)
    requires s <= t <= |slots|
    ensures Flatten(slots[..s]) <= Flatten(slots[..t])
    decreases t - s
  {
    if s < t {
      BeforeGrows(slots, s, t - 1);
      BeforeNext(slots, t - 1);
    }
    hide Flatten;
  }

  /** The index of a place among all keys. */
  function IndexOf(slots: seq<seq<Key>>, at: Place): nat
    requires IsPlace(slots, at)
  {
    Before(slots, at.0) + at.1
  }

  lemma PlaceIndex(slots: seq<seq<Key>>, at: Place)
    requires IsPlace(slots, at)
    ensures IndexOf(slots, at) < |Flatten(slots)| && Flatten(slots)[IndexOf(slots, at)] == KeyAt(slots, at)
    ensures IndexOf(slots, at) < Before(slots, at.0 + 1)
  {
    hide Flatten;
    BeforeNext(slots, at.0);
    BeforeGrows(slots, at.0 + 1, |slots|);
    assert slots[..|slots|] == slots;
    InPart(Flatten(slots[..at.0]), slots[at.0], Flatten(slots), at.1);
  }

  lemma InPart(a: seq<Key>, b: seq<Key>, all: seq<Key>, i: nat)
    requires a + b <= all && i < |b|
    ensures |a| + i < |all| && all[|a| + i] == b[i]
  {
    assert (a + b)[|a| + i] == b[i];
  }

  /** Earlier keys have smaller indices. */
  lemma EarlierIndex(slots: seq<seq<Key>>, at: Place, other: Place)
    requires IsPlace(slots, at) && IsPlace(slots, other)
    ensures Earlier(at, other) <==> IndexOf(slots, at) < IndexOf(slots, other)
  {
    PlaceIndex(slots, at);
    PlaceIndex(slots, other);
    if at.0 < other.0 {
      BeforeGrows(slots, at.0 + 1, other.0);
    } else if other.0 < at.0 {
      BeforeGrows(slots, other.0 + 1, at.0);
    }
    hide Flatten;
  }

  /** Every index is that of a place. */
  lemma {:induction false} PlaceOf(slots: seq<seq<Key>>, n: nat, j: nat) returns (at: Place)
    requires n <= |slots| && j < Before(slots, n)
    ensures IsPlace(slots, at) && IndexOf(slots, at) == j
    decreases n
  {
    if n > 0 {
      BeforeNext(slots, n - 1);
      if j < Before(slots, n - 1) {
        at := PlaceOf(slots, n - 1, j);
      } else {
        at := (n - 1, j - Before(slots, n - 1));
      }
    }
    hide Flatten;
  }

  lemma {:induction false} PlacesOf(slots: seq<seq<Key>>, js: seq<nat>) returns (ats: seq<Place>)
    requires forall n :: 0 <= n < |js| ==> js[n] < |Flatten(slots)|
    ensures |ats| == |js| && forall n :: 0 <= n < |js| ==> IsPlace(slots, ats[n]) && IndexOf(slots, ats[n]) == js[n]
  {
    assert slots[..|slots|] == slots;
    if js == [] {
      ats := [];
    } else {
      ats := PlacesOf(slots, js[..|js| - 1]);
      var at := PlaceOf(slots, |slots|, js[|js| - 1]);
      ats := ats + [at];
    }
    hide Flatten, IndexOf;
  }

  /** The patterns are those of the keys in use, which stand at the places `ats`, in the order of the table. */
  ghost predicate StandAt(cfg: Config, ps: seq<Pattern>, ats: seq<Place>)
    requires cfg.Valid()
  {
    && |ats| == |ps|
    && (forall n :: 0 <= n < |ps| ==>
          IsPlace(cfg.keySlots, ats[n]) && IsPatternOf(cfg, ps[n], n + 1, KeyAt(cfg.keySlots, ats[n])))
    && (forall n, o :: 0 <= n < o < |ats| ==> Earlier(ats[n], ats[o]))
    && (forall at :: IsPlace(cfg.keySlots, at) && InUse(cfg, KeyAt(cfg.keySlots, at)) ==> at in ats)
  }

  /** The patterns that are added: one for every key in use, in the order of the table, numbered from 1. */
  lemma PatternsExact(cfg: Config) returns (ats: seq<Place>)
    requires cfg.Valid()
    ensures StandAt(cfg, Patterns(cfg, Flatten(cfg.keySlots)), ats)
  {
    hide InUse, Patterns, Flatten, IsPatternOf;
    var slots, keys := cfg.keySlots, Flatten(cfg.keySlots);
    var js := PatternsAre(cfg, keys);
    ats := PlacesOf(slots, js);
    forall n | 0 <= n < |js| ensures KeyAt(slots, ats[n]) == keys[js[n]] {
      PlaceIndex(slots, ats[n]);
    }
    forall n, o | 0 <= n < o < |ats| ensures Earlier(ats[n], ats[o]) {
      EarlierIndex(slots, ats[n], ats[o]);
    }
    forall at | IsPlace(slots, at) && InUse(cfg, KeyAt(slots, at)) ensures at in ats {
      PlaceIndex(slots, at);
      var n :| 0 <= n < |js| && js[n] == IndexOf(slots, at);
      EarlierIndex(slots, at, ats[n]);
      EarlierIndex(slots, ats[n], at);
      assert at == ats[n];
    }
  }

  /** The dictionary of a configuration. */
  ghost function DictOf(cfg: Config): Dict
    requires cfg.Valid()
  {
    AddAll(true, map[], Patterns(cfg, Flatten(cfg.keySlots)))
  }

  lemma PlacesOrder(ats: seq<Place>, n: nat, o: nat)
    requires n < |ats| && o < |ats| && forall i, j :: 0 <= i < j < |ats| ==> Earlier(ats[i], ats[j])
    ensures Earlier(ats[o], ats[n]) <==> o < n
  {
    if n < o {
      assert Earlier(ats[n], ats[o]);
    }
  }

  /** The first pattern with a text is that of the first key in use with it. */
  lemma FirstPattern(cfg: Config, ps: seq<Pattern>, ats: seq<Place>, w: Word, n: nat)
    requires cfg.Valid() && StandAt(cfg, ps, ats) && n < |ps|
    ensures FirstWith(ps, w, n) <==> FirstInUse(cfg, w, ats[n])
  {
    hide InUse, SendsTo;
    forall o | 0 <= o < |ats|
      ensures (Earlier(ats[o], ats[n]) <==> o < n) && InUseAt(cfg, ps[o].ptext, ats[o])
    {
      PlacesOrder(ats, n, o);
      assert IsPatternOf(cfg, ps[o], o + 1, KeyAt(cfg.keySlots, ats[o]));
    }
  }

  lemma PatternOf(cfg: Config, ps: seq<Pattern>, ats: seq<Place>, w: Word, at: Place)
    requires cfg.Valid() && StandAt(cfg, ps, ats) && InUseAt(cfg, w, at)
    ensures exists n :: 0 <= n < |ps| && ats[n] == at && ps[n].ptext == w && w != []
  {
    hide Transmits, SendsTo;
  }

  /** A text is in it exactly if it is that of a key in use that is not too long, and stands for the first such key. */
  lemma DictExact(cfg: Config, w: Word)
    requires cfg.Valid()
    ensures w in DictOf(cfg) <==> |w| <= 1024 && exists at :: FirstInUse(cfg, w, at)
    ensures w in DictOf(cfg) <==> |w| <= 1024 && exists at :: InUseAt(cfg, w, at)
    ensures forall at :: w in DictOf(cfg) && FirstInUse(cfg, w, at) ==>
              var k := KeyAt(cfg.keySlots, at);
              DictOf(cfg)[w].itemid == k.itemid && SendsTo(cfg.txIdx, k.itemid, DictOf(cfg)[w].idx)
  {
    var ats := PatternsExact(cfg);
    var ps := Patterns(cfg, Flatten(cfg.keySlots));
    AddAllExact(ps, w);
    hide Patterns, Flatten, AddAll, InUse, SendsTo, StandAt, FirstWith;
    if at :| InUseAt(cfg, w, at) {
      PatternOf(cfg, ps, ats, w, at);
      if !exists i :: FirstWith(ps, w, i) { NoFirst(ps, w); }
    }
    forall n | FirstWith(ps, w, n) ensures 0 <= n < |ps| && FirstInUse(cfg, w, ats[n]) && w != [] {
      FirstIsThere(ps, w, n);
      FirstPattern(cfg, ps, ats, w, n);
      PatternOf(cfg, ps, ats, w, ats[n]);
    }
    forall at | FirstInUse(cfg, w, at)
      ensures exists n :: 0 <= n < |ps| && ats[n] == at && FirstWith(ps, w, n)
                          && IsPatternOf(cfg, ps[n], n + 1, KeyAt(cfg.keySlots, at))
    {
      PatternOf(cfg, ps, ats, w, at);
      var n :| 0 <= n < |ps| && ats[n] == at;
      FirstPattern(cfg, ps, ats, w, n);
      StandsThere(cfg, ps, ats, n);
    }
  }

  lemma FirstIsThere(ps: seq<Pattern>, w: Word, n: int)
    requires FirstWith(ps, w, n)
    ensures 0 <= n < |ps|
  {
  }

  lemma StandsThere(cfg: Config, ps: seq<Pattern>, ats: seq<Place>, n: nat)
    requires cfg.Valid() && StandAt(cfg, ps, ats) && n < |ps|
    ensures IsPlace(cfg.keySlots, ats[n]) && IsPatternOf(cfg, ps[n], n + 1, KeyAt(cfg.keySlots, ats[n]))
  {
    hide IsPatternOf;
  }

  // ----- what the answer means -----

  /** A configured key ends at `e`. */
  ghost predicate KeyEndsAt(d: Dict, text: Word, e: nat) {
    e <= |text| && exists w :: w in d && IsSuffix(w, text[..e])
  }

  /** The key `w` wins: it ends at the earliest end of any key and is the longest key ending there. */
  ghost predicate Wins(d: Dict, text: Word, w: Word, e: nat) {
    && e <= |text| && w in d && IsSuffix(w, text[..e])
    && (forall e' :: 0 <= e' < e ==> !KeyEndsAt(d, text, e'))
    && (forall w' :: w' in d && IsSuffix(w', text[..e]) ==> |w'| <= |w|)
  }

  /** The routing decision, naively: -1 if no key occurs, else the index of the winning key. */
  ghost predicate RoutesTo(d: Dict, text: Word, port: int) {
    if forall e :: 0 <= e <= |text| ==> !KeyEndsAt(d, text, e) then port == -1
    else exists w, e :: Wins(d, text, w, e) && port == d[w].idx
  }

  /** The winner is unique, so the decision is. */
  lemma WinnerUnique(d: Dict, text: Word, w: Word, e: nat, w': Word, e': nat)
    requires Wins(d, text, w, e) && Wins(d, text, w', e')
    ensures w == w' && e == e'
  {
    assert KeyEndsAt(d, text, e) && KeyEndsAt(d, text, e');
  }

  // ----- ... and on the keys of the configuration -----

  /** A key in use that is not too long ends at `e`. */
  ghost predicate KeyIn(cfg: Config, text: Word, at: Place, e: nat)
    requires cfg.Valid()
  {
    && e <= |text| && IsPlace(cfg.keySlots, at) && InUse(cfg, KeyAt(cfg.keySlots, at))
    && |KeyAt(cfg.keySlots, at).text| <= 1024 && IsSuffix(KeyAt(cfg.keySlots, at).text, text[..e])
  }

  /** The key at a place decides: of those that end first the longest, and of those the first in the table. */
  ghost predicate Decides(cfg: Config, text: Word, at: Place, e: nat)
    requires cfg.Valid()
  {
    && KeyIn(cfg, text, at, e) && FirstInUse(cfg, KeyAt(cfg.keySlots, at).text, at)
    && forall other: Place, e': nat :: KeyIn(cfg, text, other, e') ==>
         e <= e' && (e' == e ==> |KeyAt(cfg.keySlots, other).text| <= |KeyAt(cfg.keySlots, at).text|)
  }

  /** The routing decision: -1 if no key occurs in the text, else the device of the item of the key that decides. */
  ghost predicate RoutesByKeys(cfg: Config, text: Word, port: int)
    requires cfg.Valid()
  {
    if forall at: Place, e: nat :: !KeyIn(cfg, text, at, e) then port == -1
    else exists at: Place, e: nat :: Decides(cfg, text, at, e) && SendsTo(cfg.txIdx, KeyAt(cfg.keySlots, at).itemid, port)
  }

  lemma KeyEndsIn(cfg: Config, text: Word, e: nat)
    requires cfg.Valid()
    ensures KeyEndsAt(DictOf(cfg), text, e) <==> exists at :: KeyIn(cfg, text, at, e)
  {
    hide DictOf, InUse, IsSuffix;
    if KeyEndsAt(DictOf(cfg), text, e) {
      var w :| w in DictOf(cfg) && IsSuffix(w, text[..e]);
      DictExact(cfg, w);
      var at :| InUseAt(cfg, w, at);
      assert KeyIn(cfg, text, at, e);
    }
    if at :| KeyIn(cfg, text, at, e) {
      DictExact(cfg, KeyAt(cfg.keySlots, at).text);
      assert InUseAt(cfg, KeyAt(cfg.keySlots, at).text, at);
    }
  }

  /** The decision of the automaton is that of the keys. */
  lemma RoutesExact(cfg: Config, text: Word, port: int)
    requires cfg.Valid() && RoutesTo(DictOf(cfg), text, port)
    ensures RoutesByKeys(cfg, text, port)
  {
    var d := DictOf(cfg);
    hide DictOf, InUse, SendsTo, IsSuffix;
    forall e: nat ensures KeyEndsAt(d, text, e) <==> exists at :: KeyIn(cfg, text, at, e) {
      KeyEndsIn(cfg, text, e);
    }
    if exists at: Place, e: nat :: KeyIn(cfg, text, at, e) {
      var at0: Place, e0: nat :| KeyIn(cfg, text, at0, e0);
      assert KeyEndsAt(d, text, e0);
      var w, e: nat :| Wins(d, text, w, e) && port == d[w].idx;
      DictExact(cfg, w);
      var at :| FirstInUse(cfg, w, at);
      forall other: Place, e': nat | KeyIn(cfg, text, other, e')
        ensures e <= e' && (e' == e ==> |KeyAt(cfg.keySlots, other).text| <= |w|)
      {
        assert KeyEndsAt(d, text, e');
        DictExact(cfg, KeyAt(cfg.keySlots, other).text);
        assert InUseAt(cfg, KeyAt(cfg.keySlots, other).text, other);
      }
      assert Decides(cfg, text, at, e);
    }
  }

  lemma NoOtherPlace(cfg: Config, w: Word, at: Place, other: Place)
    requires cfg.Valid() && FirstInUse(cfg, w, at) && FirstInUse(cfg, w, other)
    ensures at == other
  {
    hide InUse;
    assert !Earlier(at, other) && !Earlier(other, at);
  }

  lemma SendsToOne(list: seq<Idx>, itemid: nat, port: int, port': int)
    requires SendsTo(list, itemid, port) && SendsTo(list, itemid, port')
    ensures port == port'
  {
  }

  /** There is one decision for every text. */
  lemma RouteUnique(cfg: Config, text: Word, port: int, port': int)
    requires cfg.Valid() && RoutesByKeys(cfg, text, port) && RoutesByKeys(cfg, text, port')
    ensures port == port'
  {
    hide InUse, SendsTo, IsSuffix;
    if exists at: Place, e: nat :: KeyIn(cfg, text, at, e) {
      var at: Place, e: nat :| Decides(cfg, text, at, e) && SendsTo(cfg.txIdx, KeyAt(cfg.keySlots, at).itemid, port);
      var at': Place, e': nat :| Decides(cfg, text, at', e') && SendsTo(cfg.txIdx, KeyAt(cfg.keySlots, at').itemid, port');
      assert KeyIn(cfg, text, at, e) && KeyIn(cfg, text, at', e');
      SameSuffix(KeyAt(cfg.keySlots, at).text, KeyAt(cfg.keySlots, at').text, text[..e]);
      NoOtherPlace(cfg, KeyAt(cfg.keySlots, at).text, at, at');
      SendsToOne(cfg.txIdx, KeyAt(cfg.keySlots, at).itemid, port, port');
    }
  }

  lemma SameSuffix(v: Word, w: Word, text: Word)
    requires IsSuffix(v, text) && IsSuffix(w, text) && |v| == |w|
    ensures v == w
  {
  }

  lemma NoKeyBefore(d: Dict, text: Word, e: nat)
    requires WellKeyed(d) && e <= |text| && KeyEndsAt(d, text, e)
    ensures var ms := Hits(d, text, 0, |text|, 0); ms != [] && ms[0].position <= e
  {
    hide Hits, Suffixed;
    var ms := Hits(d, text, 0, |text|, 0);
    HitsSound(d, text, 0, |text|, 0);
    HitsComplete(d, text, 0, |text|, 0);
    var w :| w in d && IsSuffix(w, text[..e]);
    assert Reported(ms, e + 0, d[w]);
  }

  /** The first match of a scan decides the route. */
  lemma FirstHitRoutes(d: Dict, text: Word)
    requires WellKeyed(d)
    ensures var ms := Hits(d, text, 0, |text|, 0);
      && (ms != [] ==> ms[0].patterns != [])
      && RoutesTo(d, text, if ms == [] then -1 else ms[0].patterns[0].idx)
  {
    hide Hits, Suffixed;
    var ms := Hits(d, text, 0, |text|, 0);
    HitsSound(d, text, 0, |text|, 0);
    forall e | 0 <= e <= |text| && (ms == [] || e < ms[0].position) ensures !KeyEndsAt(d, text, e) {
      if KeyEndsAt(d, text, e) {
        NoKeyBefore(d, text, e);
      }
    }
    if ms != [] {
      var e, p := ms[0].position, ms[0].patterns[0];
      assert text[..e - 0] == text[..e];
      FirstWins(d, text, e);
      assert KeyEndsAt(d, text, e);
    }
  }

  lemma FirstWins(d: Dict, text: Word, e: nat)
    requires WellKeyed(d) && e <= |text| && Suffixed(d, text[..e]) != []
    requires forall e' :: 0 <= e' < e ==> !KeyEndsAt(d, text, e')
    ensures var p := Suffixed(d, text[..e])[0]; Wins(d, text, p.ptext, e) && d[p.ptext] == p
    ensures KeyEndsAt(d, text, e)
  {
    hide Suffixed;
    LongestFirst(d, text[..e]);
  }

  /** The first pattern of an answer is the longest one that ends there. */
  lemma LongestFirst(d: Dict, w: Word)
    requires WellKeyed(d) && Suffixed(d, w) != []
    ensures var p := Suffixed(d, w)[0];
      && p.ptext in d && d[p.ptext] == p && IsSuffix(p.ptext, w)
      && forall v :: v in d && IsSuffix(v, w) ==> |v| <= |p.ptext|
  {
    var ps := Suffixed(d, w);
    SuffixedExact(d, w, ps[0]);
    forall v | v in d && IsSuffix(v, w) ensures |v| <= |ps[0].ptext| {
      SuffixedExact(d, w, d[v]);
      var i :| 0 <= i < |ps| && ps[i] == d[v];
      if i > 0 {
        SuffixedDecreasing(d, w, 0, i);
      }
    }
  }

  /** The length of a C string: where its first NUL stands. */
  predicate IsLength(str: Word, n: nat) {
    n < |str| && str[n] == 0 && 0 !in str[..n]
  }
}
