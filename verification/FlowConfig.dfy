/** The router: one automaton for each core, filled from the configuration and asked for a port. */
module FlowConfig {
  import opened Wrappers
  import opened AcTypes
  import opened AcSpec
  import opened AcTrie
  import opened FlowKeys

  /** Number of cores (FLOW_LCORE_MAX_SLOT). */
  const LCORES: nat := 32

  class Router {
    var tries: seq<Trie>

    /** The automata share no objects. */
    ghost predicate Separate()
      reads this, tries, set t, n | t in tries && n in t.paths.Values :: n
    {
      && |tries| == LCORES
      && (forall s :: 0 <= s < LCORES ==> tries[s].Valid())
      && (forall s, t :: 0 <= s < LCORES && 0 <= t < LCORES && s != t ==> tries[s].Repr() !! tries[t].Repr())
    }

    /** All automata hold the same patterns `d`. */
    ghost predicate Hold(isOpen: bool, d: Dict)
      reads this, tries
    {
      forall s :: 0 <= s < |tries| ==> tries[s].trieOpen == isOpen && tries[s].dict == d
    }

    /** flow_config_module_init: one empty automaton for each core. */
    constructor ()
      ensures Separate() && Hold(true, map[]) && fresh(Footprint())
    {
      var ts: seq<Trie> := [];
      new;
      hide Trie.Valid;
      for i := 0 to LCORES
        invariant |ts| == i && forall s :: 0 <= s < |ts| ==> fresh(ts[s].Repr())
        invariant forall s :: 0 <= s < |ts| ==> ts[s].Valid() && ts[s].trieOpen && ts[s].dict == map[]
        invariant forall s, t :: 0 <= s < |ts| && 0 <= t < |ts| && s != t ==> ts[s].Repr() !! ts[t].Repr()
      {
        var t := new Trie();
        ts := ts + [t];
      }
      tries := ts;
    }

    /** flow_config_module_build_inside_find_item. */
    method FindItem(cfg: Config, itemid: nat) returns (item: Option<Item>)
      requires cfg.Valid()
      ensures item == FirstItem(cfg.itemSlots[itemid % SLOTS], itemid)
    {
      var items := cfg.itemSlots[itemid % SLOTS];
      for i := 0 to |items|
        invariant FirstItem(items, itemid) == FirstItem(items[i..], itemid)
      {
        if items[i].itemid == itemid {
          return Some(items[i]);
        }
      }
      return None;
    }

    method FindIdx(cfg: Config, itemid: nat) returns (idx: nat)
      ensures idx == FirstIdx(cfg.txIdx, itemid)
    {
      var list := cfg.txIdx;
      for t := 0 to |list|
        invariant FirstIdx(list, itemid) == FirstIdx(list[t..], itemid)
      {
        if list[t].itemid == itemid && list[t].bound {
          return list[t].idx;
        }
      }
      return DEFAULT_IDX;
    }

    ghost function Footprint(): set<object>
      reads this, tries
    {
      set t, o | t in tries && o in t.Repr() :: o
    }

    /** Adds a pattern to the automaton of core `s`; the others do not notice. */
    method AddTo(s: nat, patt: Pattern)
      requires Separate() && s < LCORES
      modifies tries[s].Repr()
      ensures Separate()
      ensures tries[s].dict == AddAll(tries[s].trieOpen, old(tries[s].dict), [patt])
      ensures tries[s].trieOpen == old(tries[s].trieOpen) && fresh(tries[s].Repr() - old(tries[s].Repr()))
      ensures forall t :: 0 <= t < LCORES && t != s ==>
                tries[t].dict == old(tries[t].dict) && tries[t].trieOpen == old(tries[t].trieOpen)
                && tries[t].Repr() == old(tries[t].Repr())
    {
      hide Trie.Valid;
      var status := tries[s].Add(patt);
    }

    /** The inner loop of the build: one pattern for every core. */
    method AddToAll(patt: Pattern, ghost isOpen: bool, ghost d: Dict)
      requires Separate() && Hold(isOpen, d)
      modifies Footprint()
      ensures Separate() && Hold(isOpen, AddAll(isOpen, d, [patt]))
      ensures fresh(Footprint() - old(Footprint()))
    {
      hide Trie.Valid, AddAll;
      for s := 0 to LCORES
        invariant Separate() && tries == old(tries)
        invariant forall t :: 0 <= t < LCORES ==> fresh(tries[t].Repr() - old(tries[t].Repr()))
        invariant forall t :: 0 <= t < LCORES ==> tries[t].trieOpen == isOpen
        invariant forall t :: 0 <= t < s ==> tries[t].dict == AddAll(isOpen, d, [patt])
        invariant forall t :: s <= t < LCORES ==> tries[t].dict == d
      {
        AddTo(s, patt);
      }
    }

    /** One key of the build: skipped, or numbered, given its index and added everywhere. */
    method AddKey(cfg: Config, key: Key, j: nat, ghost keys: seq<Key>, ghost isOpen: bool, ghost d: Dict)
      returns (j': nat)
      requires Separate() && cfg.Valid() && j == |Patterns(cfg, keys)|
      requires Hold(isOpen, AddAll(isOpen, d, Patterns(cfg, keys)))
      modifies Footprint()
      ensures Separate() && j' == |Patterns(cfg, keys + [key])|
      ensures Hold(isOpen, AddAll(isOpen, d, Patterns(cfg, keys + [key])))
      ensures fresh(Footprint() - old(Footprint()))
    {
      hide Trie.Valid, AddAll, Separate, Hold;
      assert (keys + [key])[..|keys|] == keys;
      j' := j;
      if |key.text| <= 0 {
        return;
      }
      var item := FindItem(cfg, key.itemid);
      if item.None? {
        return;
      }
      if item.value.isRx {
        return;
      }
      j' := j + 1;
      var idx := FindIdx(cfg, key.itemid);
      var patt := Pattern(key.text, j', key.itemid, idx);
      AddAllMore(isOpen, d, Patterns(cfg, keys), patt);
      AddToAll(patt, isOpen, AddAll(isOpen, d, Patterns(cfg, keys)));
    }

    /** flow_config_module_build. */
    method Build(cfg: Config, ghost isOpen: bool, ghost d: Dict)
      requires Separate() && cfg.Valid() && Hold(isOpen, d)
      modifies Footprint()
      ensures Separate() && Hold(false, AddAll(isOpen, d, Patterns(cfg, Flatten(cfg.keySlots))))
    {
      hide Trie.Valid, AddAll, Separate, Patterns, Hold;
      var slots := cfg.keySlots;
      var j := 0;
      ghost var taken := [];
      NoPatterns(cfg, isOpen, d);
      for i := 0 to |slots|
        invariant Separate() && tries == old(tries) && fresh(Footprint() - old(Footprint()))
        invariant taken == Flatten(slots[..i])
        invariant j == |Patterns(cfg, taken)| && Hold(isOpen, AddAll(isOpen, d, Patterns(cfg, taken)))
      {
        j := AddSlot(cfg, slots[i], j, taken, isOpen, d);
        taken := taken + slots[i];
        BeforeNext(slots, i);
      }
      assert slots[..|slots|] == slots;
      FinalizeAll(isOpen, AddAll(isOpen, d, Patterns(cfg, Flatten(slots))));
    }

    method AddSlot(cfg: Config, slot: seq<Key>, j0: nat, ghost keys: seq<Key>, ghost isOpen: bool, ghost d: Dict)
      returns (j: nat)
      requires Separate() && cfg.Valid() && j0 == |Patterns(cfg, keys)|
      requires Hold(isOpen, AddAll(isOpen, d, Patterns(cfg, keys)))
      modifies Footprint()
      ensures Separate() && j == |Patterns(cfg, keys + slot)|
      ensures Hold(isOpen, AddAll(isOpen, d, Patterns(cfg, keys + slot)))
      ensures fresh(Footprint() - old(Footprint()))
    {
      hide Trie.Valid, AddAll, Separate, Patterns, Hold;
      j := j0;
      ghost var taken := keys;
      for i := 0 to |slot|
        invariant Separate() && tries == old(tries) && fresh(Footprint() - old(Footprint()))
        invariant taken == keys + slot[..i]
        invariant j == |Patterns(cfg, taken)| && Hold(isOpen, AddAll(isOpen, d, Patterns(cfg, taken)))
      {
        j := AddKey(cfg, slot[i], j, taken, isOpen, d);
        taken := taken + [slot[i]];
      }
      assert taken == keys + slot;
    }

    method FinalizeOne(s: nat)
      requires Separate() && s < LCORES
      modifies tries[s].Repr()
      ensures Separate()
      ensures tries[s].dict == old(tries[s].dict) && !tries[s].trieOpen && tries[s].Repr() == old(tries[s].Repr())
    {
      hide Trie.Valid;
      tries[s].Finalize();
    }

    method FinalizeAll(ghost isOpen: bool, ghost d: Dict)
      requires Separate() && Hold(isOpen, d)
      modifies Footprint()
      ensures Separate() && Hold(false, d)
    {
      hide Trie.Valid;
      for s := 0 to LCORES
        invariant Separate() && tries == old(tries)
        invariant forall t :: 0 <= t < LCORES ==> tries[t].Repr() == old(tries[t].Repr())
        invariant forall t :: 0 <= t < LCORES ==> tries[t].dict == d
        invariant forall t :: 0 <= t < s ==> !tries[t].trieOpen
      {
        FinalizeOne(s);
      }
    }

    method StrLen(str: Word) returns (n: nat)
      requires 0 in str
      ensures IsLength(str, n)
    {
      n := 0;
      while str[n] != 0
        invariant n < |str| && 0 in str[n..] && 0 !in str[..n]
        decreases |str| - n
      {
        assert str[n..][1..] == str[n + 1..];
        assert str[..n + 1] == str[..n] + [str[n]];
        n := n + 1;
      }
    }

    /** flow_config_module_search: the index for the string on the automaton of core `lcore`, or -1. */
    method Search(str: Word, lcore: nat) returns (port: int)
      requires Separate() && lcore < LCORES && 0 in str
      modifies tries[lcore]
      ensures Separate()
      ensures tries[lcore].trieOpen == old(tries[lcore].trieOpen) && tries[lcore].dict == old(tries[lcore].dict)
      ensures tries[lcore].trieOpen ==> port == -1
      ensures !tries[lcore].trieOpen ==>
                exists n: nat :: IsLength(str, n) && RoutesTo(tries[lcore].dict, str[..n], port)
    {
      hide Trie.Valid, RoutesTo;
      var n := StrLen(str);
      port := FirstIdxIn(tries[lcore], str[..n]);
    }

    /** The loop of the search: it leaves with the first match, if there is one. */
    method FirstIdxIn(trie: Trie, text: Word) returns (port: int)
      requires trie.Valid()
      modifies trie`lastNode, trie`basePosition, trie`position, trie`wm, trie`text
      ensures trie.Valid()
      ensures trie.trieOpen ==> port == -1
      ensures !trie.trieOpen ==> RoutesTo(trie.dict, text, port)
    {
      FreshAhead(trie.dict, text);
      RoutesByDict(trie, text);
      hide Trie.Valid, RoutesTo, Hits;
      trie.SetText(text, false);
      var m := trie.FindNext();
      if |m.patterns| != 0 {
        port := m.patterns[0].idx;
      } else {
        port := -1;
      }
    }

    lemma FreshAhead(d: Dict, text: Word)
      ensures Ahead(d, Cursor([], 0, 0), text) == Hits(d, text, 0, |text|, 0)
    {
      assert [] + Rest(text, 0) == text;
    }

    lemma RoutesByDict(trie: Trie, text: Word)
      requires trie.Valid()
      ensures var ms := Hits(trie.dict, text, 0, |text|, 0);
        (ms != [] ==> ms[0].patterns != []) &&
        RoutesTo(trie.dict, text, if ms == [] then -1 else ms[0].patterns[0].idx)
    {
      FirstHitRoutes(trie.dict, text);
    }
  }

  /**
   * From an empty router to a decision, whatever the configuration, the string and the core: it is the one
   * decision on the keys of the configuration and the string up to its terminator.
   */
  method Route(cfg: Config, str: Word, lcore: nat) returns (port: int)
    requires cfg.Valid() && 0 in str && lcore < LCORES
    ensures exists n: nat :: IsLength(str, n) && RoutesByKeys(cfg, str[..n], port)
  {
    hide AddAll, Patterns, RoutesTo, RoutesByKeys, DictOf;
    var router := new Router();
    router.Build(cfg, true, map[]);
    port := router.Search(str, lcore);
    ghost var n: nat :| IsLength(str, n) && RoutesTo(router.tries[lcore].dict, str[..n], port);
    DictNow(cfg);
    RoutesExact(cfg, str[..n], port);
  }

  lemma DictNow(cfg: Config)
    requires cfg.Valid()
    ensures AddAll(true, map[], Patterns(cfg, Flatten(cfg.keySlots))) == DictOf(cfg)
  {
  }
}
