/** The intrusive circular doubly linked list: every operation is one on sequences. */
module FlowList {

  /** struct list_head: an entry, or the head of a list; the links of a deleted entry are null. */
  class ListHead {
    var next: ListHead?
    var prev: ListHead?

    /** INIT_LIST_HEAD on a new one: an empty list. */
    constructor ()
      ensures IsList(this, [])
    {
      next := this;
      prev := this;
    }
  }

  predicate NoDuplicates(s: seq<ListHead>) {
    forall i, j :: 0 <= i < j < |s| ==> s[i] != s[j]
  }

  /** The entries of a list between two visits of its head. */
  function Chain(head: ListHead, s: seq<ListHead>): seq<ListHead> {
    [head] + s + [head]
  }

  /** `head` is the head of a list of the entries `s`: next and prev are inverse to each other on exactly these. */
  ghost predicate IsList(head: ListHead, s: seq<ListHead>)
    reads head, s
  {
    && NoDuplicates([head] + s)
    && Linked(Chain(head, s))
  }

  /** Each is the next of the one before it, which is its previous one. */
  ghost predicate Linked(c: seq<ListHead>)
    reads c
  {
    forall i {:trigger c[i].next} :: 0 <= i < |c| - 1 ==> c[i].next == c[i + 1] && c[i + 1].prev == c[i]
  }

  /** The entries and the head are different from each other, wherever the chain is cut open. */
  lemma ChainDistinct(head: ListHead, s: seq<ListHead>)
    requires NoDuplicates([head] + s)
    ensures var c := Chain(head, s);
      && (forall i, j :: 0 <= i < j <= |s| ==> c[i] != c[j])
      && (forall i, j :: 1 <= i < j <= |s| + 1 ==> c[i] != c[j])
  {
    var c, r := Chain(head, s), [head] + s;
    assert forall i :: 0 <= i <= |s| ==> c[i] == r[i];
    forall i | 1 <= i <= |s| ensures c[i] != head {
      assert r[0] != r[i];
    }
  }

  /** Following next from the head, two lists of the same head are the same as far as both go. */
  lemma {:induction false} SameWalk(head: ListHead, s: seq<ListHead>, s': seq<ListHead>, i: nat)
    requires IsList(head, s) && IsList(head, s') && i <= |s| + 1 && i <= |s'| + 1
    ensures Chain(head, s)[i] == Chain(head, s')[i]
  {
    if i > 0 {
      SameWalk(head, s, s', i - 1);
      assert Chain(head, s)[i - 1].next == Chain(head, s)[i];
      assert Chain(head, s')[i - 1].next == Chain(head, s')[i];
    }
  }

  lemma ListNotLonger(head: ListHead, s: seq<ListHead>, s': seq<ListHead>)
    requires IsList(head, s) && IsList(head, s')
    ensures |s'| <= |s|
  {
    var r := [head] + s';
    assert r[0] == head && forall i :: 1 <= i < |r| ==> r[i] == Chain(head, s')[i];
    if |s| < |s'| {
      SameWalk(head, s, s', |s| + 1);
    }
  }

  /** A head is the head of one list only: the links determine the entries and their order. */
  lemma ListIsUnique(head: ListHead, s: seq<ListHead>, s': seq<ListHead>)
    requires IsList(head, s) && IsList(head, s')
    ensures s == s'
  {
    ListNotLonger(head, s, s');
    ListNotLonger(head, s', s);
    forall i | 0 <= i < |s| ensures s[i] == s'[i] {
      SameWalk(head, s, s', i + 1);
    }
  }

  /** An entry put between two neighbours keeps all entries different. */
  lemma InsertDistinct(head: ListHead, s: seq<ListHead>, k: nat, entry: ListHead)
    requires NoDuplicates([head] + s) && k <= |s| && entry != head && entry !in s
    ensures NoDuplicates([head] + (s[..k] + [entry] + s[k..]))
  {
    var r, r' := [head] + s, [head] + (s[..k] + [entry] + s[k..]);
    assert forall i :: 0 <= i <= k ==> r'[i] == r[i];
    assert forall i :: k + 1 < i < |r'| ==> r'[i] == r[i - 1];
    assert forall i :: 0 <= i < |r| ==> r[i] != entry;
  }

  // ----- adding and deleting -----

  /** INIT_LIST_HEAD. */
  method InitListHead(list: ListHead)
    modifies list
    ensures IsList(list, [])
  {
    list.next := list;
    list.prev := list;
  }

  /** __list_add: a new entry between two consecutive ones, the `k`-th and the one after it. */
  method AddBetween(entry: ListHead, prev: ListHead, next: ListHead, ghost head: ListHead, ghost s: seq<ListHead>,
                    ghost k: nat)
    requires IsList(head, s) && entry != head && entry !in s
    requires k <= |s| && prev == Chain(head, s)[k] && next == Chain(head, s)[k + 1]
    modifies next`prev, entry, prev`next
    ensures IsList(head, s[..k] + [entry] + s[k..])
  {
    ghost var c, s' := Chain(head, s), s[..k] + [entry] + s[k..];
    ghost var c' := Chain(head, s');
    ChainDistinct(head, s);
    InsertDistinct(head, s, k, entry);
    assert forall i :: 0 <= i <= k ==> c'[i] == c[i];
    assert forall i :: k + 1 < i < |c'| ==> c'[i] == c[i - 1];
    next.prev := entry;
    entry.next := next;
    entry.prev := prev;
    prev.next := entry;
    forall i | 0 <= i < |c'| - 1
      ensures c'[i].next == c'[i + 1] && c'[i + 1].prev == c'[i]
    {
      if i < k {
        assert old(c[i].next) == c[i + 1];
      } else if i > k + 1 {
        assert old(c[i - 1].next) == c[i];
      }
    }
  }

  /** list_add: like a stack. */
  method ListAdd(entry: ListHead, head: ListHead, ghost s: seq<ListHead>)
    requires IsList(head, s) && entry != head && entry !in s
    modifies head, entry, s
    ensures IsList(head, [entry] + s)
  {
    assert Chain(head, s)[0].next == Chain(head, s)[1];
    AddBetween(entry, head, head.next, head, s, 0);
    assert s[..0] + [entry] + s[0..] == [entry] + s;
  }

  /** list_add_tail: like a queue. */
  method ListAddTail(entry: ListHead, head: ListHead, ghost s: seq<ListHead>)
    requires IsList(head, s) && entry != head && entry !in s
    modifies head, entry, s
    ensures IsList(head, s + [entry])
  {
    assert Chain(head, s)[|s|].next == Chain(head, s)[|s| + 1];
    AddBetween(entry, head.prev, head, head, s, |s|);
    assert s[..|s|] + [entry] + s[|s|..] == s + [entry];
  }

  /** An entry taken out keeps all entries different. */
  lemma RemoveDistinct(head: ListHead, s: seq<ListHead>, k: nat)
    requires NoDuplicates([head] + s) && k < |s|
    ensures NoDuplicates([head] + (s[..k] + s[k + 1..])) && s[k] != head && s[k] !in s[..k] + s[k + 1..]
  {
    var r, rest := [head] + s, s[..k] + s[k + 1..];
    var r' := [head] + rest;
    assert forall i :: 0 <= i <= k ==> r'[i] == r[i];
    assert forall i :: k < i < |r'| ==> r'[i] == r[i + 1];
    assert r[0] == head && r[k + 1] == s[k];
    forall i | 0 <= i < |rest| ensures rest[i] != s[k] {
      assert rest[i] == if i < k then r[i + 1] else r[i + 2];
    }
  }

  /** __list_del: the neighbours of the `k`-th entry are linked to each other. */
  method DeleteBetween(prev: ListHead, next: ListHead, ghost head: ListHead, ghost s: seq<ListHead>, ghost k: nat)
    requires IsList(head, s) && k < |s| && prev == Chain(head, s)[k] && next == Chain(head, s)[k + 2]
    modifies next`prev, prev`next
    ensures IsList(head, s[..k] + s[k + 1..])
  {
    ghost var c, s' := Chain(head, s), s[..k] + s[k + 1..];
    ghost var c' := Chain(head, s');
    ChainDistinct(head, s);
    RemoveDistinct(head, s, k);
    assert forall i :: 0 <= i <= k ==> c'[i] == c[i];
    assert forall i :: k < i < |c'| ==> c'[i] == c[i + 1];
    next.prev := prev;
    prev.next := next;
    forall i | 0 <= i < |c'| - 1
      ensures c'[i].next == c'[i + 1] && c'[i + 1].prev == c'[i]
    {
      if i < k {
        assert old(c[i].next) == c[i + 1];
      } else if i > k {
        assert old(c[i + 1].next) == c[i + 2];
      }
    }
  }

  /** __list_del_entry. */
  method DeleteEntry(entry: ListHead, ghost head: ListHead, ghost s: seq<ListHead>, ghost k: nat)
    requires IsList(head, s) && k < |s| && entry == s[k]
    modifies head, s
    ensures IsList(head, s[..k] + s[k + 1..])
    ensures entry.next == old(entry.next) && entry.prev == old(entry.prev)
  {
    ghost var c := Chain(head, s);
    ChainDistinct(head, s);
    assert c[k].next == c[k + 1] == entry && c[k + 1].next == c[k + 2];
    DeleteBetween(entry.prev, entry.next, head, s, k);
  }

  /** list_del: the links of the entry become null. */
  method ListDel(entry: ListHead, ghost head: ListHead, ghost s: seq<ListHead>, ghost k: nat)
    requires IsList(head, s) && k < |s| && entry == s[k]
    modifies head, s
    ensures IsList(head, s[..k] + s[k + 1..]) && entry.next == null == entry.prev
  {
    RemoveDistinct(head, s, k);
    DeleteEntry(entry, head, s, k);
    entry.next := null;
    entry.prev := null;
  }

  /** list_del_init: the entry becomes an empty list. */
  method ListDelInit(entry: ListHead, ghost head: ListHead, ghost s: seq<ListHead>, ghost k: nat)
    requires IsList(head, s) && k < |s| && entry == s[k]
    modifies head, s
    ensures IsList(head, s[..k] + s[k + 1..]) && IsList(entry, [])
  {
    RemoveDistinct(head, s, k);
    DeleteEntry(entry, head, s, k);
    InitListHead(entry);
  }

  /** The head and the entries with another one in the `k`-th place, counted from the head. */
  function Replaced(head: ListHead, s: seq<ListHead>, k: nat, entry: ListHead): (ListHead, seq<ListHead>)
    requires k <= |s|
  {
    if k == 0 then (entry, s) else (head, s[k - 1 := entry])
  }

  lemma ReplaceChain(head: ListHead, s: seq<ListHead>, k: nat, entry: ListHead)
    requires NoDuplicates([head] + s) && entry != head && entry !in s && k <= |s|
    ensures var (head', s') := Replaced(head, s, k, entry);
      var c, c' := Chain(head, s), Chain(head', s');
      && NoDuplicates([head'] + s') && |c'| == |c|
      && forall i :: 0 <= i < |c| ==> c'[i] == if c[i] == c[k] then entry else c[i]
  {
    ChainDistinct(head, s);
    var c := Chain(head, s);
    var (head', s') := Replaced(head, s, k, entry);
    var r' := [head'] + s';
    assert forall i :: 0 <= i < |r'| ==> r'[i] == if i == k then entry else c[i];
    assert forall i :: 0 <= i <= |s| ==> c[i] == ([head] + s)[i];
  }

  /** list_replace: `entry` takes the place of the `k`-th of the head and the entries, even of a lone head. */
  method ListReplace(old': ListHead, entry: ListHead, ghost head: ListHead, ghost s: seq<ListHead>, ghost k: nat)
    requires IsList(head, s) && entry != head && entry !in s && k <= |s| && old' == ([head] + s)[k]
    modifies entry, head, s
    ensures var (head', s') := Replaced(head, s, k, entry); IsList(head', s')
    ensures old'.next == old(old'.next) && old'.prev == (if s == [] then entry else old(old'.prev))
  {
    ghost var c, h' := Chain(head, s), Replaced(head, s, k, entry);
    ghost var c' := Chain(h'.0, h'.1);
    ChainDistinct(head, s);
    ReplaceChain(head, s, k, entry);
    ghost var before := if k == 0 then |s| else k - 1;
    assert c[k] == old' == c[before + 1] && c[k].next == c[k + 1] && c[before].next == c[before + 1];
    entry.next := old'.next;
    entry.next.prev := entry;
    entry.prev := old'.prev;
    entry.prev.next := entry;
    forall i | 0 <= i < |c'| - 1
      ensures c'[i].next == c'[i + 1] && c'[i + 1].prev == c'[i]
    {
      assert old(c[i].next) == c[i + 1];
    }
  }

  /** list_replace_init: the replaced one becomes an empty list. */
  method ListReplaceInit(old': ListHead, entry: ListHead, ghost head: ListHead, ghost s: seq<ListHead>, ghost k: nat)
    requires IsList(head, s) && entry != head && entry !in s && k <= |s| && old' == ([head] + s)[k]
    modifies entry, head, s
    ensures var (head', s') := Replaced(head, s, k, entry); IsList(head', s')
    ensures IsList(old', [])
  {
    ListReplace(old', entry, head, s, k);
    ReplacedOut(head, s, k, entry);
    InitListHead(old');
  }

  lemma ReplacedOut(head: ListHead, s: seq<ListHead>, k: nat, entry: ListHead)
    requires NoDuplicates([head] + s) && entry != head && entry !in s && k <= |s|
    ensures var (head', s') := Replaced(head, s, k, entry);
      ([head] + s)[k] != head' && ([head] + s)[k] !in s'
  {
    var r := [head] + s;
    var (head', s') := Replaced(head, s, k, entry);
    assert forall i :: 0 <= i < |s| ==> s[i] == r[i + 1];
    assert r[0] == head;
  }

  // ----- moving -----

  /** Two lists have nothing in common. */
  predicate Apart(head: ListHead, s: seq<ListHead>, head': ListHead, s': seq<ListHead>) {
    head != head' && head !in s' && head' !in s && forall x :: x in s ==> x !in s'
  }

  /** What an entry is moved out of, the list it is moved to or another one. */
  ghost predicate MovesTo(entry: ListHead, from: ListHead, t: seq<ListHead>, k: nat, head: ListHead, s: seq<ListHead>)
    reads from, t, head, s
  {
    && IsList(from, t) && IsList(head, s) && k < |t| && entry == t[k]
    && ((from == head && t == s) || Apart(from, t, head, s))
  }

  /** The entries of the target while the moved one is out. */
  function Others(from: ListHead, k: nat, head: ListHead, s: seq<ListHead>): seq<ListHead> {
    if from == head && k < |s| then s[..k] + s[k + 1..] else s
  }

  /** The moved entry is not among the others, and what stays behind is apart from the target. */
  lemma MovedOut(entry: ListHead, from: ListHead, t: seq<ListHead>, k: nat, head: ListHead, s: seq<ListHead>)
    requires MovesTo(entry, from, t, k, head, s)
    ensures entry != head && entry !in Others(from, k, head, s) && entry != from && entry !in t[..k] + t[k + 1..]
    ensures from != head ==> Apart(from, t[..k] + t[k + 1..], head, s) && Others(from, k, head, s) == s
    ensures from == head ==> Others(from, k, head, s) == t[..k] + t[k + 1..]
  {
    RemoveDistinct(from, t, k);
    assert entry in t;
    assert forall x :: x in t[..k] + t[k + 1..] ==> x in t;
  }

  lemma ApartChain(from: ListHead, t: seq<ListHead>, head: ListHead, s: seq<ListHead>)
    requires Apart(from, t, head, s)
    ensures var c := Chain(head, s); forall i :: 0 <= i < |c| ==> c[i] != from && c[i] !in t
  {
    var c := Chain(head, s);
    forall i | 0 <= i < |c| ensures c[i] != from && c[i] !in t {
      assert 1 <= i <= |s| ==> c[i] == s[i - 1];
    }
  }

  /** list_move. */
  method ListMove(entry: ListHead, head: ListHead, ghost from: ListHead, ghost t: seq<ListHead>, ghost k: nat,
                  ghost s: seq<ListHead>)
    requires MovesTo(entry, from, t, k, head, s)
    modifies from, t, head, s
    ensures IsList(head, [entry] + Others(from, k, head, s))
    ensures from != head ==> IsList(from, t[..k] + t[k + 1..])
  {
    MovedOut(entry, from, t, k, head, s);
    if from != head {
      ApartChain(from, t, head, s);
      ApartChain(head, s, from, t[..k] + t[k + 1..]);
    }
    DeleteEntry(entry, from, t, k);
    ListAdd(entry, head, Others(from, k, head, s));
  }

  /** list_move_tail. */
  method ListMoveTail(entry: ListHead, head: ListHead, ghost from: ListHead, ghost t: seq<ListHead>, ghost k: nat,
                      ghost s: seq<ListHead>)
    requires MovesTo(entry, from, t, k, head, s)
    modifies from, t, head, s
    ensures IsList(head, Others(from, k, head, s) + [entry])
    ensures from != head ==> IsList(from, t[..k] + t[k + 1..])
  {
    MovedOut(entry, from, t, k, head, s);
    if from != head {
      ApartChain(from, t, head, s);
      ApartChain(head, s, from, t[..k] + t[k + 1..]);
    }
    DeleteEntry(entry, from, t, k);
    ListAddTail(entry, head, Others(from, k, head, s));
  }

  // ----- tests -----

  /** list_empty. */
  method ListEmpty(head: ListHead, ghost s: seq<ListHead>) returns (empty: bool)
    requires IsList(head, s)
    ensures empty <==> s == []
  {
    ChainDistinct(head, s);
    assert Chain(head, s)[0].next == Chain(head, s)[1];
    empty := head.next == head;
  }

  /** list_empty_careful. */
  method ListEmptyCareful(head: ListHead, ghost s: seq<ListHead>) returns (empty: bool)
    requires IsList(head, s)
    ensures empty <==> s == []
  {
    ChainDistinct(head, s);
    assert Chain(head, s)[0].next == Chain(head, s)[1];
    assert Chain(head, s)[|s|].next == Chain(head, s)[|s| + 1];
    var next := head.next;
    empty := next == head && next == head.prev;
  }

  /** list_is_last. */
  method ListIsLast(entry: ListHead, head: ListHead, ghost s: seq<ListHead>, ghost k: nat) returns (last: bool)
    requires IsList(head, s) && k < |s| && entry == s[k]
    ensures last <==> k == |s| - 1
  {
    ChainDistinct(head, s);
    ghost var c := Chain(head, s);
    assert c[k + 1] == entry && c[k + 1].next == c[k + 2];
    assert k < |s| - 1 ==> c[k + 2] != c[0];
    last := entry.next == head;
  }

  /** list_is_singular. */
  method ListIsSingular(head: ListHead, ghost s: seq<ListHead>) returns (singular: bool)
    requires IsList(head, s)
    ensures singular <==> |s| == 1
  {
    ChainDistinct(head, s);
    ghost var c := Chain(head, s);
    assert c[0].next == c[1] && c[|s|].next == c[|s| + 1];
    var empty := ListEmpty(head, s);
    singular := !empty && head.next == head.prev;
  }

  /** list_rotate_left. */
  method ListRotateLeft(head: ListHead, ghost s: seq<ListHead>)
    requires IsList(head, s)
    modifies head, s
    ensures IsList(head, if s == [] then [] else s[1..] + [s[0]])
  {
    var empty := ListEmpty(head, s);
    if !empty {
      assert Chain(head, s)[0].next == Chain(head, s)[1];
      var first := head.next;
      ListMoveTail(first, head, head, s, 0, s);
      assert s[..0] + s[0 + 1..] == s[1..];
    }
  }

  // ----- cutting and splicing -----

  /** Where the entries of both lists stand after a splice. */
  lemma SpliceChain(list: ListHead, t: seq<ListHead>, head: ListHead, s: seq<ListHead>, k: nat)
    requires k <= |s|
    ensures var c, d, c' := Chain(head, s), Chain(list, t), Chain(head, s[..k] + t + s[k..]);
      && |c'| == |c| + |t| && (forall i :: 0 <= i <= k ==> c'[i] == c[i])
      && (forall i :: 1 <= i <= |t| ==> c'[k + i] == d[i]) && (forall i :: k < i < |c| ==> c'[i + |t|] == c[i])
  {
  }

  /** __list_splice: the entries `t` of a list go between two neighbours, the `k`-th and the one after it. */
  method SpliceBetween(list: ListHead, prev: ListHead, next: ListHead, ghost t: seq<ListHead>, ghost head: ListHead,
                       ghost s: seq<ListHead>, ghost k: nat)
    requires IsList(list, t) && IsList(head, s) && Apart(list, t, head, s) && t != []
    requires k <= |s| && prev == Chain(head, s)[k] && next == Chain(head, s)[k + 1]
    modifies t, prev`next, next`prev
    ensures IsList(head, s[..k] + t + s[k..])
  {
    ghost var c, d, s' := Chain(head, s), Chain(list, t), s[..k] + t + s[k..];
    ghost var c' := Chain(head, s');
    ChainDistinct(head, s);
    ChainDistinct(list, t);
    SpliceDistinct(list, t, head, s, k);
    assert d[0].next == d[1] && d[|t|].next == d[|t| + 1];
    var first, last := list.next, list.prev;
    assert first == t[0] && last == t[|t| - 1];
    first.prev := prev;
    prev.next := first;
    last.next := next;
    next.prev := last;
    SpliceChain(list, t, head, s, k);
    hide Chain;
    forall i | 0 <= i < |c'| - 1
      ensures c'[i].next == c'[i + 1] && c'[i + 1].prev == c'[i]
    {
      if i < k {
        assert old(c[i].next) == c[i + 1];
      } else if k < i < k + |t| {
        assert old(d[i - k].next) == d[i - k + 1];
      } else if i > k + |t| {
        assert old(c[i - |t|].next) == c[i - |t| + 1];
      }
    }
  }

  lemma SpliceDistinct(list: ListHead, t: seq<ListHead>, head: ListHead, s: seq<ListHead>, k: nat)
    requires NoDuplicates([list] + t) && NoDuplicates([head] + s) && Apart(list, t, head, s) && k <= |s|
    ensures NoDuplicates([head] + (s[..k] + t + s[k..]))
  {
    var r, q, r' := [head] + s, [list] + t, [head] + (s[..k] + t + s[k..]);
    assert forall i :: 0 <= i <= k ==> r'[i] == r[i];
    assert forall i :: k < i <= k + |t| ==> r'[i] == q[i - k];
    assert forall i :: k + |t| < i < |r'| ==> r'[i] == r[i - |t|];
    forall i, j | 0 <= i < |r| && 1 <= j < |q|
      ensures r[i] != q[j]
    {
      assert q[j] == t[j - 1] && t[j - 1] in t && (i > 0 ==> r[i] == s[i - 1] && s[i - 1] in s);
    }
  }

  /** The head of a list is none of its entries, nor in what they are spliced into. */
  lemma SplicedApart(list: ListHead, t: seq<ListHead>, head: ListHead, s: seq<ListHead>)
    requires NoDuplicates([list] + t) && Apart(list, t, head, s)
    ensures list !in t
    ensures forall i :: 0 <= i < |Chain(head, t + s)| ==> Chain(head, t + s)[i] != list
    ensures forall i :: 0 <= i < |Chain(head, s + t)| ==> Chain(head, s + t)[i] != list
  {
    var r, c, d := [list] + t, Chain(head, t + s), Chain(head, s + t);
    assert r[0] == list && forall i :: 0 <= i < |t| ==> t[i] == r[i + 1];
    forall i | 0 <= i < |c| ensures c[i] != list && d[i] != list {
      assert 1 <= i < |c| - 1 ==> (c[i] in t || c[i] in s) && (d[i] in t || d[i] in s);
    }
  }

  /** list_splice: the entries of `list` go to the front; `list` itself is left as it was. */
  method ListSplice(list: ListHead, head: ListHead, ghost t: seq<ListHead>, ghost s: seq<ListHead>)
    requires IsList(list, t) && IsList(head, s) && Apart(list, t, head, s)
    modifies t, head, s
    ensures IsList(head, t + s) && list.next == old(list.next) && list.prev == old(list.prev)
  {
    SplicedApart(list, t, head, s);
    var empty := ListEmpty(list, t);
    if !empty {
      assert Chain(head, s)[0].next == Chain(head, s)[1];
      SpliceBetween(list, head, head.next, t, head, s, 0);
      assert s[..0] + t + s[0..] == t + s;
    } else {
      assert t + s == s;
    }
  }

  /** list_splice_tail: the entries of `list` go to the end. */
  method ListSpliceTail(list: ListHead, head: ListHead, ghost t: seq<ListHead>, ghost s: seq<ListHead>)
    requires IsList(list, t) && IsList(head, s) && Apart(list, t, head, s)
    modifies t, head, s
    ensures IsList(head, s + t) && list.next == old(list.next) && list.prev == old(list.prev)
  {
    SplicedApart(list, t, head, s);
    var empty := ListEmpty(list, t);
    if !empty {
      assert Chain(head, s)[|s|].next == Chain(head, s)[|s| + 1];
      SpliceBetween(list, head.prev, head, t, head, s, |s|);
      assert s[..|s|] + t + s[|s|..] == s + t;
    } else {
      assert s + t == s;
    }
  }

  /** list_splice_init: as list_splice, and `list` is emptied. */
  method ListSpliceInit(list: ListHead, head: ListHead, ghost t: seq<ListHead>, ghost s: seq<ListHead>)
    requires IsList(list, t) && IsList(head, s) && Apart(list, t, head, s)
    modifies list, t, head, s
    ensures IsList(head, t + s) && IsList(list, [])
  {
    SplicedApart(list, t, head, s);
    var empty := ListEmpty(list, t);
    if !empty {
      ListSplice(list, head, t, s);
      InitListHead(list);
    } else {
      assert t + s == s;
    }
  }

  /** list_splice_tail_init. */
  method ListSpliceTailInit(list: ListHead, head: ListHead, ghost t: seq<ListHead>, ghost s: seq<ListHead>)
    requires IsList(list, t) && IsList(head, s) && Apart(list, t, head, s)
    modifies list, t, head, s
    ensures IsList(head, s + t) && IsList(list, [])
  {
    SplicedApart(list, t, head, s);
    var empty := ListEmpty(list, t);
    if !empty {
      ListSpliceTail(list, head, t, s);
      InitListHead(list);
    } else {
      assert s + t == s;
    }
  }

  /** __list_cut_position: the first `k` entries become the list of `list`. */
  method CutAt(list: ListHead, head: ListHead, entry: ListHead, ghost s: seq<ListHead>, ghost k: nat)
    requires IsList(head, s) && list != head && list !in s && 0 < k <= |s| && entry == s[k - 1]
    modifies list, head, s
    ensures IsList(list, s[..k]) && IsList(head, s[k..]) && Apart(list, s[..k], head, s[k..])
  {
    ghost var c := Chain(head, s);
    ghost var d, e := Chain(list, s[..k]), Chain(head, s[k..]);
    ChainDistinct(head, s);
    CutDistinct(list, head, s, k);
    assert c[k] == entry && c[k].next == c[k + 1] && c[0].next == c[1];
    assert forall i :: 1 <= i <= k ==> d[i] == c[i];
    assert forall i :: 1 <= i < |e| ==> e[i] == c[i + k];
    assert forall i :: 1 <= i <= |s| ==> c[i] != list;
    var newFirst := entry.next;
    list.next := head.next;
    list.next.prev := list;
    list.prev := entry;
    entry.next := list;
    head.next := newFirst;
    newFirst.prev := head;
    forall i | 0 <= i < |d| - 1
      ensures d[i].next == d[i + 1] && d[i + 1].prev == d[i]
    {
      assert old(c[i].next) == c[i + 1];
    }
    forall i | 0 <= i < |e| - 1
      ensures e[i].next == e[i + 1] && e[i + 1].prev == e[i]
    {
      assert old(c[i + k].next) == c[i + k + 1];
    }
  }

  /** What is cut off has no node twice, and shares none with the rest. */
  lemma CutDistinct(list: ListHead, head: ListHead, s: seq<ListHead>, k: nat)
    requires NoDuplicates([head] + s) && list != head && list !in s && k <= |s|
    ensures NoDuplicates([list] + s[..k]) && NoDuplicates([head] + s[k..]) && Apart(list, s[..k], head, s[k..])
  {
    hide NoDuplicates;
    NoneTwice(head, s);
    FirstDistinct(list, s[..k]) by {
      PartDistinct(s, 0, k);
      assert s[0..k] == s[..k];
    }
    FirstDistinct(head, s[k..]) by {
      PartDistinct(s, k, |s|);
      assert s[k..|s|] == s[k..];
    }
  }

  lemma NoneTwice(head: ListHead, s: seq<ListHead>)
    requires NoDuplicates([head] + s)
    ensures head !in s && forall i, j :: 0 <= i < j < |s| ==> s[i] != s[j]
  {
    var r := [head] + s;
    assert r[0] == head && forall i :: 0 <= i < |s| ==> r[i + 1] == s[i];
  }

  lemma PartDistinct(s: seq<ListHead>, lo: nat, hi: nat)
    requires lo <= hi <= |s| && forall i, j :: 0 <= i < j < |s| ==> s[i] != s[j]
    ensures NoDuplicates(s[lo..hi])
  {
  }

  lemma FirstDistinct(head: ListHead, s: seq<ListHead>)
    requires NoDuplicates(s) && head !in s
    ensures NoDuplicates([head] + s)
  {
  }

  /**
   * list_cut_position: moves the entries up to and including the `k`-th to `list`; cutting at the head
   * itself empties `list`. Of an empty list, or at an entry that is not the only one, nothing is cut.
   */
  method ListCutPosition(list: ListHead, head: ListHead, entry: ListHead, ghost s: seq<ListHead>, ghost k: nat)
    requires IsList(head, s) && list != head && list !in s
    requires |s| <= 1 || (k <= |s| && entry == ([head] + s)[k])
    modifies list, head, s
    ensures var nothing := s == [] || (|s| == 1 && entry != s[0] && entry != head);
      && (nothing ==> IsList(head, s) && list.next == old(list.next) && list.prev == old(list.prev))
      && (!nothing && entry == head ==> IsList(list, []) && IsList(head, s))
      && (!nothing && entry != head ==>
            var n := if |s| == 1 then 1 else k;
            n <= |s| && IsList(list, s[..n]) && IsList(head, s[n..]) && Apart(list, s[..n], head, s[n..]))
  {
    ghost var c := Chain(head, s);
    ChainDistinct(head, s);
    assert c[0].next == c[1];
    var empty := ListEmpty(head, s);
    if empty {
      return;
    }
    var singular := ListIsSingular(head, s);
    if singular && head.next != entry && head != entry {
      return;
    }
    if entry == head {
      InitListHead(list);
    } else {
      CutAt(list, head, entry, s, if |s| == 1 then 1 else k);
    }
  }

  /** Cutting a list and putting the front part back restores it. */
  method CutThenSplice(list: ListHead, head: ListHead, entry: ListHead, ghost s: seq<ListHead>, ghost k: nat)
    requires IsList(head, s) && list != head && list !in s && 0 < k <= |s| && entry == s[k - 1]
    modifies list, head, s
    ensures IsList(head, s) && IsList(list, [])
  {
    assert ([head] + s)[k] == entry;
    assert entry != head by { assert ([head] + s)[0] == head; }
    ListCutPosition(list, head, entry, s, k);
    ListSpliceInit(list, head, s[..k], s[k..]);
    assert s[..k] + s[k..] == s;
  }
}
