/** The marks of http_parser_execute: where in the buffer a report has begun that was not delivered yet. */
module HttpMarks {
  import opened Wrappers
  import opened HttpTypes
  import opened HttpSpec
  import opened HttpRun

  /** Buffer indices; -1 for no mark. */
  datatype Marks = Marks(field: int, value: int, url: int, body: int, status: int)

  const NO_MARK: int := -1
  const NO_MARKS: Marks := Marks(NO_MARK, NO_MARK, NO_MARK, NO_MARK, NO_MARK)

  function MarkOf(marks: Marks, k: Kind): int {
    match k
    case Field => marks.field
    case Value => marks.value
    case Url => marks.url
    case Body => marks.body
    case Status => marks.status
  }

  function SetMark(marks: Marks, k: Kind, at: int): Marks {
    match k
    case Field => marks.(field := at)
    case Value => marks.(value := at)
    case Url => marks.(url := at)
    case Body => marks.(body := at)
    case Status => marks.(status := at)
  }

  /** MARK: does not move a mark that is set. */
  function Marked(marks: Marks, k: Kind, at: int): Marks {
    if MarkOf(marks, k) == NO_MARK then SetMark(marks, k, at) else marks
  }

  /** The kind of data a state is in the middle of, if it always is. */
  function KindOf(s: State): Option<Kind> {
    if s == S_HEADER_FIELD then Some(Field)
    else if s == S_HEADER_VALUE then Some(Value)
    else if InUrl(s) then Some(Url)
    else if s == S_RES_STATUS then Some(Status)
    else None
  }

  /** The states in which body bytes may be waiting to be delivered. */
  predicate BodyWaits(s: State) {
    s == S_BODY_IDENTITY || s == S_BODY_IDENTITY_EOF || s == S_CHUNK_DATA || s == S_CHUNK_DATA_ALMOST_DONE
  }

  /** Exactly the data the state is in the middle of is marked: at most one mark is set. */
  predicate MarksOk(s: State, marks: Marks, p: int) {
    && (marks.body == NO_MARK || (0 <= marks.body < p && BodyWaits(s)))
    && (forall k :: k != Body ==>
          if KindOf(s) == Some(k) then 0 <= MarkOf(marks, k) <= p && (MarkOf(marks, k) == p ==> p == 0)
          else MarkOf(marks, k) == NO_MARK)
  }

  /** The one mark that is set. */
  function Live(marks: Marks): Option<Kind> {
    if marks.field != NO_MARK then Some(Field)
    else if marks.value != NO_MARK then Some(Value)
    else if marks.url != NO_MARK then Some(Url)
    else if marks.body != NO_MARK then Some(Body)
    else if marks.status != NO_MARK then Some(Status)
    else None
  }

  /** The trace so far: what was delivered, and the marked bytes before `q`. */
  function Seen(calls: seq<Event>, marks: Marks, data: Bytes, q: nat): seq<Event> {
    var t, k := Norm(calls), Live(marks);
    if k.Some? && 0 <= MarkOf(marks, k.value) <= q <= |data| then
      PushData(t, k.value, data[MarkOf(marks, k.value)..q])
    else t
  }

  /** The marks at the start of a call. */
  function InitialMarks(s: State): Marks {
    if KindOf(s).Some? then SetMark(NO_MARKS, KindOf(s).value, 0) else NO_MARKS
  }

  lemma InitialMarksOk(s: State)
    ensures MarksOk(s, InitialMarks(s), 0)
  {
  }

  /** A call goes on where the last report left off. */
  lemma InitialSeen(s: State, calls: seq<Event>, data: Bytes)
    requires KindOf(s).Some? ==> LastIs(Norm(calls), KindOf(s).value)
    ensures Seen(calls, InitialMarks(s), data, 0) == Norm(calls)
  {
    if KindOf(s).Some? {
      assert data[0..0] == [];
      PushNothing(Norm(calls), KindOf(s).value);
    }
  }

  /** A letter more of marked data. */
  lemma SeenMore(calls: seq<Event>, marks: Marks, data: Bytes, q: nat, n: nat, k: Kind)
    requires Live(marks) == Some(k) && 0 <= MarkOf(marks, k) <= q && q + n <= |data|
    ensures Seen(calls, marks, data, q + n) == PushData(Seen(calls, marks, data, q), k, data[q..q + n])
    ensures LastIs(Seen(calls, marks, data, q), k)
  {
    var i := MarkOf(marks, k);
    PushTwice(Norm(calls), k, data[i..q], data[q..q + n]);
    assert data[i..q] + data[q..q + n] == data[i..q + n];
  }

  lemma NoMarksOk(s: State, q: int)
    requires KindOf(s).None?
    ensures MarksOk(s, NO_MARKS, q)
  {
  }

  lemma BodyMarked(s: State, marks: Marks, q: int)
    requires MarksOk(s, marks, q)
    ensures marks.body == NO_MARK || 0 <= marks.body < q
  {
  }

  /** A mark set at a byte fits the state after it. */
  lemma SetMarkOk(s: State, k: Kind, q: nat)
    requires KindOf(s) == Some(k)
    ensures MarksOk(s, SetMark(NO_MARKS, k, q), q + 1)
  {
  }

  /** Setting a mark and taking `n` bytes. */
  lemma SeenFirst(calls: seq<Event>, data: Bytes, q: nat, n: nat, k: Kind)
    requires q + n <= |data|
    ensures Seen(calls, SetMark(NO_MARKS, k, q), data, q + n) == PushData(Norm(calls), k, data[q..q + n])
    ensures Seen(calls, NO_MARKS, data, q) == Norm(calls)
  {
  }

  /** Delivering what is marked changes nothing that was seen. */
  lemma SeenDelivered(calls: seq<Event>, marks: Marks, data: Bytes, q: nat, k: Kind, q': nat)
    requires marks == SetMark(NO_MARKS, k, MarkOf(marks, k)) && 0 <= MarkOf(marks, k) <= q <= |data|
    ensures Seen(calls + [Data(k, data[MarkOf(marks, k)..q])], NO_MARKS, data, q') == Seen(calls, marks, data, q)
  {
    NormAppend(calls, Data(k, data[MarkOf(marks, k)..q]));
  }

  lemma OneMark(s: State, marks: Marks, p: int)
    requires MarksOk(s, marks, p)
    ensures KindOf(s).Some? ==> marks == SetMark(NO_MARKS, KindOf(s).value, MarkOf(marks, KindOf(s).value))
                                && Live(marks) == KindOf(s) && 0 <= MarkOf(marks, KindOf(s).value) <= p
    ensures KindOf(s).None? ==> marks == SetMark(NO_MARKS, Body, marks.body)
    ensures KindOf(s).None? && !BodyWaits(s) ==> marks == NO_MARKS
  {
    assert MarkOf(marks, Field) == marks.field && MarkOf(marks, Value) == marks.value;
    assert MarkOf(marks, Url) == marks.url && MarkOf(marks, Status) == marks.status;
  }

  /** Body bytes are marked from the first one on. */
  lemma SeenBody(calls: seq<Event>, marks: Marks, data: Bytes, p: nat, n: nat)
    requires marks == SetMark(NO_MARKS, Body, marks.body) && -1 <= marks.body < p && p + n <= |data|
    ensures Seen(calls, Marked(marks, Body, p), data, p + n) == PushData(Seen(calls, marks, data, p), Body, data[p..p + n])
    ensures var marks' := Marked(marks, Body, p);
      0 <= marks'.body <= p && marks' == SetMark(NO_MARKS, Body, marks'.body) && Live(marks') == Some(Body)
  {
    if marks.body == NO_MARK {
      SeenFirst(calls, data, p, n, Body);
    } else {
      SeenMore(calls, marks, data, p, n, Body);
    }
  }
}
