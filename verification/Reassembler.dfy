/** The overlapping-interval map behind the receiver, as a value. The ordered map from start index to
    string is a sequence of entries in key order, so that an iterator is a position. */
module ReassemblerModel {
  import opened Basics
  import opened StreamModel

  /** The initial `_eof_index`, (size_t)-1. */
  const NO_EOF: nat := 0xFFFF_FFFF_FFFF_FFFF

  datatype Entry = Entry(index: nat, data: seq<Byte>) {
    function End(): nat { index + |data| }
  }

  datatype Reassembler = Reassembler(
    entries: seq<Entry>,
    expected: nat,
    eofIndex: nat,
    unassembled: int,
    output: Stream)

  function NewReassembler(capacity: nat): Reassembler {
    Reassembler([], 0, NO_EOF, 0, EmptyStream(capacity))
  }

  // ---------------------------------------------------------------- operations

  /** Position of the first entry whose key is at least `index`. */
  function LowerBound(es: seq<Entry>, index: nat): (k: nat)
    ensures k <= |es|
    ensures forall i | 0 <= i < k :: es[i].index < index
    ensures k < |es| ==> es[k].index >= index
  {
    FirstAtLeast(es, 0, index)
  }

  function FirstAtLeast(es: seq<Entry>, from: nat, index: nat): (k: nat)
    requires from <= |es|
    ensures from <= k <= |es|
    ensures forall i | from <= i < k :: es[i].index < index
    ensures k < |es| ==> es[k].index >= index
    decreases |es| - from
  {
    if from == |es| || es[from].index >= index then from else FirstAtLeast(es, from + 1, index)
  }

  /** Bytes stored. */
  function Total(es: seq<Entry>): nat {
    if es == [] then 0 else |es[0].data| + Total(es[1..])
  }

  predicate Inside(e: Entry, index: nat, end: nat) { index <= e.index && e.End() <= end }

  /** The map without the entries that lie within [index, end]. */
  function Prune(es: seq<Entry>, index: nat, end: nat): seq<Entry> {
    if es == [] then []
    else if Inside(es[0], index, end) then Prune(es[1..], index, end)
    else [es[0]] + Prune(es[1..], index, end)
  }

  /** Cut the substring at the next entry and after the previous one; position `k` separates the two.
      (Key order already gives `index <= pruned[k].index`.) */
  function Trim(pruned: seq<Entry>, k: nat, index: nat, data: seq<Byte>): Option<Entry>
    requires k <= |pruned|
  {
    if k < |pruned| && pruned[k].index == index then None
    else
      var front := if k < |pruned| && index < pruned[k].index < index + |data|
                   then data[..pruned[k].index - index] else data;
      if k > 0 && pruned[k - 1].End() > index then
        if pruned[k - 1].End() > index + |front| then None
        else Some(Entry(pruned[k - 1].End(), front[pruned[k - 1].End() - index..]))
      else Some(Entry(index, front))
  }

  /** `emplace`: no effect when the key is present. */
  function Emplace(es: seq<Entry>, e: Entry): seq<Entry> {
    var k := LowerBound(es, e.index);
    if k < |es| && es[k].index == e.index then es else es[..k] + [e] + es[k..]
  }

  /** What is left of the substring goes in at `k`, if anything is left. */
  function Place(pruned: seq<Entry>, k: nat, index: nat, data: seq<Byte>): seq<Entry>
    requires k <= |pruned|
  {
    match Trim(pruned, k, index, data)
    case None => pruned
    case Some(e) => Emplace(pruned, e)
  }

  function InsertEntry(es: seq<Entry>, index: nat, data: seq<Byte>): seq<Entry> {
    if es == [] then [Entry(index, data)]
    else
      var pruned := Prune(es, index, index + |data|);
      Place(pruned, LowerBound(pruned, index), index, data)
  }

  /** The byte counter moves with the stored total. */
  function WithEntries(r: Reassembler, es: seq<Entry>): Reassembler {
    r.(entries := es, unassembled := r.unassembled + Total(es) - Total(r.entries))
  }

  function Insert(r: Reassembler, index: nat, data: seq<Byte>): Reassembler {
    WithEntries(r, InsertEntry(r.entries, index, data))
  }

  /** One turn of the loop in `send_to_bytestream`: the first entry is written and erased. */
  function AssembleFirst(r: Reassembler): Reassembler
    requires r.entries != [] && r.entries[0].index <= r.expected
  {
    var e := r.entries[0];
    if e.End() > r.expected then
      var newer := e.data[r.expected - e.index..];
      var fit := newer[..Min(|newer|, Remaining(r.output))];
      r.(entries := r.entries[1..], output := Write(r.output, fit),
         expected := r.expected + |fit|, unassembled := r.unassembled - |fit|)
    else
      r.(entries := r.entries[1..])
  }

  function Assemble(r: Reassembler): Reassembler
    decreases |r.entries|
  {
    if r.entries == [] || r.entries[0].index > r.expected then r else Assemble(AssembleFirst(r))
  }

  function CloseIfComplete(r: Reassembler): Reassembler {
    if r.expected == r.eofIndex then r.(output := EndInput(r.output)) else r
  }

  function Absorb(r: Reassembler, data: seq<Byte>, index: nat): Reassembler {
    if index + |data| > r.expected then Assemble(Insert(r, index, data)) else r
  }

  function Push(r: Reassembler, data: seq<Byte>, index: nat, eof: bool): Reassembler {
    CloseIfComplete(Absorb(if eof then r.(eofIndex := index + |data|) else r, data, index))
  }

  function ReadOut(r: Reassembler, len: nat): Reassembler {
    r.(output := Pop(r.output, len))
  }

  // ---------------------------------------------------------------- meaning

  /** Keys strictly increase and no entry reaches past the next key; so entries are disjoint and an empty
      one never lies inside another. */
  ghost predicate Sorted(es: seq<Entry>) {
    forall i, j | 0 <= i < j < |es| :: es[i].index < es[j].index && es[i].End() <= es[j].index
  }

  ghost predicate Beyond(es: seq<Entry>, bound: nat) {
    forall i | 0 <= i < |es| :: es[i].index > bound
  }

  ghost predicate Covers(es: seq<Entry>, p: nat) {
    exists i | 0 <= i < |es| :: es[i].index <= p < es[i].End()
  }

  ghost predicate InPush(p: nat, index: nat, data: seq<Byte>) {
    index <= p < index + |data|
  }

  /** The set of stream positions the reassembler holds or has delivered. */
  ghost predicate Has(r: Reassembler, p: nat) {
    p < r.expected || Covers(r.entries, p)
  }

  /** `data` is what stream `w` has from `index` on. Nothing is asked of an empty substring. */
  ghost predicate SliceOf(index: nat, data: seq<Byte>, w: seq<Byte>) {
    forall k | 0 <= k < |data| :: index + k < |w| && data[k] == w[index + k]
  }

  lemma SliceEnd(index: nat, data: seq<Byte>, w: seq<Byte>)
    requires SliceOf(index, data, w) && data != []
    ensures index + |data| <= |w|
  {
    var last := data[|data| - 1];
    assert last == w[index + (|data| - 1)];
  }

  ghost predicate Slices(es: seq<Entry>, w: seq<Byte>) {
    forall i | 0 <= i < |es| :: SliceOf(es[i].index, es[i].data, w)
  }

  ghost predicate All(es: seq<Entry>, ok: Entry -> bool) {
    forall i | 0 <= i < |es| :: ok(es[i])
  }

  ghost predicate AllParts(index: nat, data: seq<Byte>, ok: Entry -> bool) {
    forall lo, hi | 0 <= lo <= hi <= |data| :: ok(Entry(index + lo, data[lo..hi]))
  }

  ghost predicate EndsBy(es: seq<Entry>, bound: nat) {
    forall i | 0 <= i < |es| && |es[i].data| > 0 :: es[i].End() <= bound
  }

  ghost predicate Inv(r: Reassembler) {
    && Sorted(r.entries)
    && Beyond(r.entries, r.expected)
    && r.expected == |r.output.history|
    && r.unassembled >= Total(r.entries)
    && (r.expected == r.eofIndex ==> r.output.ended)
  }

  /** The least position at or after `e` that no entry covers. */
  function Reach(es: seq<Entry>, e: nat): (m: nat)
    ensures m >= e
  {
    if es == [] || es[0].index > e then e else Reach(es[1..], Max(e, es[0].End()))
  }

  // ---------------------------------------------------------------- Total

  lemma {:induction false} TotalConcat(a: seq<Entry>, b: seq<Entry>)
    ensures Total(a + b) == Total(a) + Total(b)
  {
    if a == [] {
      assert a + b == b;
    } else {
      assert (a + b)[1..] == a[1..] + b;
      TotalConcat(a[1..], b);
    }
  }

  /** Disjoint entries inside [lo, hi) hold at most hi - lo bytes. */
  lemma {:induction false} TotalBound(es: seq<Entry>, lo: nat, hi: nat)
    requires Sorted(es) && lo <= hi
    requires forall i | 0 <= i < |es| :: lo <= es[i].index && (|es[i].data| > 0 ==> es[i].End() <= hi)
    ensures Total(es) <= hi - lo
  {
    if es != [] {
      if |es[0].data| > 0 {
        TotalBound(es[1..], es[0].End(), hi);
      } else {
        TotalBound(es[1..], lo, hi);
      }
    }
  }

  // ---------------------------------------------------------------- merge and insert

  /** What is around the slot at position `k` once the swallowed entries are gone. */
  ghost predicate Slot(pruned: seq<Entry>, k: nat, index: nat, end: nat) {
    && k <= |pruned|
    && Sorted(pruned)
    && (forall i | 0 <= i < k :: pruned[i].index < index)
    && (forall i | k <= i < |pruned| :: index <= pruned[i].index && end < pruned[i].End())
  }

  lemma {:induction false} PruneAll(es: seq<Entry>, index: nat, end: nat, ok: Entry -> bool)
    requires All(es, ok)
    ensures All(Prune(es, index, end), ok)
  {
    if es != [] { PruneAll(es[1..], index, end, ok); }
  }

  lemma {:induction false} PruneOutside(es: seq<Entry>, index: nat, end: nat)
    ensures All(Prune(es, index, end), (e: Entry) => !Inside(e, index, end))
  {
    if es != [] { PruneOutside(es[1..], index, end); }
  }

  lemma {:induction false} PruneSorted(es: seq<Entry>, index: nat, end: nat)
    requires Sorted(es)
    ensures Sorted(Prune(es, index, end))
  {
    if es != [] {
      PruneSorted(es[1..], index, end);
      PruneAll(es[1..], index, end, (e: Entry) => es[0].index < e.index && es[0].End() <= e.index);
    }
  }

  lemma {:induction false} PruneMakesSlot(es: seq<Entry>, index: nat, end: nat)
    requires Sorted(es)
    ensures var pruned := Prune(es, index, end);
            Slot(pruned, LowerBound(pruned, index), index, end)
  {
    PruneSorted(es, index, end);
    PruneOutside(es, index, end);
    var pruned := Prune(es, index, end);
    var k := LowerBound(pruned, index);
    forall i | k <= i < |pruned| ensures index <= pruned[i].index && end < pruned[i].End() {
      assert pruned[k].index <= pruned[i].index;
      assert !Inside(pruned[i], index, end);
    }
  }

  lemma {:induction false} TailCovers(es: seq<Entry>, p: nat)
    requires es != []
    ensures Covers(es, p) <==> es[0].index <= p < es[0].End() || Covers(es[1..], p)
  {
    if Covers(es, p) {
      var i :| 0 <= i < |es| && es[i].index <= p < es[i].End();
      if i > 0 { assert es[1..][i - 1] == es[i]; }
    }
    if Covers(es[1..], p) {
      var i :| 0 <= i < |es[1..]| && es[1..][i].index <= p < es[1..][i].End();
      assert es[i + 1] == es[1..][i];
    }
  }

  lemma {:induction false} CoversConcat(a: seq<Entry>, b: seq<Entry>, p: nat)
    ensures Covers(a + b, p) <==> Covers(a, p) || Covers(b, p)
  {
    if Covers(a, p) {
      var i :| 0 <= i < |a| && a[i].index <= p < a[i].End();
      assert (a + b)[i] == a[i];
    }
    if Covers(b, p) {
      var i :| 0 <= i < |b| && b[i].index <= p < b[i].End();
      assert (a + b)[i + |a|] == b[i];
    }
  }

  lemma {:induction false} PruneCovers(es: seq<Entry>, index: nat, end: nat, p: nat)
    ensures Covers(Prune(es, index, end), p) ==> Covers(es, p)
    ensures Covers(es, p) ==> Covers(Prune(es, index, end), p) || index <= p < end
  {
    if es != [] {
      PruneCovers(es[1..], index, end, p);
      TailCovers(es, p);
      if !Inside(es[0], index, end) {
        assert Prune(es, index, end)[1..] == Prune(es[1..], index, end);
        TailCovers(Prune(es, index, end), p);
      }
    }
  }

  /** Where the next entry begins, counted from `index`, or the end of the substring if that comes first. */
  function CutAt(pruned: seq<Entry>, k: nat, index: nat, data: seq<Byte>): (cut: nat)
    requires k <= |pruned|
    ensures cut <= |data|
  {
    if k < |pruned| && index < pruned[k].index < index + |data| then pruned[k].index - index else |data|
  }

  /** How far the previous entry reaches past `index`. */
  function SkipTo(pruned: seq<Entry>, k: nat, index: nat): nat
    requires k <= |pruned|
  {
    if k > 0 && pruned[k - 1].End() > index then pruned[k - 1].End() - index else 0
  }

  lemma {:induction false} TrimIsSlice(pruned: seq<Entry>, k: nat, index: nat, data: seq<Byte>, skip: nat, cut: nat)
    requires k <= |pruned| && Trim(pruned, k, index, data).Some?
    requires skip == SkipTo(pruned, k, index) && cut == CutAt(pruned, k, index, data)
    ensures skip <= cut && Trim(pruned, k, index, data) == Some(Entry(index + skip, data[skip..cut]))
  {
    var front := data[..cut];
    assert cut == |data| ==> front == data;
    assert skip <= cut;
    assert front[skip..] == data[skip..cut];
    assert skip == 0 ==> front[skip..] == front;
  }

  /** The trimmed substring is a part of what was pushed, after the previous entry and before the next. */
  lemma {:induction false} TrimPart(pruned: seq<Entry>, k: nat, index: nat, data: seq<Byte>, e: Entry)
    requires k <= |pruned| && Trim(pruned, k, index, data) == Some(e)
    requires k > 0 ==> pruned[k - 1].index < index
    requires k < |pruned| ==> index <= pruned[k].index && index + |data| < pruned[k].End()
    ensures index <= e.index && e.End() <= index + |data|
    ensures e.data == data[e.index - index..e.End() - index]
    ensures k > 0 ==> pruned[k - 1].index < e.index && pruned[k - 1].End() <= e.index
    ensures k < |pruned| ==> e.End() <= pruned[k].index
  {
    TrimIsSlice(pruned, k, index, data, SkipTo(pruned, k, index), CutAt(pruned, k, index, data));
  }

  /** The trimmed substring fits between its neighbours and is a part of what was pushed. */
  lemma {:induction false} TrimFits(pruned: seq<Entry>, k: nat, index: nat, data: seq<Byte>)
    requires Slot(pruned, k, index, index + |data|)
    requires Trim(pruned, k, index, data).Some?
    ensures var e := Trim(pruned, k, index, data).value;
            && index <= e.index && e.End() <= index + |data|
            && e.data == data[e.index - index..e.End() - index]
            && (forall i | 0 <= i < k :: pruned[i].index < e.index && pruned[i].End() <= e.index)
            && (forall i | k <= i < |pruned| :: e.End() <= pruned[i].index)
  {
    TrimPart(pruned, k, index, data, Trim(pruned, k, index, data).value);
    BeforeSlot(pruned, k, Trim(pruned, k, index, data).value.index);
  }

  /** In a sorted map the neighbours of a position speak for all entries on their side. */
  lemma {:induction false} BeforeSlot(pruned: seq<Entry>, k: nat, bound: nat)
    requires Sorted(pruned) && k <= |pruned|
    ensures k > 0 && pruned[k - 1].index < bound && pruned[k - 1].End() <= bound ==>
              forall i | 0 <= i < k :: pruned[i].index < bound && pruned[i].End() <= bound
    ensures forall i | k <= i < |pruned| :: pruned[k].index <= pruned[i].index
  {
  }

  /** What trimming removes from the substring is stored already. */
  lemma {:induction false} TrimCovers(pruned: seq<Entry>, k: nat, index: nat, data: seq<Byte>, p: nat)
    requires Slot(pruned, k, index, index + |data|)
    requires InPush(p, index, data)
    ensures var t := Trim(pruned, k, index, data);
            Covers(pruned, p) || (t.Some? && InPush(p, t.value.index, t.value.data))
  {
    if k < |pruned| && pruned[k].index <= p {
      assert Covers(pruned, p);
    } else if k > 0 && p < pruned[k - 1].End() {
      assert Covers(pruned, p);
    }
  }

  lemma {:induction false} EmplaceAt(es: seq<Entry>, e: Entry, k: nat)
    requires Sorted(es) && k <= |es|
    requires forall i | 0 <= i < k :: es[i].index < e.index && es[i].End() <= e.index
    requires forall i | k <= i < |es| :: e.End() <= es[i].index
    ensures if k < |es| && es[k].index == e.index then e.data == [] && Emplace(es, e) == es
            else Emplace(es, e) == es[..k] + [e] + es[k..]
    ensures Sorted(Emplace(es, e))
    ensures Total(Emplace(es, e)) == Total(es) + |e.data|
  {
    assert LowerBound(es, e.index) == k;
    if k < |es| && es[k].index == e.index {
    } else {
      var es' := es[..k] + [e] + es[k..];
      SpliceSorted(es, e, k);
      assert es == es[..k] + es[k..];
      TotalConcat(es[..k], es[k..]);
      TotalConcat(es[..k] + [e], es[k..]);
      TotalConcat(es[..k], [e]);
    }
  }

  lemma {:induction false} SpliceSorted(es: seq<Entry>, e: Entry, k: nat)
    requires Sorted(es) && k <= |es|
    requires forall i | 0 <= i < k :: es[i].index < e.index && es[i].End() <= e.index
    requires forall i | k <= i < |es| :: e.index < es[i].index && e.End() <= es[i].index
    ensures Sorted(es[..k] + [e] + es[k..])
  {
    var es' := es[..k] + [e] + es[k..];
    forall i, j | 0 <= i < j < |es'| ensures es'[i].index < es'[j].index && es'[i].End() <= es'[j].index {
      assert es'[i] == if i < k then es[i] else if i == k then e else es[i - 1];
      assert es'[j] == if j < k then es[j] else if j == k then e else es[j - 1];
    }
  }

  lemma {:induction false} SpliceCovers(es: seq<Entry>, e: Entry, k: nat, p: nat)
    requires k <= |es|
    ensures Covers(es[..k] + [e] + es[k..], p) <==> Covers(es, p) || InPush(p, e.index, e.data)
  {
    assert es == es[..k] + es[k..];
    CoversConcat(es[..k], es[k..], p);
    CoversConcat(es[..k] + [e], es[k..], p);
    CoversConcat(es[..k], [e], p);
    assert Covers([e], p) <==> InPush(p, e.index, e.data) by { assert [e][0] == e; }
  }

  /** Trimming and emplacing at a slot. */
  lemma {:induction false} FillSlot(pruned: seq<Entry>, k: nat, index: nat, data: seq<Byte>)
    requires Slot(pruned, k, index, index + |data|)
    requires Trim(pruned, k, index, data).Some?
    ensures var e := Trim(pruned, k, index, data).value;
            && index <= e.index && e.End() <= index + |data|
            && e.data == data[e.index - index..e.End() - index]
            && Sorted(Emplace(pruned, e))
            && Total(Emplace(pruned, e)) == Total(pruned) + |e.data|
            && (Emplace(pruned, e) == pruned[..k] + [e] + pruned[k..]
                || (e.data == [] && Emplace(pruned, e) == pruned))
  {
    TrimFits(pruned, k, index, data);
    EmplaceAt(pruned, Trim(pruned, k, index, data).value, k);
  }

  lemma {:induction false} PlaceKeeps(pruned: seq<Entry>, k: nat, index: nat, data: seq<Byte>)
    requires Slot(pruned, k, index, index + |data|)
    ensures var t := Trim(pruned, k, index, data);
            && Sorted(Place(pruned, k, index, data))
            && Total(Place(pruned, k, index, data)) == Total(pruned) + if t.Some? then |t.value.data| else 0
  {
    if Trim(pruned, k, index, data).Some? { FillSlot(pruned, k, index, data); }
  }

  /** Insertion keeps the order. */
  lemma {:induction false} InsertSorted(es: seq<Entry>, index: nat, data: seq<Byte>)
    requires Sorted(es)
    ensures Sorted(InsertEntry(es, index, data))
  {
    if es != [] {
      PruneMakesSlot(es, index, index + |data|);
      var pruned := Prune(es, index, index + |data|);
      PlaceKeeps(pruned, LowerBound(pruned, index), index, data);
    }
  }

  /** Whatever holds of every old entry and of every part of the substring holds of every new entry. */
  lemma {:induction false} InsertAll(es: seq<Entry>, index: nat, data: seq<Byte>, ok: Entry -> bool)
    requires Sorted(es) && All(es, ok) && AllParts(index, data, ok)
    ensures All(InsertEntry(es, index, data), ok)
  {
    if es == [] {
      assert data == data[0..|data|];
      assert ok(Entry(index + 0, data[0..|data|]));
    } else {
      var pruned := Prune(es, index, index + |data|);
      var k := LowerBound(pruned, index);
      PruneMakesSlot(es, index, index + |data|);
      PruneAll(es, index, index + |data|, ok);
      if Trim(pruned, k, index, data).Some? { FillSlotAll(pruned, k, index, data, ok); }
    }
  }

  lemma {:induction false} SpliceAll(es: seq<Entry>, e: Entry, k: nat, ok: Entry -> bool)
    requires k <= |es| && All(es, ok) && ok(e)
    ensures All(es[..k] + [e] + es[k..], ok)
  {
  }

  lemma {:induction false} FillSlotAll(pruned: seq<Entry>, k: nat, index: nat, data: seq<Byte>, ok: Entry -> bool)
    requires Slot(pruned, k, index, index + |data|)
    requires Trim(pruned, k, index, data).Some?
    requires All(pruned, ok) && AllParts(index, data, ok)
    ensures All(Emplace(pruned, Trim(pruned, k, index, data).value), ok)
  {
    FillSlot(pruned, k, index, data);
    var e := Trim(pruned, k, index, data).value;
    var lo, hi := e.index - index, e.End() - index;
    assert ok(Entry(index + lo, data[lo..hi]));
    SpliceAll(pruned, e, k, ok);
  }

  /** No position is lost or invented by an insertion. */
  lemma {:induction false} InsertCovers(es: seq<Entry>, index: nat, data: seq<Byte>, p: nat)
    requires Sorted(es)
    ensures Covers(InsertEntry(es, index, data), p) <==> Covers(es, p) || InPush(p, index, data)
  {
    if es == [] {
      assert InsertEntry(es, index, data)[0] == Entry(index, data);
    } else {
      PlaceCovers(es, index, data, p);
      PruneCovers(es, index, index + |data|, p);
    }
  }

  lemma {:induction false} PlaceCovers(es: seq<Entry>, index: nat, data: seq<Byte>, p: nat)
    requires Sorted(es) && es != []
    ensures Covers(InsertEntry(es, index, data), p)
            <==> Covers(Prune(es, index, index + |data|), p) || InPush(p, index, data)
  {
    var pruned := Prune(es, index, index + |data|);
    PruneMakesSlot(es, index, index + |data|);
    FillSlotCovers(pruned, LowerBound(pruned, index), index, data, p);
  }

  lemma {:induction false} FillSlotCovers(pruned: seq<Entry>, k: nat, index: nat, data: seq<Byte>, p: nat)
    requires Slot(pruned, k, index, index + |data|)
    ensures Covers(Place(pruned, k, index, data), p) <==> Covers(pruned, p) || InPush(p, index, data)
  {
    if InPush(p, index, data) { TrimCovers(pruned, k, index, data, p); }
    var t := Trim(pruned, k, index, data);
    if t.Some? {
      FillSlot(pruned, k, index, data);
      SpliceCovers(pruned, t.value, k, p);
    }
  }

  // ---------------------------------------------------------------- assembling

  /** `Reach` is the least uncovered position. */
  lemma {:induction false} ReachIsLeast(es: seq<Entry>, e: nat)
    requires Sorted(es)
    ensures !Covers(es, Reach(es, e))
    ensures forall p | e <= p < Reach(es, e) :: Covers(es, p)
    decreases |es|
  {
    if es == [] || es[0].index > e {
      assert forall i | 0 <= i < |es| :: es[i].index > e;
    } else {
      var e1 := Max(e, es[0].End());
      ReachIsLeast(es[1..], e1);
      var m := Reach(es, e);
      TailCovers(es, m);
      forall p | e <= p < m ensures Covers(es, p) {
        TailCovers(es, p);
      }
    }
  }

  /** Assembling leaves a tail of the map, in order and beyond the new mark, and only ever appends to the
      output. While input is open it stops at the least missing position, or where the output is full. */
  lemma {:induction false} AssembleKeeps(r: Reassembler)
    requires Sorted(r.entries) && r.unassembled >= Total(r.entries)
    ensures var r' := Assemble(r);
            && Sorted(r'.entries) && Beyond(r'.entries, r'.expected)
            && r'.unassembled >= Total(r'.entries)
            && r.expected <= r'.expected && r'.eofIndex == r.eofIndex
            && r'.output == r.output.(history := r'.output.history)
            && r.output.history <= r'.output.history
            && (r.output.ended ==> r'.output == r.output)
            && (!r.output.ended && r.expected == |r.output.history| ==>
                  r'.expected == |r'.output.history|
                  == Min(Reach(r.entries, r.expected), r.expected + Remaining(r.output)))
    decreases |r.entries|
  {
    if r.entries == [] || r.entries[0].index > r.expected {
      assert forall i | 0 <= i < |r.entries| :: r.entries[i].index > r.expected;
    } else {
      var r1 := AssembleFirst(r);
      AssembleFirstStep(r);
      AssembleKeeps(r1);
      if r1.expected < Max(r.expected, r.entries[0].End()) {
        ReachGrows(r1.entries, r1.expected, Max(r.expected, r.entries[0].End()));
      }
    }
  }

  lemma {:induction false} AssembleAll(r: Reassembler, ok: Entry -> bool)
    requires All(r.entries, ok)
    ensures All(Assemble(r).entries, ok)
    decreases |r.entries|
  {
    if r.entries != [] && r.entries[0].index <= r.expected { AssembleAll(AssembleFirst(r), ok); }
  }

  lemma {:induction false} AssembleFirstStep(r: Reassembler)
    requires Sorted(r.entries) && r.unassembled >= Total(r.entries)
    requires r.entries != [] && r.entries[0].index <= r.expected
    ensures var r1 := AssembleFirst(r);
            && Sorted(r1.entries) && r1.unassembled >= Total(r1.entries)
            && r1.expected == Min(Max(r.expected, r.entries[0].End()), r.expected + Remaining(r.output))
            && r1.output == r.output.(history := r1.output.history)
            && r.output.history <= r1.output.history
            && (r.output.ended ==> r1.output == r.output)
            && (!r.output.ended ==> |r1.output.history| - |r.output.history| == r1.expected - r.expected)
  {
  }

  lemma {:induction false} ReachGrows(es: seq<Entry>, e: nat, f: nat)
    requires e <= f
    ensures Reach(es, e) <= Reach(es, f)
    decreases |es|
  {
    if es != [] && es[0].index <= f {
      if es[0].index <= e {
        ReachGrows(es[1..], Max(e, es[0].End()), Max(f, es[0].End()));
      }
    }
  }

  /** The bytes assembling drops because the output is full. */
  function Discarded(r: Reassembler): nat
    decreases |r.entries|
  {
    if r.entries == [] || r.entries[0].index > r.expected then 0
    else
      var newer := Max(r.expected, r.entries[0].End()) - r.expected;
      newer - Min(newer, Remaining(r.output)) + Discarded(AssembleFirst(r))
  }

  /** While input is open, nothing is dropped exactly when there is room up to the least missing position. */
  lemma {:induction false} DiscardedIff(r: Reassembler)
    requires Sorted(r.entries) && r.unassembled >= Total(r.entries) && !r.output.ended
    ensures Discarded(r) == 0 <==> Reach(r.entries, r.expected) <= r.expected + Remaining(r.output)
    decreases |r.entries|
  {
    if r.entries != [] && r.entries[0].index <= r.expected {
      AssembleFirstStep(r);
      if r.entries[0].End() <= r.expected + Remaining(r.output) { DiscardedIff(AssembleFirst(r)); }
    }
  }

  /** If nothing is dropped, assembling changes no position. */
  lemma {:induction false} AssembleHas(r: Reassembler, p: nat)
    requires Discarded(r) == 0
    ensures Has(Assemble(r), p) <==> Has(r, p)
    decreases |r.entries|
  {
    if r.entries != [] && r.entries[0].index <= r.expected {
      AssembleHas(AssembleFirst(r), p);
      TailCovers(r.entries, p);
    }
  }

  /** If something is dropped, a position is lost: assembling stops right there. */
  lemma {:induction false} AssembleLoses(r: Reassembler) returns (q: nat)
    requires Sorted(r.entries) && r.unassembled >= Total(r.entries) && Discarded(r) > 0
    ensures Has(r, q) && !Has(Assemble(r), q)
    decreases |r.entries|
  {
    var r1 := AssembleFirst(r);
    AssembleFirstStep(r);
    if r.entries[0].End() > r.expected + Remaining(r.output) {
      q := r1.expected;
      assert r.entries[0].index <= q < r.entries[0].End();
      assert forall i | 0 <= i < |r1.entries| :: r1.entries[i] == r.entries[i + 1];
      assert Assemble(r1) == r1;
    } else {
      q := AssembleLoses(r1);
      TailCovers(r.entries, q);
    }
  }

  /** What assembling takes off the counter, against what it takes off the map: it forgets the bytes an entry
      had below the mark, and the bytes that are dropped. */
  lemma {:induction false} AssembleCounts(r: Reassembler)
    requires Sorted(r.entries) && r.unassembled >= Total(r.entries)
    requires forall i | 0 < i < |r.entries| :: r.expected < r.entries[i].index
    ensures var below := if r.entries != [] && r.entries[0].index < r.expected
                         then Min(r.expected, r.entries[0].End()) - r.entries[0].index else 0;
            Assemble(r).unassembled - Total(Assemble(r).entries)
            == r.unassembled - Total(r.entries) + below + Discarded(r)
    decreases |r.entries|
  {
    if r.entries != [] && r.entries[0].index <= r.expected {
      AssembleFirstStep(r);
      AssembleCounts(AssembleFirst(r));
    }
  }

  /** Assembling appends slices of `w` when all entries are slices of `w`. */
  lemma {:induction false} AssembleSlices(r: Reassembler, w: seq<Byte>)
    requires r.output.ended || r.expected == |r.output.history|
    requires Slices(r.entries, w) && r.output.history <= w
    ensures Assemble(r).output.history <= w
    ensures Slices(Assemble(r).entries, w)
    decreases |r.entries|
  {
    if r.entries != [] && r.entries[0].index <= r.expected {
      var e := r.entries[0];
      var r1 := AssembleFirst(r);
      var h := r1.output.history;
      assert SliceOf(e.index, e.data, w);
      forall i | 0 <= i < |h| ensures i < |w| && h[i] == w[i] {
        if i >= |r.output.history| {
          assert h[i] == e.data[i - e.index];
        } else {
          assert h[i] == r.output.history[i];
        }
      }
      PrefixByIndex(h, w);
      assert forall i | 0 <= i < |r1.entries| :: r1.entries[i] == r.entries[i + 1];
      AssembleSlices(r1, w);
    }
  }

  // ---------------------------------------------------------------- one push

  /** New bytes at the mark after input has ended, with room in the output: the source moves the mark but the
      output takes nothing. */
  predicate OverrunsEnd(r: Reassembler, data: seq<Byte>, index: nat) {
    r.output.ended && index <= r.expected < index + |data| && Remaining(r.output) > 0
  }

  /** The least position missing once the substring is added to what is held. */
  function NextMissing(r: Reassembler, data: seq<Byte>, index: nat): nat {
    if index + |data| > r.expected then Reach(InsertEntry(r.entries, index, data), r.expected) else r.expected
  }

  lemma {:induction false} NextMissingIsLeast(r: Reassembler, data: seq<Byte>, index: nat)
    requires Inv(r)
    ensures var m := NextMissing(r, data, index);
            && !Has(r, m) && !InPush(m, index, data)
            && forall p: nat | p < m :: Has(r, p) || InPush(p, index, data)
  {
    var m := NextMissing(r, data, index);
    if index + |data| > r.expected {
      InsertSorted(r.entries, index, data);
      ReachIsLeast(InsertEntry(r.entries, index, data), r.expected);
      InsertCovers(r.entries, index, data, m);
      forall p: nat | p < m ensures Has(r, p) || InPush(p, index, data) {
        InsertCovers(r.entries, index, data, p);
      }
    }
  }

  /** Keys in order, entries disjoint and beyond the mark, nothing stored that is not counted. */
  ghost predicate Ordered(r: Reassembler) {
    Sorted(r.entries) && Beyond(r.entries, r.expected) && r.unassembled >= Total(r.entries)
  }

  lemma {:induction false} AbsorbOrders(r: Reassembler, data: seq<Byte>, index: nat)
    requires Ordered(r)
    ensures var r' := Absorb(r, data, index);
            && Ordered(r')
            && r.expected <= r'.expected && r'.eofIndex == r.eofIndex
            && r'.output == r.output.(history := r'.output.history)
            && r.output.history <= r'.output.history
            && (r.output.ended ==> r'.output == r.output)
  {
    if index + |data| > r.expected {
      InsertSorted(r.entries, index, data);
      AssembleKeeps(Insert(r, index, data));
    }
  }

  /** Every push, whatever it holds and wherever it points, keeps the map ordered, disjoint and beyond the mark,
      keeps every stored byte counted, and takes nothing back. */
  lemma {:induction false} PushOrders(r: Reassembler, data: seq<Byte>, index: nat, eof: bool)
    requires Ordered(r)
    ensures var r' := Push(r, data, index, eof);
            && Ordered(r')
            && r.expected <= r'.expected
            && r.output.history <= r'.output.history
            && r'.output.popped == r.output.popped && r'.output.capacity == r.output.capacity
            && r'.output.error == r.output.error
            && (r'.output.ended <==> r.output.ended || r'.expected == r'.eofIndex)
            && r'.eofIndex == (if eof then index + |data| else r.eofIndex)
  {
    AbsorbOrders(if eof then r.(eofIndex := index + |data|) else r, data, index);
  }

  lemma {:induction false} AbsorbMark(r: Reassembler, data: seq<Byte>, index: nat)
    requires Ordered(r) && r.expected == |r.output.history|
    ensures var r' := Absorb(r, data, index);
            if OverrunsEnd(r, data, index) then r'.expected > |r'.output.history|
            else r'.expected == |r'.output.history|
                 == Min(NextMissing(r, data, index), r.output.popped + r.output.capacity)
  {
    if index + |data| > r.expected {
      var es := InsertEntry(r.entries, index, data);
      if index > r.expected {
        InsertBeyond(r.entries, data, index, r.expected);
        AssembleNone(r, es);
      } else {
        InsertSorted(r.entries, index, data);
        InsertAtMark(r.entries, data, index, r.expected);
        AssembleMark(Insert(r, index, data));
      }
    }
  }

  /** Assembling when the first entry reaches across the mark. */
  lemma {:induction false} AssembleMark(r: Reassembler)
    requires Sorted(r.entries) && r.unassembled >= Total(r.entries) && r.expected == |r.output.history|
    requires r.entries != [] && r.entries[0].index <= r.expected < r.entries[0].End()
    ensures var r' := Assemble(r);
            if r.output.ended && Remaining(r.output) > 0 then r'.expected > |r'.output.history|
            else r'.expected == |r'.output.history|
                 == Min(Reach(r.entries, r.expected), r.expected + Remaining(r.output))
  {
    AssembleKeeps(r);
    if r.output.ended {
      var r1 := AssembleFirst(r);
      AssembleFirstStep(r);
      AssembleKeeps(r1);
      assert forall i | 0 <= i < |r1.entries| :: r1.entries[i] == r.entries[i + 1];
    }
  }

  /** What a push does to a sound reassembler: it stays sound, and assembles up to the next missing position or
      to a full output, exactly unless the push overruns the end. */
  lemma {:induction false} PushKeeps(r: Reassembler, data: seq<Byte>, index: nat, eof: bool)
    requires Inv(r)
    ensures var r' := Push(r, data, index, eof);
            && (Inv(r') <==> !OverrunsEnd(r, data, index))
            && (!OverrunsEnd(r, data, index) ==>
                  r'.expected == Min(NextMissing(r, data, index), r.output.popped + r.output.capacity))
  {
    PushOrders(r, data, index, eof);
    AbsorbMark(if eof then r.(eofIndex := index + |data|) else r, data, index);
  }

  /** Such a push: an empty stream that has ended, and then a byte. The mark moves past the output. */
  lemma MarkOverrunsOutput()
    ensures var r := Push(NewReassembler(8), [], 0, true);
            var r' := Push(r, [7], 0, false);
            Inv(r) && OverrunsEnd(r, [7], 0) && r'.expected == 1 && r'.output.history == []
  {
    var r := Push(NewReassembler(8), [], 0, true);
    var i := Insert(r, 0, [7]);
    assert i.entries == [Entry(0, [7])];
    assert AssembleFirst(i).entries == [];
  }

  /** A substring that reaches back to the mark becomes the first entry, whole at its front. */
  lemma {:induction false} InsertAtMark(es: seq<Entry>, data: seq<Byte>, index: nat, mark: nat)
    requires Sorted(es) && Beyond(es, mark)
    requires index <= mark < index + |data|
    ensures var es' := InsertEntry(es, index, data);
            && es' != [] && es'[0].index == index && es'[0].End() > mark
            && (forall i | 0 < i < |es'| :: mark < es'[i].index)
  {
    var e := InsertFirst(es, data, index, mark);
    PruneAll(es, index, index + |data|, (e: Entry) => e.index > mark);
  }

  lemma {:induction false} InsertFirst(es: seq<Entry>, data: seq<Byte>, index: nat, mark: nat) returns (e: Entry)
    requires Sorted(es) && Beyond(es, mark)
    requires index <= mark < index + |data|
    ensures e.index == index && e.End() > mark
    ensures InsertEntry(es, index, data) == [e] + Prune(es, index, index + |data|)
  {
    e := Entry(index, data);
    if es != [] {
      var pruned := Prune(es, index, index + |data|);
      PruneAll(es, index, index + |data|, (e: Entry) => e.index > mark);
      assert LowerBound(pruned, index) == 0;
      e := Trim(pruned, 0, index, data).value;
      assert LowerBound(pruned, e.index) == 0;
      assert Emplace(pruned, e) == [e] + pruned;
    }
  }

  /** Only the first entry reaches back to the mark, and it reaches across. */
  ghost predicate Across(es: seq<Entry>, index: nat, mark: nat) {
    && Sorted(es) && es != [] && es[0].index == index <= mark < es[0].End()
    && forall i | 0 < i < |es| :: mark < es[i].index
  }

  /** Everything is beyond the mark, or the first entry reaches across it. */
  ghost predicate Shaped(es: seq<Entry>, index: nat, mark: nat) {
    if index > mark then Beyond(es, mark) else Across(es, index, mark)
  }

  /** A substring with something beyond the mark goes beyond it or across it. */
  lemma {:induction false} InsertShape(es: seq<Entry>, data: seq<Byte>, index: nat, mark: nat)
    requires Sorted(es) && Beyond(es, mark) && index + |data| > mark
    ensures Shaped(InsertEntry(es, index, data), index, mark)
  {
    if index > mark {
      InsertBeyond(es, data, index, mark);
    } else {
      InsertSorted(es, index, data);
      InsertAtMark(es, data, index, mark);
    }
  }

  lemma {:induction false} InsertBeyond(es: seq<Entry>, data: seq<Byte>, index: nat, mark: nat)
    requires Sorted(es) && Beyond(es, mark)
    requires index > mark
    ensures Beyond(InsertEntry(es, index, data), mark)
  {
    InsertAll(es, index, data, (e: Entry) => e.index > mark);
  }

  lemma {:induction false} AssembleNone(r: Reassembler, es: seq<Entry>)
    requires Beyond(es, r.expected)
    ensures var r' := WithEntries(r, es);
            Assemble(r') == r' && Discarded(r') == 0
  {
  }

  /** The bytes a push makes `send_to_bytestream` cut off and forget. */
  function CutBytes(r: Reassembler, data: seq<Byte>, index: nat): nat {
    if index + |data| > r.expected then Discarded(Insert(r, index, data)) else 0
  }

  /** Nothing is cut exactly when the output has room up to the next missing position (unless the push overruns
      the end, which takes no room). */
  lemma {:induction false} NothingCutIff(r: Reassembler, data: seq<Byte>, index: nat)
    requires Inv(r) && !OverrunsEnd(r, data, index)
    ensures CutBytes(r, data, index) == 0 <==> NextMissing(r, data, index) <= r.output.popped + r.output.capacity
  {
    if index + |data| > r.expected {
      var es := InsertEntry(r.entries, index, data);
      InsertSorted(r.entries, index, data);
      if index > r.expected {
        InsertBeyond(r.entries, data, index, r.expected);
        AssembleNone(r, es);
      } else {
        InsertAtMark(r.entries, data, index, r.expected);
        if !r.output.ended { DiscardedIff(Insert(r, index, data)); }
      }
    }
  }

  /** The interval map refines a plain set of positions: a push adds its positions and nothing else changes,
      exactly when no byte is cut. */
  lemma {:induction false} PushRefinesSet(r: Reassembler, data: seq<Byte>, index: nat, eof: bool)
    requires Ordered(r)
    ensures (forall p: nat :: Has(Push(r, data, index, eof), p) <==> Has(r, p) || InPush(p, index, data))
            <==> CutBytes(r, data, index) == 0
  {
    var r1 := if eof then r.(eofIndex := index + |data|) else r;
    EndAside(r, r1, data, index);
    if CutBytes(r, data, index) == 0 {
      forall p: nat ensures Has(Push(r, data, index, eof), p) <==> Has(r, p) || InPush(p, index, data) {
        PushHas(r, data, index, eof, p);
      }
    } else {
      var q := AbsorbLoses(r1, data, index);
      assert (Has(r, q) || InPush(q, index, data)) && !Has(Push(r, data, index, eof), q);
    }
  }

  lemma {:induction false} AbsorbHas(r: Reassembler, data: seq<Byte>, index: nat, p: nat)
    requires Ordered(r) && CutBytes(r, data, index) == 0
    ensures Has(Absorb(r, data, index), p) <==> Has(r, p) || InPush(p, index, data)
  {
    if index + |data| > r.expected {
      InsertCovers(r.entries, index, data, p);
      AssembleHas(Insert(r, index, data), p);
    }
  }

  lemma {:induction false} PushHas(r: Reassembler, data: seq<Byte>, index: nat, eof: bool, p: nat)
    requires Ordered(r) && CutBytes(r, data, index) == 0
    ensures Has(Push(r, data, index, eof), p) <==> Has(r, p) || InPush(p, index, data)
  {
    var r1 := if eof then r.(eofIndex := index + |data|) else r;
    EndAside(r, r1, data, index);
    AbsorbHas(r1, data, index, p);
  }

  lemma {:induction false} AbsorbLoses(r: Reassembler, data: seq<Byte>, index: nat) returns (q: nat)
    requires Ordered(r) && CutBytes(r, data, index) > 0
    ensures (Has(r, q) || InPush(q, index, data)) && !Has(Absorb(r, data, index), q)
  {
    InsertSorted(r.entries, index, data);
    q := AssembleLoses(Insert(r, index, data));
    InsertCovers(r.entries, index, data, q);
  }

  /** The announced end has no part in what is dropped. */
  lemma {:induction false} EndAside(r: Reassembler, r': Reassembler, data: seq<Byte>, index: nat)
    requires r' == r.(eofIndex := r'.eofIndex)
    ensures CutBytes(r', data, index) == CutBytes(r, data, index)
  {
    SameDiscarded(Insert(r, index, data), Insert(r', index, data));
  }

  lemma {:induction false} SameDiscarded(r: Reassembler, r': Reassembler)
    requires r' == r.(eofIndex := r'.eofIndex)
    ensures Discarded(r') == Discarded(r)
    decreases |r.entries|
  {
    if r.entries != [] && r.entries[0].index <= r.expected { SameDiscarded(AssembleFirst(r), AssembleFirst(r')); }
  }

  /** The byte counter against what is really stored, for every push: it overstates by the already assembled
      prefix of a push that straddles the mark, and by the bytes that are cut. */
  lemma {:induction false} PushCounter(r: Reassembler, data: seq<Byte>, index: nat, eof: bool)
    requires Ordered(r)
    ensures var r' := Push(r, data, index, eof);
            var stale := if index < r.expected < index + |data| then r.expected - index else 0;
            r'.unassembled - Total(r'.entries)
            == r.unassembled - Total(r.entries) + stale + CutBytes(r, data, index)
  {
    var r1 := if eof then r.(eofIndex := index + |data|) else r;
    EndAside(r, r1, data, index);
    AbsorbCounts(r1, data, index);
  }

  lemma {:induction false} AbsorbCounts(r: Reassembler, data: seq<Byte>, index: nat)
    requires Ordered(r)
    ensures var r' := Absorb(r, data, index);
            var stale := if index < r.expected < index + |data| then r.expected - index else 0;
            r'.unassembled - Total(r'.entries)
            == r.unassembled - Total(r.entries) + stale + CutBytes(r, data, index)
  {
    if index + |data| > r.expected { InsertCounts(r, data, index); }
  }

  /** What assembling a new map does to the counter. */
  ghost predicate Counts(r: Reassembler, es: seq<Entry>, index: nat) {
    var r' := Assemble(WithEntries(r, es));
    r'.unassembled - Total(r'.entries)
    == r.unassembled - Total(r.entries) + Max(0, r.expected - index) + Discarded(WithEntries(r, es))
  }

  lemma {:induction false} InsertCounts(r: Reassembler, data: seq<Byte>, index: nat)
    requires Ordered(r) && index + |data| > r.expected
    ensures Counts(r, InsertEntry(r.entries, index, data), index)
  {
    InsertShape(r.entries, data, index, r.expected);
    ShapedCounts(r, InsertEntry(r.entries, index, data), index);
  }

  lemma {:induction false} ShapedCounts(r: Reassembler, es: seq<Entry>, index: nat)
    requires r.unassembled >= Total(r.entries) && Shaped(es, index, r.expected)
    ensures Counts(r, es, index)
  {
    if index <= r.expected { AssembleCounts(WithEntries(r, es)); }
  }

  /** `unassembled_bytes` overstates after such a push: bytes are pushed, and then pushed again with more. All are
      delivered and none is stored, but the first ones stay counted. */
  lemma {:induction false} CounterDrifts(capacity: nat, x: seq<Byte>, y: seq<Byte>)
    requires 0 < |x| < |y| <= capacity && |y| < NO_EOF
    ensures var r := Push(Push(NewReassembler(capacity), x, 0, false), y, 0, false);
            r.entries == [] && r.expected == |r.output.history| == |y| && r.unassembled == |x|
  {
    var r0 := NewReassembler(capacity);
    PushOnEmpty(r0, x, 0);
    DriftsAgain(Push(r0, x, 0, false), y);
  }

  lemma {:induction false} DriftsAgain(r: Reassembler, y: seq<Byte>)
    requires Inv(r) && r.entries == [] && r.eofIndex == NO_EOF && !r.output.ended && r.output.popped == 0
    requires r.expected < |y| <= r.output.capacity && |y| < NO_EOF
    ensures var r' := Push(r, y, 0, false);
            && r'.entries == [] && r'.expected == |r'.output.history| == |y|
            && r'.unassembled == r.unassembled + r.expected
  {
    PushOnEmpty(r, y, 0);
  }

  /** A push that reaches across the mark, with an empty map and room for all of it. */
  lemma {:induction false} PushOnEmpty(r: Reassembler, data: seq<Byte>, index: nat)
    requires Inv(r) && r.entries == [] && !r.output.ended && r.eofIndex == NO_EOF
    requires index <= r.expected < index + |data| < NO_EOF && index + |data| - r.expected <= Remaining(r.output)
    ensures var newer := data[r.expected - index..];
            Push(r, data, index, false)
            == r.(expected := index + |data|, output := r.output.(history := r.output.history + newer),
                  unassembled := r.unassembled + (r.expected - index))
  {
    var i := Insert(r, index, data);
    var newer := data[r.expected - index..];
    assert i.entries == [Entry(index, data)] && i.entries[1..] == [];
    assert Total(i.entries) == |data|;
    assert newer[..|newer|] == newer;
    assert AssembleFirst(i) == r.(expected := index + |data|,
                                  output := r.output.(history := r.output.history + newer),
                                  unassembled := r.unassembled + |data| - |newer|);
    assert Assemble(AssembleFirst(i)) == AssembleFirst(i);
  }

  /** The reassembler alone does not bound what it stores: one byte of capacity, any amount held. */
  lemma StorageUnbounded(data: seq<Byte>)
    ensures var r := Push(NewReassembler(1), data, 1, false);
            r.entries == [Entry(1, data)] && Total(r.entries) == |data|
  {
  }

  // ---------------------------------------------------------------- bytes held

  function Range(a: nat, b: nat): (ps: set<nat>)
    ensures forall p: nat :: p in ps <==> a <= p < b
    ensures |ps| == if a < b then b - a else 0
    decreases b - a
  {
    if a < b then {a} + Range(a + 1, b) else {}
  }

  function Positions(es: seq<Entry>): set<nat> {
    if es == [] then {} else Range(es[0].index, es[0].End()) + Positions(es[1..])
  }

  lemma {:induction false} PositionsCovered(es: seq<Entry>, p: nat)
    ensures p in Positions(es) <==> Covers(es, p)
  {
    if es != [] {
      PositionsCovered(es[1..], p);
      TailCovers(es, p);
    }
  }

  /** In a sorted map, bytes stored are positions covered. */
  lemma {:induction false} PositionsCounted(es: seq<Entry>)
    requires Sorted(es)
    ensures |Positions(es)| == Total(es)
  {
    if es != [] {
      PositionsCounted(es[1..]);
      forall p | p in Positions(es[1..]) ensures p >= es[0].End() {
        PositionsCovered(es[1..], p);
        var i :| 0 <= i < |es[1..]| && es[1..][i].index <= p < es[1..][i].End();
        assert es[i + 1] == es[1..][i];
      }
    }
  }

  /** The pushed positions that are neither held nor delivered. */
  ghost function NewPositions(r: Reassembler, data: seq<Byte>, index: nat): set<nat> {
    set p: nat | index <= p < index + |data| && !Has(r, p)
  }

  /** Insertion stores the new positions, and those of the substring below the mark once more. */
  lemma {:induction false} InsertStoresNew(r: Reassembler, data: seq<Byte>, index: nat)
    requires Ordered(r) && index + |data| > r.expected
    ensures Total(InsertEntry(r.entries, index, data))
            == Total(r.entries) + |NewPositions(r, data, index)| + Max(0, r.expected - index)
  {
    var es := InsertEntry(r.entries, index, data);
    var before, added := Positions(r.entries), NewPositions(r, data, index);
    var below := Range(index, Max(index, r.expected));
    InsertSorted(r.entries, index, data);
    PositionsCounted(r.entries);
    PositionsCounted(es);
    forall p: nat ensures p in Positions(es) <==> p in before + added + below {
      PositionsCovered(es, p);
      PositionsCovered(r.entries, p);
      InsertCovers(r.entries, index, data, p);
    }
    forall p | p in before ensures p !in added && p !in below { PositionsCovered(r.entries, p); }
    assert Positions(es) == before + added + below;
    assert |before + added| == |before| + |added|;
  }

  /** Assembling takes off the counter what it moves the mark by. */
  lemma {:induction false} AssembleSpends(r: Reassembler)
    ensures Assemble(r).unassembled + Assemble(r).expected == r.unassembled + r.expected
    decreases |r.entries|
  {
    if r.entries != [] && r.entries[0].index <= r.expected { AssembleSpends(AssembleFirst(r)); }
  }

  /** For every push: the mark and the bytes stored together grow by the new positions, less the bytes cut. */
  lemma {:induction false} PushBytes(r: Reassembler, data: seq<Byte>, index: nat, eof: bool)
    requires Ordered(r)
    ensures var r' := Push(r, data, index, eof);
            r'.expected + Total(r'.entries)
            == r.expected + Total(r.entries) + |NewPositions(r, data, index)| - CutBytes(r, data, index)
  {
    PushCounter(r, data, index, eof);
    if index + |data| > r.expected {
      InsertStoresNew(r, data, index);
      AssembleSpends(Insert(if eof then r.(eofIndex := index + |data|) else r, index, data));
    } else {
      assert NewPositions(r, data, index) == {};
    }
  }

  /** Bytes the reassembler keeps: assembled and not read, and stored. */
  function Held(r: Reassembler): nat { |Unread(r.output)| + Total(r.entries) }

  /** While input is open, a push adds its new bytes to those held, less the ones cut; so the promise to hold no
      more than the capacity is kept exactly when that sum allows. */
  lemma {:induction false} HeldWithinIff(r: Reassembler, data: seq<Byte>, index: nat, eof: bool)
    requires Ordered(r) && !r.output.ended
    ensures var r' := Push(r, data, index, eof);
            var added := |NewPositions(r, data, index)|;
            && Held(r') == Held(r) + added - CutBytes(r, data, index)
            && (Held(r') <= r.output.capacity <==> Held(r) + added <= r.output.capacity + CutBytes(r, data, index))
  {
    PushBytes(r, data, index, eof);
    PushOrders(r, data, index, eof);
    PushWrites(r, data, index, eof);
  }

  /** While input is open the mark moves with the output. */
  lemma {:induction false} PushWrites(r: Reassembler, data: seq<Byte>, index: nat, eof: bool)
    requires Ordered(r) && !r.output.ended
    ensures var r' := Push(r, data, index, eof);
            r'.expected - r.expected == |r'.output.history| - |r.output.history|
  {
    if index + |data| > r.expected {
      InsertSorted(r.entries, index, data);
      AssembleWrites(Insert(if eof then r.(eofIndex := index + |data|) else r, index, data));
    }
  }

  lemma {:induction false} AssembleWrites(r: Reassembler)
    requires Sorted(r.entries) && r.unassembled >= Total(r.entries) && !r.output.ended
    ensures Assemble(r).expected - r.expected == |Assemble(r).output.history| - |r.output.history|
    decreases |r.entries|
  {
    if r.entries != [] && r.entries[0].index <= r.expected {
      AssembleFirstStep(r);
      AssembleWrites(AssembleFirst(r));
    }
  }

  /** When stored bytes end within the capacity's reach: exactly after a push that itself ends there, or that
      reaches back to the mark (whose excess is cut). */
  lemma {:induction false} StorageBoundedIff(r: Reassembler, data: seq<Byte>, index: nat, eof: bool)
    requires Ordered(r) && data != []
    requires EndsBy(r.entries, r.output.popped + r.output.capacity)
    ensures var edge := r.output.popped + r.output.capacity;
            EndsBy(Push(r, data, index, eof).entries, edge) <==> index + |data| <= edge || index <= r.expected
  {
    var r1 := if eof then r.(eofIndex := index + |data|) else r;
    AbsorbStores(r1, data, index, r.output.popped + r.output.capacity);
  }

  lemma {:induction false} AbsorbStores(r: Reassembler, data: seq<Byte>, index: nat, edge: nat)
    requires Ordered(r) && data != [] && EndsBy(r.entries, edge)
    ensures EndsBy(Absorb(r, data, index).entries, edge) <==> index + |data| <= edge || index <= r.expected
  {
    if index + |data| > r.expected {
      var pruned := Prune(r.entries, index, index + |data|);
      if index <= r.expected {
        var e := InsertFirst(r.entries, data, index, r.expected);
        PruneEndsBy(r.entries, index, index + |data|, edge);
        FirstErased(r, [e] + pruned, pruned, edge);
      } else {
        InsertBeyond(r.entries, data, index, r.expected);
        AssembleNone(r, InsertEntry(r.entries, index, data));
        InsertStores(r.entries, data, index, edge);
      }
    }
  }

  /** What is left when the first entry has been assembled. */
  lemma {:induction false} FirstErased(r: Reassembler, es: seq<Entry>, rest: seq<Entry>, bound: nat)
    requires es != [] && es == [es[0]] + rest && es[0].index <= r.expected && EndsBy(rest, bound)
    ensures var i := WithEntries(r, es);
            EndsBy(Assemble(i).entries, bound)
  {
    var i := WithEntries(r, es);
    assert AssembleFirst(i).entries == rest;
    AssembleEndsBy(AssembleFirst(i), bound);
  }

  lemma {:induction false} InsertStores(es: seq<Entry>, data: seq<Byte>, index: nat, bound: nat)
    requires Sorted(es) && EndsBy(es, bound) && data != []
    ensures EndsBy(InsertEntry(es, index, data), bound) <==> index + |data| <= bound
  {
    if index + |data| <= bound {
      InsertEndsBy(es, data, index, bound);
    } else {
      InsertCovers(es, index, data, index + |data| - 1);
    }
  }

  lemma {:induction false} PruneEndsBy(es: seq<Entry>, index: nat, end: nat, bound: nat)
    requires EndsBy(es, bound)
    ensures EndsBy(Prune(es, index, end), bound)
  {
    PruneAll(es, index, end, (e: Entry) => |e.data| > 0 ==> e.End() <= bound);
  }

  /** Pushes of slices of `w` keep everything held and everything delivered a part of `w`. */
  lemma {:induction false} PushSlices(r: Reassembler, data: seq<Byte>, index: nat, eof: bool, w: seq<Byte>)
    requires Ordered(r) && (r.output.ended || r.expected == |r.output.history|)
    requires Slices(r.entries, w) && r.output.history <= w && SliceOf(index, data, w)
    ensures var r' := Push(r, data, index, eof);
            Slices(r'.entries, w) && r'.output.history <= w
  {
    if index + |data| > r.expected {
      InsertSlices(r.entries, data, index, w);
      AssembleSlices(Insert(if eof then r.(eofIndex := index + |data|) else r, index, data), w);
    }
  }

  lemma {:induction false} InsertSlices(es: seq<Entry>, data: seq<Byte>, index: nat, w: seq<Byte>)
    requires Sorted(es) && Slices(es, w) && SliceOf(index, data, w)
    ensures Slices(InsertEntry(es, index, data), w)
  {
    InsertAll(es, index, data, (e: Entry) => SliceOf(e.index, e.data, w));
  }

  /** Bounds on where stored bytes end survive a push that respects them. */
  lemma {:induction false} PushEndsBy(r: Reassembler, data: seq<Byte>, index: nat, eof: bool, bound: nat)
    requires Ordered(r)
    requires EndsBy(r.entries, bound) && (data == [] || index + |data| <= bound) && r.expected <= bound
    ensures EndsBy(Push(r, data, index, eof).entries, bound)
    ensures NextMissing(r, data, index) <= bound
  {
    if index + |data| > r.expected {
      InsertEndsBy(r.entries, data, index, bound);
      AssembleEndsBy(Insert(if eof then r.(eofIndex := index + |data|) else r, index, data), bound);
      ReachBound(InsertEntry(r.entries, index, data), r.expected, bound);
    }
  }

  lemma {:induction false} InsertEndsBy(es: seq<Entry>, data: seq<Byte>, index: nat, bound: nat)
    requires Sorted(es) && EndsBy(es, bound) && (data == [] || index + |data| <= bound)
    ensures EndsBy(InsertEntry(es, index, data), bound)
  {
    InsertAll(es, index, data, (e: Entry) => |e.data| > 0 ==> e.End() <= bound);
  }

  lemma {:induction false} AssembleEndsBy(r: Reassembler, bound: nat)
    requires EndsBy(r.entries, bound)
    ensures EndsBy(Assemble(r).entries, bound)
  {
    AssembleAll(r, (e: Entry) => |e.data| > 0 ==> e.End() <= bound);
  }

  lemma {:induction false} ReachBound(es: seq<Entry>, e: nat, bound: nat)
    requires EndsBy(es, bound) && e <= bound
    ensures Reach(es, e) <= bound
    decreases |es|
  {
    if es != [] && es[0].index <= e { ReachBound(es[1..], Max(e, es[0].End()), bound); }
  }

  // ---------------------------------------------------------------- runs of pushes and reads

  datatype Event = EvPush(data: seq<Byte>, index: nat, eof: bool) | EvRead(len: nat)

  function Apply(r: Reassembler, ev: Event): Reassembler {
    match ev
    case EvPush(data, index, eof) => Push(r, data, index, eof)
    case EvRead(len) => ReadOut(r, len)
  }

  function Run(r: Reassembler, evs: seq<Event>): Reassembler {
    if evs == [] then r else Apply(Run(r, evs[..|evs| - 1]), evs[|evs| - 1])
  }

  /** A push is a slice of `w`, with the end mark only on slices that reach its end. */
  ghost predicate Genuine(ev: Event, w: seq<Byte>) {
    ev.EvPush? ==>
      && SliceOf(ev.index, ev.data, w)
      && (ev.eof ==> ev.index + |ev.data| == |w|)
  }

  /** Whenever something is pushed the output has room for all that becomes contiguous. */
  ghost predicate Roomy(r: Reassembler, evs: seq<Event>) {
    forall n | 0 <= n < |evs| && evs[n].EvPush? ::
      var s := Run(r, evs[..n]);
      NextMissing(s, evs[n].data, evs[n].index) <= s.output.popped + s.output.capacity
  }

  ghost predicate Pushed(evs: seq<Event>, p: nat) {
    exists n | 0 <= n < |evs| && evs[n].EvPush? :: InPush(p, evs[n].index, evs[n].data)
  }

  ghost predicate EofSeen(evs: seq<Event>) {
    exists n | 0 <= n < |evs| :: evs[n].EvPush? && evs[n].eof
  }

  /** Over every run of genuine pushes and reads with room: the mark is the least position never pushed,
      the map covers exactly the other pushed positions, the output is `w` up to the mark, and input has
      ended exactly when the end was announced and reached. */
  lemma {:induction false} RunRefinesSet(capacity: nat, w: seq<Byte>, evs: seq<Event>)
    requires |w| < NO_EOF
    requires forall n | 0 <= n < |evs| :: Genuine(evs[n], w)
    requires Roomy(NewReassembler(capacity), evs)
    ensures var r := Run(NewReassembler(capacity), evs);
            && Inv(r)
            && (forall p: nat :: Has(r, p) <==> Pushed(evs, p))
            && !Pushed(evs, r.expected)
            && r.output.history <= w && |r.output.history| == r.expected
            && (r.output.ended <==> EofSeen(evs) && r.expected == |w|)
  {
    RunKeeps(capacity, w, evs);
    var r := Run(NewReassembler(capacity), evs);
    assert !Has(r, r.expected);
  }

  ghost predicate RunInv(r: Reassembler, evs: seq<Event>, w: seq<Byte>) {
    && Inv(r) && Slices(r.entries, w) && r.output.history <= w
    && (forall p: nat :: Has(r, p) <==> Pushed(evs, p))
    && r.eofIndex == (if EofSeen(evs) then |w| else NO_EOF)
    && (r.output.ended <==> EofSeen(evs) && r.expected == |w|)
  }

  lemma {:induction false} RunKeeps(capacity: nat, w: seq<Byte>, evs: seq<Event>)
    requires |w| < NO_EOF
    requires forall n | 0 <= n < |evs| :: Genuine(evs[n], w)
    requires Roomy(NewReassembler(capacity), evs)
    ensures RunInv(Run(NewReassembler(capacity), evs), evs, w)
    decreases |evs|
  {
    var r0 := NewReassembler(capacity);
    if evs != [] {
      var front, ev := evs[..|evs| - 1], evs[|evs| - 1];
      assert evs == front + [ev];
      FrontRoomy(r0, evs);
      RunKeeps(capacity, w, front);
      RunSnoc(Run(r0, front), front, ev, w);
    }
  }

  lemma {:induction false} RunSnoc(r: Reassembler, front: seq<Event>, ev: Event, w: seq<Byte>)
    requires |w| < NO_EOF && RunInv(r, front, w) && Genuine(ev, w)
    requires ev.EvPush? ==> NextMissing(r, ev.data, ev.index) <= r.output.popped + r.output.capacity
    ensures RunInv(Apply(r, ev), front + [ev], w)
  {
    PushedSnoc(front, ev);
    if ev.EvPush? {
      RunStep(r, ev, w, EofSeen(front));
    } else {
      assert forall p: nat :: Has(Apply(r, ev), p) <==> Has(r, p);
    }
  }

  lemma {:induction false} FrontRoomy(r: Reassembler, evs: seq<Event>)
    requires evs != [] && Roomy(r, evs)
    ensures var front, ev := evs[..|evs| - 1], evs[|evs| - 1];
            && Roomy(r, front)
            && (ev.EvPush? ==>
                  var s := Run(r, front);
                  NextMissing(s, ev.data, ev.index) <= s.output.popped + s.output.capacity)
  {
    var front, ev := evs[..|evs| - 1], evs[|evs| - 1];
    assert forall n | 0 <= n < |front| :: evs[n] == front[n] && evs[..n] == front[..n];
    assert evs[|evs| - 1] == ev;
  }

  lemma {:induction false} RunStep(r: Reassembler, ev: Event, w: seq<Byte>, seen: bool)
    requires |w| < NO_EOF && ev.EvPush? && Genuine(ev, w)
    requires Inv(r) && Slices(r.entries, w) && r.output.history <= w
    requires r.eofIndex == (if seen then |w| else NO_EOF)
    requires r.output.ended <==> seen && r.expected == |w|
    requires NextMissing(r, ev.data, ev.index) <= r.output.popped + r.output.capacity
    ensures forall p: nat :: Has(Apply(r, ev), p) <==> Has(r, p) || InPush(p, ev.index, ev.data)
    ensures var r' := Apply(r, ev);
            && !OverrunsEnd(r, ev.data, ev.index)
            && Inv(r') && Slices(r'.entries, w) && r'.output.history <= w
            && r'.eofIndex == (if seen || ev.eof then |w| else NO_EOF)
            && (r'.output.ended <==> (seen || ev.eof) && r'.expected == |w|)
  {
    if ev.data != [] { SliceEnd(ev.index, ev.data, w); }
    PushKeeps(r, ev.data, ev.index, ev.eof);
    PushOrders(r, ev.data, ev.index, ev.eof);
    PushSlices(r, ev.data, ev.index, ev.eof, w);
    NothingCutIff(r, ev.data, ev.index);
    PushRefinesSet(r, ev.data, ev.index, ev.eof);
  }

  lemma {:induction false} PushedSnoc(front: seq<Event>, ev: Event)
    ensures forall p: nat :: Pushed(front + [ev], p)
                        <==> Pushed(front, p) || (ev.EvPush? && InPush(p, ev.index, ev.data))
    ensures EofSeen(front + [ev]) <==> EofSeen(front) || (ev.EvPush? && ev.eof)
  {
    var evs := front + [ev];
    assert evs[|front|] == ev;
    assert forall n | 0 <= n < |front| :: evs[n] == front[n];
    forall p: nat ensures Pushed(evs, p) <==> Pushed(front, p) || (ev.EvPush? && InPush(p, ev.index, ev.data)) {
      if Pushed(front, p) {
        var n :| 0 <= n < |front| && front[n].EvPush? && InPush(p, front[n].index, front[n].data);
        assert evs[n].EvPush?;
      }
    }
  }

  /** Order and repetition of pushes do not matter. */
  lemma {:induction false} OrderIndependent(capacity: nat, w: seq<Byte>, evs: seq<Event>, evs': seq<Event>)
    requires |w| < NO_EOF
    requires forall n | 0 <= n < |evs| :: Genuine(evs[n], w)
    requires forall n | 0 <= n < |evs'| :: Genuine(evs'[n], w)
    requires Roomy(NewReassembler(capacity), evs) && Roomy(NewReassembler(capacity), evs')
    requires forall p: nat :: Pushed(evs, p) <==> Pushed(evs', p)
    requires EofSeen(evs) <==> EofSeen(evs')
    ensures var r, r' := Run(NewReassembler(capacity), evs), Run(NewReassembler(capacity), evs');
            && r.expected == r'.expected
            && r.output.history == r'.output.history
            && r.output.ended == r'.output.ended
            && forall p: nat :: Covers(r.entries, p) <==> Covers(r'.entries, p)
  {
    RunRefinesSet(capacity, w, evs);
    RunRefinesSet(capacity, w, evs');
    var r, r' := Run(NewReassembler(capacity), evs), Run(NewReassembler(capacity), evs');
    assert !Has(r, r.expected) && !Has(r', r'.expected);
    assert Has(r', r.expected) <==> Has(r, r.expected);
    assert Has(r', r'.expected) <==> Has(r, r'.expected);
    forall p: nat ensures Covers(r.entries, p) <==> Covers(r'.entries, p) {
      assert Has(r, p) <==> Has(r', p);
      assert Covers(r.entries, p) ==> p > r.expected;
      assert Covers(r'.entries, p) ==> p > r'.expected;
    }
  }
}
