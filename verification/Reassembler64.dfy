/** The reassembler in the source's own arithmetic: sums of positions are truncated to 64 bits, and `merge`
    erases entry by entry. Where nothing wraps it is the reassembler of `ReassemblerModel`. */
module Reassembler64 {
  import opened Basics
  import opened StreamModel
  import opened ReassemblerModel

  function Plus64(a: nat, b: nat): (sum: nat)
    ensures sum <= a + b && (a + b < TWO64 ==> sum == a + b)
  {
    (a + b) % TWO64
  }

  function End64(e: Entry): nat { Plus64(e.index, |e.data|) }

  // ---------------------------------------------------------------- operations

  /** The entries from an iterator on, after the forward loop of `merge`: erased while they end by `end`. */
  function DropEnding(es: seq<Entry>, end: nat): seq<Entry> {
    if es != [] && End64(es[0]) <= end then DropEnding(es[1..], end) else es
  }

  function EraseFrom(es: seq<Entry>, k: nat, end: nat): (erased: seq<Entry>)
    requires k <= |es|
    ensures k <= |erased|
  {
    es[..k] + DropEnding(es[k..], end)
  }

  /** Cut the substring at the next entry and after the previous one. (Key order already gives
      `index <= es[k].index`.) */
  function Trim64(es: seq<Entry>, k: nat, index: nat, data: seq<Byte>): Option<Entry>
    requires k <= |es|
  {
    if k < |es| && es[k].index == index then None
    else
      var front := if k < |es| && index < es[k].index < Plus64(index, |data|)
                   then data[..es[k].index - index] else data;
      if k > 0 && End64(es[k - 1]) > index then
        if End64(es[k - 1]) > Plus64(index, |front|) then None
        else Some(Entry(End64(es[k - 1]), front[End64(es[k - 1]) - index..]))
      else Some(Entry(index, front))
  }

  /** What is trimmed is counted, whether or not `emplace` finds its key taken. */
  function Place64(r: Reassembler, erased: seq<Entry>, trimmed: Option<Entry>): Reassembler {
    var counted := r.unassembled - (Total(r.entries) - Total(erased));
    match trimmed
    case None => r.(entries := erased, unassembled := counted)
    case Some(e) => r.(entries := Emplace(erased, e), unassembled := counted + |e.data|)
  }

  function Insert64(r: Reassembler, index: nat, data: seq<Byte>): Reassembler {
    if r.entries == [] then r.(entries := [Entry(index, data)], unassembled := r.unassembled + |data|)
    else
      var k := LowerBound(r.entries, index);
      var erased := EraseFrom(r.entries, k, Plus64(index, |data|));
      Place64(r, erased, Trim64(erased, k, index, data))
  }

  function AssembleFirst64(r: Reassembler): Reassembler
    requires r.entries != [] && r.entries[0].index <= r.expected
  {
    var e := r.entries[0];
    if End64(e) > r.expected then
      var newer := e.data[r.expected - e.index..];
      var fit := newer[..Min(|newer|, Remaining(r.output))];
      r.(entries := r.entries[1..], output := Write(r.output, fit),
         expected := Plus64(r.expected, |fit|), unassembled := r.unassembled - |fit|)
    else
      r.(entries := r.entries[1..])
  }

  function Assemble64(r: Reassembler): Reassembler
    decreases |r.entries|
  {
    if r.entries == [] || r.entries[0].index > r.expected then r else Assemble64(AssembleFirst64(r))
  }

  function Absorb64(r: Reassembler, data: seq<Byte>, index: nat): Reassembler {
    if Plus64(index, |data|) > r.expected then Assemble64(Insert64(r, index, data)) else r
  }

  function Push64(r: Reassembler, data: seq<Byte>, index: nat, eof: bool): Reassembler {
    CloseIfComplete(Absorb64(if eof then r.(eofIndex := Plus64(index, |data|)) else r, data, index))
  }

  // ---------------------------------------------------------------- whatever wraps

  /** Keys strictly increase, as in any ordered map. */
  ghost predicate KeysOrdered(es: seq<Entry>) {
    forall i, j | 0 <= i < j < |es| :: es[i].index < es[j].index
  }

  /** Keys are in order and every stored byte is counted: what holds after every push, wrapped or not. */
  ghost predicate Stored(r: Reassembler) {
    KeysOrdered(r.entries) && r.unassembled >= Total(r.entries)
  }

  /** A turn of the erasing loop takes off one entry and leaves the rest of the work; without a turn it is done. */
  lemma {:induction false} EraseTurn(es: seq<Entry>, k: nat, end: nat)
    requires k <= |es| && KeysOrdered(es)
    ensures if k < |es| && End64(es[k]) <= end then
              var cut := es[..k] + es[k + 1..];
              && EraseFrom(cut, k, end) == EraseFrom(es, k, end)
              && Total(cut) == Total(es) - |es[k].data|
              && KeysOrdered(cut)
              && (k < |cut| ==> es[k].index < cut[k].index)
            else EraseFrom(es, k, end) == es
  {
    if k < |es| && End64(es[k]) <= end {
      var a, b := es[..k], es[k + 1..];
      assert es == a + ([es[k]] + b);
      assert es[k..][1..] == b && (a + b)[k..] == b && (a + b)[..k] == a;
      TotalConcat(a, [es[k]] + b);
      TotalConcat([es[k]], b);
      TotalConcat(a, b);
      KeysWithout(a, [es[k]], b);
    } else {
      assert es == es[..k] + es[k..];
    }
  }

  lemma {:induction false} DropEndingIsTail(es: seq<Entry>, end: nat) returns (n: nat)
    ensures n <= |es| && DropEnding(es, end) == es[n..]
  {
    n := 0;
    if es != [] && End64(es[0]) <= end {
      n := DropEndingIsTail(es[1..], end);
      n := n + 1;
    }
  }

  lemma {:induction false} EraseFromKeeps(es: seq<Entry>, k: nat, end: nat)
    requires k <= |es| && KeysOrdered(es)
    ensures var r := EraseFrom(es, k, end);
            KeysOrdered(r) && Total(r) <= Total(es)
  {
    var n := DropEndingIsTail(es[k..], end);
    var a, b, c := es[..k], es[k..][..n], es[k..][n..];
    assert es == a + (b + c) && EraseFrom(es, k, end) == a + c;
    TotalConcat(a, b + c);
    TotalConcat(b, c);
    TotalConcat(a, c);
    KeysWithout(a, b, c);
  }

  lemma {:induction false} KeysWithout(a: seq<Entry>, b: seq<Entry>, c: seq<Entry>)
    requires KeysOrdered(a + (b + c))
    ensures KeysOrdered(a + c)
  {
    var es := a + (b + c);
    forall i, j | 0 <= i < j < |a + c| ensures (a + c)[i].index < (a + c)[j].index {
      assert (a + c)[i] == es[if i < |a| then i else i + |b|];
      assert (a + c)[j] == es[if j < |a| then j else j + |b|];
    }
  }

  lemma {:induction false} EmplaceKeeps(es: seq<Entry>, e: Entry)
    requires KeysOrdered(es)
    ensures KeysOrdered(Emplace(es, e)) && Total(Emplace(es, e)) <= Total(es) + |e.data|
  {
    EmplaceTotal(es, e);
    EmplaceKeys(es, e);
  }

  lemma {:induction false} EmplaceTotal(es: seq<Entry>, e: Entry)
    ensures Total(Emplace(es, e)) <= Total(es) + |e.data|
  {
    var k := LowerBound(es, e.index);
    assert es == es[..k] + es[k..];
    TotalAround(es[..k], e, es[k..]);
  }

  lemma {:induction false} EmplaceKeys(es: seq<Entry>, e: Entry)
    requires KeysOrdered(es)
    ensures KeysOrdered(Emplace(es, e))
  {
    var k := LowerBound(es, e.index);
    if k == |es| || es[k].index != e.index {
      forall i | k <= i < |es| ensures e.index < es[i].index { assert i == k || es[k].index < es[i].index; }
      KeysAround(es, e, k);
    }
  }

  lemma {:induction false} TotalAround(a: seq<Entry>, e: Entry, b: seq<Entry>)
    ensures Total(a + [e] + b) == Total(a + b) + |e.data|
  {
    TotalConcat(a, b);
    TotalConcat(a + [e], b);
    TotalConcat(a, [e]);
  }

  lemma {:induction false} KeysAround(es: seq<Entry>, e: Entry, k: nat)
    requires KeysOrdered(es) && k <= |es|
    requires forall i | 0 <= i < k :: es[i].index < e.index
    requires forall i | k <= i < |es| :: e.index < es[i].index
    ensures KeysOrdered(es[..k] + [e] + es[k..])
  {
    var es' := es[..k] + [e] + es[k..];
    forall i, j | 0 <= i < j < |es'| ensures es'[i].index < es'[j].index {
      assert es'[i] == if i < k then es[i] else if i == k then e else es[i - 1];
      assert es'[j] == if j < k then es[j] else if j == k then e else es[j - 1];
    }
  }

  lemma {:induction false} Insert64Keeps(r: Reassembler, index: nat, data: seq<Byte>)
    requires Stored(r)
    ensures Stored(Insert64(r, index, data))
  {
    if r.entries != [] {
      var k := LowerBound(r.entries, index);
      var erased := EraseFrom(r.entries, k, Plus64(index, |data|));
      var trimmed := Trim64(erased, k, index, data);
      EraseFromKeeps(r.entries, k, Plus64(index, |data|));
      if trimmed.Some? { EmplaceKeeps(erased, trimmed.value); }
    }
  }

  lemma {:induction false} Assemble64Keeps(r: Reassembler)
    requires Stored(r)
    ensures Stored(Assemble64(r))
    decreases |r.entries|
  {
    if r.entries != [] && r.entries[0].index <= r.expected { Assemble64Keeps(AssembleFirst64(r)); }
  }

  /** Every push, wrapped or not, keeps the keys in order and every stored byte counted. */
  lemma {:induction false} Push64Keeps(r: Reassembler, data: seq<Byte>, index: nat, eof: bool)
    requires Stored(r)
    ensures Stored(Push64(r, data, index, eof))
  {
    var r1 := if eof then r.(eofIndex := Plus64(index, |data|)) else r;
    Insert64Keeps(r1, index, data);
    Assemble64Keeps(Insert64(r1, index, data));
  }

  lemma {:induction false} Assemble64Grows(r: Reassembler)
    ensures var r' := Assemble64(r);
            && r.output.history <= r'.output.history
            && r'.output == r.output.(history := r'.output.history)
            && r'.eofIndex == r.eofIndex
    decreases |r.entries|
  {
    if r.entries != [] && r.entries[0].index <= r.expected { Assemble64Grows(AssembleFirst64(r)); }
  }

  /** Whatever is pushed, output only grows. */
  lemma {:induction false} Push64Grows(r: Reassembler, data: seq<Byte>, index: nat, eof: bool)
    ensures var r' := Push64(r, data, index, eof);
            && r.output.history <= r'.output.history
            && r'.output == r.output.(history := r'.output.history, ended := r'.output.ended)
            && (r.output.ended ==> r'.output.ended)
            && r'.eofIndex == (if eof then Plus64(index, |data|) else r.eofIndex)
  {
    Absorb64Grows(if eof then r.(eofIndex := Plus64(index, |data|)) else r, data, index);
  }

  lemma {:induction false} Insert64Frame(r: Reassembler, index: nat, data: seq<Byte>)
    ensures var i := Insert64(r, index, data);
            i.output == r.output && i.expected == r.expected && i.eofIndex == r.eofIndex
  {
  }

  lemma {:induction false} Absorb64Grows(r: Reassembler, data: seq<Byte>, index: nat)
    ensures var r' := Absorb64(r, data, index);
            && r.output.history <= r'.output.history
            && r'.output == r.output.(history := r'.output.history)
            && r'.eofIndex == r.eofIndex
  {
    Insert64Frame(r, index, data);
    Assemble64Grows(Insert64(r, index, data));
  }

  /** A push at the last position finds no room to trim and moves nothing. */
  lemma {:induction false} InsertAtTop(r: Reassembler, data: seq<Byte>, mark: nat)
    requires Beyond(r.entries, mark) && mark < TWO64 - 1
    ensures Beyond(Insert64(r, TWO64 - 1, data).entries, mark)
  {
    if r.entries != [] {
      var k := LowerBound(r.entries, TWO64 - 1);
      var end := Plus64(TWO64 - 1, |data|);
      var erased := EraseFrom(r.entries, k, end);
      var n := DropEndingIsTail(r.entries[k..], end);
      assert forall i | 0 <= i < |erased| :: erased[i] == r.entries[if i < k then i else i + n];
      var trimmed := Trim64(erased, k, TWO64 - 1, data);
      if trimmed.Some? { EmplaceBeyond(erased, trimmed.value, mark); }
    }
  }

  lemma {:induction false} EmplaceBeyond(es: seq<Entry>, e: Entry, mark: nat)
    requires Beyond(es, mark) && e.index > mark
    ensures Beyond(Emplace(es, e), mark)
  {
  }

  // ---------------------------------------------------------------- where nothing wraps

  /** No stored entry reaches the end of the number range. */
  ghost predicate Narrow(es: seq<Entry>) {
    forall i | 0 <= i < |es| :: es[i].End() < TWO64
  }

  lemma {:induction false} PruneConcat(a: seq<Entry>, b: seq<Entry>, index: nat, end: nat)
    ensures Prune(a + b, index, end) == Prune(a, index, end) + Prune(b, index, end)
  {
    if a == [] {
      assert a + b == b;
    } else {
      assert (a + b)[1..] == a[1..] + b;
      PruneConcat(a[1..], b, index, end);
    }
  }

  lemma {:induction false} PruneNone(es: seq<Entry>, index: nat, end: nat)
    requires forall i | 0 <= i < |es| :: !Inside(es[i], index, end)
    ensures Prune(es, index, end) == es
  {
    if es != [] { PruneNone(es[1..], index, end); }
  }

  /** In a sorted map the entries at or after `index` that end by `end` come first. */
  lemma {:induction false} DropEndingIsPrune(es: seq<Entry>, index: nat, end: nat)
    requires Sorted(es) && Narrow(es) && forall i | 0 <= i < |es| :: index <= es[i].index
    ensures DropEnding(es, end) == Prune(es, index, end)
  {
    if es != [] {
      if es[0].End() <= end {
        DropEndingIsPrune(es[1..], index, end);
      } else {
        PruneNone(es, index, end);
      }
    }
  }

  lemma {:induction false} PruneSplit(a: seq<Entry>, b: seq<Entry>, index: nat, end: nat)
    requires All(a, (e: Entry) => e.index < index)
    requires Sorted(b) && Narrow(b) && forall i | 0 <= i < |b| :: index <= b[i].index
    ensures Prune(a + b, index, end) == a + DropEnding(b, end)
  {
    PruneConcat(a, b, index, end);
    PruneNone(a, index, end);
    DropEndingIsPrune(b, index, end);
  }

  lemma {:induction false} EraseFromIsPrune(es: seq<Entry>, k: nat, index: nat, end: nat)
    requires Sorted(es) && Narrow(es) && k == LowerBound(es, index)
    ensures EraseFrom(es, k, end) == Prune(es, index, end)
  {
    assert es == es[..k] + es[k..];
    TailAtLeast(es, k, index);
    PruneSplit(es[..k], es[k..], index, end);
  }

  lemma {:induction false} TailAtLeast(es: seq<Entry>, k: nat, index: nat)
    requires Sorted(es) && Narrow(es) && k == LowerBound(es, index)
    ensures var b := es[k..];
            Sorted(b) && Narrow(b) && forall i | 0 <= i < |b| :: index <= b[i].index
  {
    forall i | k <= i < |es| ensures index <= es[i].index { assert i == k || es[k].index < es[i].index; }
  }

  /** Erasing from the slot on does not move it. */
  lemma {:induction false} SlotStays(es: seq<Entry>, k: nat, index: nat, end: nat)
    requires Sorted(es) && k == LowerBound(es, index)
    ensures LowerBound(EraseFrom(es, k, end), index) == k
  {
    var n := DropEndingIsTail(es[k..], end);
    var erased := EraseFrom(es, k, end);
    assert forall i | 0 <= i < k :: erased[i] == es[i];
    assert k < |erased| ==> erased[k] == es[k + n];
  }

  lemma {:induction false} PruneNarrow(es: seq<Entry>, index: nat, end: nat)
    requires Narrow(es)
    ensures Narrow(Prune(es, index, end))
  {
    PruneAll(es, index, end, (e: Entry) => e.End() < TWO64);
  }

  lemma {:induction false} Trim64IsTrim(es: seq<Entry>, k: nat, index: nat, data: seq<Byte>)
    requires k <= |es| && Narrow(es) && index + |data| < TWO64
    ensures Trim64(es, k, index, data) == Trim(es, k, index, data)
  {
  }

  lemma {:induction false} Place64IsPlace(r: Reassembler, pruned: seq<Entry>, k: nat, index: nat, data: seq<Byte>)
    requires Slot(pruned, k, index, index + |data|)
    ensures Place64(r, pruned, Trim(pruned, k, index, data)) == WithEntries(r, Place(pruned, k, index, data))
  {
    PlaceKeeps(pruned, k, index, data);
  }

  lemma {:induction false} PlacedSame(r: Reassembler, index: nat, data: seq<Byte>)
    requires Sorted(r.entries) && r.entries != []
    ensures var pruned := Prune(r.entries, index, index + |data|);
            Place64(r, pruned, Trim(pruned, LowerBound(pruned, index), index, data)) == Insert(r, index, data)
  {
    var pruned := Prune(r.entries, index, index + |data|);
    PruneMakesSlot(r.entries, index, index + |data|);
    Place64IsPlace(r, pruned, LowerBound(pruned, index), index, data);
  }

  /** What `merge` leaves and returns where nothing wraps. */
  lemma {:induction false} MergedSame(es: seq<Entry>, index: nat, data: seq<Byte>)
    requires Sorted(es) && Narrow(es) && index + |data| < TWO64
    ensures var k := LowerBound(es, index);
            var pruned := Prune(es, index, index + |data|);
            && EraseFrom(es, k, index + |data|) == pruned && LowerBound(pruned, index) == k
            && Trim64(pruned, k, index, data) == Trim(pruned, k, index, data)
  {
    var k := LowerBound(es, index);
    EraseFromIsPrune(es, k, index, index + |data|);
    SlotStays(es, k, index, index + |data|);
    PruneNarrow(es, index, index + |data|);
    Trim64IsTrim(Prune(es, index, index + |data|), k, index, data);
  }

  lemma {:induction false} Insert64IsInsert(r: Reassembler, index: nat, data: seq<Byte>)
    requires Sorted(r.entries) && Narrow(r.entries) && index + |data| < TWO64
    ensures Insert64(r, index, data) == Insert(r, index, data)
  {
    if r.entries == [] {
      assert Total([Entry(index, data)]) == |data| + Total([]);
    } else {
      MergedSame(r.entries, index, data);
      PlacedSame(r, index, data);
      var pruned := Prune(r.entries, index, index + |data|);
      var k := LowerBound(pruned, index);
      assert Insert64(r, index, data) == Place64(r, pruned, Trim(pruned, k, index, data));
    }
  }

  lemma {:induction false} InsertNarrow(es: seq<Entry>, index: nat, data: seq<Byte>)
    requires Sorted(es) && Narrow(es) && index + |data| < TWO64
    ensures Narrow(InsertEntry(es, index, data))
  {
    InsertAll(es, index, data, (e: Entry) => e.End() < TWO64);
  }

  lemma {:induction false} Assemble64IsAssemble(r: Reassembler)
    requires Narrow(r.entries) && r.expected < TWO64
    ensures Assemble64(r) == Assemble(r)
    ensures Narrow(Assemble(r).entries) && Assemble(r).expected < TWO64
    decreases |r.entries|
  {
    if r.entries != [] && r.entries[0].index <= r.expected {
      assert AssembleFirst64(r) == AssembleFirst(r);
      Assemble64IsAssemble(AssembleFirst(r));
    }
  }

  lemma {:induction false} Absorb64IsAbsorb(r: Reassembler, data: seq<Byte>, index: nat)
    requires Sorted(r.entries) && Narrow(r.entries) && r.expected < TWO64 && index + |data| < TWO64
    ensures Absorb64(r, data, index) == Absorb(r, data, index)
    ensures Narrow(Absorb(r, data, index).entries)
  {
    if index + |data| > r.expected {
      Insert64IsInsert(r, index, data);
      InsertNarrow(r.entries, index, data);
      Assemble64IsAssemble(Insert(r, index, data));
    }
  }

  /** A push that ends inside the number range, on a map that does, is the push of the unbounded model. */
  lemma {:induction false} Push64IsPush(r: Reassembler, data: seq<Byte>, index: nat, eof: bool)
    requires Sorted(r.entries) && Narrow(r.entries) && r.expected < TWO64 && index + |data| < TWO64
    ensures Push64(r, data, index, eof) == Push(r, data, index, eof)
    ensures Narrow(Push(r, data, index, eof).entries)
  {
    Absorb64IsAbsorb(if eof then r.(eofIndex := index + |data|) else r, data, index);
  }

  // ---------------------------------------------------------------- runs

  function Run64(r: Reassembler, evs: seq<Event>): Reassembler {
    if evs == [] then r
    else
      var front := Run64(r, evs[..|evs| - 1]);
      match evs[|evs| - 1]
      case EvPush(data, index, eof) => Push64(front, data, index, eof)
      case EvRead(len) => ReadOut(front, len)
  }

  /** Over every run of slices of one stream that fit, pushed at 64-bit indices, the two reassemblers are one. */
  lemma {:induction false} Run64IsRun(capacity: nat, w: seq<Byte>, evs: seq<Event>)
    requires |w| < NO_EOF
    requires forall n | 0 <= n < |evs| :: Genuine(evs[n], w) && (evs[n].EvPush? ==> evs[n].index < TWO64)
    requires Roomy(NewReassembler(capacity), evs)
    ensures Run64(NewReassembler(capacity), evs) == Run(NewReassembler(capacity), evs)
    ensures Narrow(Run(NewReassembler(capacity), evs).entries)
    decreases |evs|
  {
    if evs != [] {
      var r0 := NewReassembler(capacity);
      var front, ev := evs[..|evs| - 1], evs[|evs| - 1];
      FrontRoomy(r0, evs);
      Run64IsRun(capacity, w, front);
      RunKeeps(capacity, w, front);
      if ev.EvPush? {
        if ev.data != [] { SliceEnd(ev.index, ev.data, w); }
        Push64IsPush(Run(r0, front), ev.data, ev.index, ev.eof);
      }
    }
  }
}
