/** The network interface: an ARP cache with ages, requests waiting for an answer, and frames going out
    (RFC 826). */
module ArpModel {
  import opened Basics
  import opened Parsing
  import opened Ipv4Wire

  type Mac = x: int | 0 <= x < 0x1_0000_0000_0000

  const BROADCAST: Mac := 0xFFFF_FFFF_FFFF
  const OPCODE_REQUEST: U16 := 1
  const OPCODE_REPLY: U16 := 2
  const MAPPING_TTL: int := 30000
  const REQUEST_TTL: int := 5000

  datatype ArpMessage = ArpMessage(opcode: U16, senderMac: Mac, senderIp: U32, targetMac: Mac, targetIp: U32)

  /** What a frame carries: IPv4 bytes, an ARP message or bytes that do not parse as one, or something else. */
  datatype Content = IpContent(data: seq<Byte>) | ArpContent(msg: ArpMessage) | BadArp | OtherContent

  datatype Frame = Frame(dst: Mac, src: Mac, content: Content)

  datatype Mapping = Mapping(age: int, mac: Mac)

  datatype Waiting = Waiting(age: int, dgram: IPv4Datagram)

  datatype Interface = Interface(
    mac: Mac,
    ip: U32,
    table: map<U32, Mapping>,
    requests: map<U32, Waiting>,
    out: seq<Frame>)

  /** A value-initialized datagram; its length field does not match, so it cannot be serialized. */
  const DEFAULT_DATAGRAM := IPv4Datagram(IPv4Header(4, 5, 0, 0, 0, true, false, 0, 128, 6, 0, 0, 0), [])

  function RequestFrame(i: Interface, target: U32): Frame {
    Frame(BROADCAST, i.mac, ArpContent(ArpMessage(OPCODE_REQUEST, i.mac, i.ip, 0, target)))
  }

  function Push(i: Interface, f: Frame): Interface { i.(out := i.out + [f]) }

  /** The interface after a call, and whether the call threw. */
  datatype Outcome = Outcome(state: Interface, threw: bool)

  function SendDatagram(i: Interface, dgram: IPv4Datagram, hop: U32): Outcome {
    if hop in i.table then
      match SerializeDatagram(dgram)
      case None => Outcome(i, true)
      case Some(data) => Outcome(Push(i, Frame(i.table[hop].mac, i.mac, IpContent(data))), false)
    else if hop in i.requests && i.requests[hop].age < REQUEST_TTL then Outcome(i, false)
    else Outcome(Push(i.(requests := i.requests[hop := Waiting(0, dgram)]), RequestFrame(i, hop)), false)
  }

  /** The sender of a message for us is learned; its reply releases the datagram that waited for it. */
  function Learn(i: Interface, m: ArpMessage): Interface {
    i.(table := i.table[m.senderIp := Mapping(0, m.senderMac)])
  }

  function TakeReply(i: Interface, m: ArpMessage): Outcome {
    var waiting := if m.senderIp in i.requests then i.requests[m.senderIp] else Waiting(0, DEFAULT_DATAGRAM);
    match SerializeDatagram(waiting.dgram)
    case None => Outcome(i.(requests := i.requests[m.senderIp := waiting]), true)
    case Some(data) =>
      Outcome(Push(i.(requests := i.requests - {m.senderIp}), Frame(m.senderMac, i.mac, IpContent(data))), false)
  }

  function RecvFrame(i: Interface, f: Frame): Outcome {
    if f.dst != i.mac && f.dst != BROADCAST then Outcome(i, false)
    else
      match f.content
      case ArpContent(m) =>
        if m.targetIp != i.ip then Outcome(i, false)
        else if m.opcode == OPCODE_REPLY && m.targetMac == i.mac then TakeReply(Learn(i, m), m)
        else if m.opcode == OPCODE_REQUEST then
          Outcome(Push(Learn(i, m), Frame(m.senderMac, i.mac,
                                          ArpContent(ArpMessage(OPCODE_REPLY, i.mac, i.ip, m.senderMac, m.senderIp)))),
                  false)
        else Outcome(Learn(i, m), false)
      case _ => Outcome(i, false)
  }

  /** The datagram handed up, if any. */
  function Received(i: Interface, f: Frame): Option<IPv4Datagram> {
    if (f.dst == i.mac || f.dst == BROADCAST) && f.content.IpContent? then
      var r := ParseDatagram(DEFAULT_DATAGRAM, f.content.data);
      if r.result == NoError then Some(r.dgram) else None
    else None
  }

  function Aged(age: int, ms: nat): int { ToInt32(age + ms) }

  function AgedTable(table: map<U32, Mapping>, ms: nat): map<U32, Mapping> {
    map ip | ip in table && Aged(table[ip].age, ms) <= MAPPING_TTL :: table[ip].(age := Aged(table[ip].age, ms))
  }

  predicate Due(w: Waiting, ms: nat) { Aged(w.age, ms) > REQUEST_TTL }

  function AgedRequests(requests: map<U32, Waiting>, ms: nat): map<U32, Waiting> {
    map ip | ip in requests ::
      requests[ip].(age := if Due(requests[ip], ms) then 0 else Aged(requests[ip].age, ms))
  }

  function RequestFrames(i: Interface, order: seq<U32>): seq<Frame> {
    if order == [] then [] else [RequestFrame(i, order[0])] + RequestFrames(i, order[1..])
  }

  predicate Distinct(order: seq<U32>) { forall j, k | 0 <= j < k < |order| :: order[j] != order[k] }

  /** `order` lists the requests that are due, once each: the order in which a hash map yields them is not
      specified. */
  ghost predicate DueOrder(i: Interface, ms: nat, order: seq<U32>) {
    Distinct(order) && forall ip :: ip in order <==> ip in i.requests && Due(i.requests[ip], ms)
  }

  function Tick(i: Interface, ms: nat, order: seq<U32>): Interface {
    i.(table := AgedTable(i.table, ms), requests := AgedRequests(i.requests, ms),
       out := i.out + RequestFrames(i, order))
  }

  // ---------------------------------------------------------------- runs

  datatype Event = Send(dgram: IPv4Datagram, hop: U32) | Recv(f: Frame) | Pass(ms: nat, order: seq<U32>)

  function Step(i: Interface, ev: Event): Interface {
    match ev
    case Send(dgram, hop) => SendDatagram(i, dgram, hop).state
    case Recv(f) => RecvFrame(i, f).state
    case Pass(ms, order) => Tick(i, ms, order)
  }

  ghost predicate Allowed(i: Interface, ev: Event) { ev.Pass? ==> DueOrder(i, ev.ms, ev.order) }

  datatype Request = Request(ip: U32, time: nat)

  datatype Learned = Learned(mac: Mac, time: nat)

  /** An interface with its past: the time, every request sent, who was last learned for each address, and every
      datagram handed over for sending. */
  datatype History = History(i: Interface, now: nat, asked: seq<Request>, learned: map<U32, Learned>,
                             given: set<Given>)

  /** A datagram handed over for sending, and its next hop. */
  datatype Given = Given(hop: U32, dgram: IPv4Datagram)

  /** The requests a step sends. */
  function Asks(i: Interface, ev: Event): seq<U32> {
    match ev
    case Send(dgram, hop) =>
      if hop !in i.table && !(hop in i.requests && i.requests[hop].age < REQUEST_TTL) then [hop] else []
    case Recv(f) => []
    case Pass(ms, order) => order
  }

  function Stamped(ips: seq<U32>, time: nat): seq<Request> {
    seq(|ips|, k requires 0 <= k < |ips| => Request(ips[k], time))
  }

  predicate ForUs(i: Interface, f: Frame) {
    (f.dst == i.mac || f.dst == BROADCAST) && f.content.ArpContent? && f.content.msg.targetIp == i.ip
  }

  function Advance(h: History, ev: Event): History {
    var now := if ev.Pass? then h.now + ev.ms else h.now;
    var learned := if ev.Recv? && ForUs(h.i, ev.f)
                   then h.learned[ev.f.content.msg.senderIp := Learned(ev.f.content.msg.senderMac, now)]
                   else h.learned;
    var given := if ev.Send? then h.given + {Given(ev.hop, ev.dgram)} else h.given;
    History(Step(h.i, ev), now, h.asked + Stamped(Asks(h.i, ev), now), learned, given)
  }

  ghost predicate AllAllowed(h: History, evs: seq<Event>)
    decreases |evs|
  {
    evs == [] || (Allowed(h.i, evs[0]) && AllAllowed(Advance(h, evs[0]), evs[1..]))
  }

  function Replay(h: History, evs: seq<Event>): History
    decreases |evs|
  {
    if evs == [] then h else Replay(Advance(h, evs[0]), evs[1..])
  }

  function NewHistory(mac: Mac, ip: U32): History { History(Interface(mac, ip, map[], map[], []), 0, [], map[], {}) }

  predicate IsRequest(f: Frame) { f.content.ArpContent? && f.content.msg.opcode == OPCODE_REQUEST }

  function RequestsIn(fs: seq<Frame>): seq<U32> {
    if fs == [] then []
    else (if IsRequest(fs[0]) then [fs[0].content.msg.targetIp] else []) + RequestsIn(fs[1..])
  }

  lemma {:induction false} RequestsOfFrames(i: Interface, order: seq<U32>)
    ensures RequestsIn(RequestFrames(i, order)) == order
  {
    if order != [] {
      RequestsOfFrames(i, order[1..]);
      assert RequestFrames(i, order)[1..] == RequestFrames(i, order[1..]);
    }
  }

  /** The bookkeeping is right: the frames a step adds that are requests are exactly the ones it is said to send. */
  lemma {:induction false} AsksAreSent(i: Interface, ev: Event)
    ensures i.out <= Step(i, ev).out
    ensures RequestsIn(Step(i, ev).out[|i.out|..]) == Asks(i, ev)
  {
    var fresh' := Step(i, ev).out[|i.out|..];
    if ev.Pass? {
      RequestsOfFrames(i, ev.order);
      assert fresh' == RequestFrames(i, ev.order);
    } else if |fresh'| == 1 {
      assert fresh'[1..] == [];
    }
  }

  // ---------------------------------------------------------------- pacing of requests

  lemma AgedBelow(age: int, ms: nat)
    requires -TWO31 <= age
    ensures -TWO31 <= Aged(age, ms) <= age + ms
  {
  }

  ghost predicate AgesInRange(i: Interface) {
    && (forall ip | ip in i.table :: -TWO31 <= i.table[ip].age)
    && (forall ip | ip in i.requests :: -TWO31 <= i.requests[ip].age)
  }

  /** A past request is still counted, or answered, or long past; a pending one never looks older than it is. */
  ghost predicate Remembered(i: Interface, now: nat, q: Request) {
    && (q.ip in i.requests ==> i.requests[q.ip].age <= now - q.time)
    && (|| q.ip in i.requests
        || (q.ip in i.table && i.table[q.ip].age <= now - q.time)
        || now - q.time >= REQUEST_TTL)
  }

  ghost predicate Paced(asked: seq<Request>) {
    forall j, k | 0 <= j < k < |asked| && asked[j].ip == asked[k].ip :: asked[k].time - asked[j].time >= REQUEST_TTL
  }

  ghost predicate PacingInv(h: History) {
    && AgesInRange(h.i)
    && (forall k | 0 <= k < |h.asked| :: h.asked[k].time <= h.now && Remembered(h.i, h.now, h.asked[k]))
    && Paced(h.asked)
  }

  lemma {:induction false} TickRemembers(i: Interface, ms: nat, order: seq<U32>, now: nat, q: Request)
    requires AgesInRange(i) && Remembered(i, now, q) && q.time <= now
    requires DueOrder(i, ms, order)
    ensures Remembered(Tick(i, ms, order), now + ms, q)
    ensures q.ip in order ==> now + ms - q.time >= REQUEST_TTL
  {
    if q.ip in i.requests { AgedBelow(i.requests[q.ip].age, ms); }
    if q.ip in i.table { AgedBelow(i.table[q.ip].age, ms); }
  }

  lemma {:induction false} SendRemembers(i: Interface, dgram: IPv4Datagram, hop: U32, now: nat, q: Request)
    requires Remembered(i, now, q) && q.time <= now
    ensures Remembered(SendDatagram(i, dgram, hop).state, now, q)
    ensures q.ip in Asks(i, Send(dgram, hop)) ==> now - q.time >= REQUEST_TTL
  {
  }

  lemma {:induction false} RecvRemembers(i: Interface, f: Frame, now: nat, q: Request)
    requires Remembered(i, now, q) && q.time <= now
    ensures Remembered(RecvFrame(i, f).state, now, q)
  {
  }

  lemma {:induction false} StepRemembers(h: History, ev: Event, q: Request)
    requires AgesInRange(h.i) && Allowed(h.i, ev)
    requires q.time <= h.now && Remembered(h.i, h.now, q)
    ensures var h' := Advance(h, ev);
            Remembered(h'.i, h'.now, q) && (q.ip in Asks(h.i, ev) ==> h'.now - q.time >= REQUEST_TTL)
  {
    match ev
    case Send(dgram, hop) => SendRemembers(h.i, dgram, hop, h.now, q);
    case Recv(f) => RecvRemembers(h.i, f, h.now, q);
    case Pass(ms, order) => TickRemembers(h.i, ms, order, h.now, q);
  }

  /** A request sent now is pending with age zero. */
  lemma {:induction false} AskedNow(h: History, ev: Event, k: nat)
    requires AgesInRange(h.i) && Allowed(h.i, ev) && k < |Asks(h.i, ev)|
    ensures var h' := Advance(h, ev);
            Remembered(h'.i, h'.now, Request(Asks(h.i, ev)[k], h'.now))
  {
    if ev.Pass? {
      var ip := ev.order[k];
      assert ip in ev.order;
    }
  }

  lemma {:induction false} StepAges(i: Interface, ev: Event)
    requires AgesInRange(i)
    ensures AgesInRange(Step(i, ev))
  {
    match ev
    case Send(dgram, hop) =>
    case Recv(f) => RecvAges(i, f);
    case Pass(ms, order) => TickAges(i, ms, order);
  }

  lemma {:induction false} RecvAges(i: Interface, f: Frame)
    requires AgesInRange(i)
    ensures AgesInRange(RecvFrame(i, f).state)
  {
    if ForUs(i, f) {
      var m := f.content.msg;
      assert AgesInRange(Learn(i, m));
      assert AgesInRange(TakeReply(Learn(i, m), m).state);
    }
  }

  lemma {:induction false} TickAges(i: Interface, ms: nat, order: seq<U32>)
    requires AgesInRange(i)
    ensures AgesInRange(Tick(i, ms, order))
  {
    forall ip | ip in i.table ensures -TWO31 <= Aged(i.table[ip].age, ms) { AgedBelow(i.table[ip].age, ms); }
    forall ip | ip in i.requests ensures -TWO31 <= Aged(i.requests[ip].age, ms) { AgedBelow(i.requests[ip].age, ms); }
  }

  lemma {:induction false} AsksDistinct(i: Interface, ev: Event)
    requires Allowed(i, ev)
    ensures Distinct(Asks(i, ev))
  {
  }

  lemma {:induction false} PacingStep(h: History, ev: Event)
    requires PacingInv(h) && Allowed(h.i, ev)
    ensures PacingInv(Advance(h, ev))
  {
    var h' := Advance(h, ev);
    var asks := Asks(h.i, ev);
    var n := |h.asked|;
    StepAges(h.i, ev);
    AsksDistinct(h.i, ev);
    forall k | 0 <= k < |h'.asked|
      ensures h'.asked[k].time <= h'.now && Remembered(h'.i, h'.now, h'.asked[k])
    {
      if k < n { StepRemembers(h, ev, h.asked[k]); } else { AskedNow(h, ev, k - n); }
    }
    forall j, k | 0 <= j < k < |h'.asked| && h'.asked[j].ip == h'.asked[k].ip
      ensures h'.asked[k].time - h'.asked[j].time >= REQUEST_TTL
    {
      PacedPair(h, ev, j, k);
    }
  }

  lemma {:induction false} PacedPair(h: History, ev: Event, j: nat, k: nat)
    requires PacingInv(h) && Allowed(h.i, ev)
    requires var asked := Advance(h, ev).asked; j < k < |asked| && asked[j].ip == asked[k].ip
    ensures var asked := Advance(h, ev).asked; asked[k].time - asked[j].time >= REQUEST_TTL
  {
    var asks, n := Asks(h.i, ev), |h.asked|;
    AsksDistinct(h.i, ev);
    if k >= n {
      if j < n {
        StepRemembers(h, ev, h.asked[j]);
        assert asks[k - n] in asks;
      }
    }
  }

  /** In every run, whatever frames arrive and however long the ticks: two requests for one address are at
      least five seconds apart. */
  lemma {:induction false} RequestsPaced(h: History, evs: seq<Event>)
    requires PacingInv(h) && AllAllowed(h, evs)
    ensures PacingInv(Replay(h, evs))
    decreases |evs|
  {
    if evs != [] {
      PacingStep(h, evs[0]);
      RequestsPaced(Advance(h, evs[0]), evs[1..]);
    }
  }

  lemma {:induction false} ArpPacing(mac: Mac, ip: U32, evs: seq<Event>)
    requires AllAllowed(NewHistory(mac, ip), evs)
    ensures Paced(Replay(NewHistory(mac, ip), evs).asked)
  {
    RequestsPaced(NewHistory(mac, ip), evs);
  }

  // ---------------------------------------------------------------- age of mappings

  /** Ticks that never leave a mapping in place past its lifetime: short ones, and long ones whose low 32 bits
      do not look short or negative. */
  predicate SafeTick(ms: nat) {
    ms <= MAPPING_TTL || MAPPING_TTL < ms % TWO32 < TWO31 - MAPPING_TTL
  }

  /** Exactly the safe ticks are safe. */
  lemma {:induction false} SafeTickIff(ms: nat)
    ensures SafeTick(ms) <==>
            forall age | 0 <= age <= MAPPING_TTL :: Aged(age, ms) <= MAPPING_TTL ==> age + ms <= MAPPING_TTL
  {
    if !SafeTick(ms) {
      var m := ms % TWO32;
      var age := if TWO31 - MAPPING_TTL <= m < TWO31 then MAPPING_TTL else 0;
      assert 0 <= age <= MAPPING_TTL && Aged(age, ms) <= MAPPING_TTL && age + ms > MAPPING_TTL;
    }
  }

  /** Every mapping is as old as it says, no older than its lifetime, and the last one learned. */
  ghost predicate FreshInv(h: History) {
    forall ip | ip in h.i.table ::
      && ip in h.learned && h.learned[ip].mac == h.i.table[ip].mac
      && 0 <= h.i.table[ip].age == h.now - h.learned[ip].time <= MAPPING_TTL
  }

  lemma {:induction false} TickFresh(h: History, ms: nat, order: seq<U32>)
    requires FreshInv(h) && SafeTick(ms)
    ensures FreshInv(Advance(h, Pass(ms, order)))
  {
    SafeTickIff(ms);
    var h' := Advance(h, Pass(ms, order));
    forall ip | ip in h'.i.table
      ensures ip in h'.learned && h'.learned[ip].mac == h'.i.table[ip].mac
              && 0 <= h'.i.table[ip].age == h'.now - h'.learned[ip].time <= MAPPING_TTL
    {
      var age := h.i.table[ip].age;
      assert age + ms <= MAPPING_TTL;
      SmallAge(age + ms);
    }
  }

  lemma SmallAge(x: nat)
    requires x <= MAPPING_TTL
    ensures ToInt32(x) == x
  {
  }

  lemma {:induction false} StepFresh(h: History, ev: Event)
    requires FreshInv(h) && (ev.Pass? ==> SafeTick(ev.ms))
    ensures FreshInv(Advance(h, ev))
  {
    match ev
    case Send(dgram, hop) => assert Advance(h, ev).i.table == h.i.table;
    case Recv(f) => RecvFresh(h, f);
    case Pass(ms, order) => TickFresh(h, ms, order);
  }

  lemma {:induction false} RecvFresh(h: History, f: Frame)
    requires FreshInv(h)
    ensures FreshInv(Advance(h, Recv(f)))
  {
    if ForUs(h.i, f) {
      var m := f.content.msg;
      assert Advance(h, Recv(f)).i.table == h.i.table[m.senderIp := Mapping(0, m.senderMac)];
    }
  }

  /** What waits for an address was handed over for it, or is the default datagram, which cannot be sent. */
  ghost predicate HeldInv(h: History) {
    forall ip | ip in h.i.requests ::
      Given(ip, h.i.requests[ip].dgram) in h.given || SerializeDatagram(h.i.requests[ip].dgram).None?
  }

  lemma {:induction false} RunHeld(h: History, evs: seq<Event>)
    requires HeldInv(h)
    ensures HeldInv(Replay(h, evs))
    decreases |evs|
  {
    if evs != [] { RunHeld(Advance(h, evs[0]), evs[1..]); }
  }

  /** The bytes are those of a datagram that was handed over for this next hop. */
  ghost predicate Carries(given: set<Given>, hop: U32, data: seq<Byte>) {
    exists g | g in given :: g.hop == hop && SerializeDatagram(g.dgram) == Some(data)
  }

  /** An IPv4 frame a step adds carries a datagram that was handed over for some next hop, and its destination
      was learned for that hop within the lifetime of a mapping. */
  ghost predicate GoesToLearned(h: History, ev: Event) {
    var h' := Advance(h, ev);
    forall k | |h.i.out| <= k < |h'.i.out| && h'.i.out[k].content.IpContent? ::
      && !ev.Pass?
      && (ev.Recv? ==> ForUs(h.i, ev.f))
      && var hop := if ev.Send? then ev.hop else ev.f.content.msg.senderIp;
      && Carries(h'.given, hop, h'.i.out[k].content.data)
      && hop in h'.learned && h'.learned[hop].mac == h'.i.out[k].dst
      && h'.now - h'.learned[hop].time <= MAPPING_TTL
  }

  lemma {:induction false} FramesAreRequests(i: Interface, order: seq<U32>)
    ensures forall k | 0 <= k < |RequestFrames(i, order)| :: IsRequest(RequestFrames(i, order)[k])
  {
    if order != [] { FramesAreRequests(i, order[1..]); }
  }

  lemma {:induction false} StepGoesToLearned(h: History, ev: Event)
    requires FreshInv(h) && HeldInv(h)
    ensures GoesToLearned(h, ev)
  {
    match ev
    case Pass(ms, order) => FramesAreRequests(h.i, order);
    case Send(dgram, hop) => assert Given(hop, dgram) in Advance(h, ev).given;
    case Recv(f) => RecvGoesToLearned(h, f);
  }

  /** A received frame adds at most one frame, and that is IPv4 only if it releases what waited for the sender. */
  lemma {:induction false} RecvAdds(i: Interface, f: Frame)
    ensures var out := RecvFrame(i, f).state.out;
            && |i.out| <= |out| <= |i.out| + 1
            && (|out| > |i.out| && out[|i.out|].content.IpContent? ==>
                  && ForUs(i, f) && out[|i.out|].dst == f.content.msg.senderMac
                  && var hop := f.content.msg.senderIp;
                  && hop in i.requests
                  && SerializeDatagram(i.requests[hop].dgram) == Some(out[|i.out|].content.data))
  {
    DefaultUnsendable();
  }

  lemma DefaultUnsendable()
    ensures SerializeDatagram(DEFAULT_DATAGRAM) == None
  {
  }

  lemma {:induction false} RecvGoesToLearned(h: History, f: Frame)
    requires HeldInv(h)
    ensures GoesToLearned(h, Recv(f))
  {
    RecvAdds(h.i, f);
    var out := RecvFrame(h.i, f).state.out;
    if |out| > |h.i.out| && out[|h.i.out|].content.IpContent? { ReplyCarries(h, f.content.msg.senderIp); }
  }

  lemma {:induction false} ReplyCarries(h: History, hop: U32)
    requires HeldInv(h) && hop in h.i.requests && SerializeDatagram(h.i.requests[hop].dgram).Some?
    ensures Carries(h.given, hop, SerializeDatagram(h.i.requests[hop].dgram).value)
  {
    assert Given(hop, h.i.requests[hop].dgram) in h.given;
  }

  predicate AllSafe(evs: seq<Event>) { forall k | 0 <= k < |evs| :: evs[k].Pass? ==> SafeTick(evs[k].ms) }

  lemma {:induction false} RunFresh(h: History, evs: seq<Event>)
    requires FreshInv(h) && AllSafe(evs)
    ensures FreshInv(Replay(h, evs))
    decreases |evs|
  {
    if evs != [] {
      assert evs[0].Pass? ==> SafeTick(evs[0].ms);
      StepFresh(h, evs[0]);
      RunFresh(Advance(h, evs[0]), evs[1..]);
    }
  }

  /** In every run of safe ticks, each IPv4 frame carries a datagram that was handed over for some next hop, and
      goes to an address learned for that hop at most thirty seconds earlier. */
  lemma {:induction false} FreshAddress(mac: Mac, ip: U32, evs: seq<Event>, ev: Event)
    requires AllSafe(evs)
    ensures GoesToLearned(Replay(NewHistory(mac, ip), evs), ev)
  {
    RunFresh(NewHistory(mac, ip), evs);
    RunHeld(NewHistory(mac, ip), evs);
    StepGoesToLearned(Replay(NewHistory(mac, ip), evs), ev);
  }

  // ---------------------------------------------------------------- when a tick is not safe

  /** An age at which a tick that is not safe leaves a mapping in place. */
  function WorstAge(ms: nat): nat {
    if TWO31 - MAPPING_TTL <= ms % TWO32 < TWO31 then MAPPING_TTL else 0
  }

  /** A peer is heard of, time passes up to the worst age, and then the tick. */
  function StaleRun(ip: U32, peer: U32, peerMac: Mac, ms: nat): seq<Event> {
    [Recv(Frame(BROADCAST, peerMac, ArpContent(ArpMessage(OPCODE_REQUEST, peerMac, peer, 0, ip)))),
     Pass(WorstAge(ms), []), Pass(ms, [])]
  }

  lemma {:induction false} ReplayThree(h: History, a: Event, b: Event, c: Event)
    ensures var h1 := Advance(h, a);
            var h2 := Advance(h1, b);
            && Replay(h, [a, b, c]) == Advance(h2, c)
            && (AllAllowed(h, [a, b, c]) <==> Allowed(h.i, a) && Allowed(h1.i, b) && Allowed(h2.i, c))
  {
    assert [a, b, c][1..] == [b, c] && [b, c][1..] == [c] && [c][1..] == [];
    var h1 := Advance(h, a);
    var h2 := Advance(h1, b);
    assert Replay(h1, [b, c]) == Replay(h2, [c]) == Advance(h2, c);
    assert AllAllowed(h1, [b, c]) <==> Allowed(h1.i, b) && AllAllowed(h2, [c]);
    assert AllAllowed(h2, [c]) <==> Allowed(h2.i, c) && AllAllowed(Advance(h2, c), []);
  }

  /** After it, a datagram for the peer goes to an address that is too old. */
  lemma {:induction false} UnsafeTickGoesStale(mac: Mac, ip: U32, peer: U32, peerMac: Mac, ms: nat, d: IPv4Datagram)
    requires !SafeTick(ms) && SerializeDatagram(d).Some?
    ensures var h, run := NewHistory(mac, ip), StaleRun(ip, peer, peerMac, ms);
            AllAllowed(h, run) && !GoesToLearned(Replay(h, run), Send(d, peer))
  {
    var h0, run := NewHistory(mac, ip), StaleRun(ip, peer, peerMac, ms);
    var h1 := Advance(h0, run[0]);
    var h2 := Advance(h1, run[1]);
    var h3 := Advance(h2, run[2]);
    ReplayThree(h0, run[0], run[1], run[2]);
    assert h1.i.table == map[peer := Mapping(0, peerMac)];
    SmallAge(WorstAge(ms));
    assert h2.i.table == map[peer := Mapping(WorstAge(ms), peerMac)];
    assert peer in h3.i.table && h3.now - h3.learned[peer].time > MAPPING_TTL;
    assert Advance(h3, Send(d, peer)).i.out[|h3.i.out|].content.IpContent?;
  }

  /** Every tick is safe, or is this long. */
  predicate AllSafeBut(evs: seq<Event>, ms: nat) {
    forall k | 0 <= k < |evs| :: evs[k].Pass? ==> SafeTick(evs[k].ms) || evs[k].ms == ms
  }

  ghost predicate AlwaysFresh(mac: Mac, ip: U32, evs: seq<Event>) {
    forall ev :: GoesToLearned(Replay(NewHistory(mac, ip), evs), ev)
  }

  /** The safe ticks are exactly the ones that may be allowed: with any other, some run sends to a stale address. */
  lemma {:induction false} SafeTicksExact(mac: Mac, ip: U32, ms: nat)
    ensures SafeTick(ms) <==>
            forall evs | AllAllowed(NewHistory(mac, ip), evs) && AllSafeBut(evs, ms) :: AlwaysFresh(mac, ip, evs)
  {
    if SafeTick(ms) {
      forall evs | AllAllowed(NewHistory(mac, ip), evs) && AllSafeBut(evs, ms) ensures AlwaysFresh(mac, ip, evs) {
        forall ev ensures GoesToLearned(Replay(NewHistory(mac, ip), evs), ev) { FreshAddress(mac, ip, evs, ev); }
      }
    } else {
      var d := IPv4Datagram(DEFAULT_DATAGRAM.header.(len := 20), []);
      UnsafeTickGoesStale(mac, ip, 0, 0, ms, d);
      assert AllSafeBut(StaleRun(ip, 0, 0, ms), ms) && !AlwaysFresh(mac, ip, StaleRun(ip, 0, 0, ms));
    }
  }
}
