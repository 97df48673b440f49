/** The network interface against an ideal one that keeps times instead of ages: what each call sends, over every
    run. */
module InterfaceRuns {
  import opened Basics
  import opened Parsing
  import opened Ipv4Wire
  import opened ArpModel

  /** A datagram waiting for an address, and when that address was last asked for. */
  datatype Held = Held(dgram: IPv4Datagram, since: nat)

  /** Who was last heard from each address and when, with nothing ever forgotten; and what is waiting. */
  datatype Ideal = Ideal(mac: Mac, ip: U32, now: nat, learned: map<U32, Learned>, pending: map<U32, Held>)

  function NewIdeal(mac: Mac, ip: U32): Ideal { Ideal(mac, ip, 0, map[], map[]) }

  predicate Known(x: Ideal, hop: U32) { hop in x.learned && x.now - x.learned[hop].time <= MAPPING_TTL }

  predicate JustAsked(x: Ideal, hop: U32) { hop in x.pending && x.now - x.pending[hop].since < REQUEST_TTL }

  predicate Overdue(x: Ideal, ms: nat, hop: U32) {
    hop in x.pending && x.now + ms - x.pending[hop].since > REQUEST_TTL
  }

  predicate IsMessage(x: Ideal, f: Frame) {
    (f.dst == x.mac || f.dst == BROADCAST) && f.content.ArpContent? && f.content.msg.targetIp == x.ip
  }

  predicate IsReply(x: Ideal, f: Frame) {
    IsMessage(x, f) && f.content.msg.opcode == OPCODE_REPLY && f.content.msg.targetMac == x.mac
  }

  predicate Releasable(x: Ideal, hop: U32) {
    hop in x.pending && SerializeDatagram(x.pending[hop].dgram).Some?
  }

  // ---------------------------------------------------------------- the ideal interface

  function Question(x: Ideal, target: U32): Frame {
    Frame(BROADCAST, x.mac, ArpContent(ArpMessage(OPCODE_REQUEST, x.mac, x.ip, 0, target)))
  }

  function Answer(x: Ideal, m: ArpMessage): Frame {
    Frame(m.senderMac, x.mac, ArpContent(ArpMessage(OPCODE_REPLY, x.mac, x.ip, m.senderMac, m.senderIp)))
  }

  function Questions(x: Ideal, targets: seq<U32>): seq<Frame> {
    seq(|targets|, k requires 0 <= k < |targets| => Question(x, targets[k]))
  }

  /** What goes out: a datagram at once to an address heard from in the last thirty seconds; otherwise a question,
      unless it was asked less than five seconds ago; a waiting datagram as soon as its address answers; an answer
      to a question about us; and each question again once five seconds have passed. */
  function Sends(x: Ideal, ev: Event): seq<Frame> {
    match ev
    case Send(dgram, hop) =>
      if Known(x, hop) then
        match SerializeDatagram(dgram)
        case None => []
        case Some(data) => [Frame(x.learned[hop].mac, x.mac, IpContent(data))]
      else if JustAsked(x, hop) then []
      else [Question(x, hop)]
    case Recv(f) =>
      if !IsMessage(x, f) then []
      else
        var m := f.content.msg;
        if IsReply(x, f) then
          if Releasable(x, m.senderIp)
          then [Frame(m.senderMac, x.mac, IpContent(SerializeDatagram(x.pending[m.senderIp].dgram).value))]
          else []
        else if m.opcode == OPCODE_REQUEST then [Answer(x, m)]
        else []
    case Pass(ms, order) => Questions(x, order)
  }

  /** The call throws when it serializes a datagram that cannot be, which an unexpected reply makes it do. */
  predicate Throws(x: Ideal, ev: Event) {
    match ev
    case Send(dgram, hop) => Known(x, hop) && SerializeDatagram(dgram).None?
    case Recv(f) => IsReply(x, f) && !Releasable(x, f.content.msg.senderIp)
    case Pass(ms, order) => false
  }

  function Unanswered(x: Ideal, hop: U32): Held {
    if hop in x.pending then x.pending[hop] else Held(DEFAULT_DATAGRAM, x.now)
  }

  function Heard(x: Ideal, m: ArpMessage): Ideal {
    x.(learned := x.learned[m.senderIp := Learned(m.senderMac, x.now)])
  }

  function Replied(x: Ideal, hop: U32): Ideal {
    x.(pending := if Releasable(x, hop) then x.pending - {hop} else x.pending[hop := Unanswered(x, hop)])
  }

  function Next(x: Ideal, ev: Event): Ideal {
    match ev
    case Send(dgram, hop) =>
      if Known(x, hop) || JustAsked(x, hop) then x else x.(pending := x.pending[hop := Held(dgram, x.now)])
    case Recv(f) =>
      if !IsMessage(x, f) then x
      else if IsReply(x, f) then Replied(Heard(x, f.content.msg), f.content.msg.senderIp)
      else Heard(x, f.content.msg)
    case Pass(ms, order) =>
      x.(now := x.now + ms,
         pending := map hop | hop in x.pending ::
           if Overdue(x, ms, hop) then x.pending[hop].(since := x.now + ms) else x.pending[hop])
  }

  // ---------------------------------------------------------------- refinement

  ghost predicate SameTable(i: Interface, x: Ideal) {
    forall ip: U32 ::
      && (ip in i.table <==> Known(x, ip))
      && (ip in i.table ==> i.table[ip] == Mapping(x.now - x.learned[ip].time, x.learned[ip].mac))
      && (ip in x.learned ==> x.learned[ip].time <= x.now)
  }

  ghost predicate SameRequests(i: Interface, x: Ideal) {
    forall ip: U32 ::
      && (ip in i.requests <==> ip in x.pending)
      && (ip in i.requests ==>
            && i.requests[ip] == Waiting(x.now - x.pending[ip].since, x.pending[ip].dgram)
            && 0 <= i.requests[ip].age <= REQUEST_TTL)
  }

  ghost predicate Agrees(i: Interface, x: Ideal) {
    i.mac == x.mac && i.ip == x.ip && SameTable(i, x) && SameRequests(i, x)
  }

  predicate Threw(i: Interface, ev: Event) {
    match ev
    case Send(dgram, hop) => SendDatagram(i, dgram, hop).threw
    case Recv(f) => RecvFrame(i, f).threw
    case Pass(ms, order) => false
  }

  ghost predicate Refines(i: Interface, x: Ideal, ev: Event) {
    && Agrees(Step(i, ev), Next(x, ev))
    && Step(i, ev).out == i.out + Sends(x, ev)
    && Threw(i, ev) == Throws(x, ev)
  }

  /** A safe tick takes every age for what it is. */
  lemma {:induction false} SafeAges(age: int, ms: nat)
    requires SafeTick(ms) && 0 <= age <= MAPPING_TTL
    ensures Aged(age, ms) <= MAPPING_TTL <==> age + ms <= MAPPING_TTL
    ensures age + ms <= MAPPING_TTL ==> Aged(age, ms) == age + ms
    ensures age <= REQUEST_TTL ==> (Aged(age, ms) > REQUEST_TTL <==> age + ms > REQUEST_TTL)
  {
    if age + ms <= MAPPING_TTL { SmallAge(age + ms); } else { SafeTickIff(ms); }
  }

  lemma {:induction false} TickTable(i: Interface, x: Ideal, ms: nat, order: seq<U32>)
    requires SameTable(i, x) && SafeTick(ms)
    ensures SameTable(ArpModel.Tick(i, ms, order), Next(x, Pass(ms, order)))
  {
    var i', x' := ArpModel.Tick(i, ms, order), Next(x, Pass(ms, order));
    forall ip: U32
      ensures ip in i'.table <==> Known(x', ip)
      ensures ip in i'.table ==> i'.table[ip] == Mapping(x'.now - x'.learned[ip].time, x'.learned[ip].mac)
    {
      assert ip in i.table <==> Known(x, ip);
      if ip in i.table { SafeAges(i.table[ip].age, ms); }
    }
  }

  lemma {:induction false} TickRequests(i: Interface, x: Ideal, ms: nat, order: seq<U32>)
    requires SameRequests(i, x) && SafeTick(ms)
    ensures SameRequests(ArpModel.Tick(i, ms, order), Next(x, Pass(ms, order)))
  {
    var i', x' := ArpModel.Tick(i, ms, order), Next(x, Pass(ms, order));
    forall ip: U32 | ip in i.requests
      ensures i'.requests[ip] == Waiting(x'.now - x'.pending[ip].since, x'.pending[ip].dgram)
      ensures 0 <= i'.requests[ip].age <= REQUEST_TTL
    {
      SafeAges(i.requests[ip].age, ms);
    }
  }

  /** The requests that are due are those asked more than five seconds ago. */
  lemma {:induction false} DueIsOverdue(i: Interface, x: Ideal, ms: nat, ip: U32)
    requires SameRequests(i, x) && SafeTick(ms)
    ensures ip in i.requests && Due(i.requests[ip], ms) <==> Overdue(x, ms, ip)
  {
    if ip in i.requests { SafeAges(i.requests[ip].age, ms); }
  }

  lemma {:induction false} SameQuestions(i: Interface, x: Ideal, order: seq<U32>)
    requires i.mac == x.mac && i.ip == x.ip
    ensures RequestFrames(i, order) == Questions(x, order)
  {
    if order != [] { SameQuestions(i, x, order[1..]); }
  }

  lemma {:induction false} SendRefines(i: Interface, x: Ideal, dgram: IPv4Datagram, hop: U32)
    requires Agrees(i, x)
    ensures Refines(i, x, Send(dgram, hop))
  {
    assert hop in i.table <==> Known(x, hop);
    assert hop in i.requests <==> hop in x.pending;
    if !Known(x, hop) && !JustAsked(x, hop) { AskRefines(i, x, dgram, hop); }
  }

  lemma {:induction false} AskRefines(i: Interface, x: Ideal, dgram: IPv4Datagram, hop: U32)
    requires Agrees(i, x)
    ensures Agrees(Push(i.(requests := i.requests[hop := Waiting(0, dgram)]), RequestFrame(i, hop)),
                   x.(pending := x.pending[hop := Held(dgram, x.now)]))
  {
    assert SameTable(i, x.(pending := x.pending[hop := Held(dgram, x.now)]));
  }

  lemma {:induction false} RecvRefines(i: Interface, x: Ideal, f: Frame)
    requires Agrees(i, x)
    ensures Refines(i, x, Recv(f))
  {
    if IsReply(x, f) { ReplyRefines(i, x, f); } else if IsMessage(x, f) { LearnAgrees(i, x, f.content.msg); }
  }

  lemma {:induction false} ReplyRefines(i: Interface, x: Ideal, f: Frame)
    requires Agrees(i, x) && IsReply(x, f)
    ensures Refines(i, x, Recv(f))
  {
    LearnAgrees(i, x, f.content.msg);
    ReplyAgrees(Learn(i, f.content.msg), Heard(x, f.content.msg), f.content.msg);
  }

  lemma {:induction false} LearnAgrees(i: Interface, x: Ideal, m: ArpMessage)
    requires Agrees(i, x)
    ensures Agrees(Learn(i, m), Heard(x, m))
  {
    assert SameTable(Learn(i, m), Heard(x, m));
  }

  lemma {:induction false} ReplyAgrees(i: Interface, x: Ideal, m: ArpMessage)
    requires Agrees(i, x)
    ensures var o, hop := TakeReply(i, m), m.senderIp;
            && Agrees(o.state, Replied(x, hop))
            && (o.threw <==> !Releasable(x, hop))
            && o.state.out == i.out + (if o.threw then [] else
                 [Frame(m.senderMac, x.mac, IpContent(SerializeDatagram(x.pending[hop].dgram).value))])
  {
    DefaultUnsendable();
    assert m.senderIp in i.requests <==> m.senderIp in x.pending;
    assert SameTable(TakeReply(i, m).state, Replied(x, m.senderIp));
  }

  lemma {:induction false} StepRefines(i: Interface, x: Ideal, ev: Event)
    requires Agrees(i, x) && (ev.Pass? ==> SafeTick(ev.ms))
    ensures Refines(i, x, ev)
  {
    match ev
    case Send(dgram, hop) => SendRefines(i, x, dgram, hop);
    case Recv(f) => RecvRefines(i, x, f);
    case Pass(ms, order) =>
      TickTable(i, x, ms, order);
      TickRequests(i, x, ms, order);
      SameQuestions(i, x, order);
  }

  function RunOf(i: Interface, evs: seq<Event>): Interface
    decreases |evs|
  {
    if evs == [] then i else RunOf(Step(i, evs[0]), evs[1..])
  }

  function IdealRun(x: Ideal, evs: seq<Event>): Ideal
    decreases |evs|
  {
    if evs == [] then x else IdealRun(Next(x, evs[0]), evs[1..])
  }

  function AllSends(x: Ideal, evs: seq<Event>): seq<Frame>
    decreases |evs|
  {
    if evs == [] then [] else Sends(x, evs[0]) + AllSends(Next(x, evs[0]), evs[1..])
  }

  lemma {:induction false} RunRefines(i: Interface, x: Ideal, evs: seq<Event>)
    requires Agrees(i, x) && AllSafe(evs)
    ensures Agrees(RunOf(i, evs), IdealRun(x, evs)) && RunOf(i, evs).out == i.out + AllSends(x, evs)
    decreases |evs|
  {
    if evs != [] {
      assert evs[0].Pass? ==> SafeTick(evs[0].ms);
      StepRefines(i, x, evs[0]);
      RunRefines(Step(i, evs[0]), Next(x, evs[0]), evs[1..]);
    }
  }

  /** Every run of safe ticks puts out exactly the frames of the ideal interface, in its order; each call throws
      exactly when the ideal one says; and a tick asks again exactly for the addresses that are overdue. */
  lemma {:induction false} FramesExact(mac: Mac, ip: U32, evs: seq<Event>, ev: Event)
    requires AllSafe(evs) && (ev.Pass? ==> SafeTick(ev.ms))
    ensures var i, x := RunOf(NewHistory(mac, ip).i, evs), IdealRun(NewIdeal(mac, ip), evs);
            && i.out == AllSends(NewIdeal(mac, ip), evs)
            && Step(i, ev).out == i.out + Sends(x, ev)
            && Threw(i, ev) == Throws(x, ev)
            && (Allowed(i, ev) && ev.Pass? ==>
                  Distinct(ev.order) && forall hop: U32 :: hop in ev.order <==> Overdue(x, ev.ms, hop))
  {
    var i, x := NewHistory(mac, ip).i, NewIdeal(mac, ip);
    RunRefines(i, x, evs);
    StepRefines(RunOf(i, evs), IdealRun(x, evs), ev);
    if ev.Pass? {
      forall hop: U32 { DueIsOverdue(RunOf(i, evs), IdealRun(x, evs), ev.ms, hop); }
    }
  }

  // ---------------------------------------------------------------- a waiting datagram

  /** Nothing happens that concerns what waits for `hop`: no other datagram for it, no reply from it. */
  predicate Undisturbed(i: Interface, hop: U32, ev: Event) {
    match ev
    case Send(dgram, to) => to != hop
    case Recv(f) => !(ForUs(i, f) && f.content.msg.opcode == OPCODE_REPLY && f.content.msg.senderIp == hop)
    case Pass(ms, order) => true
  }

  predicate AllUndisturbed(i: Interface, hop: U32, evs: seq<Event>) {
    forall k | 0 <= k < |evs| :: Undisturbed(i, hop, evs[k])
  }

  lemma {:induction false} KeepsWaiting(i: Interface, hop: U32, evs: seq<Event>)
    requires hop in i.requests && AllUndisturbed(i, hop, evs)
    ensures var i' := RunOf(i, evs);
            i'.mac == i.mac && i'.ip == i.ip && hop in i'.requests && i'.requests[hop].dgram == i.requests[hop].dgram
    decreases |evs|
  {
    if evs != [] {
      var i1 := Step(i, evs[0]);
      assert Undisturbed(i, hop, evs[0]);
      forall k | 0 <= k < |evs[1..]| ensures Undisturbed(i1, hop, evs[1..][k]) {
        assert Undisturbed(i, hop, evs[k + 1]);
      }
      KeepsWaiting(i1, hop, evs[1..]);
    }
  }

  /** A reply for us from the address a datagram waits for sends that datagram there, and nothing else waits for
      the address any more. */
  lemma {:induction false} ReplyReleases(i: Interface, f: Frame, data: seq<Byte>)
    requires ForUs(i, f) && f.content.msg.opcode == OPCODE_REPLY && f.content.msg.targetMac == i.mac
    requires var hop := f.content.msg.senderIp;
             hop in i.requests && SerializeDatagram(i.requests[hop].dgram) == Some(data)
    ensures var o, m := RecvFrame(i, f), f.content.msg;
            && !o.threw
            && o.state.out == i.out + [Frame(m.senderMac, i.mac, IpContent(data))]
            && o.state.requests == i.requests - {m.senderIp}
            && o.state.table == i.table[m.senderIp := Mapping(0, m.senderMac)]
  {
  }

  /** A datagram that has to wait goes out with the first reply from its next hop, however long that takes and
      whatever else happens. */
  lemma {:induction false} WaitsForReply(i: Interface, dgram: IPv4Datagram, hop: U32, evs: seq<Event>, f: Frame,
                                         data: seq<Byte>)
    requires hop !in i.table && !(hop in i.requests && i.requests[hop].age < REQUEST_TTL)
    requires SerializeDatagram(dgram) == Some(data)
    requires AllUndisturbed(i, hop, evs)
    requires ForUs(i, f) && f.content.msg.opcode == OPCODE_REPLY && f.content.msg.targetMac == i.mac
    requires f.content.msg.senderIp == hop
    ensures var i1 := RunOf(Step(i, Send(dgram, hop)), evs);
            var o := RecvFrame(i1, f);
            !o.threw && o.state.out == i1.out + [Frame(f.content.msg.senderMac, i.mac, IpContent(data))]
  {
    var i0 := Step(i, Send(dgram, hop));
    forall k | 0 <= k < |evs| ensures Undisturbed(i0, hop, evs[k]) { assert Undisturbed(i, hop, evs[k]); }
    KeepsWaiting(i0, hop, evs);
    ReplyReleases(RunOf(i0, evs), f, data);
  }

  // ---------------------------------------------------------------- what is handed up

  /** Bytes that are a well-formed datagram, in a frame for us or for everyone, are handed up as that datagram, and
      a frame for someone else or of another kind hands up nothing; neither touches the interface. */
  lemma {:induction false} HandsUp(i: Interface, f: Frame, d: IPv4Datagram)
    requires WellFormed(d)
    ensures f.content == IpContent(SerializeDatagram(d).value) ==>
              && Received(i, f) == (if f.dst == i.mac || f.dst == BROADCAST
                                    then Some(IPv4Datagram(IpWithChecksum(d.header), d.payload)) else None)
              && RecvFrame(i, f) == Outcome(i, false)
    ensures Received(i, f).Some? <==>
              && (f.dst == i.mac || f.dst == BROADCAST) && f.content.IpContent?
              && ParseDatagram(DEFAULT_DATAGRAM, f.content.data).result == NoError
  {
    DatagramRoundTrip(d, DEFAULT_DATAGRAM);
  }
}
