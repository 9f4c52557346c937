/** What the receivers count: a report that depends on the datagrams and on nothing else. */
module ReceiverAccounting {
  import opened Words
  import opened Sequences
  import opened SequenceHistory

  const HEADER_BYTES: nat := 16
  const MAGIC: nat := 0x6584
  const VERSION: nat := 1

  datatype Datagram = Datagram(length: nat, magic: nat, version: nat, sequence: U32)
  datatype Packet = Packet(sequence: U32, sampled: bool)
  datatype Kind = Short | BadMagic | BadVersion | Accepted

  /** What one pass of the receive loop meets: a stop request, or a recvmmsg outcome. */
  datatype Io = Stop | Retry | Fatal | Returned(ds: seq<Datagram>)

  /** How many datagrams the next recvmmsg asks for. */
  function Request(batchSize: nat, maxPackets: nat, datagrams: nat): (n: nat)
    ensures n <= batchSize
    ensures maxPackets != 0 && datagrams <= maxPackets ==> datagrams + n <= maxPackets
    ensures n == batchSize || (maxPackets != 0 && datagrams + n >= maxPackets)
  {
    if maxPackets == 0 then batchSize
    else if datagrams >= maxPackets then 0
    else if maxPackets - datagrams < batchSize then maxPackets - datagrams
    else batchSize
  }

  /** All datagrams handed over, one call after another. */
  function Delivered(script: seq<Io>): seq<Datagram> {
    if script == [] then []
    else (if script[0].Returned? then script[0].ds else []) + Delivered(script[1..])
  }

  predicate Ends(io: Io) { io.Stop? || io.Fatal? }

  /** Calls that return no more than they were asked for, and none after a stop, an error or the
      packet limit. */
  ghost predicate WellBehaved(script: seq<Io>, batchSize: nat, maxPackets: nat, n: nat) {
    script == [] ||
    (&& (maxPackets != 0 ==> n < maxPackets)
     && match script[0]
        case Returned(ds) =>
          |ds| <= Request(batchSize, maxPackets, n) &&
          WellBehaved(script[1..], batchSize, maxPackets, n + |ds|)
        case Retry => WellBehaved(script[1..], batchSize, maxPackets, n)
        case _ => |script| == 1)
  }

  /** Calls that bring the receive loop to its end: by a stop, by an error, or by the packet limit. */
  predicate Complete(script: seq<Io>, maxPackets: nat) {
    (script != [] && Ends(script[|script| - 1])) || (maxPackets != 0 && |Delivered(script)| >= maxPackets)
  }

  /** The checks of the receive loops, in their order. */
  function KindOf(d: Datagram): Kind {
    if d.length < HEADER_BYTES then Short
    else if d.magic != MAGIC then BadMagic
    else if d.version != VERSION then BadVersion
    else Accepted
  }

  function Kinds(ds: seq<Datagram>): (kinds: seq<Kind>)
    ensures |kinds| == |ds|
  {
    seq(|ds|, i requires 0 <= i < |ds| => KindOf(ds[i]))
  }

  /** How many datagrams fell into one kind. */
  function CountOf(ds: seq<Datagram>, kind: Kind): nat { multiset(Kinds(ds))[kind] }

  predicate Sampled(sequence: U32, sampleEvery: nat) {
    sampleEvery != 0 && sequence % sampleEvery == 0
  }

  function PacketOf(d: Datagram, sampleEvery: nat): Packet {
    Packet(d.sequence, Sampled(d.sequence, sampleEvery))
  }

  /** The valid packets, in arrival order. */
  function Packets(ds: seq<Datagram>, sampleEvery: nat): (ps: seq<Packet>)
    ensures forall p :: p in ps ==> p.sampled == Sampled(p.sequence, sampleEvery)
  {
    if ds == [] then []
    else
      var d := ds[|ds| - 1];
      Packets(ds[..|ds| - 1], sampleEvery) +
      (if KindOf(d) == Accepted then [PacketOf(d, sampleEvery)] else [])
  }

  function NumbersOf(ps: seq<Packet>): Stream {
    seq(|ps|, i requires 0 <= i < |ps| => ps[i].sequence)
  }

  function SampledOf(ps: seq<Packet>): Stream {
    if ps == [] then []
    else
      var p := ps[|ps| - 1];
      SampledOf(ps[..|ps| - 1]) + (if p.sampled then [p.sequence] else [])
  }

  /** The ingress counters of the statistics file. */
  datatype Tally = Tally(datagrams: nat, valid: nat, short: nat, invalidMagic: nat,
                         unsupportedVersion: nat, sampled: nat, overflow: nat) {
    /** The receive loops' counting of one datagram. */
    function Add(d: Datagram, sampleEvery: nat): Tally {
      var t := this.(datagrams := datagrams + 1);
      match KindOf(d)
      case Short => t.(short := short + 1)
      case BadMagic => t.(invalidMagic := invalidMagic + 1)
      case BadVersion => t.(unsupportedVersion := unsupportedVersion + 1)
      case Accepted =>
        t.(valid := valid + 1, sampled := sampled + (if Sampled(d.sequence, sampleEvery) then 1 else 0))
    }
  }

  /** The counters after ds. */
  function TallyOf(ds: seq<Datagram>, sampleEvery: nat): (t: Tally)
    ensures t.datagrams == |ds| && t.overflow == 0
  {
    if ds == [] then Tally(0, 0, 0, 0, 0, 0, 0)
    else TallyOf(ds[..|ds| - 1], sampleEvery).Add(ds[|ds| - 1], sampleEvery)
  }

  datatype SequenceReport = SequenceReport(
    count: nat, unique: nat, gaps: nat, duplicates: nat, reordered: nat, outOfWindow: nat)

  /** One tracker's contribution to the statistics file. */
  ghost function SequencesOf(h: Stream): SequenceReport {
    SequenceReport(|h|, Unique(h), Gaps(h), Duplicates(h), Reordered(h), OutOfWindow(h))
  }

  datatype Report = Report(ingress: Tally, receive: SequenceReport, processed: SequenceReport)

  /** The report of a receiver that was handed ds and processed the packets ps. */
  ghost function ReportOf(ds: seq<Datagram>, ps: seq<Packet>, sampleEvery: nat): Report
    requires |ps| <= |Packets(ds, sampleEvery)|
  {
    var valid := Packets(ds, sampleEvery);
    Report(TallyOf(ds, sampleEvery).(overflow := |valid| - |ps|),
           SequencesOf(NumbersOf(valid)), SequencesOf(NumbersOf(ps)))
  }

  lemma CountAfter(ds: seq<Datagram>, d: Datagram, kind: Kind)
    ensures CountOf(ds + [d], kind) == CountOf(ds, kind) + (if KindOf(d) == kind then 1 else 0)
  {
    assert Kinds(ds + [d]) == Kinds(ds) + [KindOf(d)];
  }

  lemma OneMoreDatagram(ds: seq<Datagram>, d: Datagram, sampleEvery: nat)
    ensures Packets(ds + [d], sampleEvery) ==
              if KindOf(d) == Accepted then Packets(ds, sampleEvery) + [PacketOf(d, sampleEvery)]
              else Packets(ds, sampleEvery)
  {
    assert (ds + [d])[..|ds|] == ds;
  }

  lemma OneMorePacket(ps: seq<Packet>, p: Packet)
    ensures NumbersOf(ps + [p]) == NumbersOf(ps) + [p.sequence]
    ensures SampledOf(ps + [p]) == SampledOf(ps) + (if p.sampled then [p.sequence] else [])
  {
    assert (ps + [p])[..|ps|] == ps;
  }

  lemma TallyAfter(ds: seq<Datagram>, d: Datagram, sampleEvery: nat)
    ensures TallyOf(ds + [d], sampleEvery) == TallyOf(ds, sampleEvery).Add(d, sampleEvery)
  {
    assert (ds + [d])[..|ds|] == ds;
  }

  lemma OverflowIsSeparate(t: Tally, overflow: nat, d: Datagram, sampleEvery: nat)
    ensures t.(overflow := overflow).Add(d, sampleEvery) == t.Add(d, sampleEvery).(overflow := overflow)
  {
  }

  /** What one more datagram does: shorter than 16 bytes it is short; else with a magic other than 0x6584
      invalid; else with a version other than 1 unsupported; else valid, its number a packet to process,
      sampled when its number is a multiple of the sampling interval. Nothing else changes. */
  lemma DatagramMeans(ds: seq<Datagram>, d: Datagram, sampleEvery: nat)
    ensures var t, t' := TallyOf(ds, sampleEvery), TallyOf(ds + [d], sampleEvery);
            var ps, ps' := Packets(ds, sampleEvery), Packets(ds + [d], sampleEvery);
            if d.length < 16 then
              t' == t.(datagrams := t.datagrams + 1, short := t.short + 1) && ps' == ps
            else if d.magic != 0x6584 then
              t' == t.(datagrams := t.datagrams + 1, invalidMagic := t.invalidMagic + 1) && ps' == ps
            else if d.version != 1 then
              t' == t.(datagrams := t.datagrams + 1, unsupportedVersion := t.unsupportedVersion + 1) && ps' == ps
            else
              var sampled := sampleEvery != 0 && d.sequence % sampleEvery == 0;
              && t' == t.(datagrams := t.datagrams + 1, valid := t.valid + 1,
                          sampled := t.sampled + (if sampled then 1 else 0))
              && ps' == ps + [Packet(d.sequence, sampled)]
  {
    TallyAfter(ds, d, sampleEvery);
    OneMoreDatagram(ds, d, sampleEvery);
  }

  /** The log holds the sampled packets' numbers, in order. */
  lemma SampledMeans(ps: seq<Packet>, p: Packet)
    ensures SampledOf(ps + [p]) == if p.sampled then SampledOf(ps) + [p.sequence] else SampledOf(ps)
    ensures SampledOf([]) == []
  {
    OneMorePacket(ps, p);
  }

  lemma {:induction false} KindsCounted(ds: seq<Datagram>, sampleEvery: nat)
    ensures var t := TallyOf(ds, sampleEvery);
            && t.valid == CountOf(ds, Accepted)
            && t.short == CountOf(ds, Short)
            && t.invalidMagic == CountOf(ds, BadMagic)
            && t.unsupportedVersion == CountOf(ds, BadVersion)
            && t.datagrams == t.valid + t.short + t.invalidMagic + t.unsupportedVersion
  {
    if ds != [] {
      var past, d := ds[..|ds| - 1], ds[|ds| - 1];
      assert ds == past + [d];
      KindsCounted(past, sampleEvery);
      CountAfter(past, d, Accepted);
      CountAfter(past, d, Short);
      CountAfter(past, d, BadMagic);
      CountAfter(past, d, BadVersion);
    }
  }

  lemma {:induction false} PacketsCounted(ds: seq<Datagram>, sampleEvery: nat)
    ensures var t, packets := TallyOf(ds, sampleEvery), Packets(ds, sampleEvery);
            t.valid == |packets| && t.sampled == |SampledOf(packets)|
  {
    if ds != [] {
      var past, d := ds[..|ds| - 1], ds[|ds| - 1];
      assert ds == past + [d];
      PacketsCounted(past, sampleEvery);
      OneMoreDatagram(past, d, sampleEvery);
      OneMorePacket(Packets(past, sampleEvery), PacketOf(d, sampleEvery));
    }
  }

  /** What the counters mean: each is the number of datagrams of its kind, and together they
      account for every datagram exactly once. */
  lemma TallyMeans(ds: seq<Datagram>, sampleEvery: nat)
    ensures var t := TallyOf(ds, sampleEvery);
            && t.datagrams == |ds| == t.valid + t.short + t.invalidMagic + t.unsupportedVersion
            && t.valid == CountOf(ds, Accepted) == |Packets(ds, sampleEvery)|
            && t.short == CountOf(ds, Short)
            && t.invalidMagic == CountOf(ds, BadMagic)
            && t.unsupportedVersion == CountOf(ds, BadVersion)
            && t.sampled == |SampledOf(Packets(ds, sampleEvery))|
  {
    KindsCounted(ds, sampleEvery);
    PacketsCounted(ds, sampleEvery);
  }

  /** Dropping packets and reading their sequence numbers commute. */
  lemma {:induction false} NumbersOfKept(ps: seq<Packet>, mask: seq<bool>)
    requires |ps| == |mask|
    ensures NumbersOf(Keep(ps, mask)) == Keep(NumbersOf(ps), mask)
  {
    if ps != [] {
      var n := |ps| - 1;
      NumbersOfKept(ps[..n], mask[..n]);
      assert NumbersOf(ps)[..n] == NumbersOf(ps[..n]);
    }
  }
}
