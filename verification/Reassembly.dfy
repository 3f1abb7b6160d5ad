/** `procFragment` of `tun2socks/ip.go` and the reader loop of `tun2socks/tun2socks.go`
    up to the protocol dispatch. A trace is what the reader gets through: a packet on which the parser panics ends
    the program, and traces in which there is one count it as dropped. */
module Reassembly {
  import opened Bytes
  import Ip = IPv4
  import opened Fragments
  import opened Wrappers

  /** One datagram under reassembly. */
  datatype Entry = Entry(ip: Ip.Header, payload: seq<byte>, wire: seq<byte>)

  /** What becomes of one packet read from the tun device. */
  datatype Delivery = Dropped | Delivered(ip: Ip.Header, payload: seq<byte>)

  type Table = map<u16, Entry>

  predicate MoreFragments(h: Ip.Header) {
    h.flags % 2 == 1
  }

  /** The fragment word of RFC 791 section 3.1: a reserved bit, don't fragment, more fragments, and an offset of
      thirteen bits. */
  lemma FragmentBits(data: Ip.Bytes20)
    ensures var h := Ip.DecodeFixed(data);
            && (MoreFragments(h) <==> data[6] / 32 % 2 == 1)
            && h.fragOffset == (data[6] as int) % 32 * 256 + data[7] && h.id == (data[4] as int) * 256 + data[5]
  {
    var hi, lo: nat := data[6], data[7];
    assert hi == 32 * (hi / 32) + hi % 32;
    assert (hi * 256 + lo) / 0x2000 == hi / 32 && (hi * 256 + lo) % 0x2000 == hi % 32 * 256 + lo;
  }

  predicate Good(x: Entry) {
    |x.wire| >= 20 && Ip.LengthsOk(x.wire) && x.ip == Ip.DecodeFixed(x.wire) && x.payload == Ip.PayloadOf(x.wire)
  }

  predicate GoodTable(frags: Table) {
    forall id :: id in frags ==> Good(frags[id])
  }

  /** The entry with one more piece: its whole wire is parsed again. */
  function Extend(x: Entry, payload: seq<byte>): Entry
    requires Good(x)
  {
    var wire := x.wire + payload;
    Entry(Ip.DecodeFixed(wire), if Ip.LengthsOk(wire) then Ip.PayloadOf(wire) else x.payload, wire)
  }

  /** What a fragment does to the entry of its id, and whether it is taken for the last one. */
  function Proc(e: Option<Entry>, raw: Ip.Bytes20): (r: (bool, Option<Entry>))
    requires Ip.LengthsOk(raw)
    requires e.Some? ==> Good(e.value)
    ensures r.0 ==> r.1.Some?
  {
    var h, payload := Ip.DecodeFixed(raw), Ip.PayloadOf(raw);
    match e
    case None =>
      if !MoreFragments(h) then (false, None) else (false, Some(Entry(h, payload, raw)))
    case Some(x) =>
      (!MoreFragments(h), Some(Extend(x, payload)))
  }

  /** One turn of the reader, as seen by the entry of the packet's id. */
  function Step(e: Option<Entry>, data: Ip.Bytes20): (Delivery, Option<Entry>)
    requires e.Some? ==> Good(e.value)
  {
    if !Ip.ParseOk(data) then (Dropped, e) else
    var h := Ip.DecodeFixed(data);
    if MoreFragments(h) || h.fragOffset != 0 then
      var (last, e') := Proc(e, data);
      (if last then Delivered(e'.value.ip, e'.value.payload) else Dropped, e')
    else
      (Delivered(h, Ip.PayloadOf(data)), e)
  }

  function Lookup(frags: Table, id: u16): (e: Option<Entry>)
    ensures GoodTable(frags) && e.Some? ==> Good(e.value)
  {
    if id in frags then Some(frags[id]) else None
  }

  /** Entries are replaced but never removed. */
  function Store(frags: Table, id: u16, e: Option<Entry>): Table {
    if e.None? then frags else frags[id := e.value]
  }

  lemma ExtendIsGood(x: Entry, payload: seq<byte>)
    requires Good(x)
    ensures Good(Extend(x, payload))
    ensures Extend(x, payload) == Entry(x.ip, x.payload + payload, x.wire + payload)
  {
    var wire := x.wire + payload;
    Ip.SameFixed(x.wire, wire);
    assert Ip.PayloadOf(wire) == x.payload + payload;
  }

  lemma StepKeepsGood(e: Option<Entry>, data: Ip.Bytes20)
    requires e.Some? ==> Good(e.value)
    ensures Step(e, data).1.Some? ==> Good(Step(e, data).1.value)
  {
    if e.Some? && Ip.ParseOk(data) {
      ExtendIsGood(e.value, Ip.PayloadOf(data));
    }
  }

  class Reader {
    var frags: Table

    ghost predicate Valid()
      reads this
    {
      GoodTable(frags)
    }

    constructor ()
      ensures Valid() && frags == map[]
    {
      frags := map[];
    }

    method ProcFragment(raw: Ip.Bytes20) returns (last: bool, pkt: Option<Entry>)
      requires Valid() && Ip.LengthsOk(raw)
      modifies this
      ensures Valid()
      ensures (last, pkt) == Proc(old(Lookup(frags, Ip.DecodeFixed(raw).id)), raw)
      ensures frags == Store(old(frags), Ip.DecodeFixed(raw).id, pkt)
    {
      var h, payload := Ip.DecodeFixed(raw), Ip.PayloadOf(raw);
      if h.id !in frags {
        if !MoreFragments(h) {
          return false, None;
        }
        var first := Entry(h, payload, raw);
        frags := frags[h.id := first];
        return false, Some(first);
      }
      var exist := frags[h.id];
      ExtendIsGood(exist, payload);
      exist := Extend(exist, payload);
      frags := frags[h.id := exist];
      last := !MoreFragments(h);
      pkt := Some(exist);
    }

    /** One turn of the loop, with the part of its buffer behind the packet. A packet that is too short for a
        fixed header is dropped or, like one whose options cannot be walked, ends the program. */
    method Receive(data: seq<byte>, beyond: seq<byte>) returns (d: Delivery, crashed: bool)
      requires Valid()
      modifies this
      ensures Valid() && crashed == Ip.Crashes(data, beyond)
      ensures crashed || |data| < 20 ==> d == Dropped && frags == old(frags)
      ensures !crashed && |data| >= 20 ==>
                var id := Ip.DecodeFixed(data).id;
                var (d', e') := Step(old(Lookup(frags, id)), data);
                d == d' && frags == Store(old(frags), id, e')
    {
      hide Ip.Crashes;
      var ip := new Ip.IPv4();
      var ok;
      ok, crashed := ip.ParseIPv4(data, beyond);
      if !ok {
        return Dropped, crashed;
      }
      Ip.SameFixed(data, data + beyond);
      if ip.Flags % 2 == 1 || ip.FragOffset != 0 {
        var last, pkt := ProcFragment(data);
        if last {
          return Delivered(pkt.value.ip, pkt.value.payload), false;
        }
        return Dropped, false;
      }
      return Delivered(ip.View(), ip.Payload), false;
    }
  }

  // ---- whole traces

  function IdOf(data: Ip.Bytes20): u16 {
    Ip.DecodeFixed(data).id
  }

  function Next(frags: Table, data: Ip.Bytes20): (t: Table)
    requires GoodTable(frags)
    ensures GoodTable(t)
  {
    StepKeepsGood(Lookup(frags, IdOf(data)), data);
    Store(frags, IdOf(data), Step(Lookup(frags, IdOf(data)), data).1)
  }

  /** The table after a trace of packets of any ids. */
  function After(frags: Table, trace: seq<Ip.Bytes20>): (t: Table)
    requires GoodTable(frags)
    ensures GoodTable(t)
    decreases |trace|
  {
    if trace == [] then frags else After(Next(frags, trace[0]), trace[1..])
  }

  /** What the reader does with the packets of one id among them. */
  function Ours(frags: Table, trace: seq<Ip.Bytes20>, id: u16): seq<Delivery>
    requires GoodTable(frags)
    decreases |trace|
  {
    if trace == [] then [] else
    var rest := Ours(Next(frags, trace[0]), trace[1..], id);
    if IdOf(trace[0]) == id then [Step(Lookup(frags, id), trace[0]).0] + rest else rest
  }

  function Filter(trace: seq<Ip.Bytes20>, id: u16): seq<Ip.Bytes20> {
    if trace == [] then [] else
    (if IdOf(trace[0]) == id then [trace[0]] else []) + Filter(trace[1..], id)
  }

  /** The same packets fed to one entry, and the entry that they leave. */
  function Feed(e: Option<Entry>, trace: seq<Ip.Bytes20>): (r: (seq<Delivery>, Option<Entry>))
    requires e.Some? ==> Good(e.value)
    ensures |r.0| == |trace|
    decreases |trace|
  {
    if trace == [] then ([], e) else
    StepKeepsGood(e, trace[0]);
    var (d, e') := Step(e, trace[0]);
    var (ds, last) := Feed(e', trace[1..]);
    ([d] + ds, last)
  }

  /** Packets with other ids do not matter. */
  lemma {:induction false} NonInterference(frags: Table, trace: seq<Ip.Bytes20>, id: u16)
    requires GoodTable(frags)
    ensures Feed(Lookup(frags, id), Filter(trace, id)) == (Ours(frags, trace, id), Lookup(After(frags, trace), id))
    decreases |trace|
  {
    hide Step, Ip.DecodeFixed, Good;
    if trace != [] {
      var data := trace[0];
      StepKeepsGood(Lookup(frags, id), data);
      NonInterference(Next(frags, data), trace[1..], id);
      if IdOf(data) == id {
        assert Filter(trace, id)[0] == data && Filter(trace, id)[1..] == Filter(trace[1..], id);
        StepKeepsEntry(Lookup(frags, id), data);
      } else {
        assert Filter(trace, id) == Filter(trace[1..], id);
      }
    }
  }

  lemma StepKeepsEntry(e: Option<Entry>, data: Ip.Bytes20)
    requires e.Some? ==> Good(e.value)
    ensures e.Some? ==> Step(e, data).1.Some?
  {
  }

  // ---- arrival order

  /** A datagram under reassembly without its bytes on the wire. */
  datatype Partial = Partial(ip: Ip.Header, payload: seq<byte>)

  function PartOf(e: Option<Entry>): Option<Partial> {
    if e.None? then None else Some(Partial(e.value.ip, e.value.payload))
  }

  /** A packet's header as the parser reports it. */
  function Seen(p: Packet): Ip.Header {
    Ip.DecodeFixed(WireOf(p))
  }

  predicate IsFragment(p: Packet) {
    MoreFragments(p.ip) || p.ip.fragOffset != 0
  }

  /** Fragments are put together in the order in which they come: offsets are not looked at. The first one
      with more to come opens a datagram, and every one without delivers what there is. */
  function Collect(x: Option<Partial>, ps: seq<Packet>): (seq<Delivery>, Option<Partial>)
    decreases |ps|
  {
    if ps == [] then ([], x) else
    var (d, x') := CollectOne(x, ps[0]);
    var (ds, last) := Collect(x', ps[1..]);
    ([d] + ds, last)
  }

  function CollectOne(x: Option<Partial>, p: Packet): (Delivery, Option<Partial>) {
    if !IsFragment(p) then (Delivered(Seen(p), p.data), x) else
    match x
    case None => (Dropped, if MoreFragments(p.ip) then Some(Partial(Seen(p), p.data)) else None)
    case Some(y) =>
      var all := y.payload + p.data;
      (if MoreFragments(p.ip) then Dropped else Delivered(y.ip, all), Some(Partial(y.ip, all)))
  }

  lemma PacketIsSeen(p: Packet)
    requires Ip.Buildable(p.ip)
    ensures Ip.ParseOk(WireOf(p)) && Ip.PayloadOf(WireOf(p)) == p.data
    ensures Seen(p) == p.ip.(checksum := Seen(p).checksum)
  {
    Ip.HeaderRoundTrip(p.ip, p.data);
  }

  lemma StepCollects(e: Option<Entry>, p: Packet)
    requires (e.Some? ==> Good(e.value)) && Ip.Buildable(p.ip)
    ensures var (d, e') := Step(e, WireOf(p));
            (d, PartOf(e')) == CollectOne(PartOf(e), p)
  {
    hide WireOf, Ip.DecodeFixed, Ip.ParseOk, Ip.LengthsOk, Ip.Buildable, Extend;
    PacketIsSeen(p);
    if e.Some? {
      ExtendIsGood(e.value, p.data);
    }
  }

  /** Over the bytes on the wire, `procFragment` does for any packets in any order what collecting does. */
  lemma {:induction false} ArrivalOrder(e: Option<Entry>, ps: seq<Packet>)
    requires (e.Some? ==> Good(e.value)) && forall p <- ps :: Ip.Buildable(p.ip)
    ensures var (ds, left) := Feed(e, Wires(ps)); (ds, PartOf(left)) == Collect(PartOf(e), ps)
    decreases |ps|
  {
    hide Step, CollectOne, WireOf, Good, Ip.Buildable;
    if ps != [] {
      StepKeepsGood(e, WireOf(ps[0]));
      StepCollects(e, ps[0]);
      ArrivalOrder(Step(e, WireOf(ps[0])).1, ps[1..]);
      assert Wires(ps)[1..] == Wires(ps[1..]);
    }
  }

  function Drops(n: nat): (ds: seq<Delivery>)
    ensures |ds| == n && forall i :: 0 <= i < n ==> ds[i] == Dropped
  {
    seq(n, _ => Dropped)
  }

  /** Nothing is delivered while more fragments are to come. */
  lemma {:induction false} CollectMore(y: Partial, ps: seq<Packet>)
    requires forall p <- ps :: MoreFragments(p.ip)
    ensures Collect(Some(y), ps) == (Drops(|ps|), Some(y.(payload := y.payload + DataOf(ps))))
    decreases |ps|
  {
    if ps == [] {
      assert y.payload + [] == y.payload;
    } else {
      var y' := y.(payload := y.payload + ps[0].data);
      CollectMore(y', ps[1..]);
      Associate(y.payload, ps[0].data, DataOf(ps[1..]));
      assert [Dropped] + Drops(|ps| - 1) == Drops(|ps|);
    }
  }

  lemma {:induction false} CollectSplits(x: Option<Partial>, ps: seq<Packet>, more: seq<Packet>)
    ensures var (ds, y) := Collect(x, ps);
            var (ds', z) := Collect(y, more);
            Collect(x, ps + more) == (ds + ds', z)
    decreases |ps|
  {
    hide CollectOne;
    if ps == [] {
      assert ps + more == more;
      assert [] + Collect(x, more).0 == Collect(x, more).0;
    } else {
      assert (ps + more)[1..] == ps[1..] + more;
      CollectSplits(CollectOne(x, ps[0]).1, ps[1..], more);
      Associate([CollectOne(x, ps[0]).0], Collect(CollectOne(x, ps[0]).1, ps[1..]).0,
                Collect(Collect(CollectOne(x, ps[0]).1, ps[1..]).1, more).0);
    }
  }

  /** What a datagram under reassembly and more pieces make. */
  function Extended(x: Option<Partial>, ps: seq<Packet>): Option<Partial> {
    if x.Some? then Some(x.value.(payload := x.value.payload + DataOf(ps)))
    else if ps == [] then None
    else Some(Partial(Seen(ps[0]), DataOf(ps)))
  }

  function Whole(x: Option<Partial>): Delivery {
    if x.None? then Dropped else Delivered(x.value.ip, x.value.payload)
  }

  lemma CollectOpens(x: Option<Partial>, ps: seq<Packet>)
    requires forall p <- ps :: MoreFragments(p.ip)
    ensures Collect(x, ps) == (Drops(|ps|), Extended(x, ps))
  {
    if x.Some? {
      CollectMore(x.value, ps);
    } else if ps != [] {
      CollectMore(Partial(Seen(ps[0]), ps[0].data), ps[1..]);
      assert [Dropped] + Drops(|ps| - 1) == Drops(|ps|);
    }
  }

  lemma {:induction false} DataSnoc(ps: seq<Packet>, p: Packet)
    ensures DataOf(ps + [p]) == DataOf(ps) + p.data
  {
    if ps == [] {
      assert [] + [p] == [p];
      assert DataOf([p][1..]) == [];
    } else {
      assert (ps + [p])[1..] == ps[1..] + [p];
      DataSnoc(ps[1..], p);
    }
  }

  lemma CollectAround(x: Option<Partial>, before: seq<Packet>, last: Packet, after: seq<Packet>)
    requires forall p <- before :: MoreFragments(p.ip)
    requires forall p <- after :: MoreFragments(p.ip)
    ensures var (d, y) := CollectOne(Extended(x, before), last);
            Collect(x, before + ([last] + after)) == (Drops(|before|) + ([d] + Drops(|after|)), Extended(y, after))
  {
    hide CollectOne, Extended;
    CollectOpens(x, before);
    CollectSplits(x, before, [last] + after);
    CollectSplits(Extended(x, before), [last], after);
    JustOne(Extended(x, before), last);
    CollectOpens(CollectOne(Extended(x, before), last).1, after);
  }

  lemma JustOne(x: Option<Partial>, p: Packet)
    ensures Collect(x, [p]) == ([CollectOne(x, p).0], CollectOne(x, p).1)
  {
    assert [p][1..] == [];
    assert [CollectOne(x, p).0] + [] == [CollectOne(x, p).0];
  }

  /** Fragments in any order, among which the one without more to come is number `i`: nothing is delivered but
      with that one, and then everything that came up to it; nothing at all if it opens the sequence. */
  lemma CollectArrivals(x: Option<Partial>, qs: seq<Packet>, i: nat)
    requires i < |qs| && IsFragment(qs[i]) && !MoreFragments(qs[i].ip)
    requires forall k :: 0 <= k < |qs| && k != i ==> MoreFragments(qs[k].ip)
    ensures var ds := Collect(x, qs).0;
            && |ds| == |qs|
            && (forall k :: 0 <= k < |qs| && k != i ==> ds[k] == Dropped)
            && ds[i] == (if x.None? && i == 0 then Dropped else Whole(Extended(x, qs[..i + 1])))
    ensures i == |qs| - 1 && (x.Some? || i > 0) ==> Collect(x, qs).1 == Extended(x, qs)
  {
    hide CollectOne, Seen, DataOf;
    var before, last, after := qs[..i], qs[i], qs[i + 1..];
    assert qs == before + ([last] + after);
    CollectAround(x, before, last, after);
    LastOne(Extended(x, before), last);
    assert qs[..i + 1] == before + [last];
    if x.Some? || i > 0 {
      ExtendedSnoc(x, before, last);
      ExtendedNothing(Extended(x, qs[..i + 1]));
      if i == |qs| - 1 {
        assert after == [] && qs[..i + 1] == qs;
      }
    }
  }

  lemma ExtendedNothing(x: Option<Partial>)
    ensures Extended(x, []) == x
  {
    if x.Some? {
      assert x.value.payload + [] == x.value.payload;
    }
  }

  lemma LastOne(x: Option<Partial>, last: Packet)
    requires IsFragment(last) && !MoreFragments(last.ip)
    ensures x.None? ==> CollectOne(x, last) == (Dropped, None)
    ensures x.Some? ==> var y := x.value.(payload := x.value.payload + last.data);
                        CollectOne(x, last) == (Delivered(y.ip, y.payload), Some(y))
  {
  }

  lemma ExtendedSnoc(x: Option<Partial>, ps: seq<Packet>, p: Packet)
    requires x.Some? || ps != []
    ensures var y := Extended(x, ps).value;
            Extended(x, ps + [p]) == Some(y.(payload := y.payload + p.data))
  {
    DataSnoc(ps, p);
    if x.Some? {
      Associate(x.value.payload, DataOf(ps), p.data);
    }
  }

  // ---- reassembly inverts fragmentation

  /** `d` hands this datagram from `remote` to `local` to the UDP side. */
  predicate Arrives(d: Delivery, local: IP4, remote: IP4, datagram: seq<byte>) {
    d.Delivered? && d.payload == datagram && From(d.ip, local, remote)
  }

  /** Packets from `remote` to `local`, of which only the last has no more to come; a single one is no fragment. */
  predicate Train(ps: seq<Packet>, local: IP4, remote: IP4) {
    && |ps| > 0
    && (forall p <- ps :: Ip.Buildable(p.ip) && From(p.ip, local, remote))
    && (forall k :: 0 <= k < |ps| - 1 ==> MoreFragments(ps[k].ip))
    && !MoreFragments(ps[|ps| - 1].ip) && (IsFragment(ps[|ps| - 1]) <==> |ps| > 1)
  }

  predicate From(h: Ip.Header, local: IP4, remote: IP4) {
    h.protocol == Ip.PROTO_UDP && h.src == remote && h.dst == local
  }

  /** What the packets of a response are to the reader. */
  lemma ResponseIsSeen(mtu: nat, local: IP4, remote: IP4, lPort: u16, rPort: u16, payload: seq<byte>, ipid: u16)
    requires 28 <= mtu <= 0xffff && |payload| <= MAX_PAYLOAD
    ensures var ps := Response(mtu, local, remote, lPort, rPort, payload, ipid);
            && Train(ps, local, remote) && DataOf(ps) == Datagram(remote, local, rPort, lPort, payload)
            && (|payload| <= mtu - 28 <==> |ps| == 1)
  {
    var ps := Response(mtu, local, remote, lPort, rPort, payload, ipid);
    ResponseBelongs(mtu, local, remote, lPort, rPort, payload, ipid);
    if |payload| <= mtu - 28 {
      DataOfOne(ps[0]);
    } else {
      ResponseIsPlaced(mtu, local, remote, lPort, rPort, payload, ipid);
      hide Response, Datagram, DataOf, Train, Ip.Buildable, Belongs, Placed;
      forall k | 0 <= k < |ps| ensures Placed(mtu, ps, 0, k) && Belongs(ResponseHeader(local, remote, ipid), ps[k])
                                       && ps[k].ip.fragOffset < 0x2000
      {
        assert ps[k] in ps;
        OffsetsFit(mtu, local, remote, lPort, rPort, payload, ipid, k);
      }
      PlacedTrain(mtu, ps, local, remote, ipid);
    }
  }

  lemma PlacedTrain(mtu: nat, ps: seq<Packet>, local: IP4, remote: IP4, ipid: u16)
    requires mtu >= 28 && |ps| > 1
    requires forall k :: 0 <= k < |ps| ==> Placed(mtu, ps, 0, k) && Belongs(ResponseHeader(local, remote, ipid), ps[k])
                                           && ps[k].ip.fragOffset < 0x2000
    ensures Train(ps, local, remote)
  {
    var n := |ps| - 1;
    assert Placed(mtu, ps, 0, n);
    Positive(n, (mtu - 20) / 8);
  }

  lemma Positive(k: nat, d: nat)
    ensures k > 0 && d > 0 ==> k * d > 0
  {
  }

  /** What is left over under an id when a response comes: nothing matters to one that is not fragmented. */
  function Stale(frags: Table, mtu: nat, payload: seq<byte>, ipid: u16): seq<byte> {
    if |payload| + 28 <= mtu || ipid !in frags then [] else frags[ipid].payload
  }

  /** Nothing is delivered but with the last packet, and with it this payload. */
  predicate DeliversLast(ds: seq<Delivery>, payload: seq<byte>) {
    && |ds| > 0
    && (forall i :: 0 <= i < |ds| - 1 ==> ds[i] == Dropped)
    && ds[|ds| - 1].Delivered? && ds[|ds| - 1].payload == payload
  }

  lemma OneIsCollected(x: Option<Partial>, ps: seq<Packet>, local: IP4, remote: IP4)
    requires Train(ps, local, remote) && |ps| == 1
    ensures var ds := Collect(x, ps).0; DeliversLast(ds, DataOf(ps)) && Arrives(ds[|ds| - 1], local, remote, DataOf(ps))
  {
    hide Ip.Buildable;
    assert ps == [ps[0]];
    JustOne(x, ps[0]);
    DataOfOne(ps[0]);
    PacketIsSeen(ps[0]);
  }

  lemma TrainIsCollected(x: Option<Partial>, ps: seq<Packet>, local: IP4, remote: IP4)
    requires Train(ps, local, remote) && |ps| > 1
    ensures var (ds, y) := Collect(x, ps);
            var all := (if x.None? then [] else x.value.payload) + DataOf(ps);
            && DeliversLast(ds, all) && y.Some? && y.value.payload == all
            && (x.None? ==> Arrives(ds[|ds| - 1], local, remote, DataOf(ps)))
  {
    hide Ip.Buildable, Collect, DataOf;
    CollectArrivals(x, ps, |ps| - 1);
    assert ps[..|ps|] == ps;
    assert [] + DataOf(ps) == DataOf(ps);
    PacketIsSeen(ps[0]);
  }

  /** The packets of a response are fed to the entry of their id. */
  lemma {:induction false} ResponseIsCollected(e: Option<Entry>, mtu: nat, local: IP4, remote: IP4,
                                               lPort: u16, rPort: u16, payload: seq<byte>, ipid: u16)
    requires e.Some? ==> Good(e.value)
    requires 28 <= mtu <= 0xffff && |payload| <= MAX_PAYLOAD
    ensures var (ds, left) := Feed(e, Wires(Response(mtu, local, remote, lPort, rPort, payload, ipid)));
            var datagram := Datagram(remote, local, rPort, lPort, payload);
            var stale := if |payload| + 28 <= mtu || e.None? then [] else e.value.payload;
            && DeliversLast(ds, stale + datagram)
            && (|payload| + 28 <= mtu || e.None? ==> Arrives(ds[|ds| - 1], local, remote, datagram))
            && (|payload| + 28 > mtu ==> left.Some? && left.value.payload == stale + datagram)
  {
    hide Response, Feed, Wires, Collect, DataOf, Datagram, DeliversLast, Arrives, Good;
    var ps := Response(mtu, local, remote, lPort, rPort, payload, ipid);
    ResponseIsSeen(mtu, local, remote, lPort, rPort, payload, ipid);
    assert forall p <- ps :: Ip.Buildable(p.ip);
    ArrivalOrder(e, ps);
    assert [] + DataOf(ps) == DataOf(ps);
    hide Train;
    if |ps| == 1 {
      OneIsCollected(PartOf(e), ps, local, remote);
    } else {
      TrainIsCollected(PartOf(e), ps, local, remote);
    }
  }

  /** Reassembly inverts fragmentation, exactly. However the packets of a response are interleaved
      with packets of other ids, nothing but the last one is delivered, and with it what was left over under
      its id and then the datagram that was sent: that datagram alone if and only if it was not fragmented, or
      no entry was left over, or the entry left over was empty. A fragmented one leaves an entry with all of it. */
  lemma {:induction false} ReassemblyRoundTrip(frags: Table, trace: seq<Ip.Bytes20>, mtu: nat, local: IP4, remote: IP4,
                                               lPort: u16, rPort: u16, payload: seq<byte>, ipid: u16)
    requires GoodTable(frags)
    requires 28 <= mtu <= 0xffff && |payload| <= MAX_PAYLOAD
    requires Filter(trace, ipid) == Wires(Response(mtu, local, remote, lPort, rPort, payload, ipid))
    ensures var datagram, stale := Datagram(remote, local, rPort, lPort, payload), Stale(frags, mtu, payload, ipid);
            var ds := Ours(frags, trace, ipid);
            && |ds| == |Filter(trace, ipid)| && DeliversLast(ds, stale + datagram)
            && (DeliversLast(ds, datagram) <==> |payload| + 28 <= mtu || ipid !in frags || frags[ipid].payload == [])
            && (|payload| + 28 <= mtu || ipid !in frags ==> Arrives(ds[|ds| - 1], local, remote, datagram))
            && (|payload| + 28 > mtu ==> Stale(After(frags, trace), mtu, payload, ipid) == stale + datagram)
  {
    hide Response, Ours, Filter, Feed, Wires, After, Datagram, Arrives;
    NonInterference(frags, trace, ipid);
    ResponseIsCollected(Lookup(frags, ipid), mtu, local, remote, lPort, rPort, payload, ipid);
    Absorb(Stale(frags, mtu, payload, ipid), Datagram(remote, local, rPort, lPort, payload));
  }

  lemma DataOfOne(p: Packet)
    ensures DataOf([p]) == p.data
  {
    assert DataOf([p][1..]) == [];
  }

  lemma Absorb(a: seq<byte>, b: seq<byte>)
    ensures a + b == b <==> a == []
  {
    assert |a + b| == |a| + |b|;
  }

  /** Entries are never removed: a second fragmented response under the same id is delivered behind the first
      one, whoever sent it. */
  lemma {:induction false} ReusedId(trace: seq<Ip.Bytes20>, more: seq<Ip.Bytes20>, mtu: nat,
                                    local: IP4, remote: IP4, lPort: u16, rPort: u16, payload: seq<byte>,
                                    local': IP4, remote': IP4, lPort': u16, rPort': u16, payload': seq<byte>,
                                    ipid: u16)
    requires 28 <= mtu <= 0xffff && mtu - 28 < |payload| <= MAX_PAYLOAD && mtu - 28 < |payload'| <= MAX_PAYLOAD
    requires Filter(trace, ipid) == Wires(Response(mtu, local, remote, lPort, rPort, payload, ipid))
    requires Filter(more, ipid) == Wires(Response(mtu, local', remote', lPort', rPort', payload', ipid))
    ensures DeliversLast(Ours(After(map[], trace), more, ipid),
                         Datagram(remote, local, rPort, lPort, payload)
                         + Datagram(remote', local', rPort', lPort', payload'))
  {
    hide Response, Ours, Filter, Wires, After, Datagram;
    ReassemblyRoundTrip(map[], trace, mtu, local, remote, lPort, rPort, payload, ipid);
    ReassemblyRoundTrip(After(map[], trace), more, mtu, local', remote', lPort', rPort', payload', ipid);
    var first := Datagram(remote, local, rPort, lPort, payload);
    assert [] + first == first;
  }

  /** The fragments of a response in any order, with repetitions and losses, the last one coming as number `i`:
      it delivers what was left over under the id and then what has come up to it, in order of arrival. Nothing is
      delivered otherwise, nor if it comes first and there is nothing left over. */
  lemma {:induction false} ReorderedResponse(frags: Table, trace: seq<Ip.Bytes20>, qs: seq<Packet>, i: nat,
                                             mtu: nat, local: IP4, remote: IP4, lPort: u16, rPort: u16,
                                             payload: seq<byte>, ipid: u16)
    requires GoodTable(frags)
    requires 28 <= mtu <= 0xffff && mtu - 28 < |payload| <= MAX_PAYLOAD
    requires var ps := Response(mtu, local, remote, lPort, rPort, payload, ipid);
             && i < |qs| && qs[i] == ps[|ps| - 1]
             && forall k :: 0 <= k < |qs| && k != i ==> qs[k] in ps[..|ps| - 1]
    requires Filter(trace, ipid) == Wires(qs)
    ensures var ds, stale := Ours(frags, trace, ipid), Stale(frags, mtu, payload, ipid);
            && |ds| == |qs|
            && (forall k :: 0 <= k < |ds| && k != i ==> ds[k] == Dropped)
            && (if ipid !in frags && i == 0 then ds[i] == Dropped
                else ds[i].Delivered? && ds[i].payload == stale + DataOf(qs[..i + 1]))
            && (ipid !in frags && i > 0 ==> Arrives(ds[i], local, remote, DataOf(qs[..i + 1])))
  {
    hide Response, Ours, Filter, Feed, Wires, After, Collect, DataOf, Ip.Buildable;
    var ps := Response(mtu, local, remote, lPort, rPort, payload, ipid);
    NonInterference(frags, trace, ipid);
    ResponseIsSeen(mtu, local, remote, lPort, rPort, payload, ipid);
    forall k | 0 <= k < |qs| ensures qs[k] in ps && (k != i ==> MoreFragments(qs[k].ip)) {
      if k != i {
        var m :| 0 <= m < |ps| - 1 && ps[..|ps| - 1][m] == qs[k];
        assert ps[m] == qs[k];
      }
    }
    var e := Lookup(frags, ipid);
    ArrivalOrder(e, qs);
    CollectArrivals(PartOf(e), qs, i);
    assert [] + DataOf(qs[..i + 1]) == DataOf(qs[..i + 1]);
    PacketIsSeen(qs[0]);
  }

  /** Packets of one id, on the wire, are all theirs. */
  lemma {:induction false} OwnPackets(ps: seq<Packet>, id: u16)
    requires forall p <- ps :: Ip.Buildable(p.ip) && p.ip.id == id
    ensures Filter(Wires(ps), id) == Wires(ps)
    decreases |ps|
  {
    hide WireOf, Ip.DecodeFixed, Ip.Buildable;
    if ps != [] {
      PacketIsSeen(ps[0]);
      assert Wires(ps)[0] == WireOf(ps[0]) && Wires(ps)[1..] == Wires(ps[1..]);
      OwnPackets(ps[1..], id);
    }
  }

  /** The packets of a response alone are a trace that these theorems speak of. */
  lemma OwnTrace(mtu: nat, local: IP4, remote: IP4, lPort: u16, rPort: u16, payload: seq<byte>, ipid: u16)
    requires 28 <= mtu <= 0xffff && |payload| <= MAX_PAYLOAD
    ensures var wires := Wires(Response(mtu, local, remote, lPort, rPort, payload, ipid)); Filter(wires, ipid) == wires
  {
    hide Response, Filter, Wires, DataOf, Datagram, Ip.Buildable;
    var ps := Response(mtu, local, remote, lPort, rPort, payload, ipid);
    ResponseIsSeen(mtu, local, remote, lPort, rPort, payload, ipid);
    ResponseBelongs(mtu, local, remote, lPort, rPort, payload, ipid);
    OwnPackets(ps, ipid);
  }
}
