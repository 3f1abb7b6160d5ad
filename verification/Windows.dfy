/** The two flow-control windows of the TCP endpoint under every interleaving of the single loads, stores
    and swaps with which three goroutines share them. */
module Windows {
  import opened Bytes

  const MAX_WINDOW: nat := 65535
  const MAX_CHUNK: nat := MTU - 40

  // ---- the send window: the socks reader against the handler's updateSendWindow

  /** Where the reader is: before its load, between load and read, and before its compare-and-swap. A pass that
      reads nothing, or not yet, ends in the next load. A chunk is `counted` until a store. */
  datatype Reader = Idle | Loaded(wnd: nat) | Queued(wnd: nat, n: nat, counted: bool)

  /** `advertised` is the last window stored, or the initial one; `sent` counts the bytes queued since
      then, and `straddle` those of them whose room had been read off the window before. */
  datatype Sending = Sending(sendWindow: nat, reader: Reader, advertised: nat, sent: nat, straddle: nat, stale: bool)

  datatype SendEvent = Load | Read(n: nat) | Swap | Store(window: nat)

  const SENDING: Sending := Sending(MAX_WINDOW, Idle, MAX_WINDOW, 0, 0, false)

  function Room(wnd: nat): nat {
    if wnd > MAX_CHUNK then MAX_CHUNK else wnd
  }

  predicate CanSend(s: Sending, e: SendEvent) {
    match e
    case Load => !s.reader.Queued? && s.sendWindow > 0
    case Read(n) => s.reader.Loaded? && 0 < n <= Room(s.reader.wnd)
    case Swap => s.reader.Queued?
    case Store(w) => w <= MAX_WINDOW
  }

  function SendStep(s: Sending, e: SendEvent): Sending
    requires CanSend(s, e)
  {
    match e
    case Load => s.(reader := Loaded(s.sendWindow), stale := false)
    case Read(n) =>
      s.(reader := Queued(s.reader.wnd, n, true), sent := s.sent + n, straddle := s.straddle + if s.stale then n else 0)
    case Swap =>
      var nxt := if s.reader.n > s.reader.wnd then 0 else s.reader.wnd - s.reader.n;
      s.(reader := Idle, sendWindow := if s.sendWindow == s.reader.wnd then nxt else s.sendWindow)
    case Store(w) =>
      s.(sendWindow := w, advertised := w, sent := 0, straddle := 0, stale := true,
         reader := if s.reader.Queued? then s.reader.(counted := false) else s.reader)
  }

  predicate IsSendRun(s: Sending, es: seq<SendEvent>)
    decreases |es|
  {
    es == [] || (CanSend(s, es[0]) && IsSendRun(SendStep(s, es[0]), es[1..]))
  }

  function SendRun(s: Sending, es: seq<SendEvent>): Sending
    requires IsSendRun(s, es)
    decreases |es|
  {
    if es == [] then s else SendRun(SendStep(s, es[0]), es[1..])
  }

  /** What is left of the window covers what may still be sent; a chunk that straddles a store comes on top. */
  predicate SendInv(s: Sending) {
    && s.sendWindow <= MAX_WINDOW && s.advertised <= MAX_WINDOW
    && s.straddle <= MAX_CHUNK && s.straddle <= s.sent
    && match s.reader
       case Idle => s.sent + s.sendWindow <= s.advertised + s.straddle
       case Loaded(wnd) =>
         if s.stale then s.sent == 0 && s.straddle == 0 && s.sendWindow == s.advertised
         else s.sendWindow == wnd && s.sent + wnd <= s.advertised + s.straddle
       case Queued(wnd, n, _) =>
         && n <= wnd
         && (if s.stale then s.sent + s.sendWindow <= s.advertised + s.straddle
             else s.sendWindow == wnd && s.sent + (wnd - n) <= s.advertised + s.straddle)
  }

  lemma {:induction false} SendRunKeeps(s: Sending, es: seq<SendEvent>)
    requires SendInv(s) && IsSendRun(s, es)
    ensures SendInv(SendRun(s, es))
    decreases |es|
  {
    if es != [] {
      assert SendInv(SendStep(s, es[0]));
      SendRunKeeps(SendStep(s, es[0]), es[1..]);
    }
  }

  // the history of a run, read off its events

  /** The last window stored. */
  function Advertised(es: seq<SendEvent>): nat {
    if es == [] then 65535 else
    var e := es[|es| - 1];
    if e.Store? then e.window else Advertised(es[..|es| - 1])
  }

  /** The bytes queued since. */
  function SentSince(es: seq<SendEvent>): nat {
    if es == [] then 0 else
    var e := es[|es| - 1];
    if e.Store? then 0 else SentSince(es[..|es| - 1]) + if e.Read? then e.n else 0
  }

  /** Those of them that come in the first chunk, if its room was loaded before the store. */
  function Straddling(es: seq<SendEvent>): nat {
    if es == [] then 0 else
    var before, e := es[..|es| - 1], es[|es| - 1];
    if e.Store? then 0 else Straddling(before) + if e.Read? && StoredSinceLoad(before) then e.n else 0
  }

  predicate StoredSinceLoad(es: seq<SendEvent>) {
    es != [] && var e := es[|es| - 1]; e.Store? || (!e.Load? && StoredSinceLoad(es[..|es| - 1]))
  }

  lemma {:induction false} SendRunSnoc(s: Sending, es: seq<SendEvent>, e: SendEvent)
    requires IsSendRun(s, es + [e])
    ensures IsSendRun(s, es) && CanSend(SendRun(s, es), e) && SendRun(s, es + [e]) == SendStep(SendRun(s, es), e)
    decreases |es|
  {
    hide CanSend, SendStep;
    if es == [] {
      assert [] + [e] == [e] && [e][1..] == [];
    } else {
      assert (es + [e])[1..] == es[1..] + [e];
      SendRunSnoc(SendStep(s, es[0]), es[1..], e);
    }
  }

  /** The books in the state are the history. */
  lemma {:induction false} SendBooks(es: seq<SendEvent>)
    requires IsSendRun(SENDING, es)
    ensures var s := SendRun(SENDING, es);
            && s.advertised == Advertised(es) && s.sent == SentSince(es) && s.straddle == Straddling(es)
            && s.stale == StoredSinceLoad(es)
  {
    if es != [] {
      var before := es[..|es| - 1];
      assert es == before + [es[|es| - 1]];
      SendRunSnoc(SENDING, before, es[|es| - 1]);
      SendBooks(before);
    }
  }

  /** Whatever the interleaving, the bytes queued since a window was advertised exceed it by one chunk at
      most, and by nothing if no chunk straddles the advertisement. */
  lemma SendWindowBound(es: seq<SendEvent>)
    requires IsSendRun(SENDING, es)
    ensures SendRun(SENDING, es).sendWindow <= 65535
    ensures SentSince(es) <= Advertised(es) + Straddling(es) && Straddling(es) <= MTU - 40
  {
    SendRunKeeps(SENDING, es);
    SendBooks(es);
  }

  // the ledger of the send window

  /** How a swap leaves window and bytes apart: a chunk that counts but is not taken off, or the other way round. */
  function SendDrift(s: Sending, e: SendEvent): int
    requires CanSend(s, e)
  {
    if !e.Swap? then 0 else
    (if s.reader.counted then s.reader.n else 0) - (if s.sendWindow == s.reader.wnd then s.reader.n else 0)
  }

  /** What the swaps since the last store have added up to. */
  function SendDrifts(s: Sending, es: seq<SendEvent>, before: int): int
    requires IsSendRun(s, es)
    decreases |es|
  {
    if es == [] then before
    else SendDrifts(SendStep(s, es[0]), es[1..], if es[0].Store? then 0 else before + SendDrift(s, es[0]))
  }

  /** The bytes that count and have yet to be taken off. */
  function Unswapped(s: Sending): nat {
    if s.reader.Queued? && s.reader.counted then s.reader.n else 0
  }

  function SendBalance(s: Sending): int {
    s.sent + s.sendWindow - s.advertised - Unswapped(s)
  }

  lemma {:induction false} SendRunLedger(s: Sending, es: seq<SendEvent>)
    requires SendInv(s) && IsSendRun(s, es)
    ensures SendBalance(SendRun(s, es)) == SendDrifts(s, es, SendBalance(s))
    decreases |es|
  {
    if es != [] {
      assert SendInv(SendStep(s, es[0]));
      SendRunLedger(SendStep(s, es[0]), es[1..]);
    }
  }

  /** Under every interleaving the window is what was advertised less what was sent since, up to the drifts: between
      two passes of the reader it is exactly that if and only if they cancel out. */
  lemma SendLedger(es: seq<SendEvent>)
    requires IsSendRun(SENDING, es)
    ensures var s := SendRun(SENDING, es);
            && SentSince(es) + s.sendWindow == Advertised(es) + Unswapped(s) + SendDrifts(SENDING, es, 0)
            && (s.reader.Idle? ==>
                  (s.sendWindow == Advertised(es) - SentSince(es) <==> SendDrifts(SENDING, es, 0) == 0))
  {
    SendRunLedger(SENDING, es);
    SendBooks(es);
  }

  /** No swap comes after a store that its load has not seen. */
  predicate UndisturbedSends(s: Sending, es: seq<SendEvent>)
    requires IsSendRun(s, es)
    decreases |es|
  {
    es == [] || ((es[0].Swap? ==> !s.stale) && UndisturbedSends(SendStep(s, es[0]), es[1..]))
  }

  lemma {:induction false} UndisturbedSendDrifts(s: Sending, es: seq<SendEvent>)
    requires SendInv(s) && IsSendRun(s, es) && UndisturbedSends(s, es)
    requires s.reader.Queued? && !s.stale ==> s.reader.counted
    ensures SendDrifts(s, es, 0) == 0
    decreases |es|
  {
    if es != [] {
      var s' := SendStep(s, es[0]);
      assert SendInv(s') && (s'.reader.Queued? && !s'.stale ==> s'.reader.counted);
      UndisturbedSendDrifts(s', es[1..]);
    }
  }

  /** In such a run the window goes down by exactly what is sent. */
  lemma WindowFollowsBytes(es: seq<SendEvent>)
    requires IsSendRun(SENDING, es) && UndisturbedSends(SENDING, es)
    ensures var s := SendRun(SENDING, es); s.reader.Idle? ==> s.sendWindow == Advertised(es) - SentSince(es)
  {
    UndisturbedSendDrifts(SENDING, es);
    SendLedger(es);
  }

  /** Whatever is left of the window between two passes can be used, up to a full buffer, and comes off it. */
  lemma WindowCanBeUsed(es: seq<SendEvent>, n: nat)
    requires IsSendRun(SENDING, es) && SendRun(SENDING, es).reader.Idle?
    ensures var more := es + [Load] + [Read(n)] + [Swap];
            && (IsSendRun(SENDING, more) <==> 1 <= n <= SendRun(SENDING, es).sendWindow && n <= MTU - 40)
            && (IsSendRun(SENDING, more) ==>
                  && SentSince(more) == SentSince(es) + n
                  && SendRun(SENDING, more).sendWindow == SendRun(SENDING, es).sendWindow - n)
  {
    hide SentSince;
    var a := es + [Load];
    var b := a + [Read(n)];
    var more := b + [Swap];
    var s := SendRun(SENDING, es);
    if s.sendWindow > 0 {
      SendRunJoin(SENDING, es, Load);
      if 1 <= n <= s.sendWindow && n <= MTU - 40 {
        SendRunJoin(SENDING, a, Read(n));
        SendRunJoin(SENDING, b, Swap);
      }
    }
    if IsSendRun(SENDING, more) {
      SendRunSnoc(SENDING, b, Swap);
      SendRunSnoc(SENDING, a, Read(n));
      SendRunSnoc(SENDING, es, Load);
    }
    SentSnoc(es, Load);
    SentSnoc(a, Read(n));
    SentSnoc(b, Swap);
  }

  lemma SentSnoc(es: seq<SendEvent>, e: SendEvent)
    ensures SentSince(es + [e]) == if e.Store? then 0 else SentSince(es) + if e.Read? then e.n else 0
  {
    assert (es + [e])[..|es|] == es;
  }

  lemma {:induction false} SendRunJoin(s: Sending, es: seq<SendEvent>, e: SendEvent)
    requires IsSendRun(s, es) && CanSend(SendRun(s, es), e)
    ensures IsSendRun(s, es + [e]) && SendRun(s, es + [e]) == SendStep(SendRun(s, es), e)
    decreases |es|
  {
    hide CanSend, SendStep;
    if es == [] {
      assert [] + [e] == [e] && [e][1..] == [];
    } else {
      assert (es + [e])[1..] == es[1..] + [e];
      SendRunJoin(SendStep(s, es[0]), es[1..], e);
    }
  }

  /** The chunk is real: a full one can follow the advertisement of a closed window. */
  lemma ChunkStraddles()
    ensures var es := [Load, Store(0), Read(MAX_CHUNK)];
            && IsSendRun(SENDING, es)
            && Advertised(es) == 0 && SentSince(es) == MTU - 40
  {
    var es := [Load, Store(0), Read(MAX_CHUNK)];
    var s1 := SendStep(SENDING, Load);
    var s2 := SendStep(s1, Store(0));
    assert es[1..] == [Store(0), Read(MAX_CHUNK)] && es[1..][1..] == [Read(MAX_CHUNK)] && [Read(MAX_CHUNK)][1..] == [];
    assert IsSendRun(s2, [Read(MAX_CHUNK)]) && SendRun(s2, [Read(MAX_CHUNK)]) == SendStep(s2, Read(MAX_CHUNK));
    assert IsSendRun(s1, es[1..]) && SendRun(s1, es[1..]) == SendRun(s2, [Read(MAX_CHUNK)]);
    SendBooks(es);
  }

  // ---- the receive window: the handler's relayPayload against the socks writer

  /** The handler has queued a packet and has yet to take its length off the window. */
  datatype Handler = Free | Relaying(len: nat) | Taking(len: nat, wnd: int)

  /** The writer holds a packet whose length it has yet to give back. */
  datatype Writer = Ready | Holding(len: nat) | Giving(len: nat, wnd: int)

  datatype Receiving = Receiving(recvWindow: int, queue: seq<nat>, handler: Handler, writer: Writer)

  datatype RecvEvent = Enqueue(len: nat) | HandlerLoad | HandlerStore | Take | WriterLoad | WriterStore

  const RECEIVING: Receiving := Receiving(MAX_WINDOW, [], Free, Ready)

  function Sum(ns: seq<nat>): nat {
    if ns == [] then 0 else ns[0] + Sum(ns[1..])
  }

  lemma {:induction false} SumSnoc(ns: seq<nat>, n: nat)
    ensures Sum(ns + [n]) == Sum(ns) + n
  {
    if ns == [] {
      assert ns + [n] == [n];
    } else {
      assert (ns + [n])[1..] == ns[1..] + [n];
      SumSnoc(ns[1..], n);
    }
  }

  function HeldBy(w: Writer): nat {
    match w
    case Ready => 0
    case Holding(len) => len
    case Giving(len, _) => len
  }

  function Pending(h: Handler): nat {
    match h
    case Free => 0
    case Relaying(len) => len
    case Taking(len, _) => len
  }

  /** The bytes queued or in the writer's hands. */
  function Outstanding(r: Receiving): nat {
    Sum(r.queue) + HeldBy(r.writer)
  }

  predicate CanRecv(r: Receiving, e: RecvEvent) {
    match e
    case Enqueue(len) => r.handler.Free?
    case HandlerLoad => r.handler.Relaying?
    case HandlerStore => r.handler.Taking?
    case Take => r.writer.Ready? && r.queue != []
    case WriterLoad => r.writer.Holding?
    case WriterStore => r.writer.Giving?
  }

  function RecvStep(r: Receiving, e: RecvEvent): Receiving
    requires CanRecv(r, e)
  {
    match e
    case Enqueue(len) => r.(queue := r.queue + [len], handler := Relaying(len))
    case HandlerLoad => r.(handler := Taking(r.handler.len, r.recvWindow))
    case HandlerStore =>
      var wnd := r.handler.wnd - r.handler.len;
      r.(recvWindow := if wnd < 0 then 0 else wnd, handler := Free)
    case Take => r.(queue := r.queue[1..], writer := Holding(r.queue[0]))
    case WriterLoad => r.(writer := Giving(r.writer.len, r.recvWindow))
    case WriterStore =>
      var wnd := r.writer.wnd + r.writer.len;
      r.(recvWindow := if wnd > MAX_WINDOW then MAX_WINDOW else wnd, writer := Ready)
  }

  predicate IsRecvRun(r: Receiving, es: seq<RecvEvent>)
    decreases |es|
  {
    es == [] || (CanRecv(r, es[0]) && IsRecvRun(RecvStep(r, es[0]), es[1..]))
  }

  function RecvRun(r: Receiving, es: seq<RecvEvent>): Receiving
    requires IsRecvRun(r, es)
    decreases |es|
  {
    if es == [] then r else RecvRun(RecvStep(r, es[0]), es[1..])
  }

  predicate InRange(r: Receiving) {
    && 0 <= r.recvWindow <= MAX_WINDOW
    && (r.handler.Taking? ==> 0 <= r.handler.wnd <= MAX_WINDOW)
    && (r.writer.Giving? ==> 0 <= r.writer.wnd <= MAX_WINDOW)
  }

  lemma {:induction false} RecvRunInRange(r: Receiving, es: seq<RecvEvent>)
    requires InRange(r) && IsRecvRun(r, es)
    ensures InRange(RecvRun(r, es))
    decreases |es|
  {
    if es != [] {
      assert InRange(RecvStep(r, es[0]));
      RecvRunInRange(RecvStep(r, es[0]), es[1..]);
    }
  }

  /** Whatever the interleaving, the 16-bit field of a header takes the window without truncation. */
  lemma ReceiveWindowFits(es: seq<RecvEvent>)
    requires IsRecvRun(RECEIVING, es)
    ensures 0 <= RecvRun(RECEIVING, es).recvWindow <= MAX_WINDOW
  {
    RecvRunInRange(RECEIVING, es);
  }

  // ---- the ledger of the receive window

  /** The window with what is outstanding, less what the handler has yet to take off. */
  function Balance(r: Receiving): int {
    r.recvWindow + Outstanding(r) - Pending(r.handler)
  }

  /** How far a store's load lies above the window that the store overwrites. */
  function Stale(r: Receiving, e: RecvEvent): int
    requires CanRecv(r, e)
  {
    match e
    case HandlerStore => r.handler.wnd - r.recvWindow
    case WriterStore => r.writer.wnd - r.recvWindow
    case _ => 0
  }

  /** What a store adds by stopping at 0, or loses by stopping at the full window. */
  function Clipped(r: Receiving, e: RecvEvent): int
    requires CanRecv(r, e)
  {
    match e
    case HandlerStore => if r.handler.wnd < r.handler.len then r.handler.len - r.handler.wnd else 0
    case WriterStore =>
      if r.writer.wnd + r.writer.len > MAX_WINDOW then MAX_WINDOW - (r.writer.wnd + r.writer.len) else 0
    case _ => 0
  }

  function Drift(r: Receiving, e: RecvEvent): int
    requires CanRecv(r, e)
  {
    Stale(r, e) + Clipped(r, e)
  }

  lemma StepLedger(r: Receiving, e: RecvEvent)
    requires CanRecv(r, e)
    ensures Balance(RecvStep(r, e)) == Balance(r) + Drift(r, e)
  {
    if e.Enqueue? {
      SumSnoc(r.queue, e.len);
    }
  }

  /** What all the stores of a run have added and lost. */
  function Drifts(r: Receiving, es: seq<RecvEvent>): int
    requires IsRecvRun(r, es)
    decreases |es|
  {
    if es == [] then 0 else Drift(r, es[0]) + Drifts(RecvStep(r, es[0]), es[1..])
  }

  lemma {:induction false} RunLedger(r: Receiving, es: seq<RecvEvent>)
    requires IsRecvRun(r, es)
    ensures Balance(RecvRun(r, es)) == Balance(r) + Drifts(r, es)
    decreases |es|
  {
    if es != [] {
      StepLedger(r, es[0]);
      RunLedger(RecvStep(r, es[0]), es[1..]);
    }
  }

  predicate AtRest(r: Receiving) {
    r.queue == [] && r.handler.Free? && r.writer.Ready?
  }

  /** Under every interleaving the books differ from the full window by what stale loads and clipping have
      added up to: at rest the window is full again if and only if that is nothing. */
  lemma WindowLedger(es: seq<RecvEvent>)
    requires IsRecvRun(RECEIVING, es)
    ensures var r := RecvRun(RECEIVING, es);
            && r.recvWindow + Outstanding(r) == MAX_WINDOW + Pending(r.handler) + Drifts(RECEIVING, es)
            && (AtRest(r) ==> (r.recvWindow == MAX_WINDOW <==> Drifts(RECEIVING, es) == 0))
  {
    RunLedger(RECEIVING, es);
  }

  /** The books are exact now and after every step of a run. */
  predicate AlwaysExact(r: Receiving, es: seq<RecvEvent>)
    requires IsRecvRun(r, es)
    decreases |es|
  {
    Balance(r) == MAX_WINDOW && (es == [] || AlwaysExact(RecvStep(r, es[0]), es[1..]))
  }

  /** Whatever a stale load gains or loses, clipping loses or gains in the same store. */
  predicate EveryStoreBalanced(r: Receiving, es: seq<RecvEvent>)
    requires IsRecvRun(r, es)
    decreases |es|
  {
    es == [] || (Drift(r, es[0]) == 0 && EveryStoreBalanced(RecvStep(r, es[0]), es[1..]))
  }

  lemma {:induction false} ExactFrom(r: Receiving, es: seq<RecvEvent>)
    requires IsRecvRun(r, es) && Balance(r) == MAX_WINDOW
    ensures AlwaysExact(r, es) <==> EveryStoreBalanced(r, es)
    decreases |es|
  {
    if es != [] {
      StepLedger(r, es[0]);
      if Drift(r, es[0]) == 0 {
        ExactFrom(RecvStep(r, es[0]), es[1..]);
      }
    }
  }

  /** Window and outstanding bytes add up at every point of a run if and only if every store is balanced. */
  lemma ExactIffBalanced(es: seq<RecvEvent>)
    requires IsRecvRun(RECEIVING, es)
    ensures AlwaysExact(RECEIVING, es) <==> EveryStoreBalanced(RECEIVING, es)
  {
    ExactFrom(RECEIVING, es);
  }

  /** A store sees the window that its load saw, and a packet is not given back before it was taken off. */
  predicate Undisturbed(r: Receiving, e: RecvEvent)
    requires CanRecv(r, e)
  {
    match e
    case HandlerStore => Stale(r, e) == 0
    case WriterStore => Stale(r, e) == 0 && Outstanding(RecvStep(r, e)) >= Pending(r.handler)
    case _ => true
  }

  predicate UndisturbedRun(r: Receiving, es: seq<RecvEvent>)
    requires IsRecvRun(r, es)
    decreases |es|
  {
    es == [] || (Undisturbed(r, es[0]) && UndisturbedRun(RecvStep(r, es[0]), es[1..]))
  }

  lemma {:induction false} UndisturbedDrifts(r: Receiving, es: seq<RecvEvent>)
    requires IsRecvRun(r, es) && Balance(r) >= MAX_WINDOW && UndisturbedRun(r, es)
    ensures Balance(r) + Drifts(r, es) >= MAX_WINDOW
    decreases |es|
  {
    if es != [] {
      StepLedger(r, es[0]);
      UndisturbedDrifts(RecvStep(r, es[0]), es[1..]);
    }
  }

  /** A run in which no update is disturbed loses no window: when everything has been written it is full again. */
  lemma NothingIsLost(es: seq<RecvEvent>)
    requires IsRecvRun(RECEIVING, es) && UndisturbedRun(RECEIVING, es)
    ensures var r := RecvRun(RECEIVING, es);
            && r.recvWindow + Outstanding(r) >= MAX_WINDOW
            && (AtRest(r) ==> Drifts(RECEIVING, es) == 0 && r.recvWindow == MAX_WINDOW)
  {
    WindowLedger(es);
    UndisturbedDrifts(RECEIVING, es);
    ReceiveWindowFits(es);
  }

  /** The two ways to lose window for good. In the first, the writer gives back between the handler's load
      and its store. In the second both pairs are undivided, but the writer finishes the packet before the
      handler has taken it off. */
  const LOST_UPDATE: seq<RecvEvent> :=
    [Enqueue(100), HandlerLoad, HandlerStore,
     Enqueue(100), HandlerLoad, Take, WriterLoad, WriterStore, HandlerStore,
     Take, WriterLoad, WriterStore]

  const EARLY_WRITER: seq<RecvEvent> :=
    [Enqueue(100), Take, WriterLoad, WriterStore, HandlerLoad, HandlerStore]

  lemma {:induction false} RecvRunSplits(r: Receiving, es: seq<RecvEvent>, more: seq<RecvEvent>)
    requires IsRecvRun(r, es) && IsRecvRun(RecvRun(r, es), more)
    ensures IsRecvRun(r, es + more) && RecvRun(r, es + more) == RecvRun(RecvRun(r, es), more)
    decreases |es|
  {
    if es == [] {
      assert es + more == more;
    } else {
      assert (es + more)[1..] == es[1..] + more;
      RecvRunSplits(RecvStep(r, es[0]), es[1..], more);
    }
  }

  lemma Three(r: Receiving, a: RecvEvent, b: RecvEvent, c: RecvEvent)
    requires CanRecv(r, a) && CanRecv(RecvStep(r, a), b) && CanRecv(RecvStep(RecvStep(r, a), b), c)
    ensures IsRecvRun(r, [a, b, c]) && RecvRun(r, [a, b, c]) == RecvStep(RecvStep(RecvStep(r, a), b), c)
  {
    var r1 := RecvStep(r, a);
    var r2 := RecvStep(r1, b);
    assert [a, b, c][1..] == [b, c] && [b, c][1..] == [c] && [c][1..] == [];
    assert IsRecvRun(r2, [c]) && RecvRun(r2, [c]) == RecvStep(r2, c);
    assert IsRecvRun(r1, [b, c]) && RecvRun(r1, [b, c]) == RecvRun(r2, [c]);
  }

  lemma EarlyWriterLoses()
    ensures IsRecvRun(RECEIVING, EARLY_WRITER)
    ensures RecvRun(RECEIVING, EARLY_WRITER) == Receiving(MAX_WINDOW - 100, [], Free, Ready)
  {
    var r0 := RECEIVING;
    Three(r0, Enqueue(100), Take, WriterLoad);
    var r1 := RecvRun(r0, [Enqueue(100), Take, WriterLoad]);
    Three(r1, WriterStore, HandlerLoad, HandlerStore);
    RecvRunSplits(r0, [Enqueue(100), Take, WriterLoad], [WriterStore, HandlerLoad, HandlerStore]);
    assert EARLY_WRITER == [Enqueue(100), Take, WriterLoad] + [WriterStore, HandlerLoad, HandlerStore];
  }

  lemma LostUpdateLoses()
    ensures IsRecvRun(RECEIVING, LOST_UPDATE)
    ensures RecvRun(RECEIVING, LOST_UPDATE) == Receiving(MAX_WINDOW - 100, [], Free, Ready)
  {
    var a, b := [Enqueue(100), HandlerLoad, HandlerStore], [Enqueue(100), HandlerLoad, Take];
    var c, d := [WriterLoad, WriterStore, HandlerStore], [Take, WriterLoad, WriterStore];
    var r0 := RECEIVING;
    Three(r0, Enqueue(100), HandlerLoad, HandlerStore);
    var r1 := RecvRun(r0, a);
    Three(r1, Enqueue(100), HandlerLoad, Take);
    var r2 := RecvRun(r1, b);
    Three(r2, WriterLoad, WriterStore, HandlerStore);
    var r3 := RecvRun(r2, c);
    Three(r3, Take, WriterLoad, WriterStore);
    RecvRunSplits(r0, a, b);
    RecvRunSplits(r0, a + b, c);
    RecvRunSplits(r0, a + b + c, d);
    assert LOST_UPDATE == a + b + c + d;
  }
}
