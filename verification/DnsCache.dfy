/** The DNS cache of `tun2socks/udp.go`, over messages that have been unpacked. */
module DnsCache {
  import opened Bytes
  import opened Wrappers

  const SECOND: nat := 1_000_000_000

  datatype Question = Question(name: seq<byte>, qtype: u16, qclass: u16)

  /** `ttls` are the times to live of the answers; `rest` is whatever else a message carries. */
  datatype Msg = Msg(id: u16, rcode: nat, questions: seq<Question>, ttls: seq<u32>, rest: seq<byte>)

  datatype Entry = Entry(msg: Msg, exp: nat)

  type Storage = map<seq<byte>, Entry>

  function CacheKey(q: Question): seq<byte> {
    q.name + Put16(q.qtype)
  }

  /** The key is the name and the type, and nothing else: questions of different classes share an entry. */
  lemma KeyIsNameAndType(a: Question, b: Question)
    ensures CacheKey(a) == CacheKey(b) <==> a.name == b.name && a.qtype == b.qtype
  {
    var x, y := CacheKey(a), CacheKey(b);
    if x == y {
      assert |a.name| == |x| - 2 == |b.name|;
      assert a.name == x[..|x| - 2] && b.name == y[..|y| - 2];
      assert Put16(a.qtype) == x[|x| - 2..] && Put16(b.qtype) == y[|y| - 2..];
      Get16Put16(a.qtype);
      Get16Put16(b.qtype);
    }
  }

  /** A message that `store` keeps. */
  predicate Qualifies(resp: Option<Msg>) {
    resp.Some? && resp.value.rcode == 0 && resp.value.questions != [] && resp.value.ttls != []
  }

  predicate Asks(request: Option<Msg>) {
    request.Some? && request.value.questions != []
  }

  function EntryOf(now: nat, resp: Msg): Entry
    requires resp.ttls != []
  {
    Entry(resp, now + resp.ttls[0] * SECOND)
  }

  function Stored(m: Storage, now: nat, resp: Option<Msg>): Storage {
    if Qualifies(resp) then m[CacheKey(resp.value.questions[0]) := EntryOf(now, resp.value)] else m
  }

  /** What a query leaves in the cache: an expired entry is deleted, a live one takes the query's Id. */
  function Queried(m: Storage, now: nat, request: Option<Msg>): Storage {
    if !Asks(request) then m else
    var key := CacheKey(request.value.questions[0]);
    if key !in m then m
    else if now > m[key].exp then m - {key}
    else m[key := m[key].(msg := m[key].msg.(id := request.value.id))]
  }

  function Answer(m: Storage, now: nat, request: Option<Msg>): Option<Msg> {
    if !Asks(request) then None else
    var key := CacheKey(request.value.questions[0]);
    if key !in m || now > m[key].exp then None
    else Some(m[key].msg.(id := request.value.id))
  }

  class DnsCache {
    var storage: Storage

    constructor ()
      ensures storage == map[]
    {
      storage := map[];
    }

    /** `payload` as `Unpack` reads it, or nothing. */
    method Query(now: nat, payload: Option<Msg>) returns (r: Option<Msg>)
      modifies `storage
      ensures r == Answer(old(storage), now, payload) && storage == Queried(old(storage), now, payload)
    {
      if payload.None? {
        return None;
      }
      var request := payload.value;
      if |request.questions| == 0 {
        return None;
      }
      var key := CacheKey(request.questions[0]);
      if key !in storage {
        return None;
      }
      var entry := storage[key];
      if now > entry.exp {
        storage := storage - {key};
        return None;
      }
      entry := entry.(msg := entry.msg.(id := request.id));
      storage := storage[key := entry];
      return Some(entry.msg);
    }

    method Store(now: nat, payload: Option<Msg>)
      modifies `storage
      ensures storage == Stored(old(storage), now, payload)
    {
      if payload.None? {
        return;
      }
      var resp := payload.value;
      if resp.rcode != 0 {
        return;
      }
      if |resp.questions| == 0 || |resp.ttls| == 0 {
        return;
      }
      var key := CacheKey(resp.questions[0]);
      storage := storage[key := Entry(resp, now + resp.ttls[0] * SECOND)];
    }
  }

  // ---- the cache against its history

  datatype Op = Store(now: nat, payload: Option<Msg>) | Query(now: nat, payload: Option<Msg>)

  function Run(ops: seq<Op>): Storage {
    if ops == [] then map[] else
    var m, op := Run(ops[..|ops| - 1]), ops[|ops| - 1];
    if op.Store? then Stored(m, op.now, op.payload) else Queried(m, op.now, op.payload)
  }

  /** The newest qualifying response stored under a key. */
  function Latest(ops: seq<Op>, key: seq<byte>): Option<Entry> {
    if ops == [] then None else
    var op := ops[|ops| - 1];
    if op.Store? && Qualifies(op.payload) && CacheKey(op.payload.value.questions[0]) == key
    then Some(EntryOf(op.now, op.payload.value))
    else Latest(ops[..|ops| - 1], key)
  }

  /** What the history answers: no entry is ever forgotten, and the newest counts. */
  function Expected(ops: seq<Op>, now: nat, request: Option<Msg>): Option<Msg> {
    if !Asks(request) then None else
    match Latest(ops, CacheKey(request.value.questions[0]))
    case None => None
    case Some(e) => if now > e.exp then None else Some(e.msg.(id := request.value.id))
  }

  predicate Monotonic(ops: seq<Op>) {
    forall i, j :: 0 <= i < j < |ops| ==> ops[i].now <= ops[j].now
  }

  /** An entry in the cache is the newest one but for its Id; one that is missing is not there to be had. */
  predicate Agrees(m: Storage, ops: seq<Op>, clock: nat, key: seq<byte>) {
    var l := Latest(ops, key);
    if key in m then l.Some? && m[key].exp == l.value.exp && m[key].msg == l.value.msg.(id := m[key].msg.id)
    else l.Some? ==> l.value.exp < clock
  }

  lemma {:induction false} RunAgrees(ops: seq<Op>, clock: nat, key: seq<byte>)
    requires Monotonic(ops) && (ops != [] ==> ops[|ops| - 1].now <= clock)
    ensures Agrees(Run(ops), ops, clock, key)
  {
    if ops != [] {
      var before := ops[..|ops| - 1];
      assert forall i :: 0 <= i < |before| ==> before[i] == ops[i];
      RunAgrees(before, ops[|ops| - 1].now, key);
    }
  }

  /** While the clock does not run backwards, the cache answers exactly as its history does: the newest
      qualifying response for the name and type with the query's Id, until it expires. In particular no
      deletion changes an answer. */
  lemma {:induction false} CacheRefinesHistory(ops: seq<Op>, now: nat, request: Option<Msg>)
    requires Monotonic(ops) && (ops != [] ==> ops[|ops| - 1].now <= now)
    ensures Answer(Run(ops), now, request) == Expected(ops, now, request)
  {
    if Asks(request) {
      RunAgrees(ops, now, CacheKey(request.value.questions[0]));
    }
  }

  // ---- the same in terms of what was stored

  /** This operation stores a success with a question for that name and type and with answers. */
  predicate StoresFor(op: Op, name: seq<byte>, qtype: u16) {
    && op.Store? && op.payload.Some?
    && var m := op.payload.value;
    && m.rcode == 0 && |m.questions| > 0 && |m.ttls| > 0
    && m.questions[0].name == name && m.questions[0].qtype == qtype
  }

  predicate NewestFor(ops: seq<Op>, i: nat, name: seq<byte>, qtype: u16) {
    i < |ops| && StoresFor(ops[i], name, qtype) && forall j :: i < j < |ops| ==> !StoresFor(ops[j], name, qtype)
  }

  lemma {:induction false} StoresUnderKey(op: Op, name: seq<byte>, qtype: u16, class_: u16)
    ensures StoresFor(op, name, qtype) <==>
              op.Store? && Qualifies(op.payload)
              && CacheKey(op.payload.value.questions[0]) == CacheKey(Question(name, qtype, class_))
  {
    if op.Store? && Qualifies(op.payload) {
      KeyIsNameAndType(op.payload.value.questions[0], Question(name, qtype, class_));
    }
  }

  lemma {:induction false} LatestWasStored(ops: seq<Op>, q: Question)
    requires Latest(ops, CacheKey(q)).Some?
    ensures exists i :: 0 <= i < |ops| && StoresFor(ops[i], q.name, q.qtype)
  {
    hide StoresFor, CacheKey;
    var before, last := ops[..|ops| - 1], |ops| - 1;
    StoresUnderKey(ops[last], q.name, q.qtype, q.qclass);
    if !StoresFor(ops[last], q.name, q.qtype) {
      LatestWasStored(before, q);
      var i :| 0 <= i < last && StoresFor(before[i], q.name, q.qtype);
      assert ops[i] == before[i];
    }
  }

  lemma {:induction false} LatestIsNewest(ops: seq<Op>, q: Question)
    ensures forall i: nat :: NewestFor(ops, i, q.name, q.qtype) ==>
              var m := ops[i].payload.value;
              Latest(ops, CacheKey(q)) == Some(Entry(m, ops[i].now + (m.ttls[0] as int) * 1_000_000_000))
  {
    hide StoresFor, CacheKey;
    if ops != [] {
      var before, last := ops[..|ops| - 1], |ops| - 1;
      assert forall i :: 0 <= i < last ==> before[i] == ops[i];
      StoresUnderKey(ops[last], q.name, q.qtype, q.qclass);
      LatestIsNewest(before, q);
      forall i: nat | NewestFor(ops, i, q.name, q.qtype) ensures i == last || NewestFor(before, i, q.name, q.qtype) {
      }
    }
  }

  /** Whatever was stored and queried before, with a clock that does not run backwards: a query is answered with the
      newest success stored for its name and type, in its own Id, up to the time to live of that one's first
      answer, in seconds, and not after; without one it is not answered. */
  lemma {:induction false} NewestDecides(ops: seq<Op>, now: nat, request: Msg, i: nat)
    requires Monotonic(ops) && (ops != [] ==> ops[|ops| - 1].now <= now) && |request.questions| > 0
    ensures var q, r := request.questions[0], Answer(Run(ops), now, Some(request));
            && (NewestFor(ops, i, q.name, q.qtype) ==>
                  var m := ops[i].payload.value;
                  var until := ops[i].now + (m.ttls[0] as int) * 1_000_000_000;
                  r == if now <= until then Some(m.(id := request.id)) else None)
            && (r.Some? ==> exists k: nat :: NewestFor(ops, k, q.name, q.qtype))
  {
    hide Run, Answer, CacheKey, StoresFor;
    var q := request.questions[0];
    CacheRefinesHistory(ops, now, Some(request));
    LatestIsNewest(ops, q);
    if k :| 0 <= k < |ops| && StoresFor(ops[k], q.name, q.qtype) {
      SomeNewest(ops, k, q);
    } else if Latest(ops, CacheKey(q)).Some? {
      LatestWasStored(ops, q);
    }
  }

  lemma {:induction false} SomeNewest(ops: seq<Op>, k: nat, q: Question)
    requires k < |ops| && StoresFor(ops[k], q.name, q.qtype)
    ensures exists i: nat :: NewestFor(ops, i, q.name, q.qtype)
    decreases |ops| - k
  {
    hide StoresFor;
    if j :| k < j < |ops| && StoresFor(ops[j], q.name, q.qtype) {
      SomeNewest(ops, j, q);
    } else {
      assert NewestFor(ops, k, q.name, q.qtype);
    }
  }

  // ---- what stays in the cache

  /** This operation asks for that name and type. */
  predicate AsksFor(op: Op, name: seq<byte>, qtype: u16) {
    && op.Query? && op.payload.Some?
    && var m := op.payload.value;
    && |m.questions| > 0 && m.questions[0].name == name && m.questions[0].qtype == qtype
  }

  lemma {:induction false} AsksUnderKey(op: Op, q: Question)
    ensures AsksFor(op, q.name, q.qtype) <==>
              op.Query? && Asks(op.payload) && CacheKey(op.payload.value.questions[0]) == CacheKey(q)
  {
    if op.Query? && Asks(op.payload) {
      KeyIsNameAndType(op.payload.value.questions[0], q);
    }
  }

  /** The Id of the last one who asked since operation `i`, or the one that was stored with it. */
  function LastId(ops: seq<Op>, i: nat, name: seq<byte>, qtype: u16, id: u16): u16
    requires i < |ops|
  {
    var last := |ops| - 1;
    if last == i then id
    else if AsksFor(ops[last], name, qtype) then ops[last].payload.value.id
    else LastId(ops[..last], i, name, qtype, id)
  }

  predicate AskedInTime(ops: seq<Op>, i: nat, name: seq<byte>, qtype: u16, until: nat) {
    forall j :: i < j < |ops| && AsksFor(ops[j], name, qtype) ==> ops[j].now <= until
  }

  /** The newest response stays until somebody asks too late, and carries the Id of the last one who asked. */
  lemma {:induction false} EntryStays(ops: seq<Op>, i: nat, q: Question)
    requires NewestFor(ops, i, q.name, q.qtype)
    ensures var m, cache := ops[i].payload.value, Run(ops);
            var until := ops[i].now + (m.ttls[0] as int) * 1_000_000_000;
            && (CacheKey(q) in cache <==> AskedInTime(ops, i, q.name, q.qtype, until))
            && (CacheKey(q) in cache ==>
                  cache[CacheKey(q)] == Entry(m.(id := LastId(ops, i, q.name, q.qtype, m.id)), until))
    decreases |ops|
  {
    hide CacheKey;
    var before, last := ops[..|ops| - 1], |ops| - 1;
    StoresUnderKey(ops[last], q.name, q.qtype, q.qclass);
    AsksUnderKey(ops[last], q);
    if i < last {
      assert forall j :: 0 <= j < last ==> before[j] == ops[j];
      assert NewestFor(before, i, q.name, q.qtype);
      EntryStays(before, i, q);
    }
  }
}
