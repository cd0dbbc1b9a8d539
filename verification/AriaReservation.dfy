/** The reservation word of a row, kept by the compare-and-swap loops of many threads. */
module AriaReservation {
  // 24 bits of epoch, 20 bits of the smallest reading transaction and 20 bits of the smallest writing
  // one. A field of 0 means that nobody has reserved; but 0 is also the id of the first transaction of
  // a batch, so its call leaves no trace of itself and erases what was there.

  function GetEpoch(value: bv64): bv64 {
    (value >> 40) & 0xffffff
  }

  function SetEpoch(value: bv64, epoch: bv64): bv64 {
    (value & !(0xffffff << 40)) | (epoch << 40)
  }

  function GetRts(value: bv64): bv64 {
    (value >> 20) & 0xfffff
  }

  function SetRts(value: bv64, rts: bv64): bv64 {
    (value & !(0xfffff << 20)) | (rts << 20)
  }

  function GetWts(value: bv64): bv64 {
    value & 0xfffff
  }

  function SetWts(value: bv64, wts: bv64): bv64 {
    (value & !0xfffff) | wts
  }

  lemma {:induction false} SetEpochFields(v: bv64, e: bv64)
    requires e <= 0xffffff
    ensures GetEpoch(SetEpoch(v, e)) == e && GetRts(SetEpoch(v, e)) == GetRts(v) && GetWts(SetEpoch(v, e)) == GetWts(v)
  {
  }

  lemma {:induction false} SetRtsFields(v: bv64, t: bv64)
    requires t <= 0xfffff
    ensures GetEpoch(SetRts(v, t)) == GetEpoch(v) && GetRts(SetRts(v, t)) == t && GetWts(SetRts(v, t)) == GetWts(v)
  {
  }

  lemma {:induction false} SetWtsFields(v: bv64, t: bv64)
    requires t <= 0xfffff
    ensures GetEpoch(SetWts(v, t)) == GetEpoch(v) && GetRts(SetWts(v, t)) == GetRts(v) && GetWts(SetWts(v, t)) == t
  {
  }

  /** The three fields are the whole word. */
  lemma {:induction false} FieldsDetermineWord(v: bv64, w: bv64)
    requires GetEpoch(v) == GetEpoch(w) && GetRts(v) == GetRts(w) && GetWts(v) == GetWts(w)
    ensures v == w
  {
  }

  /** The number that a word or a field of a word stands for. */
  function Num(x: bv64): nat {
    x as nat
  }

  lemma {:induction false} ZeroFields()
    ensures GetEpoch(0) == 0 && GetRts(0) == 0 && GetWts(0) == 0 && Num(0) == 0
  {
  }

  lemma {:induction false} NonZero(x: bv64)
    ensures Num(x) == 0 <==> x == 0
  {
  }

  // ---------- one call, as the code computes it ----------

  datatype Request = Request(write: bool, tid: bv64)

  predicate ValidRequest(r: Request) {
    r.tid <= 0xfffff
  }

  function GetTid(value: bv64, write: bool): bv64 {
    if write then GetWts(value) else GetRts(value)
  }

  function SetTid(value: bv64, write: bool, tid: bv64): bv64 {
    if write then SetWts(value, tid) else SetRts(value, tid)
  }

  /** The early return: somebody smaller has reserved in the same epoch. */
  predicate Refused(value: bv64, epoch: bv64, r: Request) {
    var held := GetTid(value, r.write);
    !(Num(epoch) > Num(GetEpoch(value))) && Num(held) < Num(r.tid) && held != 0
  }

  /** The word that the call tries to swap in. */
  function NewValue(value: bv64, epoch: bv64, r: Request): bv64 {
    if Num(epoch) > Num(GetEpoch(value)) then SetTid(SetEpoch(0, epoch), r.write, r.tid)
    else SetTid(value, r.write, r.tid)
  }

  // ---------- the calls as atomic operations on three fields ----------

  datatype Fields = Fields(epoch: nat, rts: nat, wts: nat)

  function Unpack(value: bv64): Fields {
    Fields(Num(GetEpoch(value)), Num(GetRts(value)), Num(GetWts(value)))
  }

  function Tid(f: Fields, write: bool): nat {
    if write then f.wts else f.rts
  }

  function WithTid(f: Fields, write: bool, tid: nat): Fields {
    if write then Fields(f.epoch, f.rts, tid) else Fields(f.epoch, tid, f.wts)
  }

  /** A fresh epoch forgets both reservations; within an epoch the smaller id wins. */
  function Reserve(f: Fields, epoch: nat, write: bool, tid: nat): (Fields, bool) {
    var g := if f.epoch < epoch then Fields(epoch, 0, 0) else f;
    if Tid(g, write) == 0 || tid <= Tid(g, write) then (WithTid(g, write, tid), true) else (g, false)
  }

  function ReserveFor(f: Fields, epoch: bv64, r: Request): (Fields, bool) {
    Reserve(f, Num(epoch), r.write, Num(r.tid))
  }

  lemma {:induction false} SetTidFields(value: bv64, r: Request)
    requires ValidRequest(r)
    ensures Unpack(SetTid(value, r.write, r.tid)) == WithTid(Unpack(value), r.write, Num(r.tid))
  {
    hide GetEpoch, SetEpoch, GetRts, SetRts, GetWts, SetWts, Num;
    SetRtsFields(value, r.tid);
    SetWtsFields(value, r.tid);
  }

  lemma {:induction false} FreshFields(epoch: bv64)
    requires epoch <= 0xffffff
    ensures Unpack(SetEpoch(0, epoch)) == Fields(Num(epoch), 0, 0)
  {
    hide GetEpoch, SetEpoch, GetRts, GetWts, Num;
    ZeroFields();
    SetEpochFields(0, epoch);
  }

  /** The word the loop installs, or its refusal, is the atomic operation on the unpacked word. */
  lemma {:induction false} NewValueIsReserve(value: bv64, epoch: bv64, r: Request)
    requires epoch <= 0xffffff && ValidRequest(r) && Num(GetEpoch(value)) <= Num(epoch)
    ensures ReserveFor(Unpack(value), epoch, r).0
        == Unpack(if Refused(value, epoch, r) then value else NewValue(value, epoch, r))
    ensures ReserveFor(Unpack(value), epoch, r).1 == !Refused(value, epoch, r)
  {
    hide GetEpoch, SetEpoch, GetRts, SetRts, GetWts, SetWts, Num, SetTid;
    FreshFields(epoch);
    SetTidFields(SetEpoch(0, epoch), r);
    SetTidFields(value, r);
    NonZero(GetTid(value, r.write));
  }

  // ---------- many threads ----------

  /** A thread is about to load the word, has loaded it and is about to swap, or has returned. */
  datatype Thread = Start | Loaded(value: bv64) | Returned(ok: bool)

  /** `order` records the calls in the order in which they took effect. */
  datatype State = State(word: bv64, threads: seq<Thread>, order: seq<nat>)

  datatype Action = Load(i: nat) | Swap(i: nat, spurious: bool)

  predicate Enabled(s: State, a: Action) {
    match a
    case Load(i) => i < |s.threads| && s.threads[i].Start?
    case Swap(i, _) => i < |s.threads| && s.threads[i].Loaded?
  }

  /** One load with the decision taken on it, or one compare-and-swap, which may fail spuriously. */
  function Next(s: State, epoch: bv64, requests: seq<Request>, a: Action): (t: State)
    requires |s.threads| == |requests| && Enabled(s, a)
    ensures |t.threads| == |s.threads|
  {
    match a
    case Load(i) =>
      if Refused(s.word, epoch, requests[i])
      then State(s.word, s.threads[i := Returned(false)], s.order + [i])
      else State(s.word, s.threads[i := Loaded(s.word)], s.order)
    case Swap(i, spurious) =>
      if s.word == s.threads[i].value && !spurious
      then State(NewValue(s.threads[i].value, epoch, requests[i]), s.threads[i := Returned(true)], s.order + [i])
      else State(s.word, s.threads[i := Start], s.order)
  }

  predicate Init(s: State, word: bv64, requests: seq<Request>) {
    s.word == word && s.order == [] && |s.threads| == |requests|
        && forall i :: 0 <= i < |requests| ==> s.threads[i] == Start
  }

  ghost predicate Step(s: State, t: State, epoch: bv64, requests: seq<Request>) {
    |s.threads| == |requests| && exists a :: Enabled(s, a) && t == Next(s, epoch, requests, a)
  }

  ghost predicate IsRun(run: seq<State>, word: bv64, epoch: bv64, requests: seq<Request>) {
    && |run| > 0 && Init(run[0], word, requests)
    && forall i :: 0 < i < |run| ==> Step(run[i - 1], run[i], epoch, requests)
  }

  predicate ValidSetting(word: bv64, epoch: bv64, requests: seq<Request>) {
    epoch <= 0xffffff && Num(GetEpoch(word)) <= Num(epoch)
        && forall i :: 0 <= i < |requests| ==> ValidRequest(requests[i])
  }

  // ---------- linearizability ----------

  ghost predicate Indexes(order: seq<nat>, n: nat) {
    && (forall k :: 0 <= k < |order| ==> order[k] < n)
    && forall j, k :: 0 <= j < k < |order| ==> order[j] != order[k]
  }

  /** The calls of `order` executed atomically one after the other. */
  ghost function Replay(f: Fields, epoch: bv64, requests: seq<Request>, order: seq<nat>): Fields
    requires forall k :: 0 <= k < |order| ==> order[k] < |requests|
  {
    if order == [] then f
    else
      var last := |order| - 1;
      ReserveFor(Replay(f, epoch, requests, order[..last]), epoch, requests[order[last]]).0
  }

  /** What the atomic execution answers to the call at place `k` of `order`. */
  ghost function Answer(f: Fields, epoch: bv64, requests: seq<Request>, order: seq<nat>, k: nat): bool
    requires (forall k :: 0 <= k < |order| ==> order[k] < |requests|) && k < |order|
  {
    ReserveFor(Replay(f, epoch, requests, order[..k]), epoch, requests[order[k]]).1
  }

  ghost predicate Answered(s: State, f: Fields, epoch: bv64, requests: seq<Request>, k: nat)
    requires k < |s.order| && Indexes(s.order, |requests|) && |s.threads| == |requests|
  {
    s.threads[s.order[k]] == Returned(Answer(f, epoch, requests, s.order, k))
  }

  /** The word is that of the atomic execution, and the returned calls are exactly those in it,
      with its answers. */
  ghost predicate Linearized(s: State, f: Fields, epoch: bv64, requests: seq<Request>) {
    && |s.threads| == |requests| && Indexes(s.order, |requests|)
    && Unpack(s.word) == Replay(f, epoch, requests, s.order)
    && (forall i :: 0 <= i < |requests| ==> (s.threads[i].Returned? <==> i in s.order))
    && (forall k :: 0 <= k < |s.order| ==> Answered(s, f, epoch, requests, k))
    && forall i :: 0 <= i < |requests| && s.threads[i].Loaded? ==> !Refused(s.threads[i].value, epoch, requests[i])
  }

  lemma {:induction false} TakesEffect(s: State, t: State, f: Fields, epoch: bv64, requests: seq<Request>, i: nat,
          ok: bool)
    requires Linearized(s, f, epoch, requests) && i < |requests| && !s.threads[i].Returned?
    requires t.threads == s.threads[i := Returned(ok)] && t.order == s.order + [i]
    requires ReserveFor(Unpack(s.word), epoch, requests[i]).0 == Unpack(t.word)
    requires ReserveFor(Unpack(s.word), epoch, requests[i]).1 == ok
    ensures Linearized(t, f, epoch, requests)
  {
    hide Unpack, ReserveFor, Refused;
    var n := |s.order|;
    assert t.order[..n] == s.order;
    forall k | 0 <= k < n + 1 ensures Answered(t, f, epoch, requests, k) {
      if k < n {
        assert Answered(s, f, epoch, requests, k);
        assert t.order[..k] == s.order[..k];
      }
    }
  }

  lemma {:induction false} NothingHappens(s: State, t: State, f: Fields, epoch: bv64, requests: seq<Request>, i: nat)
    requires Linearized(s, f, epoch, requests) && i < |requests| && !s.threads[i].Returned?
    requires |t.threads| == |s.threads| && !t.threads[i].Returned? && t.threads == s.threads[i := t.threads[i]]
    requires t.order == s.order && t.word == s.word
    requires t.threads[i].Loaded? ==> !Refused(t.threads[i].value, epoch, requests[i])
    ensures Linearized(t, f, epoch, requests)
  {
    hide Unpack, Replay, Refused;
    forall k | 0 <= k < |t.order| ensures Answered(t, f, epoch, requests, k) {
      assert Answered(s, f, epoch, requests, k);
    }
  }

  /** The check on the epoch never fires: no atomic operation takes the word past `epoch`. */
  lemma {:induction false} ReplayEpoch(f: Fields, epoch: bv64, requests: seq<Request>, order: seq<nat>)
    requires (forall k :: 0 <= k < |order| ==> order[k] < |requests|) && f.epoch <= Num(epoch)
    ensures Replay(f, epoch, requests, order).epoch == if order == [] then f.epoch else Num(epoch)
  {
    hide Num;
    if order != [] {
      ReplayEpoch(f, epoch, requests, order[..|order| - 1]);
    }
  }

  lemma {:induction false} StepLinearizes(s: State, f: Fields, epoch: bv64, requests: seq<Request>, a: Action)
    requires Linearized(s, f, epoch, requests) && Enabled(s, a) && epoch <= 0xffffff && f.epoch <= Num(epoch)
    requires forall i :: 0 <= i < |requests| ==> ValidRequest(requests[i])
    ensures Linearized(Next(s, epoch, requests, a), f, epoch, requests)
    ensures Num(GetEpoch(s.word)) <= Num(epoch)
  {
    hide Num, GetEpoch, GetRts, GetWts, NewValue, Refused, ReserveFor, Replay, Answered, ValidRequest;
    ReplayEpoch(f, epoch, requests, s.order);
    NewValueIsReserve(s.word, epoch, requests[a.i]);
    var t := Next(s, epoch, requests, a);
    if t.threads[a.i].Returned? {
      TakesEffect(s, t, f, epoch, requests, a.i, t.threads[a.i].ok);
    } else {
      NothingHappens(s, t, f, epoch, requests, a.i);
    }
  }

  /** Every interleaving of loads and swaps, with any spurious failures, is equivalent to the
      returned calls executed atomically in some order. */
  lemma {:induction false} RunLinearizes(run: seq<State>, word: bv64, epoch: bv64, requests: seq<Request>, i: nat)
    requires IsRun(run, word, epoch, requests) && ValidSetting(word, epoch, requests) && i < |run|
    ensures Linearized(run[i], Unpack(word), epoch, requests)
  {
    if i > 0 {
      hide Linearized, Next, Enabled;
      RunLinearizes(run, word, epoch, requests, i - 1);
      assert Step(run[i - 1], run[i], epoch, requests);
      var a :| Enabled(run[i - 1], a) && run[i] == Next(run[i - 1], epoch, requests, a);
      StepLinearizes(run[i - 1], Unpack(word), epoch, requests, a);
    }
  }

  // ---------- what the calls add up to ----------

  /** The least element of a set of ids, or 0 for none. */
  ghost predicate IsLeast(m: nat, s: set<nat>) {
    if s == {} then m == 0 else m in s && forall x :: x in s ==> m <= x
  }

  ghost predicate NoneBelow(s: set<nat>, tid: nat) {
    forall x :: x in s ==> tid <= x
  }

  /** A field as a call of epoch `epoch` sees it: older reservations count as none. */
  function Current(f: Fields, epoch: bv64, write: bool): nat {
    if f.epoch < Num(epoch) then 0 else Tid(f, write)
  }

  /** The ids of one kind among the calls of `order`, with the reservation that was there before. */
  ghost function Reserved(f: Fields, epoch: bv64, requests: seq<Request>, order: seq<nat>, write: bool): set<nat>
    requires forall k :: 0 <= k < |order| ==> order[k] < |requests|
  {
    (if Current(f, epoch, write) == 0 then {} else {Current(f, epoch, write)})
    + set k | 0 <= k < |order| && requests[order[k]].write == write :: Num(requests[order[k]].tid)
  }

  lemma {:induction false} ReservedMore(f: Fields, epoch: bv64, requests: seq<Request>, order: seq<nat>, write: bool)
    requires (forall k :: 0 <= k < |order| ==> order[k] < |requests|) && order != []
    ensures var r := requests[order[|order| - 1]];
            Reserved(f, epoch, requests, order, write)
            == Reserved(f, epoch, requests, order[..|order| - 1], write) + if r.write == write then {Num(r.tid)} else {}
  {
    hide Num, Current;
    var last := |order| - 1;
    var r := requests[order[last]];
    var s, t := Reserved(f, epoch, requests, order, write), Reserved(f, epoch, requests, order[..last], write);
    forall x | x in s ensures x in t + if r.write == write then {Num(r.tid)} else {} {
      if k :| 0 <= k < |order| && requests[order[k]].write == write && x == Num(requests[order[k]].tid) {
        if k < last {
          assert order[..last][k] == order[k];
        }
      }
    }
    forall x | x in t + if r.write == write then {Num(r.tid)} else {} ensures x in s {
      if k :| 0 <= k < last && requests[order[..last][k]].write == write && x == Num(requests[order[..last][k]].tid) {
        assert order[..last][k] == order[k];
      } else if r.write == write && x == Num(r.tid) {
        assert requests[order[last]].write == write;
      }
    }
  }

  /** What of these reservations is left when a call with id 0 erases all before it. */
  ghost function Live(f: Fields, epoch: bv64, requests: seq<Request>, order: seq<nat>, write: bool): set<nat>
    requires forall k :: 0 <= k < |order| ==> order[k] < |requests|
  {
    if order == [] then (if Current(f, epoch, write) == 0 then {} else {Current(f, epoch, write)})
    else
      var last := |order| - 1;
      WithCall(Live(f, epoch, requests, order[..last], write), requests[order[last]], write)
  }

  ghost function WithCall(s: set<nat>, r: Request, write: bool): set<nat> {
    if r.write != write then s else if Num(r.tid) == 0 then {} else s + {Num(r.tid)}
  }

  lemma {:induction false} LeastOfReserve(f: Fields, epoch: bv64, r: Request, write: bool, s: set<nat>)
    requires IsLeast(Current(f, epoch, write), s) && ValidRequest(r) && forall x :: x in s ==> x > 0
    ensures IsLeast(Current(ReserveFor(f, epoch, r).0, epoch, write), WithCall(s, r, write))
    ensures forall x :: x in WithCall(s, r, write) ==> x > 0
    ensures r.write == write ==> (ReserveFor(f, epoch, r).1 <==> NoneBelow(s, Num(r.tid)))
  {
    hide Num;
  }

  /** At any point each field is the least live id of its kind. */
  lemma {:induction false} ReplayIsLeast(f: Fields, epoch: bv64, requests: seq<Request>, order: seq<nat>, write: bool)
    requires forall k :: 0 <= k < |order| ==> order[k] < |requests|
    requires forall i :: 0 <= i < |requests| ==> ValidRequest(requests[i])
    ensures IsLeast(Current(Replay(f, epoch, requests, order), epoch, write), Live(f, epoch, requests, order, write))
    ensures forall x :: x in Live(f, epoch, requests, order, write) ==> x > 0
  {
    hide Num, Current, ReserveFor, ValidRequest, IsLeast, WithCall;
    if order == [] {
      NothingReserved(f, epoch, requests, write);
    } else {
      var last := |order| - 1;
      ReplayIsLeast(f, epoch, requests, order[..last], write);
      LeastOfReserve(Replay(f, epoch, requests, order[..last]), epoch, requests[order[last]], write,
                     Live(f, epoch, requests, order[..last], write));
    }
  }

  lemma {:induction false} NothingReserved(f: Fields, epoch: bv64, requests: seq<Request>, write: bool)
    ensures IsLeast(Current(f, epoch, write), Live(f, epoch, requests, [], write))
    ensures forall x :: x in Live(f, epoch, requests, [], write) ==> x > 0
  {
    hide Num;
  }

  /** A call is refused exactly when a smaller live id of its kind was there before it. */
  lemma {:induction false} RefusedByLive(run: seq<State>, word: bv64, epoch: bv64, requests: seq<Request>, i: nat,
          k: nat)
    requires IsRun(run, word, epoch, requests) && ValidSetting(word, epoch, requests) && i < |run| && k < |run[i].order|
    ensures |run[i].threads| == |requests| && Indexes(run[i].order, |requests|)
    ensures var r := requests[run[i].order[k]];
            run[i].threads[run[i].order[k]] ==
              Returned(NoneBelow(Live(Unpack(word), epoch, requests, run[i].order[..k], r.write), Num(r.tid)))
  {
    hide IsRun, Num, Unpack, Live, WithCall, ReserveFor, Current, IsLeast, ValidRequest, GetEpoch;
    var f, order := Unpack(word), run[i].order;
    RunLinearizes(run, word, epoch, requests, i);
    assert Answered(run[i], f, epoch, requests, k);
    var r := requests[order[k]];
    ReplayIsLeast(f, epoch, requests, order[..k], r.write);
    LeastOfReserve(Replay(f, epoch, requests, order[..k]), epoch, r, r.write,
                   Live(f, epoch, requests, order[..k], r.write));
  }

  /** All ids of one kind, with the reservation that was there before. */
  ghost function AllReserved(f: Fields, epoch: bv64, requests: seq<Request>, write: bool): set<nat> {
    (if Current(f, epoch, write) == 0 then {} else {Current(f, epoch, write)})
    + set i | 0 <= i < |requests| && requests[i].write == write :: Num(requests[i].tid)
  }

  lemma {:induction false} WithinAll(f: Fields, epoch: bv64, requests: seq<Request>, order: seq<nat>, write: bool)
    requires forall k :: 0 <= k < |order| ==> order[k] < |requests|
    ensures Reserved(f, epoch, requests, order, write) <= AllReserved(f, epoch, requests, write)
    ensures (forall i :: 0 <= i < |requests| ==> i in order) ==>
        Reserved(f, epoch, requests, order, write) == AllReserved(f, epoch, requests, write)
  {
    hide Num, Current;
    if forall i :: 0 <= i < |requests| ==> i in order {
      forall x | x in AllReserved(f, epoch, requests, write) ensures x in Reserved(f, epoch, requests, order, write) {
        if i :| 0 <= i < |requests| && requests[i].write == write && x == Num(requests[i].tid) {
          assert i in order;
          var k :| 0 <= k < |order| && order[k] == i;
          assert requests[order[k]].write == write;
        }
      }
    }
  }

  // ---------- the id 0 ----------

  /** Among the calls of one kind there is one with id 0 and one with another id. */
  ghost predicate Mixed(requests: seq<Request>, write: bool) {
    HasZero(requests, write) && HasNonZero(requests, write)
  }

  ghost predicate HasZero(requests: seq<Request>, write: bool) {
    exists i :: 0 <= i < |requests| && requests[i].write == write && Num(requests[i].tid) == 0
  }

  ghost predicate HasNonZero(requests: seq<Request>, write: bool) {
    exists i :: 0 <= i < |requests| && requests[i].write == write && Num(requests[i].tid) != 0
  }

  /** Without id 0 nothing is erased. */
  lemma {:induction false} NothingErased(f: Fields, epoch: bv64, requests: seq<Request>, order: seq<nat>, write: bool)
    requires (forall k :: 0 <= k < |order| ==> order[k] < |requests|) && !HasZero(requests, write)
    ensures Live(f, epoch, requests, order, write) == Reserved(f, epoch, requests, order, write)
  {
    hide Num, Current;
    if order != [] {
      NothingErased(f, epoch, requests, order[..|order| - 1], write);
      ReservedMore(f, epoch, requests, order, write);
      hide Reserved;
    }
  }

  /** With id 0 only, the first call erases everything for good. */
  lemma {:induction false} AllErased(f: Fields, epoch: bv64, requests: seq<Request>, order: seq<nat>, write: bool)
    requires (forall k :: 0 <= k < |order| ==> order[k] < |requests|) && !HasNonZero(requests, write)
    ensures var live, all := Live(f, epoch, requests, order, write), Reserved(f, epoch, requests, order, write);
            if 0 in all then live == {} else live == all
  {
    hide Num, Current;
    if order != [] {
      AllErased(f, epoch, requests, order[..|order| - 1], write);
      ReservedMore(f, epoch, requests, order, write);
      hide Reserved;
    }
  }

  /** Without a mix the live ids have the same least element and refuse the same calls. */
  lemma {:induction false} LeastUnmixed(f: Fields, epoch: bv64, requests: seq<Request>, order: seq<nat>, write: bool,
          m: nat)
    requires (forall k :: 0 <= k < |order| ==> order[k] < |requests|) && !Mixed(requests, write)
    ensures IsLeast(m, Live(f, epoch, requests, order, write)) ==>
        IsLeast(m, Reserved(f, epoch, requests, order, write))
    ensures forall i :: 0 <= i < |requests| && requests[i].write == write ==>
              (NoneBelow(Live(f, epoch, requests, order, write), Num(requests[i].tid))
               <==> NoneBelow(Reserved(f, epoch, requests, order, write), Num(requests[i].tid)))
  {
    hide Num, Live, Reserved;
    if HasZero(requests, write) {
      AllErased(f, epoch, requests, order, write);
    } else {
      NothingErased(f, epoch, requests, order, write);
    }
  }

  /** Every call has returned. */
  ghost predicate Complete(s: State, requests: seq<Request>) {
    |s.threads| == |requests| && forall k :: 0 <= k < |requests| ==> s.threads[k].Returned?
  }

  /** At the end of a complete run the epoch is that of the calls, and each field is the least live
      id of its kind. */
  lemma {:induction false} FinalWord(run: seq<State>, word: bv64, epoch: bv64, requests: seq<Request>, i: nat,
          write: bool)
    requires IsRun(run, word, epoch, requests) && ValidSetting(word, epoch, requests) && i < |run| && requests != []
    requires Complete(run[i], requests)
    ensures Indexes(run[i].order, |requests|) && Unpack(run[i].word).epoch == Num(epoch)
    ensures IsLeast(Tid(Unpack(run[i].word), write), Live(Unpack(word), epoch, requests, run[i].order, write))
    ensures Reserved(Unpack(word), epoch, requests, run[i].order, write)
        == AllReserved(Unpack(word), epoch, requests, write)
  {
    hide IsRun, Num, Live, Reserved, AllReserved, IsLeast, ValidRequest, GetEpoch, GetRts, GetWts, Replay;
    var f, order := Unpack(word), run[i].order;
    RunLinearizes(run, word, epoch, requests, i);
    assert 0 in order;
    ReplayEpoch(f, epoch, requests, order);
    ReplayIsLeast(f, epoch, requests, order, write);
    WithinAll(f, epoch, requests, order, write);
  }

  /** In every complete run the field is the least id of its kind: of all calls and of a reservation
      already made in the epoch, 0 for none. */
  ghost predicate LeastAlways(word: bv64, epoch: bv64, requests: seq<Request>, write: bool) {
    forall run: seq<State>, i :: IsRun(run, word, epoch, requests) && 0 <= i < |run| && Complete(run[i], requests) ==>
      IsLeast(Tid(Unpack(run[i].word), write), AllReserved(Unpack(word), epoch, requests, write))
  }

  lemma {:induction false} LeastInRun(run: seq<State>, word: bv64, epoch: bv64, requests: seq<Request>, i: nat,
          write: bool)
    requires IsRun(run, word, epoch, requests) && ValidSetting(word, epoch, requests) && i < |run| && requests != []
    requires Complete(run[i], requests) && !Mixed(requests, write)
    ensures IsLeast(Tid(Unpack(run[i].word), write), AllReserved(Unpack(word), epoch, requests, write))
  {
    hide IsRun, ValidSetting, Num, Live, Reserved, AllReserved, IsLeast, Unpack, Complete;
    FinalWord(run, word, epoch, requests, i, write);
    LeastUnmixed(Unpack(word), epoch, requests, run[i].order, write, Tid(Unpack(run[i].word), write));
  }

  /** The final field depends on the calls alone, being their least id in every complete run, exactly
      when the calls of its kind do not mix the id 0 with others. */
  lemma {:induction false} LeastExactly(word: bv64, epoch: bv64, requests: seq<Request>, write: bool)
    requires ValidSetting(word, epoch, requests) && requests != []
    ensures LeastAlways(word, epoch, requests, write) <==> !Mixed(requests, write)
  {
    hide IsRun, ValidSetting, Num, AllReserved, IsLeast, Unpack, Complete, Mixed;
    if Mixed(requests, write) {
      var run := WrongLeast(word, epoch, requests, write);
      var i := |run| - 1;
      assert Complete(run[i], requests);
    } else {
      forall run: seq<State>, i | IsRun(run, word, epoch, requests) && 0 <= i < |run| && Complete(run[i], requests)
        ensures IsLeast(Tid(Unpack(run[i].word), write), AllReserved(Unpack(word), epoch, requests, write))
      {
        LeastInRun(run, word, epoch, requests, i, write);
      }
    }
  }

  lemma {:induction false} RunExtended(run: seq<State>, word: bv64, epoch: bv64, requests: seq<Request>, t: State)
    requires IsRun(run, word, epoch, requests) && Step(run[|run| - 1], t, epoch, requests)
    ensures IsRun(run + [t], word, epoch, requests)
  {
    hide Step;
    var more := run + [t];
    forall i | 0 < i < |more| ensures Step(more[i - 1], more[i], epoch, requests) {
      if i < |run| {
        assert more[i - 1] == run[i - 1] && more[i] == run[i];
      }
    }
  }

  lemma {:induction false} ActionIsStep(s: State, epoch: bv64, requests: seq<Request>, a: Action)
    requires |s.threads| == |requests| && Enabled(s, a)
    ensures Step(s, Next(s, epoch, requests, a), epoch, requests)
  {
  }

  /** The calls of `order` have run one after the other. */
  ghost predicate RanInOrder(s: State, requests: seq<Request>, order: seq<nat>) {
    && |s.threads| == |requests| && s.order == order
    && forall i :: 0 <= i < |requests| ==> if i in order then s.threads[i].Returned? else s.threads[i] == Start
  }

  /** Any calls can run one after the other, without a spurious failure. */
  lemma {:induction false} SequentialRun(word: bv64, epoch: bv64, requests: seq<Request>, order: seq<nat>)
    returns (run: seq<State>)
    requires Indexes(order, |requests|)
    ensures IsRun(run, word, epoch, requests) && |run| > 0 && RanInOrder(run[|run| - 1], requests, order)
  {
    hide NewValue, Refused, Step;
    if order == [] {
      run := [State(word, seq(|requests|, _ => Start), [])];
    } else {
      var last := |order| - 1;
      var c := order[last];
      run := SequentialRun(word, epoch, requests, order[..last]);
      run := OneCall(run, word, epoch, requests, order[..last], c);
      assert order[..last] + [c] == order;
    }
  }

  /** One more call: its load, and its swap unless it is refused. */
  lemma {:induction false} OneCall(start: seq<State>, word: bv64, epoch: bv64, requests: seq<Request>, order: seq<nat>,
          c: nat)
    returns (run: seq<State>)
    requires IsRun(start, word, epoch, requests) && |start| > 0 && RanInOrder(start[|start| - 1], requests, order)
    requires c < |requests| && c !in order
    ensures IsRun(run, word, epoch, requests) && |run| > 0 && RanInOrder(run[|run| - 1], requests, order + [c])
  {
    hide NewValue, Refused, Step, IsRun;
    var s := start[|start| - 1];
    var t := Next(s, epoch, requests, Load(c));
    ActionIsStep(s, epoch, requests, Load(c));
    RunExtended(start, word, epoch, requests, t);
    run := start + [t];
    if t.threads[c].Loaded? {
      var u := Next(t, epoch, requests, Swap(c, false));
      ActionIsStep(t, epoch, requests, Swap(c, false));
      RunExtended(run, word, epoch, requests, u);
      run := run + [u];
    }
  }

  /** After a call with another id the field is not 0. */
  lemma {:induction false} LastNonZero(f: Fields, epoch: bv64, r: Request)
    requires f.epoch <= Num(epoch) && Num(r.tid) != 0
    ensures Tid(ReserveFor(f, epoch, r).0, r.write) != 0
  {
    hide Num;
  }

  /** All calls but `j`, and then `j`. */
  ghost function EndingWith(n: nat, j: nat): (order: seq<nat>)
    requires j < n
    ensures |order| == n && order[n - 1] == j && Indexes(order, n)
  {
    seq(n, k requires 0 <= k < n => if k == n - 1 then j else if k < j then k else k + 1)
  }

  lemma {:induction false} AllThere(n: nat, j: nat, i: nat)
    requires j < n && i < n
    ensures i in EndingWith(n, j)
  {
    assert EndingWith(n, j)[if i < j then i else if i == j then n - 1 else i - 1] == i;
  }

  /** With a mix the call with the other id may come last, and then the field is not 0. */
  lemma {:induction false} WrongLeast(word: bv64, epoch: bv64, requests: seq<Request>, write: bool)
    returns (run: seq<State>)
    requires ValidSetting(word, epoch, requests) && Mixed(requests, write)
    ensures IsRun(run, word, epoch, requests) && |run| > 0 && Complete(run[|run| - 1], requests)
    ensures !IsLeast(Tid(Unpack(run[|run| - 1].word), write), AllReserved(Unpack(word), epoch, requests, write))
  {
    hide IsRun, ValidSetting, Num, Unpack, AllReserved, EndingWith, Tid;
    var j :| 0 <= j < |requests| && requests[j].write == write && Num(requests[j].tid) != 0;
    var order := EndingWith(|requests|, j);
    run := SequentialRun(word, epoch, requests, order);
    forall k | 0 <= k < |requests| ensures k in order {
      AllThere(|requests|, j, k);
    }
    EndsNonZero(run, word, epoch, requests, j);
    ZeroReserved(Unpack(word), epoch, requests, write);
  }

  lemma {:induction false} EndsNonZero(run: seq<State>, word: bv64, epoch: bv64, requests: seq<Request>, j: nat)
    requires IsRun(run, word, epoch, requests) && ValidSetting(word, epoch, requests) && |run| > 0
    requires j < |requests| && Num(requests[j].tid) != 0 && run[|run| - 1].order == EndingWith(|requests|, j)
    ensures Tid(Unpack(run[|run| - 1].word), requests[j].write) != 0
  {
    hide IsRun, ValidSetting, Num, Unpack, Tid, ReserveFor, EndingWith, Answered;
    var n, order := |requests|, EndingWith(|requests|, j);
    RunLinearizes(run, word, epoch, requests, |run| - 1);
    EpochBound(word, epoch, requests, order[..n - 1]);
    LastNonZero(Replay(Unpack(word), epoch, requests, order[..n - 1]), epoch, requests[j]);
  }

  lemma {:induction false} ZeroReserved(f: Fields, epoch: bv64, requests: seq<Request>, write: bool)
    requires HasZero(requests, write)
    ensures 0 in AllReserved(f, epoch, requests, write)
  {
    hide Num, Current;
  }

  lemma {:induction false} EpochBound(word: bv64, epoch: bv64, requests: seq<Request>, order: seq<nat>)
    requires ValidSetting(word, epoch, requests) && forall k :: 0 <= k < |order| ==> order[k] < |requests|
    ensures Replay(Unpack(word), epoch, requests, order).epoch <= Num(epoch)
  {
    hide Num, GetEpoch, Replay;
    ReplayEpoch(Unpack(word), epoch, requests, order);
  }

  /** In every run each call of the kind is answered by whether a smaller id of its kind took effect
      before it. */
  ghost predicate AlwaysBySmaller(word: bv64, epoch: bv64, requests: seq<Request>, write: bool) {
    forall run: seq<State>, i, k :: IsRun(run, word, epoch, requests) && 0 <= i < |run| && 0 <= k < |run[i].order| ==>
      BySmaller(run[i], word, epoch, requests, write, k)
  }

  ghost predicate BySmaller(s: State, word: bv64, epoch: bv64, requests: seq<Request>, write: bool, k: nat)
    requires k < |s.order|
  {
    && |s.threads| == |requests| && Indexes(s.order, |requests|)
    && var r := requests[s.order[k]];
       r.write == write ==>
         s.threads[s.order[k]] ==
           Returned(NoneBelow(Reserved(Unpack(word), epoch, requests, s.order[..k], write), Num(r.tid)))
  }

  lemma {:induction false} RefusedBySmaller(run: seq<State>, word: bv64, epoch: bv64, requests: seq<Request>,
          write: bool, i: nat, k: nat)
    requires IsRun(run, word, epoch, requests) && ValidSetting(word, epoch, requests) && i < |run| && k < |run[i].order|
    requires !Mixed(requests, write)
    ensures BySmaller(run[i], word, epoch, requests, write, k)
  {
    hide IsRun, ValidSetting, Num, Unpack, Live, Reserved, Mixed;
    RefusedByLive(run, word, epoch, requests, i, k);
    LeastUnmixed(Unpack(word), epoch, requests, run[i].order[..k], write, 0);
  }

  /** With a mix a call right after one with id 0 is not refused, though 0 is smaller. */
  lemma {:induction false} NotRefused(word: bv64, epoch: bv64, requests: seq<Request>, write: bool)
    returns (run: seq<State>)
    requires ValidSetting(word, epoch, requests) && Mixed(requests, write)
    ensures IsRun(run, word, epoch, requests) && |run| > 0 && |run[|run| - 1].order| == 2
    ensures !BySmaller(run[|run| - 1], word, epoch, requests, write, 1)
  {
    hide IsRun, ValidSetting, Num, Unpack, Live, Reserved, Indexes;
    var i :| 0 <= i < |requests| && requests[i].write == write && Num(requests[i].tid) == 0;
    var j :| 0 <= j < |requests| && requests[j].write == write && Num(requests[j].tid) != 0;
    TwoIndexes(i, j, |requests|);
    run := SequentialRun(word, epoch, requests, [i, j]);
    assert run[|run| - 1].order[..1] == [i];
    RefusedByLive(run, word, epoch, requests, |run| - 1, 1);
    AfterZero(Unpack(word), epoch, requests, i);
  }

  lemma {:induction false} TwoIndexes(i: nat, j: nat, n: nat)
    requires i < n && j < n && i != j
    ensures Indexes([i, j], n)
  {
  }

  lemma {:induction false} AfterZero(f: Fields, epoch: bv64, requests: seq<Request>, i: nat)
    requires i < |requests| && Num(requests[i].tid) == 0
    ensures Live(f, epoch, requests, [i], requests[i].write) == {}
    ensures 0 in Reserved(f, epoch, requests, [i], requests[i].write)
  {
    hide Num, Current;
    ReservedMore(f, epoch, requests, [i], requests[i].write);
  }

  /** Calls are refused exactly by smaller ids that took effect before them, in every run, exactly
      when the calls of the kind do not mix the id 0 with others. */
  lemma {:induction false} RefusedExactly(word: bv64, epoch: bv64, requests: seq<Request>, write: bool)
    requires ValidSetting(word, epoch, requests)
    ensures AlwaysBySmaller(word, epoch, requests, write) <==> !Mixed(requests, write)
  {
    hide IsRun, ValidSetting, BySmaller, Mixed;
    if Mixed(requests, write) {
      var run := NotRefused(word, epoch, requests, write);
      assert !BySmaller(run[|run| - 1], word, epoch, requests, write, 1);
    } else {
      forall run: seq<State>, i, k | IsRun(run, word, epoch, requests) && 0 <= i < |run| && 0 <= k < |run[i].order|
        ensures BySmaller(run[i], word, epoch, requests, write, k)
      {
        RefusedBySmaller(run, word, epoch, requests, write, i, k);
      }
    }
  }

  /** Three writers 5, 0 and 9 on an empty word, in this order: none is refused, and the word ends
      up with the largest of them. */
  lemma {:induction false} ZeroErases() returns (run: seq<State>)
    ensures var requests := [Request(true, 5), Request(true, 0), Request(true, 9)];
            && IsRun(run, 0, 1, requests) && Complete(run[|run| - 1], requests)
            && run[|run| - 1].threads == [Returned(true), Returned(true), Returned(true)]
            && Unpack(run[|run| - 1].word).wts == 9
  {
    hide IsRun, Num, Unpack, Replay, Answer, ReserveFor;
    var requests := [Request(true, 5), Request(true, 0), Request(true, 9)];
    run := SequentialRun(0, 1, requests, [0, 1, 2]);
    EmptyWord();
    RunLinearizes(run, 0, 1, requests, |run| - 1);
    ZeroReplay(requests);
    var s, f := run[|run| - 1], Fields(0, 0, 0);
    assert Answered(s, f, 1, requests, 0) && Answered(s, f, 1, requests, 1) && Answered(s, f, 1, requests, 2);
  }

  lemma {:induction false} EmptyWord()
    ensures Unpack(0) == Fields(0, 0, 0) && Num(GetEpoch(0)) <= Num(1)
  {
    hide GetEpoch, GetRts, GetWts, Num;
    ZeroFields();
    SmallNumbers();
  }

  lemma {:induction false} ZeroReplay(requests: seq<Request>)
    requires requests == [Request(true, 5), Request(true, 0), Request(true, 9)]
    ensures var f := Fields(0, 0, 0);
            && Answer(f, 1, requests, [0, 1, 2], 0) && Answer(f, 1, requests, [0, 1, 2], 1)
            && Answer(f, 1, requests, [0, 1, 2], 2)
            && Replay(f, 1, requests, [0, 1, 2]) == Fields(1, 0, 9)
  {
    hide Num;
    SmallNumbers();
    var f := Fields(0, 0, 0);
    assert [0, 1, 2][..0] == [] && [0, 1, 2][..1] == [0] && [0, 1, 2][..2] == [0, 1];
    assert [0, 1][..1] == [0] && [0][..0] == [];
    assert Replay(f, 1, requests, [0]) == Fields(1, 0, 5);
    assert Replay(f, 1, requests, [0, 1]) == Fields(1, 0, 0);
  }

  lemma {:induction false} SmallNumbers()
    ensures Num(0) == 0 && Num(1) == 1 && Num(5) == 5 && Num(9) == 9
  {
  }

  /** The smallest id of its kind is never refused, whatever the interleaving. */
  lemma {:induction false} SmallestWins(run: seq<State>, word: bv64, epoch: bv64, requests: seq<Request>, i: nat,
          c: nat)
    requires IsRun(run, word, epoch, requests) && ValidSetting(word, epoch, requests) && i < |run| && c < |requests|
    requires |run[i].threads| == |requests| && run[i].threads[c].Returned?
    requires NoneBelow(AllReserved(Unpack(word), epoch, requests, requests[c].write), Num(requests[c].tid))
    ensures run[i].threads[c] == Returned(true)
  {
    hide IsRun, Num, Live, Reserved, AllReserved, ValidRequest, GetEpoch, GetRts, GetWts, Replay, Unpack, Answered,
        Refused;
    RunLinearizes(run, word, epoch, requests, i);
    var k :| 0 <= k < |run[i].order| && run[i].order[k] == c;
    RefusedByLive(run, word, epoch, requests, i, k);
    LiveIsReserved(Unpack(word), epoch, requests, run[i].order[..k], requests[c].write);
    WithinAll(Unpack(word), epoch, requests, run[i].order[..k], requests[c].write);
  }

  lemma {:induction false} LiveIsReserved(f: Fields, epoch: bv64, requests: seq<Request>, order: seq<nat>, write: bool)
    requires forall k :: 0 <= k < |order| ==> order[k] < |requests|
    ensures Live(f, epoch, requests, order, write) <= Reserved(f, epoch, requests, order, write)
  {
    hide Num, Current;
    if order != [] {
      LiveIsReserved(f, epoch, requests, order[..|order| - 1], write);
      ReservedMore(f, epoch, requests, order, write);
      hide Reserved;
    }
  }
}
