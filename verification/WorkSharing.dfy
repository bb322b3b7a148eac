/**
 * Any number of threads on one synchronizer, interleaved at their critical sections. The discipline
 * is that only a thread holding a pledge writes or makes another one, and that a thread gets only
 * when it holds none; work_while and the result reader keep it.
 */
module WorkSharing {
  import opened Prelude
  import opened Synchronizer

  datatype Phase =
    | Running
    | Waiting(pledge: bool)   // on the condition variable, not notified
    | Woken(pledge: bool)     // about to try again, notified or not
    | Finished

  /** held counts the pledges the thread opened; job is the item its handler is working on. */
  datatype Thread<T> = Thread(phase: Phase, held: nat, job: Option<T>)

  /**
   * written, handed and finished are history: all items written, handed out by get, and done with. ended
   * says some get has returned nothing.
   */
  datatype World<T> = World(
    shared: Shared<T>, threads: seq<Thread<T>>,
    written: multiset<T>, handed: multiset<T>, finished: multiset<T>, ended: bool)

  datatype Action<T> =
    | Get(t: nat, pledge: bool, position: nat)
    | Write(t: nat, v: T, woken: Option<nat>)
    | MakePledge(t: nat)
    | EndPledge(t: nat)
    | Fail(t: nat)
    | SpuriousWake(t: nat)

  function WakeUp<T>(th: Thread<T>): Thread<T> {
    if th.phase.Waiting? then th.(phase := Woken(th.phase.pledge)) else th
  }

  function WakeAll<T>(ths: seq<Thread<T>>): (r: seq<Thread<T>>)
    ensures |r| == |ths|
    ensures forall k {:trigger r[k]} :: 0 <= k < |ths| ==> r[k] == WakeUp(ths[k])
  {
    seq(|ths|, k requires 0 <= k < |ths| => WakeUp(ths[k]))
  }

  /** What the condition variable does to the threads waiting on it; a signal wakes the one chosen. */
  function Notify<T>(ths: seq<Thread<T>>, wake: Wake, chosen: Option<nat>): seq<Thread<T>> {
    match wake
    case Nobody => ths
    case One => if chosen.Some? && chosen.value < |ths| then ths[chosen.value := WakeUp(ths[chosen.value])] else ths
    case Everybody => WakeAll(ths)
  }

  predicate MayGet<T>(th: Thread<T>, pledge: bool) {
    th.held == 0 && (th.phase.Running? || th.phase == Woken(pledge))
  }

  /** A signal wakes one waiting thread, whichever, if there is one. */
  predicate SignalChoice<T>(ths: seq<Thread<T>>, woken: Option<nat>) {
    match woken
    case Some(k) => k < |ths| && ths[k].phase.Waiting?
    case None => forall k :: 0 <= k < |ths| ==> !ths[k].phase.Waiting?
  }

  ghost predicate Enabled<T>(w: World<T>, a: Action<T>) {
    a.t < |w.threads| &&
    var th := w.threads[a.t];
    match a
    case Get(_, pledge, position) => MayGet(th, pledge) && (w.shared.queue != [] ==> position < |w.shared.queue|)
    case Write(_, _, woken) => th.phase.Running? && th.held > 0 && SignalChoice(w.threads, woken)
    case MakePledge(_) => th.phase.Running? && th.held > 0
    case EndPledge(_) => th.phase.Running? && th.held > 0
    case Fail(_) => th.phase.Running?
    case SpuriousWake(_) => th.phase.Waiting?
  }

  function Items<T>(j: Option<T>): multiset<T> {
    if j.Some? then multiset{j.value} else multiset{}
  }

  function Perform<T>(w: World<T>, a: Action<T>): World<T>
    requires Enabled(w, a)
  {
    var th := w.threads[a.t];
    match a
    case Get(t, pledge, position) =>
      var (shared, got, wake) := Attempt(w.shared, position, pledge);
      var ths := Notify(w.threads, wake, None);
      (match got
       case Item(v) =>
         // a pledging get starts a handler, any other one is done with the item
         w.(shared := shared,
            threads := ths[t := if pledge then Thread(Running, 1, Some(v)) else Thread(Running, 0, None)],
            handed := w.handed + multiset{v},
            finished := if pledge then w.finished else w.finished + multiset{v})
       case Ended => w.(shared := shared, threads := ths[t := th.(phase := Finished)], ended := true)
       case MustWait => w.(shared := shared, threads := ths[t := th.(phase := Waiting(pledge))]))
    case Write(_, v, woken) =>
      var (shared, wake) := Written(w.shared, v);
      w.(shared := shared, threads := Notify(w.threads, wake, woken), written := w.written + multiset{v})
    case MakePledge(t) => w.(shared := Pledged(w.shared), threads := w.threads[t := th.(held := th.held + 1)])
    case EndPledge(t) =>
      var (shared, wake) := Unpledged(w.shared);
      var ths := Notify(w.threads, wake, None);
      // the last pledge closes the handler
      if th.held == 1
      then w.(shared := shared, threads := ths[t := Thread(Running, 0, None)], finished := w.finished + Items(th.job))
      else w.(shared := shared, threads := ths[t := th.(held := th.held - 1)])
    case Fail(t) =>
      // the failing thread dies with its pledges open
      var (shared, wake) := Failed(w.shared);
      w.(shared := shared, threads := Notify(w.threads, wake, None)[t := th.(phase := Finished)])
    case SpuriousWake(t) => w.(threads := w.threads[t := WakeUp(th)])
  }

  /** Threads about to start, the tasks and pledges made for them in place. */
  ghost predicate Init<T>(w: World<T>) {
    && !w.shared.closed && !w.ended
    && (forall th <- w.threads :: th.phase.Running? && th.job.None?)
    && w.shared.pledges == Held(w.threads)
    && w.written == multiset(w.shared.queue) && w.handed == w.finished == multiset{}
  }

  // ---------------------------------------------------------------- totals over threads

  function Held<T>(ths: seq<Thread<T>>): nat {
    if ths == [] then 0 else ths[0].held + Held(ths[1..])
  }

  function Jobs<T>(ths: seq<Thread<T>>): multiset<T> {
    if ths == [] then multiset{} else Items(ths[0].job) + Jobs(ths[1..])
  }

  lemma {:induction false} HeldUpdate<T>(ths: seq<Thread<T>>, k: nat, th: Thread<T>)
    requires k < |ths|
    ensures Held(ths[k := th]) + ths[k].held == Held(ths) + th.held
  {
    assert ths[k := th][1..] == if k == 0 then ths[1..] else ths[1..][k - 1 := th];
    if k > 0 { HeldUpdate(ths[1..], k - 1, th); }
  }

  lemma Swap<T>(x: multiset<T>, r: multiset<T>, r': multiset<T>, i: multiset<T>, j: multiset<T>)
    requires r' + i == r + j
    ensures (x + r') + i == (x + r) + j
  {
    assert (x + r') + i == x + (r' + i);
  }

  lemma SwapEnds<T>(i: multiset<T>, r: multiset<T>, j: multiset<T>)
    ensures (j + r) + i == (i + r) + j
  {
  }

  lemma Cancel<T>(r: multiset<T>, r': multiset<T>, i: multiset<T>)
    requires r' + i == r + i
    ensures r' == r
  {
    forall x ensures r'[x] == r[x] { assert (r' + i)[x] == (r + i)[x]; }
  }

  lemma {:induction false} JobsUpdate<T>(ths: seq<Thread<T>>, k: nat, th: Thread<T>)
    requires k < |ths|
    ensures Jobs(ths[k := th]) + Items(ths[k].job) == Jobs(ths) + Items(th.job)
  {
    var ths' := ths[k := th];
    if k == 0 {
      assert ths'[1..] == ths[1..];
      hide Items;
      SwapEnds(Items(ths[0].job), Jobs(ths[1..]), Items(th.job));
    } else {
      assert ths'[1..] == ths[1..][k - 1 := th] && ths'[0] == ths[0] && ths[1..][k - 1] == ths[k];
      hide Items;
      JobsUpdate(ths[1..], k - 1, th);
      Swap(Items(ths[0].job), Jobs(ths[1..]), Jobs(ths'[1..]), Items(ths[k].job), Items(th.job));
    }
  }

  lemma TotalsUpdate<T>(ths: seq<Thread<T>>, k: nat, th: Thread<T>)
    requires k < |ths|
    ensures Held(ths[k := th]) == Held(ths) + th.held - ths[k].held
    ensures Jobs(ths[k := th]) + Items(ths[k].job) == Jobs(ths) + Items(th.job)
    ensures ths[k].job == th.job ==> Jobs(ths[k := th]) == Jobs(ths)
    ensures ths[k].job.None? ==> Jobs(ths[k := th]) == Jobs(ths) + Items(th.job)
  {
    HeldUpdate(ths, k, th);
    JobsUpdate(ths, k, th);
    if ths[k].job == th.job { Cancel(Jobs(ths), Jobs(ths[k := th]), Items(th.job)); }
    if ths[k].job.None? { assert Jobs(ths[k := th]) + multiset{} == Jobs(ths[k := th]); }
  }

  lemma {:induction false} TotalsWake<T>(ths: seq<Thread<T>>)
    ensures Held(WakeAll(ths)) == Held(ths) && Jobs(WakeAll(ths)) == Jobs(ths)
  {
    if ths != [] {
      TotalsWake(ths[1..]);
      assert WakeAll(ths)[1..] == WakeAll(ths[1..]);
    }
  }

  lemma {:induction false} SomeoneHolds<T>(ths: seq<Thread<T>>) returns (k: nat)
    requires Held(ths) > 0
    ensures k < |ths| && ths[k].held > 0
  {
    if ths[0].held > 0 { k := 0; } else { k := SomeoneHolds(ths[1..]); k := k + 1; }
  }

  lemma {:induction false} NobodyWorks<T>(ths: seq<Thread<T>>)
    requires forall th <- ths :: th.job.None?
    ensures Jobs(ths) == multiset{}
  {
    if ths != [] { NobodyWorks(ths[1..]); }
  }

  // ---------------------------------------------------------------- the invariant

  ghost predicate ThreadOk<T>(shared: Shared<T>, ended: bool, th: Thread<T>) {
    && (th.job.Some? ==> th.held > 0)
    && (th.held > 0 ==> th.phase.Running? || (th.phase.Finished? && shared.closed))
    && (th.phase.Waiting? ==> shared.pledges > 0 && !shared.closed)
    && (th.phase.Finished? ==> ended || shared.closed)
  }

  /**
   * Every pledge counted belongs to a thread, and every item written is in the queue, with a handler or
   * done with, once.
   */
  ghost predicate Accounted<T>(w: World<T>) {
    && w.shared.pledges == Held(w.threads)
    && w.written == multiset(w.shared.queue) + w.handed
    && w.handed == w.finished + Jobs(w.threads)
  }

  ghost predicate ThreadsOk<T>(w: World<T>) {
    forall k :: 0 <= k < |w.threads| ==> ThreadOk(w.shared, w.ended, w.threads[k])
  }

  /** Once a get has returned nothing, and nobody failed, all is quiet. */
  ghost predicate Quiet<T>(w: World<T>) {
    w.ended && !w.shared.closed ==> w.shared.queue == [] && w.shared.pledges == 0
  }

  ghost predicate Inv<T>(w: World<T>) {
    Accounted(w) && ThreadsOk(w) && Quiet(w)
  }

  lemma InitInv<T>(w: World<T>)
    requires Init(w)
    ensures Inv(w)
  {
    NobodyWorks(w.threads);
    assert forall k :: 0 <= k < |w.threads| ==> w.threads[k] in w.threads;
  }

  lemma TakeItem<T>(queue: seq<T>, position: nat)
    requires position < |queue|
    ensures multiset(Without(queue, position)) + multiset{queue[position]} == multiset(queue)
  {
    assert queue == queue[..position] + [queue[position]] + queue[position + 1..];
  }

  lemma {:induction false} HoldingCounts<T>(ths: seq<Thread<T>>, k: nat)
    requires k < |ths|
    ensures Held(ths) >= ths[k].held
  {
    if k > 0 { HoldingCounts(ths[1..], k - 1); }
  }

  lemma HandOut<T>(q: multiset<T>, q': multiset<T>, h: multiset<T>, f: multiset<T>, j: multiset<T>, v: multiset<T>)
    requires q' + v == q && h == f + j
    ensures q + h == q' + (h + v) && h + v == f + (j + v) == (f + v) + j
  {
    assert q' + v + h == q' + (h + v);
  }

  lemma Finish<T>(h: multiset<T>, f: multiset<T>, j: multiset<T>, j': multiset<T>, i: multiset<T>)
    requires h == f + j && j' + i == j
    ensures h == (f + i) + j'
  {
  }

  lemma ItemAccounts<T>(w: World<T>, a: Action<T>)
    requires Accounted(w) && Enabled(w, a) && a.Get? && w.threads[a.t].job.None? && w.shared.queue != []
    ensures Accounted(Perform(w, a))
  {
    hide Held, Jobs, Without, SignalChoice;
    var v := w.shared.queue[a.position];
    var th' := if a.pledge then Thread(Running, 1, Some(v)) else Thread(Running, 0, None);
    var queue' := Without(w.shared.queue, a.position);
    var w' := Perform(w, a);
    assert w'.threads == w.threads[a.t := th'] && w'.shared.queue == queue';
    assert w'.written == w.written && w'.handed == w.handed + multiset{v};
    assert w'.finished == if a.pledge then w.finished else w.finished + multiset{v};
    assert w'.shared.pledges == w.shared.pledges + th'.held;
    hide Perform, Enabled;
    TotalsUpdate(w.threads, a.t, th');
    TakeItem(w.shared.queue, a.position);
    HandOut(multiset(w.shared.queue), multiset(queue'), w.handed, w.finished, Jobs(w.threads), multiset{v});
    assert Jobs(w'.threads) == if a.pledge then Jobs(w.threads) + multiset{v} else Jobs(w.threads);
  }

  /** Threads changed only in their phases. */
  lemma PhasesAccount<T>(w: World<T>, w': World<T>, k: nat, th: Thread<T>, woken: bool)
    requires Accounted(w) && k < |w.threads| && th.held == w.threads[k].held && th.job == w.threads[k].job
    requires w'.threads == (if woken then WakeAll(w.threads) else w.threads)[k := th]
    requires w'.shared.pledges == w.shared.pledges && w'.shared.queue == w.shared.queue
    requires (w'.written, w'.handed, w'.finished) == (w.written, w.handed, w.finished)
    ensures Accounted(w')
  {
    hide Held, Jobs;
    TotalsWake(w.threads);
    var ths := if woken then WakeAll(w.threads) else w.threads;
    assert ths[k].held == th.held && ths[k].job == th.job;
    TotalsUpdate(ths, k, th);
  }

  lemma GetAccounts<T>(w: World<T>, a: Action<T>)
    requires Accounted(w) && Enabled(w, a) && a.Get? && w.threads[a.t].job.None?
    ensures Accounted(Perform(w, a))
  {
    if w.shared.queue != [] {
      ItemAccounts(w, a);
    } else {
      hide Held, Jobs, Accounted;
      var ended := w.shared.pledges == 0 || w.shared.closed;
      PhasesAccount(w, Perform(w, a), a.t, w.threads[a.t].(phase := if ended then Finished else Waiting(a.pledge)),
        ended);
    }
  }

  lemma WriteAccounts<T>(w: World<T>, a: Action<T>)
    requires Accounted(w) && Enabled(w, a) && a.Write?
    ensures Accounted(Perform(w, a))
  {
    hide Held, Jobs;
    if a.woken.Some? { TotalsUpdate(w.threads, a.woken.value, WakeUp(w.threads[a.woken.value])); }
  }

  lemma EndPledgeAccounts<T>(w: World<T>, a: Action<T>)
    requires Accounted(w) && Enabled(w, a) && a.EndPledge?
    ensures Accounted(Perform(w, a))
  {
    hide Held, Jobs, Without, SignalChoice;
    var th := w.threads[a.t];
    var th' := if th.held == 1 then Thread(Running, 0, None) else th.(held := th.held - 1);
    TotalsWake(w.threads);
    var ths := if w.shared.pledges == 1 then WakeAll(w.threads) else w.threads;
    assert ths[a.t] == th && Jobs(ths) == Jobs(w.threads);
    var w' := Perform(w, a);
    assert w'.threads == ths[a.t := th'];
    hide Perform;
    TotalsUpdate(ths, a.t, th');
    if th.held == 1 { HandlerEnds(w, ths, w', a.t); }
  }

  lemma HandlerEnds<T>(w: World<T>, ths: seq<Thread<T>>, w': World<T>, t: nat)
    requires t < |ths| && Jobs(w'.threads) + Items(ths[t].job) == Jobs(w.threads) + multiset{}
    requires w.handed == w.finished + Jobs(w.threads)
    ensures w.handed == (w.finished + Items(ths[t].job)) + Jobs(w'.threads)
  {
    hide Jobs, Items;
    assert Jobs(w.threads) + multiset{} == Jobs(w.threads);
    Finish(w.handed, w.finished, Jobs(w.threads), Jobs(w'.threads), Items(ths[t].job));
  }

  lemma OtherAccounts<T>(w: World<T>, a: Action<T>)
    requires Accounted(w) && Enabled(w, a) && (a.MakePledge? || a.Fail? || a.SpuriousWake?)
    ensures Accounted(Perform(w, a))
  {
    hide Held, Jobs;
    var th := w.threads[a.t];
    match a
    case MakePledge(_) => TotalsUpdate(w.threads, a.t, th.(held := th.held + 1));
    case Fail(_) => hide Accounted; PhasesAccount(w, Perform(w, a), a.t, th.(phase := Finished), true);
    case SpuriousWake(_) => hide Accounted; PhasesAccount(w, Perform(w, a), a.t, WakeUp(th), false);
  }

  /** A get that returns nothing. */
  ghost predicate ReturnsNothing<T>(w: World<T>, a: Action<T>) {
    a.Get? && w.shared.queue == [] && (w.shared.pledges == 0 || w.shared.closed)
  }

  /**
   * Who is notified by a step: everybody by a get that returns nothing, by the end of the last pledge and by a
   * failure, the thread chosen by a write, nobody otherwise.
   */
  ghost predicate Notified<T>(w: World<T>, a: Action<T>, k: nat) {
    || ReturnsNothing(w, a)
    || (a.EndPledge? && w.shared.pledges == 1)
    || a.Fail?
    || (a.Write? && a.woken == Some(k))
  }

  /** The threads other than the one acting: those notified wake up if they wait; nothing else happens to any. */
  lemma OthersWoken<T>(w: World<T>, a: Action<T>, k: nat)
    requires Enabled(w, a) && k < |w.threads| && k != a.t
    ensures var w' := Perform(w, a);
      && |w'.threads| == |w.threads|
      && w'.threads[k] == if Notified(w, a, k) then WakeUp(w.threads[k]) else w.threads[k]
  {
    hide Without;
    if a.Get? { OthersWokenByGet(w, a, k); }
    else if a.EndPledge? || a.Fail? { assert WakeAll(w.threads)[k] == WakeUp(w.threads[k]); }
  }

  lemma OthersWokenByGet<T>(w: World<T>, a: Action<T>, k: nat)
    requires Enabled(w, a) && k < |w.threads| && k != a.t && a.Get?
    ensures var w' := Perform(w, a);
      && |w'.threads| == |w.threads|
      && w'.threads[k] == if ReturnsNothing(w, a) then WakeUp(w.threads[k]) else w.threads[k]
  {
    hide Without;
  }

  /** A write while somebody waits wakes one waiting thread, and touches no other. */
  lemma WriteWakesOne<T>(w: World<T>, a: Action<T>, waiter: nat) returns (k: nat)
    requires Enabled(w, a) && a.Write? && waiter < |w.threads| && w.threads[waiter].phase.Waiting?
    ensures k < |w.threads| && w.threads[k].phase.Waiting?
    ensures Perform(w, a).threads == w.threads[k := w.threads[k].(phase := Woken(w.threads[k].phase.pledge))]
    ensures Perform(w, a).shared == w.shared.(queue := w.shared.queue + [a.v])
  {
    k := a.woken.value;
  }

  /** After a failure, a get that returned nothing, or the end of the last pledge nobody waits. */
  lemma BroadcastWakesAll<T>(w: World<T>, a: Action<T>, k: nat)
    requires Enabled(w, a) && k < |w.threads|
    requires a.Fail? || ReturnsNothing(w, a) || (a.EndPledge? && w.shared.pledges == 1)
    ensures |Perform(w, a).threads| == |w.threads| && !Perform(w, a).threads[k].phase.Waiting?
  {
    if k != a.t { OthersWoken(w, a, k); }
  }

  /**
   * What a get does: with items in the store it takes one, and with a pledge starts a handler on it; with none
   * it returns nothing when no pledge is open or somebody failed; and waits otherwise.
   */
  lemma GetDoes<T>(w: World<T>, a: Action<T>)
    requires Enabled(w, a) && a.Get?
    ensures var s, s', th, th' := w.shared, Perform(w, a).shared, w.threads[a.t], Perform(w, a).threads[a.t];
      if s.queue != [] then
        && s'.queue == s.queue[..a.position] + s.queue[a.position + 1..] && s'.closed == s.closed
        && s'.pledges == (if a.pledge then s.pledges + 1 else s.pledges)
        && th' == if a.pledge then Thread(Running, 1, Some(s.queue[a.position])) else Thread(Running, 0, None)
      else
        && s' == s && th'.held == th.held && th'.job == th.job
        && th'.phase == if s.pledges == 0 || s.closed then Finished else Waiting(a.pledge)
  {
  }

  lemma ThreadKept<T>(w: World<T>, a: Action<T>, k: nat)
    requires Inv(w) && Enabled(w, a) && k < |w.threads|
    ensures var w' := Perform(w, a); |w'.threads| == |w.threads| && ThreadOk(w'.shared, w'.ended, w'.threads[k])
  {
    HoldingCounts(w.threads, a.t);
    assert ThreadOk(w.shared, w.ended, w.threads[k]);
    if k != a.t {
      OthersWoken(w, a, k);
      PledgesStep(w, a);
    } else {
      ActorKept(w, a);
    }
  }

  lemma PledgesStep<T>(w: World<T>, a: Action<T>)
    requires Enabled(w, a) && w.shared.pledges >= w.threads[a.t].held
    ensures var s, s' := w.shared, Perform(w, a).shared;
      && (s.closed ==> s'.closed) && (w.ended ==> Perform(w, a).ended)
      && s'.pledges >= s.pledges - 1 && (s'.pledges < s.pledges ==> a.EndPledge?)
      && (s'.closed && !s.closed ==> a.Fail?)
  {
  }

  ghost predicate ActorOk<T>(w: World<T>, a: Action<T>)
    requires Enabled(w, a)
  {
    var w' := Perform(w, a);
    |w'.threads| == |w.threads| && ThreadOk(w'.shared, w'.ended, w'.threads[a.t])
  }

  lemma ActorKept<T>(w: World<T>, a: Action<T>)
    requires Enabled(w, a) && ThreadOk(w.shared, w.ended, w.threads[a.t]) && w.shared.pledges >= w.threads[a.t].held
    ensures ActorOk(w, a)
  {
    if a.Get? { ActorKeptByGet(w, a); }
    else if a.EndPledge? { ActorKeptByEnd(w, a); }
    else { ActorKeptOtherwise(w, a); }
  }

  lemma ActorKeptByGet<T>(w: World<T>, a: Action<T>)
    requires Enabled(w, a) && ThreadOk(w.shared, w.ended, w.threads[a.t]) && a.Get?
    requires w.shared.pledges >= w.threads[a.t].held
    ensures ActorOk(w, a)
  {
    hide Without, SignalChoice;
  }

  lemma ActorKeptByEnd<T>(w: World<T>, a: Action<T>)
    requires Enabled(w, a) && ThreadOk(w.shared, w.ended, w.threads[a.t]) && a.EndPledge?
    requires w.shared.pledges >= w.threads[a.t].held
    ensures ActorOk(w, a)
  {
    hide Without, SignalChoice;
  }

  lemma ActorKeptOtherwise<T>(w: World<T>, a: Action<T>)
    requires Enabled(w, a) && ThreadOk(w.shared, w.ended, w.threads[a.t]) && !a.Get? && !a.EndPledge?
    requires w.shared.pledges >= w.threads[a.t].held
    ensures ActorOk(w, a)
  {
    hide Without;
  }

  lemma QuietKept<T>(w: World<T>, a: Action<T>)
    requires Inv(w) && Enabled(w, a)
    ensures Quiet(Perform(w, a))
  {
    HoldingCounts(w.threads, a.t);
  }

  lemma PerformKeepsInv<T>(w: World<T>, a: Action<T>)
    requires Inv(w) && Enabled(w, a)
    ensures Inv(Perform(w, a))
  {
    assert Accounted(Perform(w, a)) by {
      assert ThreadOk(w.shared, w.ended, w.threads[a.t]);
      if a.Get? { GetAccounts(w, a); } else if a.Write? { WriteAccounts(w, a); }
      else if a.EndPledge? { EndPledgeAccounts(w, a); } else { OtherAccounts(w, a); }
    }
    QuietKept(w, a);
    hide Inv, Perform, ThreadOk, Accounted, Quiet;
    assert |Perform(w, a).threads| == |w.threads| || w.threads == [] by { ThreadKept(w, a, a.t); }
    forall k | 0 <= k < |Perform(w, a).threads|
      ensures ThreadOk(Perform(w, a).shared, Perform(w, a).ended, Perform(w, a).threads[k])
    {
      ThreadKept(w, a, k);
    }
    InvFrom(Perform(w, a));
  }

  lemma InvFrom<T>(w: World<T>)
    requires Accounted(w) && ThreadsOk(w) && Quiet(w)
    ensures Inv(w)
  {
  }

  // ---------------------------------------------------------------- runs

  /** A finite run: a state and an action for each step. */
  ghost predicate Run<T>(ws: seq<World<T>>, acts: seq<Action<T>>) {
    && |ws| == |acts| + 1 && Init(ws[0])
    && forall k :: 0 <= k < |acts| ==> Enabled(ws[k], acts[k]) && ws[k + 1] == Perform(ws[k], acts[k])
  }

  lemma {:induction false} RunInv<T>(ws: seq<World<T>>, acts: seq<Action<T>>, k: nat)
    requires Run(ws, acts) && k < |ws|
    ensures Inv(ws[k])
  {
    if k == 0 {
      InitInv(ws[0]);
    } else {
      RunInv(ws, acts, k - 1);
      PerformKeepsInv(ws[k - 1], acts[k - 1]);
    }
  }

  lemma {:induction false} EndedStays<T>(ws: seq<World<T>>, acts: seq<Action<T>>, k: nat, j: nat)
    requires Run(ws, acts) && k <= j < |ws| && ws[k].ended
    ensures ws[j].ended
  {
    if k < j { EndedStays(ws, acts, k, j - 1); }
  }

  /**
   * Termination detection: from the moment a get returns nothing, as long as nobody fails, the queue
   * is empty and no pledge is open, for ever.
   */
  lemma EndIsFinal<T>(ws: seq<World<T>>, acts: seq<Action<T>>, k: nat, j: nat)
    requires Run(ws, acts) && k < |acts| && k < j < |ws|
    requires ReturnsNothing(ws[k], acts[k]) && !ws[j].shared.closed
    ensures ws[j].shared.queue == [] && ws[j].shared.pledges == 0
  {
    EndedStays(ws, acts, k + 1, j);
    RunInv(ws, acts, j);
  }

  /**
   * Exactly once: when every thread has left and nobody failed, every item ever written, with its
   * multiplicity, was handed out and its handler finished.
   */
  lemma AllWorkDone<T>(ws: seq<World<T>>, acts: seq<Action<T>>)
    requires Run(ws, acts)
    requires var w := ws[|acts|];
      && w.threads != [] && !w.shared.closed
      && forall k :: 0 <= k < |w.threads| ==> w.threads[k].phase.Finished?
    ensures ws[|acts|].written == ws[|acts|].handed == ws[|acts|].finished
  {
    var w := ws[|acts|];
    RunInv(ws, acts, |acts|);
    assert forall k :: 0 <= k < |w.threads| ==> ThreadOk(w.shared, w.ended, w.threads[k]);
    assert ThreadOk(w.shared, w.ended, w.threads[0]);
    NobodyWorks(w.threads);
  }

  /** Nothing is handed out that was not written, nor more often, at any moment. */
  lemma NothingInvented<T>(ws: seq<World<T>>, acts: seq<Action<T>>, k: nat)
    requires Run(ws, acts) && k < |ws|
    ensures ws[k].finished <= ws[k].handed <= ws[k].written
  {
    RunInv(ws, acts, k);
  }

  /** A step of the protocol itself, neither a spurious wake-up nor a failure. */
  ghost predicate Progress<T>(w: World<T>, a: Action<T>) {
    !a.SpuriousWake? && !a.Fail? && Enabled(w, a)
  }

  /**
   * No stuck state: whenever some thread waits unnotified, a pledge is open, nobody has failed, and the
   * thread holding the pledge can step.
   */
  lemma NoStuckState<T>(ws: seq<World<T>>, acts: seq<Action<T>>, k: nat, waiter: nat) returns (a: Action<T>)
    requires Run(ws, acts) && k < |ws|
    requires waiter < |ws[k].threads| && ws[k].threads[waiter].phase.Waiting?
    ensures ws[k].shared.pledges > 0 && !ws[k].shared.closed
    ensures Progress(ws[k], a) && ws[k].threads[a.t].held > 0
  {
    var w := ws[k];
    RunInv(ws, acts, k);
    assert ThreadOk(w.shared, w.ended, w.threads[waiter]);
    var t := SomeoneHolds(w.threads);
    assert ThreadOk(w.shared, w.ended, w.threads[t]);
    a := EndPledge(t);
  }

  /** A thread that has been woken, or has not started to wait, can always step. */
  lemma AwakeCanStep<T>(ws: seq<World<T>>, acts: seq<Action<T>>, k: nat, t: nat) returns (a: Action<T>)
    requires Run(ws, acts) && k < |ws|
    requires t < |ws[k].threads| && (ws[k].threads[t].phase.Running? || ws[k].threads[t].phase.Woken?)
    ensures Progress(ws[k], a) && a.t == t
  {
    var w := ws[k];
    RunInv(ws, acts, k);
    assert ThreadOk(w.shared, w.ended, w.threads[t]);
    a := if w.threads[t].held > 0 then EndPledge(t)
         else Get(t, if w.threads[t].phase.Woken? then w.threads[t].phase.pledge else true, 0);
  }

  /** A thread with a pledge open may write any item, whoever waits, and open or end a pledge; one running may fail. */
  lemma HolderMayAct<T>(w: World<T>, t: nat, v: T) returns (woken: Option<nat>)
    requires t < |w.threads| && w.threads[t].phase.Running?
    ensures w.threads[t].held > 0 ==>
      Enabled(w, Write(t, v, woken)) && Enabled(w, MakePledge(t)) && Enabled(w, EndPledge(t))
    ensures Enabled(w, Fail(t))
  {
    woken := None;
    if k: nat :| k < |w.threads| && w.threads[k].phase.Waiting? { woken := Some(k); }
  }

  /** After a failure nobody is left waiting, now or later. */
  lemma FailureWakesAll<T>(ws: seq<World<T>>, acts: seq<Action<T>>, k: nat, t: nat)
    requires Run(ws, acts) && k < |ws| && ws[k].shared.closed && t < |ws[k].threads|
    ensures !ws[k].threads[t].phase.Waiting?
  {
    RunInv(ws, acts, k);
    assert ThreadOk(ws[k].shared, ws[k].ended, ws[k].threads[t]);
  }

  // ---------------------------------------------------------------- no wake-up is lost

  /** How many threads are about to try again. */
  function Awoken<T>(ths: seq<Thread<T>>): nat {
    if ths == [] then 0 else (if ths[0].phase.Woken? then 1 else 0) + Awoken(ths[1..])
  }

  lemma {:induction false} AwokenUpdate<T>(ths: seq<Thread<T>>, k: nat, th: Thread<T>)
    requires k < |ths|
    ensures Awoken(ths[k := th]) + (if ths[k].phase.Woken? then 1 else 0)
      == Awoken(ths) + (if th.phase.Woken? then 1 else 0)
  {
    assert ths[k := th][1..] == if k == 0 then ths[1..] else ths[1..][k - 1 := th];
    if k > 0 { AwokenUpdate(ths[1..], k - 1, th); }
  }

  lemma {:induction false} SomeoneAwoken<T>(ths: seq<Thread<T>>) returns (k: nat)
    requires Awoken(ths) > 0
    ensures k < |ths| && ths[k].phase.Woken?
  {
    if ths[0].phase.Woken? { k := 0; } else { k := SomeoneAwoken(ths[1..]); k := k + 1; }
  }

  ghost predicate SomeoneWaits<T>(ths: seq<Thread<T>>) {
    exists k :: 0 <= k < |ths| && ths[k].phase.Waiting?
  }

  /** While somebody waits, there are no more items than threads about to try again. */
  ghost predicate Covered<T>(w: World<T>) {
    SomeoneWaits(w.threads) ==> |w.shared.queue| <= Awoken(w.threads)
  }

  lemma NoneWaits<T>(ths: seq<Thread<T>>)
    requires forall k :: 0 <= k < |ths| ==> !ths[k].phase.Waiting?
    ensures !SomeoneWaits(ths)
  {
  }

  lemma BroadcastCovers<T>(w: World<T>, a: Action<T>)
    requires Enabled(w, a) && (a.Fail? || ReturnsNothing(w, a) || (a.EndPledge? && w.shared.pledges == 1))
    ensures Covered(Perform(w, a))
  {
    BroadcastWakesAll(w, a, a.t);
    hide Perform, Enabled, ReturnsNothing;
    forall k | 0 <= k < |Perform(w, a).threads| ensures !Perform(w, a).threads[k].phase.Waiting? {
      BroadcastWakesAll(w, a, k);
    }
    NoneWaits(Perform(w, a).threads);
  }

  /** A step that changes one thread, which is not left waiting where it did not wait before. */
  lemma OneChangedCovers<T>(w: World<T>, w': World<T>, k: nat, th: Thread<T>)
    requires Covered(w) && k < |w.threads| && w'.threads == w.threads[k := th]
    requires th.phase.Waiting? ==> w.threads[k].phase.Waiting?
    requires |w'.shared.queue| + (if w.threads[k].phase.Woken? then 1 else 0)
      <= |w.shared.queue| + if th.phase.Woken? then 1 else 0
    ensures Covered(w')
  {
    AwokenUpdate(w.threads, k, th);
    if SomeoneWaits(w'.threads) {
      var j :| 0 <= j < |w'.threads| && w'.threads[j].phase.Waiting?;
      assert w.threads[j].phase.Waiting?;
    }
  }

  lemma WriteCovers<T>(w: World<T>, a: Action<T>)
    requires Covered(w) && Enabled(w, a) && a.Write?
    ensures Covered(Perform(w, a))
  {
    if SomeoneWaits(w.threads) {
      var waiter :| 0 <= waiter < |w.threads| && w.threads[waiter].phase.Waiting?;
      var k := WriteWakesOne(w, a, waiter);
      OneChangedCovers(w, Perform(w, a), k, w.threads[k].(phase := Woken(w.threads[k].phase.pledge)));
    } else {
      assert a.woken.None?;
    }
  }

  lemma GetCovers<T>(w: World<T>, a: Action<T>)
    requires Covered(w) && Enabled(w, a) && a.Get? && !ReturnsNothing(w, a)
    ensures Covered(Perform(w, a))
  {
    var th := Perform(w, a).threads[a.t];
    if w.shared.queue != [] { OneChangedCovers(w, Perform(w, a), a.t, th); }
  }

  lemma OtherCovers<T>(w: World<T>, a: Action<T>)
    requires Inv(w) && Covered(w) && Enabled(w, a) && !a.Get? && !a.Write?
    requires !a.Fail? && !(a.EndPledge? && w.shared.pledges == 1)
    ensures Covered(Perform(w, a))
  {
    OneChangedCovers(w, Perform(w, a), a.t, Perform(w, a).threads[a.t]);
  }

  lemma CoveredKept<T>(w: World<T>, a: Action<T>)
    requires Inv(w) && Covered(w) && Enabled(w, a)
    ensures Covered(Perform(w, a))
  {
    hide Inv, Covered, Enabled, Perform, ReturnsNothing;
    if a.Fail? || ReturnsNothing(w, a) || (a.EndPledge? && w.shared.pledges == 1) { BroadcastCovers(w, a); }
    else if a.Get? { GetCovers(w, a); }
    else if a.Write? { WriteCovers(w, a); }
    else { OtherCovers(w, a); }
  }

  lemma {:induction false} RunCovered<T>(ws: seq<World<T>>, acts: seq<Action<T>>, k: nat)
    requires Run(ws, acts) && k < |ws|
    ensures Covered(ws[k])
  {
    if k == 0 {
      assert forall j :: 0 <= j < |ws[0].threads| ==> ws[0].threads[j] in ws[0].threads;
    } else {
      RunInv(ws, acts, k - 1);
      RunCovered(ws, acts, k - 1);
      CoveredKept(ws[k - 1], acts[k - 1]);
    }
  }

  /**
   * No lost wake-up: at any moment of any run, while somebody waits, each item in the store has a thread of
   * its own about to try again; with an item there, one of them can take it.
   */
  lemma NoLostWakeUp<T>(ws: seq<World<T>>, acts: seq<Action<T>>, k: nat, waiter: nat) returns (a: Action<T>)
    requires Run(ws, acts) && k < |ws|
    requires waiter < |ws[k].threads| && ws[k].threads[waiter].phase.Waiting?
    ensures |ws[k].shared.queue| <= Awoken(ws[k].threads)
    ensures ws[k].shared.queue != [] ==>
      Enabled(ws[k], a) && a.Get? && Perform(ws[k], a).handed == ws[k].handed + multiset{ws[k].shared.queue[a.position]}
  {
    var w := ws[k];
    RunCovered(ws, acts, k);
    RunInv(ws, acts, k);
    a := SpuriousWake(waiter);
    if w.shared.queue != [] {
      var t := SomeoneAwoken(w.threads);
      assert ThreadOk(w.shared, w.ended, w.threads[t]);
      a := Get(t, w.threads[t].phase.pledge, 0);
    }
  }
}
