/** Single flight.

Every in-memory store of the repository runs a caller's function outside its
lock, after leaving a channel in a `pending` map.  A rival for the same key
parks on that channel and looks again once it is closed.  This module is the
part those stores share: who is pending, which channels are closed, and where
each call stands.

A call opens at most one channel in its life, so the channel carries the
identifier of the call that opened it.  */
module Flights {

  type CallId = nat

  /** Where a call stands between two lock-held regions. */
  datatype Phase =
    | Ready                    // about to take the lock and look
    | Parked(channel: CallId)  // waiting for the channel to be closed
    | Running                  // running the caller's function, lock dropped
    | Finished

  /** `keys` says which key each call is about; it is fixed when the call arrives. */
  datatype Flight<K(==)> = Flight(
    pending: map<K, CallId>,
    closed: set<CallId>,
    phases: map<CallId, Phase>,
    keys: map<CallId, K>)

  function Empty<K>(): Flight<K> {
    Flight(map[], {}, map[], map[])
  }

  predicate IsReady<K(==)>(f: Flight<K>, t: CallId) {
    t in f.phases && t in f.keys && f.phases[t].Ready?
  }

  predicate IsRunning<K(==)>(f: Flight<K>, t: CallId) {
    t in f.phases && t in f.keys && f.phases[t].Running?
  }

  predicate IsParked<K(==)>(f: Flight<K>, t: CallId) {
    t in f.phases && t in f.keys && f.phases[t].Parked?
  }

  predicate CanWake<K(==)>(f: Flight<K>, t: CallId) {
    IsParked(f, t) && f.phases[t].channel in f.closed
  }

  predicate CanLeave<K(==)>(f: Flight<K>, t: CallId) {
    IsReady(f, t) || IsParked(f, t)
  }

  // ---------------------------------------------------------------- steps

  function Arrive<K(==)>(f: Flight<K>, t: CallId, key: K): Flight<K>
    requires t !in f.phases
  {
    f.(phases := f.phases[t := Ready], keys := f.keys[t := key])
  }

  function Park<K(==)>(f: Flight<K>, t: CallId): Flight<K>
    requires IsReady(f, t) && f.keys[t] in f.pending
  {
    f.(phases := f.phases[t := Parked(f.pending[f.keys[t]])])
  }

  function Wake<K(==)>(f: Flight<K>, t: CallId): Flight<K>
    requires CanWake(f, t)
  {
    f.(phases := f.phases[t := Ready])
  }

  function Begin<K(==)>(f: Flight<K>, t: CallId): Flight<K>
    requires IsReady(f, t) && f.keys[t] !in f.pending
  {
    f.(pending := f.pending[f.keys[t] := t], phases := f.phases[t := Running])
  }

  /** The second lock-held region: drop the pending entry and close the channel. */
  function Finish<K(==)>(f: Flight<K>, t: CallId): Flight<K>
    requires IsRunning(f, t)
  {
    f.(pending := f.pending - {f.keys[t]}, closed := f.closed + {t}, phases := f.phases[t := Finished])
  }

  /** An answer found under the lock, or a cancelled context. */
  function Leave<K(==)>(f: Flight<K>, t: CallId): Flight<K>
    requires CanLeave(f, t)
  {
    f.(phases := f.phases[t := Finished])
  }

  /** One step of call `t`, whatever the store decides under the lock. */
  predicate Step<K(==)>(f: Flight<K>, g: Flight<K>, t: CallId) {
    || (CanWake(f, t) && g == Wake(f, t))
    || (CanLeave(f, t) && g == Leave(f, t))
    || (IsReady(f, t) && f.keys[t] in f.pending && g == Park(f, t))
    || (IsReady(f, t) && f.keys[t] !in f.pending && g == Begin(f, t))
    || (IsRunning(f, t) && g == Finish(f, t))
  }

  // ------------------------------------------------------------ invariant

  ghost predicate Inv<K(!new)>(f: Flight<K>) {
    && f.phases.Keys == f.keys.Keys
    // A pending key has a live executor, and it is the only one.
    && (forall k :: k in f.pending ==> IsRunning(f, f.pending[k]) && f.keys[f.pending[k]] == k)
    && (forall t :: IsRunning(f, t) ==> f.keys[t] in f.pending && f.pending[f.keys[t]] == t)
    // A parked call waits on a closed channel or on a pending one.
    && (forall t :: IsParked(f, t) ==>
          || f.phases[t].channel in f.closed
          || (f.keys[t] in f.pending && f.pending[f.keys[t]] == f.phases[t].channel))
    // Only finished calls have closed their channel.
    && (forall t :: t in f.closed ==> t in f.phases && f.phases[t].Finished?)
  }

  lemma EmptyInv<K(!new)>()
    ensures Inv(Empty<K>())
  {
  }

  lemma ArriveKeepsInv<K(!new)>(f: Flight<K>, t: CallId, key: K)
    requires Inv(f) && t !in f.phases
    ensures Inv(Arrive(f, t, key))
  {
    var g := Arrive(f, t, key);
    forall k | k in g.pending ensures IsRunning(g, g.pending[k]) && g.keys[g.pending[k]] == k {
      assert IsRunning(f, f.pending[k]);
    }
  }

  lemma StepKeepsInv<K(!new)>(f: Flight<K>, g: Flight<K>, t: CallId)
    requires Inv(f) && Step(f, g, t)
    ensures Inv(g) && g.keys == f.keys
  {
    forall k | k in g.pending ensures IsRunning(g, g.pending[k]) && g.keys[g.pending[k]] == k {
      if k in f.pending { assert IsRunning(f, f.pending[k]); }
    }
    forall u | IsRunning(g, u) ensures g.keys[u] in g.pending && g.pending[g.keys[u]] == u {
      if u != t { assert IsRunning(f, u); }
    }
    forall u | IsParked(g, u)
      ensures g.phases[u].channel in g.closed || (g.keys[u] in g.pending && g.pending[g.keys[u]] == g.phases[u].channel)
    {
      if u != t { assert IsParked(f, u); }
    }
  }

  /** At most one execution per key at any time. */
  lemma SingleFlight<K(!new)>(f: Flight<K>, t: CallId, u: CallId)
    requires Inv(f) && IsRunning(f, t) && IsRunning(f, u) && f.keys[t] == f.keys[u]
    ensures t == u
  {
  }

  /** No waiter is lost: the channel a parked call holds is closed, or it is the
      one of a call that is running for the very key the waiter wants. */
  lemma NoLostWaiter<K(!new)>(f: Flight<K>, t: CallId)
    requires Inv(f) && IsParked(f, t)
    ensures CanWake(f, t) || (IsRunning(f, f.phases[t].channel) && f.keys[f.phases[t].channel] == f.keys[t])
  {
  }

  // -------------------------------------------------------- every call ends

  function Unfinished<K>(f: Flight<K>): set<CallId> {
    set t | t in f.phases && !f.phases[t].Finished?
  }

  function ReadyCalls<K>(f: Flight<K>): set<CallId> {
    set t | t in f.phases && f.phases[t].Ready?
  }

  function Wakeable<K>(f: Flight<K>): set<CallId> {
    set t | t in f.phases && f.phases[t].Parked? && f.phases[t].channel in f.closed
  }

  /** How many steps the calls present in `f` can still take, whatever the
      scheduler does: the unfinished calls weigh more than the rest together. */
  function Budget<K>(f: Flight<K>): nat {
    var n := |Unfinished(f)|;
    n * (2 * |f.phases| + 1) + 2 * |Wakeable(f)| + |ReadyCalls(f)|
  }

  lemma BudgetBounds<K(!new)>(f: Flight<K>)
    ensures |Unfinished(f)| <= |f.phases|
    ensures |Wakeable(f)| + |ReadyCalls(f)| <= |Unfinished(f)|
  {
    SubsetSize(Unfinished(f), f.phases.Keys);
    assert Wakeable(f) !! ReadyCalls(f);
    SubsetSize(Wakeable(f) + ReadyCalls(f), Unfinished(f));
  }

  lemma SubsetSize<T>(a: set<T>, b: set<T>)
    requires a <= b
    ensures |a| <= |b|
  {
    assert b == a + (b - a);
  }

  lemma FinishingPays(n: nat, p: nat, rest: nat)
    requires n < p && rest <= 2 * n
    ensures n * (2 * p + 1) + rest < (n + 1) * (2 * p + 1)
  {
    assert (n + 1) * (2 * p + 1) == n * (2 * p + 1) + (2 * p + 1);
  }

  lemma FinishSpends<K(!new)>(f: Flight<K>, g: Flight<K>, t: CallId)
    requires t in f.phases && !f.phases[t].Finished? && g.phases == f.phases[t := Finished]
    ensures Budget(g) < Budget(f)
  {
    assert g.phases.Keys == f.phases.Keys;
    assert |g.phases| == |g.phases.Keys| && |f.phases| == |f.phases.Keys|;
    assert Unfinished(f) == Unfinished(g) + {t};
    BudgetBounds(f);
    BudgetBounds(g);
    FinishingPays(|Unfinished(g)|, |f.phases|, 2 * |Wakeable(g)| + |ReadyCalls(g)|);
  }

  lemma MoveSpends<K(!new)>(f: Flight<K>, g: Flight<K>, t: CallId, p: Phase)
    requires t in f.phases && g.closed == f.closed
    requires !f.phases[t].Finished? && !p.Finished? && g.phases == f.phases[t := p]
    requires (t in Wakeable(f) && t in ReadyCalls(g)) || (t in ReadyCalls(f) && t !in Wakeable(g) + ReadyCalls(g))
    ensures Budget(g) < Budget(f)
  {
    assert g.phases.Keys == f.phases.Keys;
    assert |g.phases| == |g.phases.Keys| && |f.phases| == |f.phases.Keys|;
    assert Unfinished(g) == Unfinished(f);
    if t in Wakeable(f) {
      assert Wakeable(f) == Wakeable(g) + {t};
      assert ReadyCalls(g) == ReadyCalls(f) + {t};
    } else {
      assert ReadyCalls(f) == ReadyCalls(g) + {t};
      assert Wakeable(g) == Wakeable(f);
    }
  }

  /** Every step of a present call spends budget, so nobody spins: a woken waiter
      looks again, and parks again only behind another live execution. */
  lemma StepSpends<K(!new)>(f: Flight<K>, g: Flight<K>, t: CallId)
    requires Inv(f) && Step(f, g, t)
    ensures Budget(g) < Budget(f)
  {
    if g.phases[t].Finished? {
      FinishSpends(f, g, t);
    } else {
      if g.phases[t].Parked? {
        assert IsRunning(f, f.pending[f.keys[t]]);
      }
      MoveSpends(f, g, t, g.phases[t]);
    }
  }

  ghost predicate Moves<K(!new)>(f: Flight<K>, g: Flight<K>) {
    exists t :: Step(f, g, t)
  }

  ghost predicate CanMove<K>(f: Flight<K>, t: CallId) {
    t in f.phases && (f.phases[t].Ready? || f.phases[t].Running? || CanWake(f, t))
  }

  /** A run of the calls present in its first state, with no new arrival. */
  ghost predicate Interleaving<K(!new)>(run: seq<Flight<K>>) {
    && run != []
    && forall i :: 0 <= i < |run| - 1 ==> Moves(run[i], run[i + 1])
  }

  lemma SomeCallCanMove<K(!new)>(f: Flight<K>)
    requires Inv(f) && Unfinished(f) != {}
    ensures exists t :: CanMove(f, t)
  {
    var t :| t in Unfinished(f);
    if !CanMove(f, t) {
      NoLostWaiter(f, t);
      assert CanMove(f, f.phases[t].channel);
    }
  }

  /** Liveness under every scheduler: an interleaving is finite and no longer than
      the budget, and while some call is unfinished some call can still move
      without being cancelled.  So every maximal interleaving ends with every
      call finished. */
  lemma {:induction false} EveryCallEnds<K(!new)>(run: seq<Flight<K>>)
    requires Interleaving(run) && Inv(run[0])
    ensures var last := run[|run| - 1];
            && Inv(last)
            && |run| - 1 + Budget(last) <= Budget(run[0])
            && (Unfinished(last) != {} ==> exists t :: CanMove(last, t))
  {
    var n := |run| - 1;
    var last := run[n];
    if n > 0 {
      EveryCallEnds(run[..n]);
      assert Moves(run[n - 1], run[n - 1 + 1]);
      var t :| Step(run[n - 1], last, t);
      StepKeepsInv(run[n - 1], last, t);
      StepSpends(run[n - 1], last, t);
    }
    if Unfinished(last) != {} {
      SomeCallCanMove(last);
    }
  }
}
