/** What a run of code does, as seen from the ledger, and what entries it makes there. */
module Runs {
  import opened Basics
  import opened Ledger

  datatype Callee = Precompiled(cost: nat, ok: bool) | NoCode | Code(run: Run)

  /** What a run does, in order. `Spend` is the price of instructions; the gas of a call is what the code asks for. */
  datatype Event =
    | Spend(amount: nat)
    | CallOut(receive: Address, value: nat, asked: nat, callee: Callee)
    | CreateOut(at: Address, endowment: nat, init: Option<Run>)
    | Suicide(heir: Address)
    | Refund(amount: nat)

  /** How it ends, if gas does not run out before; `size` is that of the output. */
  datatype Outcome = Halted(size: nat) | Reverted | Faulted

  datatype Run = Run(events: seq<Event>, end: Outcome)

  const MAX_ADDRESS: Address := ADDRESSES - 1

  // ------------------------------------------------------------------- the entries

  /** Ether that went from one account to another, or a nonce that went up by one. */
  datatype Entry = Pay(from: Address, to: Address, value: nat) | Count(whose: Address)

  function Gain(e: Entry, a: Address): int {
    match e
    case Pay(from, to, value) => (if to == a then value else 0) - if from == a then value else 0
    case Count(_) => 0
  }

  /** What a received less what it sent. */
  function Net(es: seq<Entry>, a: Address): int {
    if es == [] then 0 else Net(es[..|es| - 1], a) + Gain(es[|es| - 1], a)
  }

  function Counted(es: seq<Entry>, a: Address): nat {
    if es == [] then 0 else Counted(es[..|es| - 1], a) + if es[|es| - 1] == Count(a) then 1 else 0
  }

  /** What a has when the entries have been made from w on. */
  function Balance(w: World, es: seq<Entry>, a: Address): nat
    requires |w.balances| == ADDRESSES
  {
    (w.balances[a] + Net(es, a)) % WORD
  }

  /** From w to r exactly these entries were made: every balance is what it was, plus what was received, less what was
      sent, and every nonce has been counted up. */
  ghost predicate Flows(w: World, r: World, es: seq<Entry>) {
    && |w.balances| == |w.nonces| == |r.balances| == |r.nonces| == ADDRESSES
    && forall a: Address :: Flowed(w, r, es, a)
  }

  predicate Flowed(w: World, r: World, es: seq<Entry>, a: Address)
    requires |w.balances| == |w.nonces| == |r.balances| == |r.nonces| == ADDRESSES
  {
    r.balances[a] == Balance(w, es, a) && r.nonces[a] == (w.nonces[a] + Counted(es, a)) % WORD
  }

  lemma {:induction false} NetOn(p: seq<Entry>, q: seq<Entry>, a: Address)
    ensures Net(p + q, a) == Net(p, a) + Net(q, a) && Counted(p + q, a) == Counted(p, a) + Counted(q, a)
  {
    if q == [] {
      assert p + q == p;
    } else {
      assert (p + q)[..|p + q| - 1] == p + q[..|q| - 1];
      NetOn(p, q[..|q| - 1], a);
    }
  }

  lemma AddOn(x: int, y: int)
    ensures (x % WORD + y) % WORD == (x + y) % WORD
  {
    assert x == x / WORD * WORD + x % WORD;
    Rounds(x % WORD + y, x / WORD);
  }

  lemma Rounds(x: int, k: int)
    ensures (x + k * WORD) % WORD == x % WORD
  {
  }

  lemma {:induction false} FlowsOn(w: World, x: World, y: World, p: seq<Entry>, q: seq<Entry>)
    requires Flows(w, x, p) && Flows(x, y, q)
    ensures Flows(w, y, p + q)
  {
    forall a: Address ensures Flowed(w, y, p + q, a) {
      assert Flowed(w, x, p, a) && Flowed(x, y, q, a);
      NetOn(p, q, a);
      AddOn(w.balances[a] + Net(p, a), Net(q, a));
      AddOn(w.nonces[a] + Counted(p, a), Counted(q, a));
    }
  }

  lemma {:induction false} NothingFlows(w: World)
    requires Sound(w)
    ensures Flows(w, w, [])
  {
    forall a: Address ensures Flowed(w, w, [], a) {}
  }

  lemma One(e: Entry, a: Address)
    ensures Net([e], a) == Gain(e, a) && Counted([e], a) == if e == Count(a) then 1 else 0
  {
    assert [e][..0] == [];
  }

  lemma {:induction false} PayFlows(w: World, from: Address, to: Address, v: nat)
    requires Sound(w) && v <= w.balances[from]
    ensures Flows(w, Added(Subtracted(w, from, v), to, v), [Pay(from, to, v)])
  {
    var r := Added(Subtracted(w, from, v), to, v);
    forall a: Address ensures Flowed(w, r, [Pay(from, to, v)], a) { One(Pay(from, to, v), a); }
  }

  lemma {:induction false} CountFlows(w: World, whose: Address)
    requires Sound(w)
    ensures Flows(w, NonceUp(w, whose), [Count(whose)])
  {
    forall a: Address ensures Flowed(w, NonceUp(w, whose), [Count(whose)], a) { One(Count(whose), a); }
  }

  // ------------------------------------------------- the entries that belong to a run

  /** The first k events of a run of `me`, begun when `had` had been entered since w, entered `es`: nothing but what the
      events say, paid by whoever runs. */
  ghost predicate RunBooks(w: World, eip158: bool, depth: nat, had: seq<Entry>, me: Address, run: Run, k: nat,
                           es: seq<Entry>)
    requires |w.balances| == ADDRESSES && k <= |run.events|
    decreases run, k
  {
    if k == 0 then es == []
    else exists n: nat | n <= |es| ::
      && RunBooks(w, eip158, depth, had, me, run, k - 1, es[..n])
      && EventBooks(w, eip158, depth, had + es[..n], me, run.events[k - 1], es[n..])
  }

  ghost predicate EventBooks(w: World, eip158: bool, depth: nat, had: seq<Entry>, me: Address, e: Event,
                             es: seq<Entry>)
    requires |w.balances| == ADDRESSES
    decreases e, 0
  {
    match e
    case Spend(_) => es == []
    case Refund(_) => es == []
    case Suicide(heir) => es == [Pay(me, heir, Balance(w, had, me))]
    case CallOut(receive, value, _, callee) => CallBooks(w, eip158, depth, had, me, receive, value, callee, es)
    case CreateOut(at, endowment, init) => CreateBooks(w, eip158, depth, had, me, at, endowment, init, es)
  }

  /** A call pays its value to the receiver, who then runs; or nothing is left of it, which for an account without code
      is so only for want of money or depth. */
  ghost predicate CallBooks(w: World, eip158: bool, depth: nat, had: seq<Entry>, me: Address, receive: Address,
                            value: nat, callee: Callee, es: seq<Entry>)
    requires |w.balances| == ADDRESSES
    decreases callee, 0
  {
    if es == [] then depth >= 1024 || value > Balance(w, had, me) || !callee.NoCode?
    else
      && depth < 1024 && value <= Balance(w, had, me) && es[0] == Pay(me, receive, value)
      && if callee.Code?
         then RanBooks(w, eip158, depth + 1, had + [es[0]], receive, callee.run, es[1..])
         else es[1..] == []
  }

  /** A creation uses a nonce of the creator; then it pays the endowment to the new account, which runs; or nothing
      else is left of it. */
  ghost predicate CreateBooks(w: World, eip158: bool, depth: nat, had: seq<Entry>, me: Address, at: Address,
                              endowment: nat, init: Option<Run>, es: seq<Entry>)
    requires |w.balances| == ADDRESSES
    decreases init, 0
  {
    var start := Numbered(me) + Founding(me, at, endowment, eip158);
    if depth >= 1024 || endowment > Balance(w, had, me) then es == []
    else
      || (init.Some? && es == Numbered(me))
      || (start <= es
          && if init.Some?
             then RanBooks(w, eip158, depth + 1, had + start, at, init.value, es[|start|..])
             else es == start)
  }

  /** The top address, which stands for what has no signature, has no nonce to use. */
  function Numbered(from: Address): seq<Entry> {
    if from == MAX_ADDRESS then [] else [Count(from)]
  }

  function Founding(from: Address, at: Address, endowment: nat, eip158: bool): seq<Entry> {
    [Pay(from, at, endowment)] + if eip158 then [Count(at)] else []
  }

  /** The run came to a proper end. */
  ghost predicate RanBooks(w: World, eip158: bool, depth: nat, had: seq<Entry>, me: Address, run: Run, es: seq<Entry>)
    requires |w.balances| == ADDRESSES
    decreases run, |run.events| + 1
  {
    run.end.Halted? && RunBooks(w, eip158, depth, had, me, run, |run.events|, es)
  }

  lemma {:induction false} MoreBooks(w: World, eip158: bool, depth: nat, had: seq<Entry>, me: Address, run: Run, k: nat,
                                     es: seq<Entry>, more: seq<Entry>)
    requires |w.balances| == ADDRESSES && k < |run.events|
    requires RunBooks(w, eip158, depth, had, me, run, k, es)
    requires EventBooks(w, eip158, depth, had + es, me, run.events[k], more)
    ensures RunBooks(w, eip158, depth, had, me, run, k + 1, es + more)
  {
    assert (es + more)[..|es|] == es && (es + more)[|es|..] == more;
  }

  // ------------------------------------------------------------ runs that must succeed

  /** The price of moving value, and the stipend that comes with it. */
  datatype Tariff = Tariff(price: nat, stipend: nat)

  /** What the first k events pay when every call goes through. */
  function Sends(me: Address, run: Run, k: nat): seq<Entry>
    requires k <= |run.events|
    decreases run, k
  {
    if k == 0 then [] else Sends(me, run, k - 1) + EventSends(me, run.events[k - 1])
  }

  function EventSends(me: Address, e: Event): seq<Entry>
    decreases e, 0
  {
    if e.CallOut? then [Pay(me, e.receive, e.value)] + CalleeSends(e.receive, e.callee) else []
  }

  function CalleeSends(me: Address, c: Callee): seq<Entry>
    decreases c, 0
  {
    if c.Code? then Sends(me, c.run, |c.run.events|) else []
  }

  /** The gas they use for good: what a call is given comes back but for what the called code uses, and the stipend
      comes back on top. */
  function Uses(t: Tariff, run: Run, k: nat): int
    requires k <= |run.events|
    decreases run, k
  {
    if k == 0 then 0 else Uses(t, run, k - 1) + EventUses(t, run.events[k - 1])
  }

  function EventUses(t: Tariff, e: Event): int
    decreases e, 0
  {
    match e
    case Spend(amount) => amount
    case CallOut(_, value, _, callee) => (if value > 0 then t.price - t.stipend else 0) + CalleeUses(t, callee)
    case CreateOut(_, _, _) => 0
    case Suicide(_) => 0
    case Refund(_) => 0
  }

  function CalleeUses(t: Tariff, c: Callee): int
    decreases c, 0
  {
    if c.Code? then Uses(t, c.run, |c.run.events|) else 0
  }

  /** Gas with which every call gets what it asks for, whether or not a 64th is kept back. */
  function Needs(t: Tariff, run: Run, k: nat): nat
    requires k <= |run.events|
    decreases k
  {
    if k == 0 then 0 else Needs(t, run, k - 1) + EventNeeds(t, run.events[k - 1])
  }

  function EventNeeds(t: Tariff, e: Event): nat {
    match e
    case Spend(amount) => amount
    case CallOut(_, value, asked, _) => (if value > 0 then t.price else 0) + 2 * asked
    case CreateOut(_, _, _) => 0
    case Suicide(_) => 0
    case Refund(_) => 0
  }

  /** What the first k events give back, with all that they call. */
  function Refunds(run: Run, k: nat): nat
    requires k <= |run.events|
    decreases run, k
  {
    if k == 0 then 0 else Refunds(run, k - 1) + EventRefunds(run.events[k - 1])
  }

  function EventRefunds(e: Event): nat
    decreases e, 0
  {
    if e.Refund? then e.amount else if e.CallOut? then CalleeRefunds(e.callee) else 0
  }

  function CalleeRefunds(c: Callee): nat
    decreases c, 0
  {
    if c.Code? then Refunds(c.run, |c.run.events|) else 0
  }

  /** The first k events spend, give back, and call accounts without code or with runs of the same kind; there is
      money and depth for every call, and code that is called asks for the gas it needs. */
  ghost predicate Funded(t: Tariff, w: World, depth: nat, had: seq<Entry>, me: Address, run: Run, k: nat)
    requires |w.balances| == ADDRESSES && k <= |run.events|
    decreases run, k
  {
    k > 0 ==>
      && Funded(t, w, depth, had, me, run, k - 1)
      && FundedEvent(t, w, depth, had + Sends(me, run, k - 1), me, run.events[k - 1])
  }

  ghost predicate FundedEvent(t: Tariff, w: World, depth: nat, had: seq<Entry>, me: Address, e: Event)
    requires |w.balances| == ADDRESSES
    decreases e, 0
  {
    match e
    case Spend(_) => true
    case Refund(_) => true
    case Suicide(_) => false
    case CreateOut(_, _, _) => false
    case CallOut(receive, value, asked, callee) =>
      FundedCall(t, w, depth, had, me, receive, value, callee) && CalleeNeeds(t, callee) <= asked
  }

  function CalleeNeeds(t: Tariff, c: Callee): nat {
    if c.Code? then Needs(t, c.run, |c.run.events|) else 0
  }

  ghost predicate FundedCall(t: Tariff, w: World, depth: nat, had: seq<Entry>, me: Address, receive: Address,
                             value: nat, callee: Callee)
    requires |w.balances| == ADDRESSES
    decreases callee, 0
  {
    && depth < 1024 && value <= Balance(w, had, me) && !callee.Precompiled?
    && (callee.Code? ==> FundedRun(t, w, depth + 1, had + [Pay(me, receive, value)], receive, callee.run))
  }

  /** A funded run that ends properly. */
  ghost predicate FundedRun(t: Tariff, w: World, depth: nat, had: seq<Entry>, me: Address, run: Run)
    requires |w.balances| == ADDRESSES
    decreases run, |run.events| + 1
  {
    run.end.Halted? && Funded(t, w, depth, had, me, run, |run.events|)
  }

  /** What is used is no more than what is needed. */
  lemma {:induction false} UsesWithin(t: Tariff, w: World, depth: nat, had: seq<Entry>, me: Address, run: Run, k: nat)
    requires |w.balances| == ADDRESSES && k <= |run.events| && Funded(t, w, depth, had, me, run, k)
    ensures Uses(t, run, k) <= Needs(t, run, k)
    decreases run, k
  {
    if k > 0 {
      UsesWithin(t, w, depth, had, me, run, k - 1);
      EventUsesWithin(t, w, depth, had + Sends(me, run, k - 1), me, run.events[k - 1]);
    }
  }

  lemma {:induction false} EventUsesWithin(t: Tariff, w: World, depth: nat, had: seq<Entry>, me: Address, e: Event)
    requires |w.balances| == ADDRESSES && FundedEvent(t, w, depth, had, me, e)
    ensures EventUses(t, e) <= EventNeeds(t, e)
    decreases e, 0
  {
    if e.CallOut? && e.callee.Code? {
      var run, on := e.callee.run, had + [Pay(me, e.receive, e.value)];
      assert FundedCall(t, w, depth, had, me, e.receive, e.value, e.callee);
      assert FundedRun(t, w, depth + 1, on, e.receive, run);
      UsesWithin(t, w, depth + 1, on, e.receive, run, |run.events|);
      assert CalleeUses(t, e.callee) == Uses(t, run, |run.events|);
    }
  }

  /** At the k-th event of a funded run: it is funded, and what is used before it leaves what it needs. */
  lemma {:induction false} FundedNext(t: Tariff, w: World, depth: nat, had: seq<Entry>, me: Address, run: Run, n: nat,
                                      k: nat)
    requires |w.balances| == ADDRESSES && k < n <= |run.events| && Funded(t, w, depth, had, me, run, n)
    ensures FundedEvent(t, w, depth, had + Sends(me, run, k), me, run.events[k])
    ensures Uses(t, run, k) + EventNeeds(t, run.events[k]) <= Needs(t, run, n)
    decreases n
  {
    if k < n - 1 {
      FundedNext(t, w, depth, had, me, run, n - 1, k);
    } else {
      UsesWithin(t, w, depth, had, me, run, k);
    }
  }

  // ------------------------------------------------------------------ runs without code below

  predicate Nested(e: Event) {
    (e.CallOut? && e.callee.Code?) || (e.CreateOut? && e.init.Some?)
  }

  /** No code is called and none is created. */
  ghost predicate Lone(run: Run) {
    forall i | 0 <= i < |run.events| :: !Nested(run.events[i])
  }

  // ---------------------------------------------------------------- plain accounts

  /** A run that only spends, gives back, and calls accounts without code. */
  ghost predicate Plain(run: Run) {
    forall i | 0 <= i < |run.events| :: PlainEvent(run.events[i])
  }

  predicate PlainEvent(e: Event) {
    e.Spend? || e.Refund? || (e.CallOut? && e.callee.NoCode?)
  }

  /** What the first k events send to a, and what they send in all. */
  function SentTo(run: Run, k: nat, a: Address): nat
    requires k <= |run.events|
  {
    if k == 0 then 0
    else
      var e := run.events[k - 1];
      SentTo(run, k - 1, a) + if e.CallOut? && e.receive == a then e.value else 0
  }

  function Sent(run: Run, k: nat): nat
    requires k <= |run.events|
  {
    if k == 0 then 0
    else
      var e := run.events[k - 1];
      Sent(run, k - 1) + if e.CallOut? then e.value else 0
  }

  /** A plain run of `me` leaves every account with what it was sent, and `me` without what it sent. */
  lemma {:induction false} PlainNet(me: Address, run: Run, k: nat, a: Address)
    requires Plain(run) && k <= |run.events|
    ensures Net(Sends(me, run, k), a) == SentTo(run, k, a) - if a == me then Sent(run, k) else 0
  {
    if k > 0 {
      PlainNet(me, run, k - 1, a);
      var e := run.events[k - 1];
      assert PlainEvent(e);
      var last := EventSends(me, e);
      NetOn(Sends(me, run, k - 1), last, a);
      if e.CallOut? {
        assert CalleeSends(e.receive, e.callee) == [];
        assert last == [Pay(me, e.receive, e.value)];
        One(last[0], a);
      }
    }
  }

  /** With the money for all of it, and depth, a plain run is funded. */
  lemma {:induction false} PlainIsFunded(t: Tariff, w: World, depth: nat, me: Address, run: Run, k: nat)
    requires Sound(w) && Plain(run) && k <= |run.events| && depth < 1024 && Sent(run, k) <= w.balances[me]
    requires w.balances[me] + SentTo(run, k, me) < WORD
    ensures Funded(t, w, depth, [], me, run, k)
  {
    if k > 0 {
      var e := run.events[k - 1];
      assert PlainEvent(e);
      PlainIsFunded(t, w, depth, me, run, k - 1);
      PlainNet(me, run, k - 1, me);
      assert [] + Sends(me, run, k - 1) == Sends(me, run, k - 1);
      if e.CallOut? {
        assert FundedCall(t, w, depth, Sends(me, run, k - 1), me, e.receive, e.value, e.callee);
      }
    }
  }
}
