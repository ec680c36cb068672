/** What a trace of the warmer's queue amounts to: the steps of other requests in it, the stamps,
    and the refreshes with the bytes they read. A pass's tally is checked against it. */
module WarmLedger {
  import opened Basics
  import opened WarmQueue

  /** The steps that other requests make while a pass runs. */
  predicate Outside(step: Step) {
    step.Track? || step.ForgetScope? || step.Configure? || step.SetPaused? || step.BeginForeground? || step.EndForeground?
  }

  function Head(others: seq<seq<Step>>): seq<Step> {
    if others == [] then [] else others[0]
  }

  function Rest(others: seq<seq<Step>>): seq<seq<Step>> {
    if others == [] then [] else others[1..]
  }

  ghost function Flatten(others: seq<seq<Step>>): seq<Step> {
    if others == [] then [] else others[0] + Flatten(others[1..])
  }

  // ---- The ledger -----------------------------------------------------------------------------

  /** A refresh: its scope and the bytes it read. */
  datatype Fetch = Fetch(scope: string, bytes: nat)

  datatype Ledger = Ledger(others: seq<Step>, stamps: seq<string>, refreshes: seq<Fetch>)

  const EMPTY := Ledger([], [], [])

  ghost function Plus(a: Ledger, b: Ledger): Ledger {
    Ledger(a.others + b.others, a.stamps + b.stamps, a.refreshes + b.refreshes)
  }

  ghost function Entered(step: Step): Ledger {
    if Outside(step) then Ledger([step], [], [])
    else if step.Stamp? then Ledger([], [step.scope], [])
    else if step.FinishRefresh? then Ledger([], [], [Fetch(step.c.id.scope, step.bytes)])
    else EMPTY
  }

  ghost function Account(trace: seq<Step>): Ledger {
    if trace == [] then EMPTY else Plus(Account(trace[..|trace| - 1]), Entered(trace[|trace| - 1]))
  }

  lemma {:induction false} AccountThen(trace: seq<Step>, more: seq<Step>)
    ensures Account(trace + more) == Plus(Account(trace), Account(more))
  {
    if more == [] {
      assert trace + more == trace;
      PlusNothing(Account(trace));
    } else {
      var n := |more| - 1;
      AccountThen(trace, more[..n]);
      assert (trace + more)[..|trace| + n] == trace + more[..n];
      PlusThen(Account(trace), Account(more[..n]), Entered(more[n]));
    }
  }

  lemma PlusNothing(a: Ledger)
    ensures Plus(a, EMPTY) == a && Plus(EMPTY, a) == a
  {
  }

  lemma PlusThen(a: Ledger, b: Ledger, c: Ledger)
    ensures Plus(Plus(a, b), c) == Plus(a, Plus(b, c))
  {
  }

  /** Steps that leave no mark leave the account as it was. */
  lemma AccountUnmarked(trace: seq<Step>, more: seq<Step>)
    ensures Account(trace) == EMPTY ==> Account(trace + more) == Account(more)
    ensures Account(more) == EMPTY ==> Account(trace + more) == Account(trace)
  {
    AccountThen(trace, more);
    PlusNothing(Account(trace));
    PlusNothing(Account(more));
  }

  lemma AccountOne(step: Step)
    ensures Account([step]) == Entered(step)
  {
    assert [step][..0] == [];
  }

  lemma {:induction false} AccountOutside(trace: seq<Step>)
    requires forall i | 0 <= i < |trace| :: Outside(trace[i])
    ensures Account(trace) == Ledger(trace, [], [])
  {
    hide Plus, Entered;
    if trace != [] {
      var n := |trace| - 1;
      AccountOutside(trace[..n]);
      PlusOutside(trace[..n], trace[n]);
      assert trace == trace[..n] + [trace[n]];
    }
  }

  lemma PlusOutside(others: seq<Step>, step: Step)
    requires Outside(step)
    ensures Plus(Ledger(others, [], []), Entered(step)) == Ledger(others + [step], [], [])
  {
  }

  // ---- The tally ------------------------------------------------------------------------------

  /** What a pass has used so far. */
  datatype Tally = Tally(requests: nat, perScope: map<string, nat>, used: nat)

  const NOTHING := Tally(0, map[], 0)

  function Added(t: Tally, r: Fetch): Tally {
    Tally(t.requests + 1, t.perScope[r.scope := Made(t.perScope, r.scope) + 1], t.used + r.bytes)
  }

  ghost function Booked(t: Tally, refreshes: seq<Fetch>): Tally {
    if refreshes == [] then t else Added(Booked(t, refreshes[..|refreshes| - 1]), refreshes[|refreshes| - 1])
  }

  lemma {:induction false} BookedThen(t: Tally, a: seq<Fetch>, b: seq<Fetch>)
    ensures Booked(Booked(t, a), b) == Booked(t, a + b)
  {
    if b == [] {
      assert a + b == a;
    } else {
      var n := |b| - 1;
      BookedThen(t, a, b[..n]);
      assert (a + b)[..|a| + n] == a + b[..n];
    }
  }

  ghost function BytesOf(refreshes: seq<Fetch>): nat {
    if refreshes == [] then 0 else BytesOf(refreshes[..|refreshes| - 1]) + refreshes[|refreshes| - 1].bytes
  }

  ghost function CountOf(refreshes: seq<Fetch>, scope: string): nat {
    if refreshes == [] then 0
    else CountOf(refreshes[..|refreshes| - 1], scope) + if refreshes[|refreshes| - 1].scope == scope then 1 else 0
  }

  /** A tally counts the refreshes, in all and by scope, and adds up their bytes. */
  ghost predicate Tallies(t: Tally, refreshes: seq<Fetch>) {
    && t.requests == |refreshes| && t.used == BytesOf(refreshes)
    && forall scope :: Made(t.perScope, scope) == CountOf(refreshes, scope)
  }

  lemma {:induction false} BookedCounts(refreshes: seq<Fetch>)
    ensures Tallies(Booked(NOTHING, refreshes), refreshes)
  {
    if refreshes != [] {
      BookedCounts(refreshes[..|refreshes| - 1]);
    }
  }

  function ScopesOf(refreshes: seq<Fetch>): seq<string> {
    seq(|refreshes|, i requires 0 <= i < |refreshes| => refreshes[i].scope)
  }

  /** The tally books exactly the refreshes of the ledger, each of which was stamped. */
  ghost predicate Books(a: Ledger, tally: Tally, tally': Tally) {
    tally' == Booked(tally, a.refreshes) && a.stamps == ScopesOf(a.refreshes)
  }

  /** What others did is what the other requests do, in order; unless done, rest is still to come. */
  ghost predicate Consumes(a: Ledger, others: seq<seq<Step>>, rest: seq<seq<Step>>, done: bool) {
    a.others <= Flatten(others) && (!done ==> Flatten(others) == a.others + Flatten(rest))
  }

  ghost predicate Accounts(trace: seq<Step>, tally: Tally, tally': Tally, others: seq<seq<Step>>, rest: seq<seq<Step>>, done: bool) {
    Books(Account(trace), tally, tally') && Consumes(Account(trace), others, rest, done)
  }

  lemma BooksThen(a: Ledger, b: Ledger, tally: Tally, mid: Tally, tally': Tally)
    requires Books(a, tally, mid) && Books(b, mid, tally')
    ensures Books(Plus(a, b), tally, tally')
  {
    BookedThen(tally, a.refreshes, b.refreshes);
    assert ScopesOf(a.refreshes + b.refreshes) == ScopesOf(a.refreshes) + ScopesOf(b.refreshes);
  }

  lemma ConsumesThen(a: Ledger, b: Ledger, others: seq<seq<Step>>, left: seq<seq<Step>>, rest: seq<seq<Step>>, done: bool)
    requires Consumes(a, others, left, false) && Consumes(b, left, rest, done)
    ensures Consumes(Plus(a, b), others, rest, done)
  {
    assert a.others + b.others <= a.others + Flatten(left);
    assert a.others + (b.others + Flatten(rest)) == (a.others + b.others) + Flatten(rest);
  }

  lemma AccountsThen(trace: seq<Step>, more: seq<Step>, tally: Tally, mid: Tally, tally': Tally,
                     others: seq<seq<Step>>, left: seq<seq<Step>>, rest: seq<seq<Step>>, done: bool)
    requires Accounts(trace, tally, mid, others, left, false) && Accounts(more, mid, tally', left, rest, done)
    ensures Accounts(trace + more, tally, tally', others, rest, done)
  {
    AccountThen(trace, more);
    BooksThen(Account(trace), Account(more), tally, mid, tally');
    ConsumesThen(Account(trace), Account(more), others, left, rest, done);
  }

  /** What accounts for a part of a pass still does when the pass ends there. */
  lemma AccountsEnd(trace: seq<Step>, tally: Tally, tally': Tally, others: seq<seq<Step>>, rest: seq<seq<Step>>, done: bool)
    requires Accounts(trace, tally, tally', others, rest, done)
    ensures Accounts(trace, tally, tally', others, rest, true)
  {
  }

  /** The tally of a whole pass is that of its trace. */
  lemma PassTally(trace: seq<Step>, tally: Tally, others: seq<seq<Step>>, rest: seq<seq<Step>>, done: bool)
    requires Accounts(trace, NOTHING, tally, others, rest, done)
    ensures Tallies(tally, Account(trace).refreshes)
    ensures Account(trace).stamps == ScopesOf(Account(trace).refreshes) && Account(trace).others <= Flatten(others)
  {
    BookedCounts(Account(trace).refreshes);
  }

  lemma BooksNothing(a: Ledger, tally: Tally)
    requires a.stamps == [] && a.refreshes == []
    ensures Books(a, tally, tally)
  {
  }

  lemma BooksOne(a: Ledger, tally: Tally, r: Fetch)
    requires a.stamps == [r.scope] && a.refreshes == [r]
    ensures Books(a, tally, Added(tally, r))
  {
    assert [r][..0] == [] && ScopesOf([r]) == [r.scope];
  }

  lemma ConsumesHead(a: Ledger, others: seq<seq<Step>>)
    requires a.others == Head(others)
    ensures Consumes(a, others, Rest(others), false)
  {
  }

  lemma ConsumesNothing(a: Ledger, others: seq<seq<Step>>)
    requires a.others == []
    ensures Consumes(a, others, others, false) && forall rest :: Consumes(a, others, rest, true)
  {
    assert [] + Flatten(others) == Flatten(others);
  }

  /** Nothing but what the other requests do at one point. */
  lemma AccountsOthers(trace: seq<Step>, tally: Tally, others: seq<seq<Step>>)
    requires Account(trace) == Ledger(Head(others), [], [])
    ensures Accounts(trace, tally, tally, others, Rest(others), false)
  {
    BooksNothing(Account(trace), tally);
    ConsumesHead(Account(trace), others);
  }

  /** Neither other requests, nor stamps, nor refreshes. */
  lemma AccountsNothing(trace: seq<Step>, tally: Tally, others: seq<seq<Step>>)
    requires Account(trace) == EMPTY
    ensures Accounts(trace, tally, tally, others, others, false)
    ensures forall rest :: Accounts(trace, tally, tally, others, rest, true)
  {
    BooksNothing(EMPTY, tally);
    ConsumesNothing(EMPTY, others);
  }

  /** What the other requests do at one point, or, at the end, not even that. */
  lemma AccountsPick(trace: seq<Step>, tally: Tally, others: seq<seq<Step>>, done: bool)
    requires Account(trace) == Ledger(Head(others), [], []) || (done && Account(trace) == EMPTY)
    ensures Accounts(trace, tally, tally, others, Rest(others), done)
  {
    if Account(trace) == EMPTY && done {
      AccountsNothing(trace, tally, others);
    } else {
      AccountsOthers(trace, tally, others);
    }
  }

  lemma ConsumesTwo(a: Ledger, others: seq<seq<Step>>)
    requires a.others == Head(others) + Head(Rest(others))
    ensures Consumes(a, others, Rest(Rest(others)), false)
  {
    assert Flatten(others) == Head(others) + Flatten(Rest(others));
    assert Flatten(Rest(others)) == Head(Rest(others)) + Flatten(Rest(Rest(others)));
    assert Head(others) + (Head(Rest(others)) + Flatten(Rest(Rest(others)))) == a.others + Flatten(Rest(Rest(others)));
  }

  /** A stamp, then other requests at two points, then the end of the refresh. */
  lemma AccountsRefresh(scope: string, trace: seq<Step>, tally: Tally, others: seq<seq<Step>>, n: nat)
    requires Account(trace) == Ledger(Head(others) + Head(Rest(others)), [], [Fetch(scope, n)])
    ensures Accounts([Stamp(scope)] + trace, tally, Added(tally, Fetch(scope, n)), others, Rest(Rest(others)), false)
  {
    AccountThen([Stamp(scope)], trace);
    AccountOne(Stamp(scope));
    var a := Account([Stamp(scope)] + trace);
    assert a.others == Head(others) + Head(Rest(others)) && a.stamps == [scope] && a.refreshes == [Fetch(scope, n)];
    BooksOne(a, tally, Fetch(scope, n));
    ConsumesTwo(a, others);
  }
}
