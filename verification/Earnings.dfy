/** What a stake earns: the reference definition, one window and one slot at a time. */
module Earnings {
  import opened Results
  import opened FixedPoint
  import opened FarmTypes
  import opened Emission

  /** The farmer's share of a window, `stake / total`, in units of 10^-18. */
  function Share(stake: nat, total: nat): nat
    requires total > 0
  {
    Quotient(stake * WAD, total)
  }

  /** Whole tokens for `tokens` emitted in a window with the given snapshot total. */
  function WindowCredit(stake: nat, total: nat, tokens: nat): nat {
    if total == 0 then 0 else Scaled(Share(stake, total) * tokens)
  }

  /** Tokens emitted in the slots of the window `start .. next-1` that fall into
      `since ..= until`. */
  function WindowTokens(ps: seq<Period>, start: nat, next: nat, since: nat, until: nat): nat {
    SumTps(ps, Max(start, since), Min(next, until + 1))
  }

  /** Sum over snapshots, newest first, of the credit for each one's window. A window
      lasts until the slot before the next snapshot, the newest one until `next - 1`. */
  function Credit(w: seq<Snapshot>, next: nat, since: nat, until: nat, stake: nat, ps: seq<Period>): nat {
    if w == [] then 0
    else
      (if w[0].startedAt == 0 then 0
       else WindowCredit(stake, w[0].staked, WindowTokens(ps, w[0].startedAt, next, since, until)))
      + Credit(w[1..], w[0].startedAt, since, until, stake, ps)
  }

  /** Credit for everything retained in `w`, the open window included. */
  function CreditFor(w: seq<Snapshot>, since: nat, until: nat, stake: nat, ps: seq<Period>): nat {
    Credit(w, until + 1, since, until, stake, ps)
  }

  /** Slots strictly descend as long as they are initialised; below slot 0 only padding. */
  ghost predicate Descending(w: seq<Snapshot>) {
    forall i, j :: 0 <= i < j < |w| ==>
      w[i].startedAt > w[j].startedAt || w[i].startedAt == w[j].startedAt == 0
  }

  lemma DescendingTail(w: seq<Snapshot>)
    requires Descending(w) && w != []
    ensures Descending(w[1..])
  {
  }

  /** The horizon of the newest window does not matter once it lies past `until`. */
  lemma CreditAnyHorizon(w: seq<Snapshot>, next: nat, next': nat, since: nat, until: nat, stake: nat, ps: seq<Period>)
    requires next > until && next' > until
    ensures Credit(w, next, since, until, stake, ps) == Credit(w, next', since, until, stake, ps)
  {
  }

  // ---- bounds on one window ----

  lemma ShareBound(stake: nat, total: nat)
    requires total > 0
    ensures Share(stake, total) * total <= stake * WAD
  {
  }

  lemma {:induction false} CreditZeroStake(w: seq<Snapshot>, next: nat, since: nat, until: nat, ps: seq<Period>)
    ensures Credit(w, next, since, until, 0, ps) == 0
  {
    if w != [] {
      if w[0].staked > 0 {
        ShareBound(0, w[0].staked);
        CancelMul(Share(0, w[0].staked), 0, w[0].staked);
      }
      CreditZeroStake(w[1..], w[0].startedAt, since, until, ps);
    }
  }

  /** A window's credit never exceeds the exact fraction `stake / total` of its tokens. */
  lemma WindowCreditBound(stake: nat, total: nat, tokens: nat)
    ensures WindowCredit(stake, total, tokens) * total <= stake * tokens
  {
    if total > 0 {
      var share := Share(stake, total);
      ShareBound(stake, total);
      DivBounds(share * tokens, WAD);
      var c := Scaled(share * tokens);
      calc {
        (c * total) * WAD;
        (c * WAD) * total;
      <= { MulMono(c * WAD, share * tokens, total); }
        (share * tokens) * total;
        (share * total) * tokens;
      <= { MulMono(share * total, stake * WAD, tokens); }
        (stake * WAD) * tokens;
        (stake * tokens) * WAD;
      }
      CancelMul(c * total, stake * tokens, WAD);
    }
  }

  /** Splitting a window's tokens in two loses at most one token. */
  lemma WindowCreditSplit(stake: nat, total: nat, x: nat, y: nat)
    ensures var whole := WindowCredit(stake, total, x + y);
            var parts := WindowCredit(stake, total, x) + WindowCredit(stake, total, y);
            parts <= whole <= parts + 1
    ensures y == 0 || x == 0 ==>
              WindowCredit(stake, total, x + y) == WindowCredit(stake, total, x) + WindowCredit(stake, total, y)
  {
    if total > 0 {
      var share := Share(stake, total);
      assert share * (x + y) == share * x + share * y;
      FloorSplit(share * x, share * y);
      assert share * 0 == 0;
    }
  }

  lemma FloorSplit(a: nat, b: nat)
    ensures Scaled(a) + Scaled(b) <= Scaled(a + b) <= Scaled(a) + Scaled(b) + 1
  {
  }
}
