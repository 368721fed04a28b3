/**
 Refunds of one request that overlap in time. Each reads the open payments
 without a lock and writes its reversals later, on what it read; in between,
 others do the same.
 */
module RefundOverlap {
  import opened LedgerReversal

  /** The payments as a refund read them. */
  datatype Read = Read(payments: seq<Payment>, refund: nat)

  /** The payments as stored, the refunds between read and write, and all that has been reversed. */
  datatype Ledger = Ledger(payments: seq<Payment>, pending: map<nat, Read>, reversed: nat)

  datatype Move = ReadPayments(call: nat, refund: nat) | WriteReversals(call: nat)

  /** The stored payments once a refund closes those it reverses in full, as it read them. */
  function Written(ps: seq<Payment>, read: Read): (res: seq<Payment>)
    requires |read.payments| == |ps|
    ensures |res| == |ps|
  {
    seq(|ps|, i requires 0 <= i < |ps| =>
      if Eligible(read.payments[i]) && ReversedAt(read.payments, read.refund, i) == read.payments[i].amount
      then ps[i].(status := Reversed) else ps[i])
  }

  function Make(l: Ledger, m: Move): Ledger {
    match m
    case ReadPayments(call, refund) =>
      if call in l.pending then l else l.(pending := l.pending[call := Read(l.payments, refund)])
    case WriteReversals(call) =>
      if call in l.pending && |l.pending[call].payments| == |l.payments| then
        var read := l.pending[call];
        Ledger(Written(l.payments, read), l.pending - {call},
               l.reversed + TotalReversed(read.payments, read.refund, |read.payments|))
      else l
  }

  function Run(l: Ledger, moves: seq<Move>): Ledger
    decreases |moves|
  {
    if moves == [] then l else Run(Make(l, moves[0]), moves[1..])
  }

  /** The same payments as before, some of them closed since. */
  ghost predicate ClosedSince(was: seq<Payment>, now: seq<Payment>) {
    |now| == |was| && forall i | 0 <= i < |was| ::
      now[i] == was[i] || (Eligible(was[i]) && now[i] == was[i].(status := Reversed))
  }

  ghost predicate LedgerOk(l: Ledger) {
    forall call | call in l.pending :: ClosedSince(l.pending[call].payments, l.payments)
  }

  // --------------------------------------------------------------- one late write

  /** What writing on an earlier read takes off the open payments, among the first n. */
  function Closed(now: seq<Payment>, read: Read, n: nat): nat
    requires n <= |now| == |read.payments|
  {
    if n == 0 then 0
    else
      Closed(now, read, n - 1) +
      if Eligible(now[n - 1]) && !Eligible(Written(now, read)[n - 1]) then now[n - 1].amount else 0
  }

  lemma {:induction false} OpenLessClosed(now: seq<Payment>, read: Read, n: nat)
    requires n <= |now| == |read.payments|
    ensures Total(Written(now, read), n) + Closed(now, read, n) == Total(now, n)
  {
    if n > 0 {
      OpenLessClosed(now, read, n - 1);
      assert Written(now, read)[n - 1] == now[n - 1] || !Eligible(Written(now, read)[n - 1]);
    }
  }

  /** The refund reverses part of payment i, or one that was closed after it was read. */
  ghost predicate Excess(now: seq<Payment>, read: Read, i: nat)
    requires |now| == |read.payments|
  {
    i < |now| && ReversedAt(read.payments, read.refund, i) > 0 &&
    (PartlyReversed(read.payments, read.refund, i) || !Eligible(now[i]))
  }

  lemma {:induction false} ReversedCoversClosed(now: seq<Payment>, read: Read, n: nat)
    requires n <= |now| && ClosedSince(read.payments, now)
    ensures TotalReversed(read.payments, read.refund, n) >= Closed(now, read, n)
    ensures TotalReversed(read.payments, read.refund, n) > Closed(now, read, n) <==>
            exists i: nat :: i < n && Excess(now, read, i)
  {
    if n > 0 {
      ReversedCoversClosed(now, read, n - 1);
      assert now[n - 1].amount == read.payments[n - 1].amount;
      assert Eligible(now[n - 1]) ==> now[n - 1] == read.payments[n - 1];
      if Excess(now, read, n - 1) {
        assert exists i: nat :: i < n && Excess(now, read, i);
      }
    }
  }

  /** A payment that the refund reaches is closed by now: another refund reversed it in between. */
  ghost predicate Overlaps(now: seq<Payment>, read: Read) {
    |now| == |read.payments| && exists i: nat :: ReachesClosed(now, read, i)
  }

  predicate ReachesClosed(now: seq<Payment>, read: Read, i: nat)
    requires |now| == |read.payments|
  {
    i < |now| && Eligible(read.payments[i]) && read.payments[i].amount > 0
    && Total(read.payments, i) < read.refund && !Eligible(now[i])
  }

  /** The refund ends where a payment ends, and all it reaches is still open. */
  ghost predicate Lands(now: seq<Payment>, read: Read) {
    LandsOnBoundary(read.payments, read.refund) && !Overlaps(now, read)
  }

  /**
   A refund that writes on what it read earlier: reversed and still open never
   fall short of what was open, and make it up exactly if and only if the refund
   ends on a boundary of what it read and every payment it reaches is still open.
   */
  lemma LateWriteConservesExactly(now: seq<Payment>, read: Read)
    requires ClosedSince(read.payments, now)
    ensures var n := |now|;
            && Total(Written(now, read), n) + TotalReversed(read.payments, read.refund, n) >= Total(now, n)
            && (Total(Written(now, read), n) + TotalReversed(read.payments, read.refund, n) == Total(now, n) <==>
                  Lands(now, read))
  {
    OpenLessClosed(now, read, |now|);
    ReversedCoversClosed(now, read, |now|);
    ExcessExactly(now, read);
  }

  lemma ExcessExactly(now: seq<Payment>, read: Read)
    requires ClosedSince(read.payments, now)
    ensures (exists i: nat :: i < |now| && Excess(now, read, i)) <==> !Lands(now, read)
  {
    var was := read.payments;
    forall i: nat | i < |now| {
      ReachedExactly(was, read.refund, i);
    }
    OpenAfter(was, read.refund, |was|);
    OpenAmountIsRightExactly(was, read.refund);
    if i: nat :| i < |now| && Excess(now, read, i) {
      assert PartlyReversed(was, read.refund, i) || ReachesClosed(now, read, i);
    } else if Overlaps(now, read) {
      var i: nat :| ReachesClosed(now, read, i);
      assert Excess(now, read, i);
    } else if i: nat :| i < |was| && PartlyReversed(was, read.refund, i) {
      assert Excess(now, read, i);
    }
  }

  // ---------------------------------------------------- any number, interleaved

  lemma MoveKeepsLedgerOk(l: Ledger, m: Move)
    requires LedgerOk(l)
    ensures LedgerOk(Make(l, m)) && |Make(l, m).payments| == |l.payments|
  {
  }

  /** The move writes a refund that does not land. */
  ghost predicate Misses(l: Ledger, m: Move) {
    m.WriteReversals? && m.call in l.pending && !Lands(l.payments, l.pending[m.call])
  }

  ghost predicate NoneMisses(l: Ledger, moves: seq<Move>)
    decreases |moves|
  {
    moves == [] || (!Misses(l, moves[0]) && NoneMisses(Make(l, moves[0]), moves[1..]))
  }

  function Open(l: Ledger): nat {
    Total(l.payments, |l.payments|)
  }

  lemma MoveConservesExactly(l: Ledger, m: Move)
    requires LedgerOk(l)
    ensures var t := Make(l, m);
            Open(t) + t.reversed >= Open(l) + l.reversed
            && (Open(t) + t.reversed == Open(l) + l.reversed <==> !Misses(l, m))
  {
    if m.WriteReversals? && m.call in l.pending {
      LateWriteConservesExactly(l.payments, l.pending[m.call]);
    }
  }

  /**
   Over every interleaving of any number of refunds: reversed and still open
   never fall short of what they were, and stay the same exactly when every
   refund lands, on a boundary of what it read and before another one reversed
   what it reaches. Then no more is reversed than was open.
   */
  lemma {:induction false} OverlapsConserveExactly(l: Ledger, moves: seq<Move>)
    requires LedgerOk(l)
    ensures var t := Run(l, moves);
            && Open(t) + t.reversed >= Open(l) + l.reversed
            && (Open(t) + t.reversed == Open(l) + l.reversed <==> NoneMisses(l, moves))
            && (NoneMisses(l, moves) ==> t.reversed <= Open(l) + l.reversed)
    decreases |moves|
  {
    if moves != [] {
      MoveConservesExactly(l, moves[0]);
      MoveKeepsLedgerOk(l, moves[0]);
      OverlapsConserveExactly(Make(l, moves[0]), moves[1..]);
    }
  }

  /** A refund that reads and writes with nothing in between is one of a list processed one after the other. */
  lemma AloneIsSerial(l: Ledger, call: nat, refund: nat)
    requires call !in l.pending
    ensures var t := Make(Make(l, ReadPayments(call, refund)), WriteReversals(call));
            && t.payments == After(l.payments, refund)
            && t.reversed == l.reversed + TotalReversed(l.payments, refund, |l.payments|)
            && (Lands(l.payments, Read(l.payments, refund)) <==> LandsOnBoundary(l.payments, refund))
  {
    var u := Make(l, ReadPayments(call, refund));
    assert u.pending[call] == Read(l.payments, refund) && u.payments == l.payments;
    assert Written(l.payments, Read(l.payments, refund)) == After(l.payments, refund);
  }

  /** Two refunds of 100 that both read one open payment of 100 reverse 200; either alone lands. */
  lemma TwoFullRefundsReverseTwice(l: Ledger, t: Ledger)
    requires l == Ledger([Payment(100, 30, 70, true, Recorded)], map[], 0)
    requires t == Make(Make(Make(Make(l, ReadPayments(1, 100)), ReadPayments(2, 100)),
                            WriteReversals(1)), WriteReversals(2))
    ensures t.reversed == 200 && Open(l) == 100
    ensures AllLand(l.payments, [100, 100])
  {
    var ps := l.payments;
    assert LeftAfter(ps, 100, 0) == 100 && ReversedAt(ps, 100, 0) == 100;
    assert TotalReversed(ps, 100, 1) == TotalReversed(ps, 100, 0) + 100;
    assert Total(ps, 1) == Total(ps, 0) + 100;
    var l2 := Make(Make(l, ReadPayments(1, 100)), ReadPayments(2, 100));
    assert l2.pending == map[1 := Read(ps, 100), 2 := Read(ps, 100)];
    var l3 := Make(l2, WriteReversals(1));
    assert l3.reversed == 100 && l3.pending[2] == Read(ps, 100);
    var closed := After(ps, 100);
    assert !Eligible(closed[0]) && Total(closed, 1) == Total(closed, 0);
    assert [100, 100][1..] == [100] && [100][1..] == [];
    assert AllLand(closed, [100]);
  }
}
