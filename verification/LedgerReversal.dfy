/**
 The ledger entries a processed refund writes: captured payments are reversed
 oldest first, up to the refund, each with its commission and earning parts in
 proportion. Amounts are whole paise; proportions are taken exactly.
 */
module LedgerReversal {
  import opened Prelude

  datatype Status = Recorded | Reversed

  /** A captured payment with its platform commission and expert earning. */
  datatype Payment = Payment(amount: nat, commission: nat, earning: nat, hasOrder: bool, status: Status)

  /** What is written against one payment. */
  datatype Reversal = Reversal(amount: nat, commission: nat, earning: nat)

  /** `Math.round(part * (reversed / whole))`. */
  function Share(part: nat, reversed: nat, whole: nat): nat
    requires whole > 0
  {
    (2 * part * reversed + whole) / (2 * whole)
  }

  predicate Eligible(p: Payment) {
    p.status == Recorded && p.hasOrder
  }

  /** Nothing of no worth is ever captured. */
  ghost predicate PaymentsOk(ps: seq<Payment>) {
    forall i | 0 <= i < |ps| :: ps[i].amount > 0
  }

  /** How much of the refund is left after the first n payments. */
  function LeftAfter(ps: seq<Payment>, refund: nat, n: nat): nat
    requires n <= |ps|
  {
    if n == 0 then refund
    else
      var left := LeftAfter(ps, refund, n - 1);
      if Eligible(ps[n - 1]) then left - Min(left, ps[n - 1].amount) else left
  }

  /** How much of payment i is reversed. */
  function ReversedAt(ps: seq<Payment>, refund: nat, i: nat): nat
    requires i < |ps|
  {
    if Eligible(ps[i]) then Min(LeftAfter(ps, refund, i), ps[i].amount) else 0
  }

  /** Payment i after the refund: closed only if it was reversed in full. */
  function PaymentAfter(ps: seq<Payment>, refund: nat, i: nat): Payment
    requires i < |ps|
  {
    if Eligible(ps[i]) && ReversedAt(ps, refund, i) == ps[i].amount then ps[i].(status := Reversed) else ps[i]
  }

  function After(ps: seq<Payment>, refund: nat): (res: seq<Payment>)
    ensures |res| == |ps|
  {
    seq(|ps|, i requires 0 <= i < |ps| => PaymentAfter(ps, refund, i))
  }

  function Total(ps: seq<Payment>, n: nat): nat
    requires n <= |ps|
  {
    if n == 0 then 0 else Total(ps, n - 1) + if Eligible(ps[n - 1]) then ps[n - 1].amount else 0
  }

  function TotalReversed(ps: seq<Payment>, refund: nat, n: nat): nat
    requires n <= |ps|
  {
    if n == 0 then 0 else TotalReversed(ps, refund, n - 1) + ReversedAt(ps, refund, n - 1)
  }

  /** The loop over the captured payments; `unmatched` is what it could not reverse, and is flagged. */
  method RecordReversalForRefund(ps: seq<Payment>, refund: nat)
    returns (after: seq<Payment>, reversals: seq<Reversal>, unmatched: nat)
    requires PaymentsOk(ps)
    ensures after == After(ps, refund) && unmatched == LeftAfter(ps, refund, |ps|)
    ensures |reversals| == |ps|
    ensures forall i | 0 <= i < |ps| :: reversals[i] ==
              var a := ReversedAt(ps, refund, i);
              Reversal(a, Share(ps[i].commission, a, ps[i].amount), Share(ps[i].earning, a, ps[i].amount))
    ensures forall i | 0 <= i < |ps| ::
              if ps[i].status != Recorded || !ps[i].hasOrder
              then after[i] == ps[i] && reversals[i] == Reversal(0, 0, 0)
              else reversals[i].amount <= ps[i].amount
                   && after[i] == (if reversals[i].amount == ps[i].amount then ps[i].(status := Reversed) else ps[i])
    ensures forall i, j | 0 <= i < j < |ps| && reversals[j].amount > 0 && ps[i].status == Recorded && ps[i].hasOrder ::
              reversals[i].amount == ps[i].amount
    ensures forall i | 0 <= i < |ps| && unmatched > 0 && ps[i].status == Recorded && ps[i].hasOrder ::
              reversals[i].amount == ps[i].amount
    ensures SumReversed(reversals) + unmatched == refund
  {
    var remaining := refund;
    after, reversals := ps, [];
    var i := 0;
    while i < |ps|
      invariant i <= |ps| == |after| && |reversals| == i
      invariant remaining == LeftAfter(ps, refund, i)
      invariant forall k | 0 <= k < i :: after[k] == PaymentAfter(ps, refund, k)
      invariant forall k | i <= k < |ps| :: after[k] == ps[k]
      invariant forall k | 0 <= k < i :: reversals[k] ==
                  var a := ReversedAt(ps, refund, k);
                  Reversal(a, Share(ps[k].commission, a, ps[k].amount), Share(ps[k].earning, a, ps[k].amount))
    {
      var p := ps[i];
      ShareOfNothing(p.commission, p.amount);
      ShareOfNothing(p.earning, p.amount);
      if remaining == 0 || p.status != Recorded || !p.hasOrder {
        reversals := reversals + [Reversal(0, 0, 0)];
      } else {
        var reverseAmount := Min(remaining, p.amount);
        reversals := reversals +
          [Reversal(reverseAmount, Share(p.commission, reverseAmount, p.amount),
                   Share(p.earning, reverseAmount, p.amount))];
        if reverseAmount == p.amount {
          after := after[i := p.(status := Reversed)];
        }
        remaining := remaining - reverseAmount;
      }
      i := i + 1;
    }
    unmatched := remaining;
    ReversalsFollowTheRules(ps, refund, reversals);
  }

  function SumReversed(rs: seq<Reversal>): nat {
    if rs == [] then 0 else SumReversed(rs[..|rs| - 1]) + rs[|rs| - 1].amount
  }

  lemma {:induction false} SumIsTotal(ps: seq<Payment>, refund: nat, rs: seq<Reversal>, n: nat)
    requires |rs| == |ps| && n <= |ps| && forall i | 0 <= i < |ps| :: rs[i].amount == ReversedAt(ps, refund, i)
    ensures SumReversed(rs[..n]) == TotalReversed(ps, refund, n)
  {
    if n > 0 {
      SumIsTotal(ps, refund, rs, n - 1);
      assert rs[..n][..n - 1] == rs[..n - 1];
    }
  }

  /** The amounts reversed make up the refund with what is left, oldest first, open payments only. */
  lemma {:induction false} ReversalsFollowTheRules(ps: seq<Payment>, refund: nat, rs: seq<Reversal>)
    requires PaymentsOk(ps) && |rs| == |ps|
    requires forall i | 0 <= i < |ps| :: rs[i] ==
               var a := ReversedAt(ps, refund, i);
               Reversal(a, Share(ps[i].commission, a, ps[i].amount), Share(ps[i].earning, a, ps[i].amount))
    ensures forall i | 0 <= i < |ps| && (ps[i].status != Recorded || !ps[i].hasOrder) :: rs[i] == Reversal(0, 0, 0)
    ensures forall i, j | 0 <= i < j < |ps| && rs[j].amount > 0 && ps[i].status == Recorded && ps[i].hasOrder ::
              rs[i].amount == ps[i].amount
    ensures forall i | 0 <= i < |ps| && LeftAfter(ps, refund, |ps|) > 0 && ps[i].status == Recorded && ps[i].hasOrder ::
              rs[i].amount == ps[i].amount
    ensures SumReversed(rs) + LeftAfter(ps, refund, |ps|) == refund
  {
    SumIsTotal(ps, refund, rs, |ps|);
    assert rs[..|ps|] == rs;
    RefundIsSplit(ps, refund, |ps|);
    forall i | 0 <= i < |ps| && (ps[i].status != Recorded || !ps[i].hasOrder) ensures rs[i] == Reversal(0, 0, 0) {
      ShareOfNothing(ps[i].commission, ps[i].amount);
      ShareOfNothing(ps[i].earning, ps[i].amount);
    }
    forall i, j | 0 <= i < j < |ps| && rs[j].amount > 0 && ps[i].status == Recorded && ps[i].hasOrder
      ensures rs[i].amount == ps[i].amount
    {
      OldestFirst(ps, refund, i, j);
    }
    forall i | 0 <= i < |ps| && LeftAfter(ps, refund, |ps|) > 0 && ps[i].status == Recorded && ps[i].hasOrder
      ensures rs[i].amount == ps[i].amount
    {
      LeftNeverGrows(ps, refund, i + 1, |ps|);
    }
  }

  lemma ShareOfNothing(part: nat, whole: nat)
    requires whole > 0
    ensures Share(part, 0, whole) == 0
  {
    assert 2 * part * 0 == 0;
  }

  /** What is reversed and what is left over make up the refund; nothing is left while payments remain. */
  lemma {:induction false} RefundIsSplit(ps: seq<Payment>, refund: nat, n: nat)
    requires n <= |ps|
    ensures TotalReversed(ps, refund, n) + LeftAfter(ps, refund, n) == refund
    ensures TotalReversed(ps, refund, n) == Min(refund, Total(ps, n))
  {
    if n > 0 {
      RefundIsSplit(ps, refund, n - 1);
    }
  }

  /** Oldest first: a payment is touched only after all earlier ones are reversed in full. */
  lemma {:induction false} OldestFirst(ps: seq<Payment>, refund: nat, i: nat, j: nat)
    requires i < j < |ps| && Eligible(ps[i]) && ReversedAt(ps, refund, j) > 0
    ensures ReversedAt(ps, refund, i) == ps[i].amount
  {
    LeftNeverGrows(ps, refund, i + 1, j);
  }

  lemma {:induction false} LeftNeverGrows(ps: seq<Payment>, refund: nat, m: nat, n: nat)
    requires m <= n <= |ps|
    ensures LeftAfter(ps, refund, n) <= LeftAfter(ps, refund, m)
    decreases n
  {
    if m < n {
      LeftNeverGrows(ps, refund, m, n - 1);
    }
  }

  // ------------------------------------------------------------------- rounding

  /** Division with rounding, by quotient and remainder. */
  lemma RoundedQuotient(q: nat, r: nat, whole: nat)
    requires r < whole
    ensures (2 * (q * whole + r) + whole) / (2 * whole) == if 2 * r >= whole then q + 1 else q
  {
    var x := 2 * (q * whole + r) + whole;
    var k := if 2 * r >= whole then q + 1 else q;
    assert 2 * (q * whole) == q * (2 * whole);
    assert x == q * (2 * whole) + (2 * r + whole);
    assert (q + 1) * (2 * whole) == q * (2 * whole) + 2 * whole;
    QuotientIs(x, 2 * whole, k);
  }

  lemma QuotientIs(x: nat, d: nat, k: nat)
    requires d > 0 && k * d <= x < k * d + d
    ensures x / d == k
  {
    var q := x / d;
    assert x == q * d + x % d;
    if q < k {
      NextMultiple(q, k, d);
    } else if q > k {
      NextMultiple(k, q, d);
    }
  }

  lemma NextMultiple(a: int, b: int, d: nat)
    requires a < b
    ensures a * d + d <= b * d
  {
    assert b * d - (a * d + d) == (b - a - 1) * d;
  }

  /** A share is the proportion to the nearest paisa, half a paisa upwards. */
  lemma ShareIsRounded(part: nat, reversed: nat, whole: nat)
    requires whole > 0
    ensures var share := Share(part, reversed, whole);
            2 * share * whole <= 2 * part * reversed + whole < 2 * share * whole + 2 * whole
  {
    var share := Share(part, reversed, whole);
    assert 2 * part * reversed + whole == share * (2 * whole) + (2 * part * reversed + whole) % (2 * whole);
    assert share * (2 * whole) == 2 * share * whole;
  }

  /**
   Commission and earning parts of a reversal add up to the amount reversed,
   except that both round up, one paisa too much, exactly when each share falls
   on half a paisa. A full reversal always adds up.
   */
  lemma PartsAddUpExactly(p: Payment, reversed: nat)
    requires p.amount > 0 && p.commission + p.earning == p.amount && reversed <= p.amount
    ensures var parts := Share(p.commission, reversed, p.amount) + Share(p.earning, reversed, p.amount);
            && (parts == reversed || parts == reversed + 1)
            && (parts == reversed + 1 <==> 2 * (p.commission * reversed % p.amount) == p.amount)
    ensures reversed == p.amount ==>
              Share(p.commission, reversed, p.amount) == p.commission &&
              Share(p.earning, reversed, p.amount) == p.earning
  {
    var w, a, b := p.amount, p.commission * reversed, p.earning * reversed;
    ShareByRemainder(p.commission, reversed, w);
    ShareByRemainder(p.earning, reversed, w);
    SharesCancel(p.commission, p.earning, reversed, w);
    if reversed == w {
      FullShare(p.commission, w);
      FullShare(p.earning, w);
    }
  }

  lemma ShareByRemainder(part: nat, reversed: nat, whole: nat)
    requires whole > 0
    ensures Share(part, reversed, whole) ==
            part * reversed / whole + if 2 * (part * reversed % whole) >= whole then 1 else 0
  {
    var a := part * reversed;
    assert a == (a / whole) * whole + a % whole;
    assert 2 * part * reversed == 2 * a;
    RoundedQuotient(a / whole, a % whole, whole);
  }

  lemma SharesCancel(commission: nat, earning: nat, n: nat, w: nat)
    requires w > 0 && commission + earning == w
    ensures var a, b := commission * n, earning * n;
            (a % w + b % w == 0 && a / w + b / w == n) || (a % w + b % w == w && a / w + b / w + 1 == n)
  {
    Distribute(commission, earning, n);
    RemaindersOf(commission * n, earning * n, n, w);
  }

  lemma RemaindersOf(a: nat, b: nat, n: nat, w: nat)
    requires w > 0 && a + b == w * n
    ensures (a % w + b % w == 0 && a / w + b / w == n) || (a % w + b % w == w && a / w + b / w + 1 == n)
  {
    DivideOut(a, w);
    DivideOut(b, w);
    RemaindersCancel(a / w, a % w, b / w, b % w, n, w);
  }

  lemma Distribute(a: nat, b: nat, n: nat)
    ensures a * n + b * n == (a + b) * n
  {
  }

  lemma DivideOut(a: nat, w: nat)
    requires w > 0
    ensures (a / w) * w + a % w == a
  {
  }

  lemma FullShare(part: nat, whole: nat)
    requires whole > 0
    ensures Share(part, whole, whole) == part
  {
    assert 2 * part * whole == 2 * (part * whole + 0);
    RoundedQuotient(part, 0, whole);
  }

  /** Two remainders that together leave none are both zero or sum to the divisor. */
  lemma RemaindersCancel(qa: nat, ra: nat, qb: nat, rb: nat, n: nat, w: nat)
    requires w > 0 && ra < w && rb < w && (qa * w + ra) + (qb * w + rb) == w * n
    ensures (ra + rb == 0 && qa + qb == n) || (ra + rb == w && qa + qb + 1 == n)
  {
    var q := qa + qb;
    assert qa * w + qb * w == q * w;
    assert (n - 1) * w + w == n * w && q * w + w == (q + 1) * w;
    if q > n {
      NextMultiple(n, q, w);
    } else if q + 1 < n {
      NextMultiple(q, n - 1, w);
    }
  }

  // --------------------------------------------------------- a second refund

  /** The payments still open after a refund are worth what was open before less what was reversed. */
  ghost predicate Conserves(ps: seq<Payment>, refund: nat) {
    Total(After(ps, refund), |ps|) + TotalReversed(ps, refund, |ps|) == Total(ps, |ps|)
  }

  lemma {:induction false} OpenAfter(ps: seq<Payment>, refund: nat, n: nat)
    requires n <= |ps|
    ensures Total(After(ps, refund), n) + TotalReversed(ps, refund, n) >= Total(ps, n)
    ensures Total(After(ps, refund), n) + TotalReversed(ps, refund, n) > Total(ps, n) <==>
            exists i: nat :: i < n && PartlyReversed(ps, refund, i)
  {
    if n > 0 {
      OpenAfter(ps, refund, n - 1);
      assert After(ps, refund)[n - 1] == PaymentAfter(ps, refund, n - 1);
      if PartlyReversed(ps, refund, n - 1) {
        assert exists i: nat :: i < n && PartlyReversed(ps, refund, i);
      }
    }
  }

  /** What a refund uses up: everything that is open, or exactly the oldest few payments. */
  ghost predicate LandsOnBoundary(ps: seq<Payment>, refund: nat) {
    refund >= Total(ps, |ps|) || exists n: nat :: n <= |ps| && refund == Total(ps, n)
  }

  lemma {:induction false} TotalsGrow(ps: seq<Payment>, m: nat, n: nat)
    requires m <= n <= |ps|
    ensures Total(ps, m) <= Total(ps, n)
    ensures m < n && Eligible(ps[n - 1]) ==> Total(ps, m) + ps[n - 1].amount <= Total(ps, n)
    decreases n
  {
    if m < n {
      TotalsGrow(ps, m, n - 1);
    }
  }

  /** Payment i is reversed at all exactly when the refund exceeds what the older open payments are worth. */
  lemma ReachedExactly(ps: seq<Payment>, refund: nat, i: nat)
    requires i < |ps|
    ensures ReversedAt(ps, refund, i) > 0 <==> Eligible(ps[i]) && ps[i].amount > 0 && Total(ps, i) < refund
  {
    RefundIsSplit(ps, refund, i);
  }

  /** Payment i is reversed in part exactly when the refund ends strictly inside it. */
  lemma PartIsReversedExactly(ps: seq<Payment>, refund: nat, i: nat)
    requires i < |ps|
    ensures PartlyReversed(ps, refund, i) <==> Total(ps, i) < refund < Total(ps, i + 1)
  {
    RefundIsSplit(ps, refund, i);
  }

  ghost predicate PartlyReversed(ps: seq<Payment>, refund: nat, i: nat) {
    i < |ps| && 0 < ReversedAt(ps, refund, i) < ps[i].amount
  }

  /** A refund that ends on no boundary ends inside some payment. */
  lemma {:induction false} EndsInside(ps: seq<Payment>, refund: nat, n: nat) returns (i: nat)
    requires n <= |ps| && refund < Total(ps, n)
    requires forall m: nat | m <= n :: refund != Total(ps, m)
    ensures i < n && Total(ps, i) < refund < Total(ps, i + 1)
  {
    assert refund != Total(ps, 0);
    if refund < Total(ps, n - 1) {
      i := EndsInside(ps, refund, n - 1);
    } else {
      i := n - 1;
      assert refund != Total(ps, n - 1);
    }
  }

  /**
   A payment reversed in part stays open for its full amount, so a later refund
   reverses that part again. The open payments shrink by exactly what was
   reversed if and only if the refund covers all that is open or is the sum of
   the oldest few open payments.
   */
  lemma OpenAmountIsRightExactly(ps: seq<Payment>, refund: nat)
    ensures Conserves(ps, refund) <==> LandsOnBoundary(ps, refund)
  {
    OpenAfter(ps, refund, |ps|);
    if LandsOnBoundary(ps, refund) {
      forall i: nat | i < |ps| ensures !PartlyReversed(ps, refund, i) {
        PartIsReversedExactly(ps, refund, i);
        BoundaryIsNotInside(ps, refund, i);
      }
    } else {
      var i := EndsInside(ps, refund, |ps|);
      PartIsReversedExactly(ps, refund, i);
    }
  }

  lemma BoundaryIsNotInside(ps: seq<Payment>, refund: nat, i: nat)
    requires i < |ps| && LandsOnBoundary(ps, refund)
    ensures !(Total(ps, i) < refund < Total(ps, i + 1))
  {
    TotalsGrow(ps, i + 1, |ps|);
    if n: nat :| n <= |ps| && refund == Total(ps, n) {
      if n <= i {
        TotalsGrow(ps, n, i);
      } else {
        TotalsGrow(ps, i + 1, n);
      }
    }
  }

  // ------------------------------------------------------ any number of refunds

  /** The payments after some refunds, processed one after the other. */
  function AfterAll(ps: seq<Payment>, refunds: seq<nat>): (res: seq<Payment>)
    ensures |res| == |ps|
    decreases |refunds|
  {
    if refunds == [] then ps else AfterAll(After(ps, refunds[0]), refunds[1..])
  }

  /** All that these refunds reverse. */
  function AllReversed(ps: seq<Payment>, refunds: seq<nat>): nat
    decreases |refunds|
  {
    if refunds == [] then 0
    else TotalReversed(ps, refunds[0], |ps|) + AllReversed(After(ps, refunds[0]), refunds[1..])
  }

  /** Every refund covers what is still open when its turn comes, or exactly the oldest few open payments. */
  ghost predicate AllLand(ps: seq<Payment>, refunds: seq<nat>)
    decreases |refunds|
  {
    refunds == [] || (LandsOnBoundary(ps, refunds[0]) && AllLand(After(ps, refunds[0]), refunds[1..]))
  }

  /**
   Over any list of refunds processed one after the other: what is reversed and what stays open never fall
   short of what was open at first, and make it up exactly if and only if every
   refund lands on a boundary. Then no more is reversed than was ever captured.
   */
  lemma {:induction false} RefundsConserveExactly(ps: seq<Payment>, refunds: seq<nat>)
    ensures Total(AfterAll(ps, refunds), |ps|) + AllReversed(ps, refunds) >= Total(ps, |ps|)
    ensures Total(AfterAll(ps, refunds), |ps|) + AllReversed(ps, refunds) == Total(ps, |ps|) <==> AllLand(ps, refunds)
    ensures AllLand(ps, refunds) ==> AllReversed(ps, refunds) <= Total(ps, |ps|)
    decreases |refunds|
  {
    if refunds != [] {
      OpenAfter(ps, refunds[0], |ps|);
      OpenAmountIsRightExactly(ps, refunds[0]);
      RefundsConserveExactly(After(ps, refunds[0]), refunds[1..]);
    }
  }

  /** Two refunds of 60 against one payment of 100 reverse 120. */
  lemma TwoPartialRefundsReverseTooMuch(ps: seq<Payment>)
    requires ps == [Payment(100, 30, 70, true, Recorded)]
    ensures AfterAll(ps, [60, 60]) == ps && AllReversed(ps, [60, 60]) == 120
    ensures !LandsOnBoundary(ps, 60)
  {
    assert LeftAfter(ps, 60, 0) == 60;
    assert ReversedAt(ps, 60, 0) == 60;
    assert After(ps, 60) == ps;
    assert TotalReversed(ps, 60, 1) == TotalReversed(ps, 60, 0) + 60;
    assert [60, 60][1..] == [60] && [60][1..] == [];
    assert Total(ps, 1) == Total(ps, 0) + 100;
    assert AllReversed(ps, [60]) == 60;
  }
}
