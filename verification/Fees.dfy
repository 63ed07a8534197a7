/** Fee arithmetic: integers only, truncation in the customer's favour. */
module Fees {

  /** Settings in force when a fee is computed; basis points never exceed 10000. */
  datatype Rates = Rates(
    depositBps: int, depositFlat: int, depositMin: int, depositMax: int,
    transactionBps: int, transactionFlat: int, fxBps: int)

  /** Basis points of an amount, truncated. */
  function ApplyBps(amount: int, bps: int): int {
    if bps <= 0 || amount <= 0 then 0 else (amount * bps) / 10_000
  }

  function Clamp(fee: int, min: int, max: int): int {
    var raised := if min > 0 && fee < min then min else fee;
    var result := if max > 0 && raised > max then max else raised;
    if result < 0 then 0 else result
  }

  /** What a confirmed deposit is charged: never more than the deposit. */
  function DepositFee(rates: Rates, amount: int): int {
    var raw := ApplyBps(amount, rates.depositBps) + rates.depositFlat;
    var fee := Clamp(raw, rates.depositMin, rates.depositMax);
    if fee > amount then amount else fee
  }

  /** What a card authorization reserves on top of the spend. */
  function TransactionFee(rates: Rates, amount: int, foreign: bool): int {
    var fee := ApplyBps(amount, rates.transactionBps) + rates.transactionFlat +
               if foreign then ApplyBps(amount, rates.fxBps) else 0;
    if fee < 0 then 0 else fee
  }

  // -------------------------------------------------------------- Quotients

  lemma QuotientGrowth(x: int, e: int, d: int)
    requires 0 <= e <= 10_000 * d
    ensures 0 <= (x + e) / 10_000 - x / 10_000 <= d
  {
  }

  lemma {:induction false} AtMostWhole(d: int, bps: int)
    requires 0 <= d && 0 <= bps <= 10_000
    ensures 0 <= d * bps <= 10_000 * d
  {
    if d == 0 {
    } else {
      AtMostWhole(d - 1, bps);
      assert d * bps == (d - 1) * bps + bps;
    }
  }

  // ---------------------------------------------------------- Basis points

  /**
   * A charge of so many ten-thousandths of an amount: the most whole units that
   * do not exceed it, and nothing of an amount or rate that is not positive.
   */
  predicate IsCharge(charge: int, amount: int, bps: int) {
    if amount <= 0 || bps <= 0 then charge == 0
    else 10_000 * charge <= amount * bps < 10_000 * (charge + 1)
  }

  lemma ApplyBpsCharges(amount: int, bps: int, charge: int)
    ensures IsCharge(charge, amount, bps) <==> charge == ApplyBps(amount, bps)
  {
    var product := amount * bps;
    assert 10_000 * (product / 10_000) <= product < 10_000 * (product / 10_000 + 1);
  }

  /** A larger amount is charged no less, and by no more than the difference. */
  lemma BpsGrowth(amount: int, more: int, bps: int)
    requires amount <= more && bps <= 10_000
    ensures 0 <= ApplyBps(more, bps) - ApplyBps(amount, bps) <= more - amount
  {
    if bps > 0 && more > 0 {
      var base := if amount > 0 then amount else 0;
      AtMostWhole(more - base, bps);
      assert more * bps == base * bps + (more - base) * bps;
      QuotientGrowth(base * bps, (more - base) * bps, more - base);
    }
  }

  lemma QuotientSplit(p: int, q: int)
    ensures (p + q) / 10_000 - 1 <= p / 10_000 + q / 10_000 <= (p + q) / 10_000
  {
  }

  /** Charging two parts never costs more than charging the whole, and at most one unit less. */
  lemma BpsSplit(x: int, y: int, bps: int)
    requires x >= 0 && y >= 0
    ensures ApplyBps(x + y, bps) - 1 <= ApplyBps(x, bps) + ApplyBps(y, bps) <= ApplyBps(x + y, bps)
  {
    if bps > 0 {
      assert (x + y) * bps == x * bps + y * bps;
      QuotientSplit(x * bps, y * bps);
    }
  }

  // ---------------------------------------------------------- Deposit fees

  lemma ClampGrowth(fee: int, more: int, min: int, max: int)
    requires fee <= more
    ensures 0 <= Clamp(more, min, max) - Clamp(fee, min, max) <= more - fee
  {
  }

  /** A deposit fee lies between zero and the deposit, whatever the settings. */
  lemma DepositFeeInRange(rates: Rates, amount: int)
    requires amount >= 0
    ensures 0 <= DepositFee(rates, amount) <= amount
  {
  }

  /** Whatever the amount, the fee does not exceed it; a deposit below nothing would be all fee. */
  lemma DepositFeeAtMost(rates: Rates, amount: int)
    ensures DepositFee(rates, amount) <= amount
    ensures amount >= 0 ==> DepositFee(rates, amount) >= 0
    ensures amount < 0 ==> DepositFee(rates, amount) == amount
  {
  }

  /**
   * A raw fee after its limits. No fee exceeds the deposit; below that a
   * positive maximum has the last word, over a larger raw fee and over a larger
   * minimum; then a positive minimum; and no fee is negative.
   */
  predicate IsLimited(raw: int, min: int, max: int, deposit: int, fee: int) {
    var limited :=
      if max > 0 && (raw > max || min > max) then max
      else if min > 0 && raw < min then min
      else if raw < 0 then 0
      else raw;
    fee == if limited > deposit then deposit else limited
  }

  /** The fee of a deposit, said of the settings: the charge and the flat part, limited. */
  ghost predicate IsDepositFee(rates: Rates, amount: int, fee: int) {
    exists charge ::
      && IsCharge(charge, amount, rates.depositBps)
      && IsLimited(charge + rates.depositFlat, rates.depositMin, rates.depositMax, amount, fee)
  }

  lemma DepositFeeIs(rates: Rates, amount: int, fee: int)
    ensures IsDepositFee(rates, amount, fee) <==> fee == DepositFee(rates, amount)
  {
    var charge := ApplyBps(amount, rates.depositBps);
    forall c ensures IsCharge(c, amount, rates.depositBps) <==> c == charge {
      ApplyBpsCharges(amount, rates.depositBps, c);
    }
    assert IsCharge(charge, amount, rates.depositBps);
  }

  /** A minimum fee no smaller than the deposit takes all of it. */
  lemma MinimumTakesAll(rates: Rates, amount: int)
    requires 0 < amount <= rates.depositMin && rates.depositMax <= 0
    ensures DepositFee(rates, amount) == amount
  {
  }

  /** Depositing more never costs less and never credits less. */
  lemma DepositFeeMonotone(rates: Rates, amount: int, more: int)
    requires 0 <= amount <= more && rates.depositBps <= 10_000
    ensures DepositFee(rates, amount) <= DepositFee(rates, more)
    ensures amount - DepositFee(rates, amount) <= more - DepositFee(rates, more)
  {
    BpsGrowth(amount, more, rates.depositBps);
    ClampGrowth(ApplyBps(amount, rates.depositBps) + rates.depositFlat,
                ApplyBps(more, rates.depositBps) + rates.depositFlat, rates.depositMin, rates.depositMax);
  }

  /** The deposits the ledger can credit are those above some threshold. */
  lemma CreditableUpwards(rates: Rates, amount: int, more: int)
    requires 0 <= amount <= more && rates.depositBps <= 10_000
    requires DepositFee(rates, amount) < amount
    ensures DepositFee(rates, more) < more
  {
    DepositFeeMonotone(rates, amount, more);
  }

  /** The fee of a card spend, said of the settings: charge, flat part and a foreign tap's margin, if not negative. */
  ghost predicate IsCardFee(rates: Rates, amount: int, foreign: bool, fee: int) {
    exists charge, margin ::
      && IsCharge(charge, amount, rates.transactionBps)
      && IsCharge(margin, amount, rates.fxBps)
      && var total := charge + rates.transactionFlat + if foreign then margin else 0;
         fee == if total < 0 then 0 else total
  }

  lemma TransactionFeeIs(rates: Rates, amount: int, foreign: bool, fee: int)
    ensures IsCardFee(rates, amount, foreign, fee) <==> fee == TransactionFee(rates, amount, foreign)
  {
    var charge, margin := ApplyBps(amount, rates.transactionBps), ApplyBps(amount, rates.fxBps);
    forall c ensures IsCharge(c, amount, rates.transactionBps) <==> c == charge {
      ApplyBpsCharges(amount, rates.transactionBps, c);
    }
    forall m ensures IsCharge(m, amount, rates.fxBps) <==> m == margin {
      ApplyBpsCharges(amount, rates.fxBps, m);
    }
    assert IsCharge(charge, amount, rates.transactionBps) && IsCharge(margin, amount, rates.fxBps);
  }

  /** A foreign tap costs more than a domestic one by the margin: so many basis points of the spend, truncated. */
  lemma ForeignMargin(rates: Rates, amount: int, margin: int)
    requires rates.transactionFlat >= 0 && IsCharge(margin, amount, rates.fxBps)
    ensures TransactionFee(rates, amount, true) == TransactionFee(rates, amount, false) + margin
  {
    ApplyBpsCharges(amount, rates.fxBps, margin);
  }

  /** Spending more reserves no smaller a fee, and a foreign tap none smaller than a domestic one. */
  lemma TransactionFeeMonotone(rates: Rates, amount: int, more: int, foreign: bool)
    requires 0 <= amount <= more && rates.transactionBps <= 10_000 && rates.fxBps <= 10_000
    ensures 0 <= TransactionFee(rates, amount, foreign) <= TransactionFee(rates, more, foreign)
    ensures TransactionFee(rates, amount, false) <= TransactionFee(rates, amount, true)
  {
    BpsGrowth(amount, more, rates.transactionBps);
    BpsGrowth(amount, more, rates.fxBps);
    BpsGrowth(0, amount, rates.fxBps);
  }
}
