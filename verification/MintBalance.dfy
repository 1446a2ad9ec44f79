/** The balance check before a mint, and whether the amounts it quotes are enough. Lamports, and base units of a
    token; quotes are rounded to thousandths of a SOL or of a token. */
module MintBalance {
  import opened Constants

  datatype Standard = Core | OtherStandard

  datatype Order = Order(mintPrice: nat, numberOfItems: nat, isSolPayment: bool, isSponsored: bool,
                         standard: Standard, tokenDecimals: nat)

  datatype Verdict =
    | Enough
    | NeedSolForFees(lamports: nat)
    | NeedSolForPurchase(lamports: nat)
    | NeedToken(thousandths: nat)

  const LAMPORTS_PER_THOUSANDTH := 1000000

  /** toFixed(3) of a number of SOL, in thousandths: the nearest, the larger one of two. */
  function SolThousandths(lamports: nat): nat {
    (lamports + LAMPORTS_PER_THOUSANDTH / 2) / LAMPORTS_PER_THOUSANDTH
  }

  function CalculateMissingSOL(missingFunds: nat): nat {
    (SolThousandths(missingFunds) + 1) * LAMPORTS_PER_THOUSANDTH
  }

  function PowerOfTen(n: nat): (p: nat)
    ensures p > 0
  {
    if n == 0 then 1 else 10 * PowerOfTen(n - 1)
  }

  /** The number of units nearest to `amount`, the larger one of two. */
  function Nearest(amount: nat, unit: nat): nat
    requires unit > 0
  {
    (2 * amount + unit) / (2 * unit)
  }

  /** toFixed(3) of a number of tokens, in thousandths: 1000 * missingFunds in units of 10^decimals. */
  function CalculateMissingToken(missingFunds: nat, decimals: nat): nat {
    Nearest(1000 * missingFunds, PowerOfTen(decimals))
  }

  function TotalMintPrice(o: Order): nat {
    o.numberOfItems * o.mintPrice
  }

  function FeesRequired(o: Order): nat {
    if o.isSponsored then 0
    else o.numberOfItems * (if o.standard == Core then MIN_CORE_MINT_PROTOCOL_FEE else MIN_MINT_PROTOCOL_FEE)
  }

  /** All the SOL an order takes. */
  function SolRequired(o: Order): nat {
    (if o.isSolPayment then TotalMintPrice(o) else 0) + FeesRequired(o)
  }

  function ValidateBalance(o: Order, solBalance: nat, tokenBalance: nat): Verdict {
    if solBalance < FeesRequired(o) then NeedSolForFees(CalculateMissingSOL(SolRequired(o) - solBalance))
    else if o.isSolPayment && solBalance < TotalMintPrice(o) + FeesRequired(o) then
      NeedSolForPurchase(CalculateMissingSOL(SolRequired(o) - solBalance))
    else if !o.isSolPayment && tokenBalance < TotalMintPrice(o) then
      NeedToken(CalculateMissingToken(TotalMintPrice(o) - tokenBalance, o.tokenDecimals))
    else Enough
  }

  lemma {:induction false} SolQuote(missing: nat)
    ensures missing + 500000 < CalculateMissingSOL(missing) <= missing + 1500000
  {}

  /** In numbers: `price` is what the items cost, `fees` 5500000 lamports for each Core item and 29000000 for any other,
      unless the mint is sponsored. The check passes exactly when the SOL balance covers the fees, and the price on top
      of them or the token balance the price; otherwise it names what is missing first. */
  lemma {:induction false} EnoughExactly(o: Order, sol: nat, token: nat, price: nat, fees: nat)
    requires price == o.numberOfItems * o.mintPrice
    requires fees == if o.isSponsored then 0 else if o.standard == Core then o.numberOfItems * 5500000
                     else o.numberOfItems * 29000000
    ensures var verdict := ValidateBalance(o, sol, token);
            && (verdict == Enough <==> if o.isSolPayment then fees + price <= sol else fees <= sol && price <= token)
            && (verdict.NeedSolForFees? <==> sol < fees)
            && (verdict.NeedSolForPurchase? <==> o.isSolPayment && fees <= sol < fees + price)
            && (verdict.NeedToken? <==> !o.isSolPayment && fees <= sol && token < price)
    ensures SolRequired(o) == if o.isSolPayment then fees + price else fees
    ensures TotalMintPrice(o) == price
  {}

  /** A quote in SOL exceeds the whole shortfall, fees and price together, by more than 0.0005 and at most
      0.0015 SOL: after topping up by it no check asks for SOL again. */
  lemma {:induction false} SolQuoteSuffices(o: Order, sol: nat, token: nat)
    requires ValidateBalance(o, sol, token).NeedSolForFees? || ValidateBalance(o, sol, token).NeedSolForPurchase?
    ensures var quote, shortfall := ValidateBalance(o, sol, token).lamports, SolRequired(o) - sol;
            && 0 < shortfall
            && shortfall + 500000 < quote <= shortfall + 1500000
            && !ValidateBalance(o, sol + quote, token).NeedSolForFees?
            && !ValidateBalance(o, sol + quote, token).NeedSolForPurchase?
            && (o.isSolPayment ==> ValidateBalance(o, sol + quote, token) == Enough)
  {
    SolQuote(SolRequired(o) - sol);
  }

  // ---------- the token quote ----------

  lemma {:induction false} QuotientBounds(a: nat, b: nat)
    requires b > 0
    ensures a / b * b <= a < a / b * b + b
  {}

  lemma {:induction false} NearestBounds(amount: nat, unit: nat)
    requires unit > 0
    ensures 2 * amount - unit < 2 * (Nearest(amount, unit) * unit) <= 2 * amount + unit
  {
    var q := Nearest(amount, unit);
    QuotientBounds(2 * amount + unit, 2 * unit);
    assert q * (2 * unit) == 2 * (q * unit);
  }

  /** The token quote is within half a thousandth of the shortfall, either way. */
  lemma {:induction false} TokenQuote(missing: nat, decimals: nat)
    ensures var unit, quote := PowerOfTen(decimals), CalculateMissingToken(missing, decimals);
            2000 * missing - unit < 2 * (quote * unit) <= 2000 * missing + unit
  {
    NearestBounds(1000 * missing, PowerOfTen(decimals));
  }

  /** The fraction of a thousandth that the shortfall leaves over. */
  function Leftover(missing: nat, decimals: nat): nat {
    (1000 * missing) % PowerOfTen(decimals)
  }

  /** Topping up by the quote, exactly. */
  predicate Covers(o: Order, token: nat, quote: nat) {
    1000 * token + quote * PowerOfTen(o.tokenDecimals) >= 1000 * TotalMintPrice(o)
  }

  lemma {:induction false} Multiples(d: int, unit: nat)
    ensures d >= 2 ==> d * unit >= 2 * unit
    ensures d <= -1 ==> d * unit <= 0 - unit
  {}

  /** `d` units above the whole ones, within half a unit of what is left over. */
  lemma {:induction false} RoundedLeftover(left: nat, unit: nat, d: int)
    requires left < unit && 2 * left - unit < 2 * (d * unit) <= 2 * left + unit
    ensures d * unit >= left <==> left == 0 || 2 * left >= unit
  {
    Multiples(d, unit);
    assert d == 0 || d == 1;
  }

  lemma {:induction false} RoundsUpExactly(amount: nat, unit: nat)
    requires unit > 0
    ensures Nearest(amount, unit) * unit >= amount <==> amount % unit == 0 || 2 * (amount % unit) >= unit
  {
    var quote, whole, left := Nearest(amount, unit), amount / unit, amount % unit;
    NearestBounds(amount, unit);
    assert amount == whole * unit + left;
    assert quote * unit == whole * unit + (quote - whole) * unit;
    RoundedLeftover(left, unit, quote - whole);
  }

  /** It is enough exactly when rounding to thousandths did not round down. */
  lemma {:induction false} TokenQuoteSufficesExactly(o: Order, sol: nat, token: nat)
    requires ValidateBalance(o, sol, token).NeedToken?
    ensures var missing := TotalMintPrice(o) - token;
            Covers(o, token, ValidateBalance(o, sol, token).thousandths)
            <==> Leftover(missing, o.tokenDecimals) == 0
                 || 2 * Leftover(missing, o.tokenDecimals) >= PowerOfTen(o.tokenDecimals)
  {
    var missing := TotalMintPrice(o) - token;
    RoundsUpExactly(1000 * missing, PowerOfTen(o.tokenDecimals));
  }

  /** A short quote: 0.0014 of a token with six decimals is quoted as 0.001. */
  lemma {:induction false} TokenQuoteCanBeShort(o: Order)
    requires o == Order(1400, 1, false, true, Core, 6)
    ensures ValidateBalance(o, 0, 0) == NeedToken(1) && !Covers(o, 0, 1)
  {
    assert PowerOfTen(3) == 1000;
    assert PowerOfTen(6) == 1000000;
  }
}
