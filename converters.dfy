/** The exchange-rate source, as the converters see it: a rate for an ordered
    pair of currencies, or a failure (network or parse error). */
module Rates {
  import opened Entities

  datatype RateLookup = Rate(value: real) | Unavailable

  type RateProvider = (CurrencyCode, CurrencyCode) -> RateLookup

  /** The rate source never quotes a negative rate. */
  ghost predicate RatesNonNegative(rates: RateProvider) {
    forall a, b :: rates(a, b).Rate? ==> rates(a, b).value >= 0.0
  }
}

/** `src/MiniBank.Core/Currencies/CurrencyConverter.cs`: multiplies by the rate. */
module Currencies {
  import opened Wrappers
  import opened Entities
  import opened Errors
  import opened Money
  import opened Rates

  function Convert(amount: real, fromCurrency: CurrencyCode, toCurrency: CurrencyCode, provider: RateProvider)
    : (r: Result<real, Error>)
    ensures amount < 0.0 <==> r == Err(Validation(AmountMustBePositive))
    ensures amount >= 0.0 ==> (r == Err(RateUnavailable) <==> provider(fromCurrency, toCurrency).Unavailable?)
    ensures r.Ok? ==> provider(fromCurrency, toCurrency).Rate? && IsCents(r.value)
    ensures r.Ok? ==> r.value == AtRate(amount, provider(fromCurrency, toCurrency).value)
    ensures r.Ok? && provider(fromCurrency, toCurrency).value >= 0.0 ==> r.value >= 0.0
  {
    if amount < 0.0 then Err(Validation(AmountMustBePositive))
    else
      match provider(fromCurrency, toCurrency)
      case Unavailable => Err(RateUnavailable)
      case Rate(rate) =>
        if rate >= 0.0 then AtRateNonNegative(amount, rate); Ok(AtRate(amount, rate))
        else Ok(AtRate(amount, rate))
  }

  /** `Math.Round(amount * rate, 2)`. */
  function AtRate(amount: real, rate: real): (r: real)
    ensures IsCents(r)
    ensures amount * rate - 0.005 <= r <= amount * rate + 0.005
  {
    Round2(amount * rate)
  }

  lemma AtRateNonNegative(amount: real, rate: real)
    requires amount >= 0.0 && rate >= 0.0
    ensures AtRate(amount, rate) >= 0.0
  {
    assert amount * rate >= 0.0;
    Round2NonNegative(amount * rate);
  }

  /** A negative amount is rejected whatever the provider would answer:
      the provider is not consulted before the guard. */
  lemma GuardPrecedesProvider(amount: real, fromCurrency: CurrencyCode, toCurrency: CurrencyCode,
                              p: RateProvider, q: RateProvider)
    requires amount < 0.0
    ensures Convert(amount, fromCurrency, toCurrency, p) == Convert(amount, fromCurrency, toCurrency, q)
  {
  }

  /** The only rate consulted is the one for the ordered pair (from, to). */
  lemma UsesOrderedPair(amount: real, fromCurrency: CurrencyCode, toCurrency: CurrencyCode,
                        p: RateProvider, q: RateProvider)
    requires p(fromCurrency, toCurrency) == q(fromCurrency, toCurrency)
    ensures Convert(amount, fromCurrency, toCurrency, p) == Convert(amount, fromCurrency, toCurrency, q)
  {
  }

  /** At rate 1 a non-negative whole-cents amount converts to itself. */
  lemma UnitRateKeepsCents(amount: real, fromCurrency: CurrencyCode, toCurrency: CurrencyCode, p: RateProvider)
    requires amount >= 0.0 && IsCents(amount)
    requires p(fromCurrency, toCurrency) == Rate(1.0)
    ensures Convert(amount, fromCurrency, toCurrency, p) == Ok(amount)
  {
    Round2OfCents(amount);
  }
}

/** `MiniBank.Core/Currencies/CurrencyConverter.cs`: divides by the rate. */
module LegacyCurrencies {
  import opened Wrappers
  import opened Entities
  import opened Errors
  import opened Money
  import opened Rates
  import Currencies

  function Convert(amount: real, fromCurrency: CurrencyCode, toCurrency: CurrencyCode, provider: RateProvider)
    : (r: Result<real, Error>)
    ensures amount < 0.0 <==> r == Err(Validation(AmountMustBePositive))
    ensures amount >= 0.0 ==> (r == Err(RateUnavailable) <==> provider(fromCurrency, toCurrency).Unavailable?)
    ensures amount >= 0.0 ==> (r == Err(NotFinite) <==> provider(fromCurrency, toCurrency) == Rate(0.0))
    ensures r.Ok? ==> provider(fromCurrency, toCurrency).Rate? && provider(fromCurrency, toCurrency).value != 0.0
    ensures r.Ok? ==> r.value == AtRate(amount, provider(fromCurrency, toCurrency).value)
    ensures r.Ok? && provider(fromCurrency, toCurrency).value > 0.0 ==> r.value >= 0.0
  {
    if amount < 0.0 then Err(Validation(AmountMustBePositive))
    else
      match provider(fromCurrency, toCurrency)
      case Unavailable => Err(RateUnavailable)
      case Rate(rate) =>
        if rate == 0.0 then Err(NotFinite)
        else if rate > 0.0 then AtRateNonNegative(amount, rate); Ok(AtRate(amount, rate))
        else Ok(AtRate(amount, rate))
  }

  /** `Math.Round(amount / rate, 2)`. */
  function AtRate(amount: real, rate: real): (r: real)
    requires rate != 0.0
    ensures IsCents(r)
    ensures amount / rate - 0.005 <= r <= amount / rate + 0.005
  {
    Round2(amount / rate)
  }

  lemma AtRateNonNegative(amount: real, rate: real)
    requires amount >= 0.0 && rate > 0.0
    ensures AtRate(amount, rate) >= 0.0
  {
    assert amount / rate >= 0.0;
    Round2NonNegative(amount / rate);
  }

  /** The old converter is the new one fed with the reciprocal rate: the two
      revisions read the provider's rate in opposite directions. */
  lemma DividesWhereSrcMultiplies(amount: real, fromCurrency: CurrencyCode, toCurrency: CurrencyCode,
                                  p: RateProvider, q: RateProvider)
    requires amount >= 0.0
    requires p(fromCurrency, toCurrency).Rate? && q(fromCurrency, toCurrency).Rate?
    requires p(fromCurrency, toCurrency).value * q(fromCurrency, toCurrency).value == 1.0
    ensures Convert(amount, fromCurrency, toCurrency, p) == Currencies.Convert(amount, fromCurrency, toCurrency, q)
  {
    ReciprocalRate(amount, p(fromCurrency, toCurrency).value, q(fromCurrency, toCurrency).value);
  }

  lemma ReciprocalRate(amount: real, rate: real, inverse: real)
    requires rate * inverse == 1.0
    ensures rate != 0.0 && AtRate(amount, rate) == Currencies.AtRate(amount, inverse)
  {
    assert Currencies.AtRate(amount, inverse) == Round2(amount * inverse);
    assert AtRate(amount, rate) == Round2(amount / rate);
    assert amount * inverse == amount / rate;
    SameRounding(amount * inverse, amount / rate);
  }

  /** Solver helper: equal amounts round alike. */
  lemma SameRounding(x: real, y: real)
    requires x == y
    ensures Round2(x) == Round2(y)
  {
  }
}

/** `MiniBank.Core/CurrencyConverter.cs` and `MiniBank.Core/RublesCoverter.cs`:
    32-bit integer amounts and rates, C#'s truncating division. */
module IntegerConverters {
  import opened Wrappers
  import opened Errors

  type Int32 = x: int | -0x8000_0000 <= x < 0x8000_0000

  function Abs(x: int): nat {
    if x < 0 then -x else x
  }

  /** C#'s `a / b` on integers: the quotient rounded toward zero. */
  function TruncatingDiv(a: int, b: int): int
    requires b != 0
  {
    var m := Abs(a) / Abs(b);
    if (a < 0) != (b < 0) then -m else m
  }

  /** Solver helper: a quotient of naturals lies between zero and the
      dividend. */
  lemma {:induction false} QuotientBound(a: nat, b: nat)
    requires b >= 1
    ensures 0 <= a / b <= a
  {
    var q := a / b;
    assert a == q * b + a % b;
    assert q * (b - 1) >= 0;
    assert q * b == q * (b - 1) + q;
  }

  /** For a non-negative amount and a positive rate the result is the
      whole number of times the rate fits into the amount, so it lies
      between zero and the amount. */
  lemma {:induction false} TruncatingDivIsQuotient(a: nat, b: int)
    requires b >= 1
    ensures TruncatingDiv(a, b) * b <= a < (TruncatingDiv(a, b) + 1) * b
    ensures 0 <= TruncatingDiv(a, b) <= a
  {
    var q := a / b;
    assert TruncatingDiv(a, b) == q;
    assert a == q * b + a % b;
    QuotientBound(a, b);
  }

  /** `CurrencyConverter.Convert`: the rate comes from a provider
      function of the ordered pair of currency codes. */
  function Convert(amount: Int32, fromCurrency: string, toCurrency: string, provider: (string, string) -> Int32)
    : (r: Result<Int32, Error>)
    ensures amount < 0 <==> r == Err(UserFriendly(AmountMustBePositive))
    ensures amount >= 0 ==> (r == Err(DivideByZero) <==> provider(fromCurrency, toCurrency) == 0)
    ensures r.Ok? ==> r.value == TruncatingDiv(amount, provider(fromCurrency, toCurrency))
    ensures r.Ok? && provider(fromCurrency, toCurrency) > 0 ==> 0 <= r.value <= amount
    ensures r.Ok? && provider(fromCurrency, toCurrency) < 0 ==> -amount <= r.value <= 0
  {
    if amount < 0 then Err(UserFriendly(AmountMustBePositive))
    else
      var rate := provider(fromCurrency, toCurrency);
      if rate == 0 then Err(DivideByZero)
      else
        QuotientBound(amount, Abs(rate));
        Ok(TruncatingDiv(amount, rate))
  }

  /** `RublesConverter.Convert`: the rate is keyed by a single currency code. */
  function RublesConvert(amount: Int32, currencyCode: string, database: string -> Int32): (r: Result<Int32, Error>)
    ensures amount < 0 <==> r == Err(UserFriendly(AmountMustBePositive))
    ensures amount >= 0 ==> (r == Err(DivideByZero) <==> database(currencyCode) == 0)
    ensures r.Ok? ==> r.value == TruncatingDiv(amount, database(currencyCode))
    ensures r.Ok? && database(currencyCode) > 0 ==> 0 <= r.value <= amount
    ensures r.Ok? && database(currencyCode) < 0 ==> -amount <= r.value <= 0
  {
    if amount < 0 then Err(UserFriendly(AmountMustBePositive))
    else
      var rate := database(currencyCode);
      if rate == 0 then Err(DivideByZero)
      else
        QuotientBound(amount, Abs(rate));
        Ok(TruncatingDiv(amount, rate))
  }

  /** A zero amount converts to zero at every non-zero rate. */
  lemma ZeroAmount(fromCurrency: string, toCurrency: string, provider: (string, string) -> Int32)
    requires provider(fromCurrency, toCurrency) != 0
    ensures Convert(0, fromCurrency, toCurrency, provider) == Ok(0)
  {
  }

  /** With the random stub source (a rate in [0, 100)) a conversion fails
      only on a negative amount or a zero rate, and otherwise lies in
      [0, amount]. */
  lemma {:induction false} StubRates(amount: Int32, fromCurrency: string, toCurrency: string, provider: (string, string) -> Int32)
    requires 0 <= provider(fromCurrency, toCurrency) < 100
    ensures Convert(amount, fromCurrency, toCurrency, provider).Ok? <==> amount >= 0 && provider(fromCurrency, toCurrency) != 0
    ensures Convert(amount, fromCurrency, toCurrency, provider).Ok? ==>
              0 <= Convert(amount, fromCurrency, toCurrency, provider).value <= amount
  {
  }

  /** The rubles converter is the pair converter with the rate looked up by
      the source code alone. */
  lemma RublesIsPairWithSourceKey(amount: Int32, currencyCode: string, toCurrency: string,
                                  database: string -> Int32, provider: (string, string) -> Int32)
    requires provider(currencyCode, toCurrency) == database(currencyCode)
    ensures RublesConvert(amount, currencyCode, database) == Convert(amount, currencyCode, toCurrency, provider)
  {
  }
}
