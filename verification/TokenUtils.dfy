/** The per-token maximum, compared in base units. */
module TokenUtils {
  import opened Amount
  import opened Numerals
  import opened Schema
  import opened Wrappers

  datatype MaxError = NotConvertible(cause: AmountError) | AboveMax

  function CheckMax(maxPerToken: map<string, string>, token: string, amount: string,
      decimals: int): Result<(), MaxError>
  {
    var key := ToLower(token);
    if key !in maxPerToken then Success(())
    else
      var units, limit := ToBaseUnits(amount, decimals), ToBaseUnits(maxPerToken[key], decimals);
      if units.Failure? then Failure(NotConvertible(units.error))
      else if limit.Failure? then Failure(NotConvertible(limit.error))
      else
        var n, m := ParseBigInt(units.value), ParseBigInt(limit.value);
        if n.Some? && m.Some? && n.value <= m.value then Success(()) else Failure(AboveMax)
  }

  /** However the token's address is written, it meets the limit configured for it, and no other one. */
  lemma AnyCaseMeetsItsLimit(maxPerToken: map<string, string>, token: string, key: string, amount: string,
      decimals: int)
    requires SameLetters(token, key) && NoCapitals(key)
    ensures CheckMax(maxPerToken, token, amount, decimals).Success? <==>
            (key in maxPerToken ==>
               && Accepted(amount, decimals) && Accepted(maxPerToken[key], decimals)
               && AtMost(Trim(amount), Trim(maxPerToken[key])))
  {
    LowerExactly(token, key);
    CheckMaxDecidesDecimals(maxPerToken, token, amount, decimals);
  }

  /** The check in base units decides exactly the comparison of the decimal numbers. */
  lemma CheckMaxDecidesDecimals(maxPerToken: map<string, string>, token: string, amount: string, decimals: int)
    ensures CheckMax(maxPerToken, token, amount, decimals).Success? <==>
            (ToLower(token) in maxPerToken ==>
               var limit := maxPerToken[ToLower(token)];
               Accepted(amount, decimals) && Accepted(limit, decimals) && AtMost(Trim(amount), Trim(limit)))
    ensures CheckMax(maxPerToken, token, amount, decimals) == Failure(AboveMax) <==>
            && ToLower(token) in maxPerToken
            && Accepted(amount, decimals) && Accepted(maxPerToken[ToLower(token)], decimals)
            && !AtMost(Trim(amount), Trim(maxPerToken[ToLower(token)]))
  {
    hide Trim, Dot, NatOf, Digits, ToBaseUnits, ToLower, AtMost, Units;
    if ToLower(token) in maxPerToken {
      var limit := maxPerToken[ToLower(token)];
      ToBaseUnitsExact(amount, decimals);
      ToBaseUnitsExact(limit, decimals);
      if Accepted(amount, decimals) && Accepted(limit, decimals) {
        ParsePrinted(Units(amount, decimals));
        ParsePrinted(Units(limit, decimals));
        BaseUnitsOrder(amount, limit, decimals);
      }
    }
  }
}
