/** How the client sees the outcome of a `fetch`. */
module Http {
  import opened Strings

  /** A request either got a reply with a status and a decoded JSON body, or
      was rejected (network failure, or a body that is not JSON) with the
      platform's error message. */
  datatype Reply<T> = Reply(status: nat, body: T) | Rejected(message: string)

  /** `response.ok`: the status is in the 2xx range. */
  predicate Ok(status: nat)
  {
    200 <= status <= 299
  }

  /** The message of the error thrown for a reply that is not OK. */
  function StatusError(status: nat): string
  {
    "HTTP error! status: " + Decimal(status)
  }

  /** The status can be read back from the end of the error message. */
  lemma StatusErrorNamesStatus(status: nat)
    ensures var m := StatusError(status);
      && |m| > 20
      && m[..20] == "HTTP error! status: "
      && (forall i :: 20 <= i < |m| ==> IsDigit(m[i]))
      && ParseDecimal(m[20..]) == status
  {
    var m := StatusError(status);
    assert m[20..] == Decimal(status);
    DecimalRoundTrip(status);
  }
}
