// When a refund deadline leaves enough time to pay an invoice and claim.

module TimelockPolicy {

  import opened Prelude

  datatype Code = Safe | RefundAfterInvalid | TimelockTooShort | InvoiceExpiryStrict | InvoiceExpiryMargin

  // A missing, non-integer or non-positive time reads as None.
  function UnixOrNone(t: Option<int>): Option<int> {
    match t
    case None => None
    case Some(n) => if n <= 0 then None else t
  }

  function Evaluate(refundAfter: Option<int>, invoiceExpiry: Option<int>, now: Option<int>,
                    minRemaining: int, margin: int, strict: bool): Code
  {
    match UnixOrNone(refundAfter)
    case None => RefundAfterInvalid
    case Some(r) =>
      var n := UnixOrNone(now);
      if n.Some? && r - n.value < minRemaining then TimelockTooShort
      else
        match UnixOrNone(invoiceExpiry)
        case None => Safe
        case Some(x) =>
          if strict then if r <= x + minRemaining then InvoiceExpiryStrict else Safe
          else if r < x + margin then InvoiceExpiryMargin else Safe
  }

  // The positive times among the given ones, if they are given.
  predicate IsTime(t: Option<int>) {
    t.Some? && t.value > 0
  }

  // Each verdict, by the times alone: an unusable refund time, then one too near now, then one too near
  // the expiry of the invoice; anything else is safe.
  lemma VerdictExactly(refundAfter: Option<int>, invoiceExpiry: Option<int>, now: Option<int>, minRemaining: int, margin: int, strict: bool)
    ensures var v := Evaluate(refundAfter, invoiceExpiry, now, minRemaining, margin, strict);
      var soon := IsTime(refundAfter) && IsTime(now) && refundAfter.value < now.value + minRemaining;
      var early := IsTime(refundAfter) && IsTime(invoiceExpiry) &&
        (if strict then refundAfter.value <= invoiceExpiry.value + minRemaining else refundAfter.value < invoiceExpiry.value + margin);
      && (v == RefundAfterInvalid <==> !IsTime(refundAfter))
      && (v == TimelockTooShort <==> soon)
      && (v == InvoiceExpiryStrict <==> !soon && early && strict)
      && (v == InvoiceExpiryMargin <==> !soon && early && !strict)
      && (v == Safe <==> IsTime(refundAfter) && !soon && !early)
  {
  }

  // A verdict of Safe leaves the claimant at least minRemaining seconds after every moment at which
  // the invoice may still be paid (strict form), or margin seconds after its expiry.
  lemma SafeWindow(r: int, x: int, now: int, minRemaining: int, margin: int, strict: bool, payAt: int)
    requires r > 0 && x > 0 && now > 0
    requires Evaluate(Some(r), Some(x), Some(now), minRemaining, margin, strict) == Safe
    requires now <= payAt <= x
    ensures strict ==> payAt + minRemaining < r
    ensures !strict ==> payAt + margin <= r
    ensures now + minRemaining <= r
  {
  }
}
