/** Decimal digits: the printer, the reader, and the ids of audit events, which are made of two numbers. */
module Decimals {

  const COUNTER_LIMIT := 0x1_0000_0000_0000_0000

  // Decimal digits, as std::to_string writes a count.
  function Decimal(n: nat): (digits: string)
    ensures digits != "" && forall i :: 0 <= i < |digits| ==> '0' <= digits[i] <= '9'
  {
    var last := (n % 10 + '0' as int) as char;
    if n < 10 then [last] else Decimal(n / 10) + [last]
  }

  predicate IsDigit(c: char) {
    '0' <= c <= '9'
  }

  function DecimalValue(digits: string): nat
    requires forall i :: 0 <= i < |digits| ==> IsDigit(digits[i])
  {
    if digits == "" then 0
    else
      var last := digits[|digits| - 1];
      assert IsDigit(last);
      10 * DecimalValue(digits[..|digits| - 1]) + (last as int - '0' as int)
  }

  lemma {:induction false} DecimalRoundTrip(n: nat)
    ensures DecimalValue(Decimal(n)) == n
  {
    var digits := Decimal(n);
    if n >= 10 {
      DecimalRoundTrip(n / 10);
      assert digits[..|digits| - 1] == Decimal(n / 10);
    } else {
      assert DecimalValue("") == 0 && digits[..0] == "";
    }
  }

  // make_event_id: the clock, which may be anything, and a counter that wraps around.
  function EventId(now: int, counter: nat): string {
    "event-" + (if now < 0 then "-" + Decimal(-now) else Decimal(now)) + "-" + Decimal(counter % COUNTER_LIMIT)
  }

  lemma DigitsEnd(a: string, b: string, digits: string, more: string)
    requires a + ['-'] + digits == b + ['-'] + more
    requires '-' !in digits && '-' !in more
    ensures digits == more
  {
    var x, y := a + ['-'] + digits, b + ['-'] + more;
    assert x[|a|] == '-' && y[|b|] == '-';
    assert forall k :: |a| < k < |x| ==> x[k] == digits[k - |a| - 1];
    assert forall k :: |b| < k < |y| ==> y[k] == more[k - |b| - 1];
    assert x[|a| + 1..] == digits && y[|b| + 1..] == more;
  }

  // Whatever the clock shows, ids with different counters differ.
  lemma EventIdsDiffer(now: int, counter: nat, later: int, other: nat)
    requires counter % COUNTER_LIMIT != other % COUNTER_LIMIT
    ensures EventId(now, counter) != EventId(later, other)
  {
    var x, y := Decimal(counter % COUNTER_LIMIT), Decimal(other % COUNTER_LIMIT);
    DecimalRoundTrip(counter % COUNTER_LIMIT);
    DecimalRoundTrip(other % COUNTER_LIMIT);
    if EventId(now, counter) == EventId(later, other) {
      var a := "event-" + (if now < 0 then "-" + Decimal(-now) else Decimal(now));
      var b := "event-" + (if later < 0 then "-" + Decimal(-later) else Decimal(later));
      DigitsEnd(a, b, x, y);
    }
  }
}
