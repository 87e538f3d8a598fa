/**
 * Host text helpers: the `StringJoiner` join and the decimal text of a `long`
 * (`Long.toString`), which the runtime value printing relies on.
 */
module Text {

  /** `String.join(separator, parts)`: the parts in order, separated by `separator`. */
  function Join(parts: seq<string>, separator: string): string
  {
    if |parts| == 0 then ""
    else if |parts| == 1 then parts[0]
    else parts[0] + separator + Join(parts[1..], separator)
  }

  /** Adding one more part to a non-empty joiner appends the separator and the part. */
  lemma {:induction false} JoinSnoc(parts: seq<string>, part: string, separator: string)
    requires |parts| > 0
    ensures Join(parts + [part], separator) == Join(parts, separator) + separator + part
  {
    if |parts| == 1 {
      assert parts + [part] == [parts[0], part];
      assert (parts + [part])[1..] == [part];
    } else {
      assert (parts + [part])[1..] == parts[1..] + [part];
      JoinSnoc(parts[1..], part, separator);
    }
  }

  function DigitChar(d: nat): char
    requires d < 10
  {
    "0123456789"[d]
  }

  /** Decimal digits of a natural number, most significant first, without leading zeros. */
  function NatText(n: nat): (r: string)
    ensures |r| > 0
    ensures forall i :: 0 <= i < |r| ==> '0' <= r[i] <= '9'
  {
    if n < 10 then [DigitChar(n)] else NatText(n / 10) + [DigitChar(n % 10)]
  }

  /** `Long.toString`: an optional minus sign followed by the decimal digits. */
  function DecimalText(n: int): (r: string)
    ensures |r| > 0
    ensures (r[0] == '-') <==> n < 0
  {
    if n < 0 then "-" + NatText(-n) else NatText(n)
  }
}
