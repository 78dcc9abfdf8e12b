/** Upper-case hexadecimal digits, as `{:02X}` writes them. */
module Hex {

  function HexDigit(n: int): char
    requires 0 <= n < 16
  {
    if n < 10 then '0' + n as char else 'A' + (n - 10) as char
  }

  /** The value of an upper-case hex digit, -1 for any other character. */
  function HexValue(c: char): (v: int)
    ensures -1 <= v < 16
  {
    if '0' <= c <= '9' then c as int - '0' as int
    else if 'A' <= c <= 'F' then c as int - 'A' as int + 10
    else -1
  }

  lemma HexRoundTrip(n: int)
    requires 0 <= n < 16
    ensures HexValue(HexDigit(n)) == n
    ensures HexDigit(n) !in {' ', '\t', '=', '_', '\r', '\n', ';', '"'}
  {
  }
}
