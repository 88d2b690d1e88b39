/** Shared vocabulary of the model: optional values, results, and the few
    Python string operations the core relies on (`in` on strings,
    `str.lower()` on ASCII text, `str(int)`), each defined once. */
module Common {

  /** Python's `None` versus a present value. */
  datatype Option<+T> = None | Some(value: T) {
    function GetOr(default: T): T {
      match this
      case Some(v) => v
      case None => default
    }
  }

  /** A value or the exception that the Python code would raise instead. */
  datatype Result<+T, +E> = Ok(value: T) | Err(error: E)

  /** Truthiness of an optional string: present and non-empty. */
  predicate Truthy(s: Option<string>) {
    s.Some? && s.value != ""
  }

  /** `needle` occurs in `s` starting at index `i`. */
  predicate OccursAt(s: string, needle: string, i: nat) {
    i + |needle| <= |s| && s[i..i + |needle|] == needle
  }

  /** Python's `needle in s` for strings: some position holds `needle`. */
  predicate Contains(s: string, needle: string)
    decreases |s|
  {
    OccursAt(s, needle, 0) || (|s| > 0 && Contains(s[1..], needle))
  }

  lemma {:induction false} ContainsWitness(s: string, needle: string)
    ensures Contains(s, needle) <==> exists i :: 0 <= i <= |s| && OccursAt(s, needle, i)
    decreases |s|
  {
    if |s| > 0 {
      ContainsWitness(s[1..], needle);
      if Contains(s[1..], needle) {
        var i :| 0 <= i <= |s[1..]| && OccursAt(s[1..], needle, i);
        assert s[1..][i..i + |needle|] == s[i + 1..i + 1 + |needle|];
        assert OccursAt(s, needle, i + 1);
      }
      if i :| 0 <= i <= |s| && OccursAt(s, needle, i) {
        if i > 0 {
          assert s[1..][i - 1..i - 1 + |needle|] == s[i..i + |needle|];
          assert OccursAt(s[1..], needle, i - 1);
        }
      }
    } else {
      if i :| 0 <= i <= |s| && OccursAt(s, needle, i) {
        assert i == 0;
      }
    }
  }

  /** A string without the needle's first character does not contain it. */
  lemma {:induction false} NotContainsWithoutFirstChar(s: string, needle: string)
    requires |needle| > 0
    requires forall k :: 0 <= k < |s| ==> s[k] != needle[0]
    ensures !Contains(s, needle)
    decreases |s|
  {
    if |s| > 0 {
      NotContainsWithoutFirstChar(s[1..], needle);
      assert |needle| <= |s| ==> s[..|needle|][0] == s[0];
    }
  }

  /** ASCII `str.lower()` on one character. */
  function LowerChar(c: char): char {
    if 'A' <= c <= 'Z' then (c as int + 32) as char else c
  }

  /** ASCII `str.lower()`. */
  function Lower(s: string): (r: string)
    ensures |r| == |s|
    ensures forall i :: 0 <= i < |s| ==> r[i] == LowerChar(s[i])
  {
    if s == [] then [] else [LowerChar(s[0])] + Lower(s[1..])
  }

  /** Decimal digits of a natural number, most significant first (`str(n)`). */
  function NatToString(n: nat): (r: string)
    ensures |r| > 0
    ensures AllDigits(r)
    decreases n
  {
    if n < 10 then [(n + '0' as int) as char]
    else NatToString(n / 10) + [(n % 10 + '0' as int) as char]
  }

  /** Python's `str(i)` for an integer. */
  function IntToString(i: int): string {
    if i < 0 then "-" + NatToString(-i) else NatToString(i)
  }

  /** Every character is a decimal digit. */
  predicate AllDigits(s: string) {
    forall i :: 0 <= i < |s| ==> '0' <= s[i] <= '9'
  }

  /** Reads back a string of decimal digits. */
  function ParseDigits(s: string): nat
    requires AllDigits(s)
  {
    if s == [] then 0
    else 10 * ParseDigits(s[..|s| - 1]) + (s[|s| - 1] as int - '0' as int)
  }

  /** Reads back what `IntToString` writes. */
  function ParseInt(s: string): Option<int> {
    if |s| > 1 && s[0] == '-' && AllDigits(s[1..]) then
      var magnitude: int := ParseDigits(s[1..]);
      Some(-magnitude)
    else if |s| > 0 && AllDigits(s) then
      Some(ParseDigits(s))
    else None
  }

  lemma {:induction false} NatToStringRoundTrip(n: nat)
    ensures ParseDigits(NatToString(n)) == n
    decreases n
  {
    if n >= 10 {
      NatToStringRoundTrip(n / 10);
      var s := NatToString(n);
      assert s[..|s| - 1] == NatToString(n / 10);
    }
  }

  /** A minus sign followed by digits reads back as the negated digits. */
  lemma ParseNegative(digits: string)
    requires |digits| > 0 && AllDigits(digits)
    ensures ParseInt("-" + digits) == Some(-(ParseDigits(digits) as int))
  {
    var s := "-" + digits;
    assert s[0] == '-' && s[1..] == digits;
  }

  /** Digits without a sign read back as themselves. */
  lemma ParsePlain(digits: string)
    requires |digits| > 0 && AllDigits(digits)
    ensures ParseInt(digits) == Some(ParseDigits(digits) as int)
  {
    assert digits[0] != '-';
  }

  /** `int(str(i)) == i`: the decimal rendering loses nothing. */
  lemma IntToStringRoundTrip(i: int)
    ensures ParseInt(IntToString(i)) == Some(i)
  {
    if i < 0 {
      NatToStringRoundTrip(-i);
      ParseNegative(NatToString(-i));
    } else {
      NatToStringRoundTrip(i);
      ParsePlain(NatToString(i));
    }
  }

  /** `2 ** n` for the backoff schedule. */
  function Pow2(n: nat): (r: nat)
    ensures r >= 1
  {
    if n == 0 then 1 else 2 * Pow2(n - 1)
  }
}
