/** Values and string operations shared by every panel: the optional value,
    the record status, and the few JavaScript string and number conversions
    the panels rely on (`includes`, `trim`, `toLowerCase`, number-to-text,
    `parseInt` on digit strings, and `Number(text) || 0`). */
module Common {

  datatype Option<T> = None | Some(value: T)

  /** The record status every clinical panel carries; "pending" after
      creation and after a reset. */
  datatype Status = Pending | InProgress | Completed | Clarification

  // ---------------------------------------------------------------------
  // Substrings (String.prototype.includes)
  // ---------------------------------------------------------------------

  predicate IsPrefix(p: string, s: string)
  {
    |p| <= |s| && s[..|p|] == p
  }

  /** `s.includes(t)`: `t` occurs somewhere in `s` (the empty string occurs
      everywhere). */
  predicate Contains(s: string, t: string)
    decreases |s|
  {
    IsPrefix(t, s) || (|s| > 0 && Contains(s[1..], t))
  }

  /** `t` occurs in `s` starting at position `i`. */
  predicate OccursAt(s: string, t: string, i: int)
  {
    0 <= i && i + |t| <= |s| && s[i..i + |t|] == t
  }

  /** The recursive definition means "some window of `s` equals `t`". */
  lemma {:induction false} ContainsIff(s: string, t: string)
    ensures Contains(s, t) <==> exists i :: OccursAt(s, t, i)
    decreases |s|
  {
    if IsPrefix(t, s) {
      assert OccursAt(s, t, 0);
    } else if |s| == 0 {
      assert forall i :: !OccursAt(s, t, i);
    } else {
      ContainsIff(s[1..], t);
      if Contains(s[1..], t) {
        var i :| OccursAt(s[1..], t, i);
        assert s[1..][i..i + |t|] == s[i + 1..i + 1 + |t|];
        assert OccursAt(s, t, i + 1);
      } else {
        forall i | 0 < i ensures !OccursAt(s, t, i) {
          if OccursAt(s, t, i) {
            assert s[1..][i - 1..i - 1 + |t|] == s[i..i + |t|];
            assert OccursAt(s[1..], t, i - 1);
          }
        }
      }
    }
  }

  /** Whatever surrounds it, a string contains itself. */
  lemma ContainsInfix(a: string, t: string, b: string)
    ensures Contains(a + t + b, t)
  {
    var s := a + t + b;
    assert s[|a|..|a| + |t|] == t;
    assert OccursAt(s, t, |a|);
    ContainsIff(s, t);
  }

  /** The empty search term is found in every string. */
  lemma ContainsEmpty(s: string)
    ensures Contains(s, "")
  {
    assert IsPrefix("", s);
  }

  // ---------------------------------------------------------------------
  // trim() and toLowerCase()
  // ---------------------------------------------------------------------

  /** The characters `String.prototype.trim` removes: the ECMAScript
      WhiteSpace and LineTerminator code points. */
  predicate IsWhitespace(c: char)
  {
    || c == '\t' || c == '\n' || c == '\r' || c == '\U{000B}' || c == '\U{000C}' || c == ' '
    || c == '\U{00A0}' || c == '\U{1680}' || ('\U{2000}' <= c <= '\U{200A}')
    || c == '\U{2028}' || c == '\U{2029}' || c == '\U{202F}' || c == '\U{205F}'
    || c == '\U{3000}' || c == '\U{FEFF}'
  }

  /** `!s.trim()`: the string is empty once its surrounding white space is
      removed, that is, it holds nothing but white space. */
  predicate IsBlank(s: string)
  {
    forall i :: 0 <= i < |s| ==> IsWhitespace(s[i])
  }

  function LowerChar(c: char): (d: char)
    ensures 'A' <= c <= 'Z' ==> 'a' <= d <= 'z' && d as int - c as int == 32
    ensures !('A' <= c <= 'Z') ==> d == c
  {
    if 'A' <= c <= 'Z' then (c as int + 32) as char else c
  }

  /** `s.toLowerCase()` on the Latin capitals. */
  function ToLower(s: string): string
  {
    seq(|s|, i requires 0 <= i < |s| => LowerChar(s[i]))
  }

  predicate HasCapital(s: string)
  {
    exists i :: 0 <= i < |s| && 'A' <= s[i] <= 'Z'
  }

  /** Lower-casing keeps the length, leaves no capital behind, is
      idempotent, and changes a string exactly when it has a capital. */
  lemma ToLowerSpec(s: string)
    ensures |ToLower(s)| == |s|
    ensures !HasCapital(ToLower(s))
    ensures ToLower(ToLower(s)) == ToLower(s)
    ensures ToLower(s) == s <==> !HasCapital(s)
  {
    var r := ToLower(s);
    if HasCapital(s) {
      var i :| 0 <= i < |s| && 'A' <= s[i] <= 'Z';
      assert r[i] != s[i];
    }
  }

  /** Lower-casing works character by character, so it distributes over
      concatenation. */
  lemma ToLowerConcat(a: string, b: string)
    ensures ToLower(a + b) == ToLower(a) + ToLower(b)
  {
  }

  // ---------------------------------------------------------------------
  // Decimal text: template-literal `${n}` and parseInt on digit strings
  // ---------------------------------------------------------------------

  predicate IsDigit(c: char)
  {
    '0' <= c <= '9'
  }

  /** A non-empty run of decimal digits. */
  predicate IsDecimal(s: string)
  {
    |s| > 0 && forall i :: 0 <= i < |s| ==> IsDigit(s[i])
  }

  function DigitChar(d: nat): (c: char)
    requires d < 10
    ensures IsDigit(c) && c as int - '0' as int == d
  {
    ('0' as int + d) as char
  }

  /** `${n}` for a non-negative integer n. */
  function NatToString(n: nat): (s: string)
    ensures IsDecimal(s)
    ensures n < 10 <==> |s| == 1
  {
    if n < 10 then [DigitChar(n)] else NatToString(n / 10) + [DigitChar(n % 10)]
  }

  /** `parseInt(s)` when `s` is all digits. */
  function DecimalValue(s: string): nat
    requires IsDecimal(s)
  {
    var last := s[|s| - 1] as int - '0' as int;
    if |s| == 1 then last else 10 * DecimalValue(s[..|s| - 1]) + last
  }

  /** parseInt undoes the decimal rendering of a number. */
  lemma {:induction false} DecimalRoundTrip(n: nat)
    ensures DecimalValue(NatToString(n)) == n
  {
    if n >= 10 {
      var s := NatToString(n);
      assert s[..|s| - 1] == NatToString(n / 10);
      DecimalRoundTrip(n / 10);
    }
  }

  // ---------------------------------------------------------------------
  // `Number(text) || 0`
  // ---------------------------------------------------------------------

  /** The value a page-number box stores for typed text: the number the text
      denotes, or 0 when it denotes none (`NaN`, which is falsy). `typed` is
      `Some(n)` when the text denotes the integer `n`, `None` otherwise. */
  function NumberOrZero(typed: Option<int>): int
  {
    match typed
    case None => 0
    case Some(n) => n
  }
}
