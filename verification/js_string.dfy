/** The JavaScript value and string operations the directory script relies
    on: a record property after JSON parsing, its truthiness, `String(v)`
    and template interpolation, `toLowerCase`, `replace(/\D/g, "")` and
    `String.prototype.includes`. */
module JsString {
  import opened Seqs

  /** A record property as the script reads it from the parsed response:
      missing (`undefined`), `null`, or a string. */
  datatype Field = Undefined | Null | Str(text: string)

  /** JavaScript truthiness of a property: only a non-empty string is truthy. */
  predicate Truthy(v: Field) {
    v.Str? && v.text != ""
  }

  /** `String(v)`, which is also what `${v}` in a template literal produces.
      It agrees with `String(v || "")` exactly for strings: a missing or
      `null` property becomes the text `undefined` or `null` instead of "". */
  function Interpolate(v: Field): (r: string)
    ensures r == OrEmpty(v) <==> v.Str?
  {
    match v
    case Undefined => "undefined"
    case Null => "null"
    case Str(t) => t
  }

  /** `String(v || "")`: a falsy property becomes the empty string, and a
      non-empty result is always the property's own text. */
  function OrEmpty(v: Field): (r: string)
    ensures r != "" <==> Truthy(v)
    ensures r != "" ==> v == Str(r)
  {
    if Truthy(v) then v.text else ""
  }

  // ----- toLowerCase -----

  predicate IsAsciiUpper(c: char) {
    'A' <= c <= 'Z'
  }

  /** Lower-cases one character; only ASCII letters have a case here. */
  function LowerChar(c: char): char {
    if IsAsciiUpper(c) then (c as int - 'A' as int + 'a' as int) as char else c
  }

  /** `s.toLowerCase()`, one character at a time. */
  function ToLowerCase(s: string): (r: string)
    ensures |r| == |s|
    ensures forall i :: 0 <= i < |s| ==> r[i] == LowerChar(s[i])
  {
    if s == [] then [] else [LowerChar(s[0])] + ToLowerCase(s[1..])
  }

  // ----- replace(/\D/g, "") -----

  /** `\d` without the `u` flag: the ASCII digits only. */
  predicate IsDigit(c: char) {
    '0' <= c <= '9'
  }

  predicate AllDigits(s: string) {
    forall i :: 0 <= i < |s| ==> IsDigit(s[i])
  }

  /** `s.replace(/\D/g, "")`: every non-digit is deleted, so the result
      holds only digits and is never longer than `s`. */
  function StripNonDigits(s: string): (r: string)
    ensures AllDigits(r)
    ensures |r| <= |s|
  {
    if s == [] then []
    else if IsDigit(s[0]) then [s[0]] + StripNonDigits(s[1..])
    else StripNonDigits(s[1..])
  }

  /** The kept digits stay in the order they had in `s`. */
  lemma {:induction false} StripNonDigitsInOrder(s: string)
    ensures IsSubsequence(StripNonDigits(s), s)
  {
    if s != [] {
      StripNonDigitsInOrder(s[1..]);
      var rest := StripNonDigits(s[1..]);
      if IsDigit(s[0]) {
        assert ([s[0]] + rest)[1..] == rest;
      }
    }
  }

  /** No digit is lost: each digit occurs in the result as often as in `s`,
      and no other character occurs at all. */
  lemma {:induction false} StripNonDigitsKeepsDigits(s: string)
    ensures forall c :: multiset(StripNonDigits(s))[c] == if IsDigit(c) then multiset(s)[c] else 0
  {
    if s != [] {
      StripNonDigitsKeepsDigits(s[1..]);
      assert s == [s[0]] + s[1..];
    }
  }

  /** Deleting non-digits distributes over concatenation. */
  lemma {:induction false} StripNonDigitsAppend(a: string, b: string)
    ensures StripNonDigits(a + b) == StripNonDigits(a) + StripNonDigits(b)
  {
    if a == [] {
      assert a + b == b;
    } else {
      assert (a + b)[0] == a[0];
      assert (a + b)[1..] == a[1..] + b;
      StripNonDigitsAppend(a[1..], b);
    }
  }

  /** A string is left unchanged exactly when it is already all digits. */
  lemma {:induction false} StripNonDigitsFixed(s: string)
    ensures StripNonDigits(s) == s <==> AllDigits(s)
  {
    if s != [] && AllDigits(s) {
      assert AllDigits(s[1..]) by {
        forall i | 0 <= i < |s[1..]| ensures IsDigit(s[1..][i]) {
          assert s[1..][i] == s[i + 1];
        }
      }
      StripNonDigitsFixed(s[1..]);
      assert s == [s[0]] + s[1..];
    }
  }

  /** Stripping twice is stripping once. */
  lemma StripNonDigitsIdempotent(s: string)
    ensures StripNonDigits(StripNonDigits(s)) == StripNonDigits(s)
  {
    StripNonDigitsFixed(StripNonDigits(s));
  }

  // ----- String.prototype.includes -----

  /** `s.includes(q)`: `q` occurs in `s` as a contiguous block. */
  predicate Includes(s: string, q: string) {
    exists i :: 0 <= i <= |s| && q <= s[i..]
  }

  /** A block of a block of `s` is a block of `s`. */
  lemma IncludesTransitive(s: string, m: string, q: string)
    requires Includes(s, m) && Includes(m, q)
    ensures Includes(s, q)
  {
    var i :| 0 <= i <= |s| && m <= s[i..];
    var j :| 0 <= j <= |m| && q <= m[j..];
    assert forall k :: 0 <= k < |q| ==> s[i + j..][k] == m[j + k] == q[k];
    assert q <= s[i + j..];
  }

  /** A block of `a` stays a block when text is appended after `a` or
      prepended before it. */
  lemma IncludesConcat(a: string, b: string, q: string)
    ensures Includes(a, q) ==> Includes(a + b, q)
    ensures Includes(b, q) ==> Includes(a + b, q)
  {
    if Includes(a, q) {
      var i :| 0 <= i <= |a| && q <= a[i..];
      assert forall k :: 0 <= k < |q| ==> (a + b)[i..][k] == a[i + k];
      assert q <= (a + b)[i..];
    }
    if Includes(b, q) {
      var i :| 0 <= i <= |b| && q <= b[i..];
      assert (a + b)[|a| + i..] == b[i..];
      assert q <= (a + b)[|a| + i..];
    }
  }
}
