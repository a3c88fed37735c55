/** The JavaScript string operations the handlers rely on: `trim()`,
    `toLowerCase()`, `includes()` and the decimal rendering of an integer in a
    template literal. */
module Text {

  /** WhiteSpace and LineTerminator of ECMAScript, the set `trim()` strips:
      TAB, LF, VT, FF, CR, SPACE, NBSP, U+1680, U+2000..U+200A, LS, PS,
      U+202F, U+205F, U+3000 and the byte order mark U+FEFF. */
  predicate IsJsWhitespace(c: char) {
    || ('\t' <= c <= '\r')
    || c == ' ' || c == '\U{00A0}' || c == '\U{1680}'
    || ('\U{2000}' <= c <= '\U{200A}')
    || c == '\U{2028}' || c == '\U{2029}' || c == '\U{202F}' || c == '\U{205F}'
    || c == '\U{3000}' || c == '\U{FEFF}'
  }

  predicate AllWhitespace(s: string) {
    forall i :: 0 <= i < |s| ==> IsJsWhitespace(s[i])
  }

  /** A string that `trim()` leaves alone: empty, or not starting or ending in whitespace. */
  predicate Trimmed(s: string) {
    s == [] || (!IsJsWhitespace(s[0]) && !IsJsWhitespace(s[|s| - 1]))
  }

  /** Number of whitespace characters that open `s`. */
  function LeadingWhitespace(s: string): (k: nat)
    ensures k <= |s|
    ensures AllWhitespace(s[..k])
    ensures k < |s| ==> !IsJsWhitespace(s[k])
  {
    if |s| == 0 || !IsJsWhitespace(s[0]) then 0
    else
      var k := 1 + LeadingWhitespace(s[1..]);
      assert s[..k] == [s[0]] + s[1..][..k - 1];
      k
  }

  /** Number of whitespace characters that close `s`. */
  function TrailingWhitespace(s: string): (k: nat)
    ensures k <= |s|
    ensures AllWhitespace(s[|s| - k..])
    ensures k < |s| ==> !IsJsWhitespace(s[|s| - 1 - k])
  {
    if |s| == 0 || !IsJsWhitespace(s[|s| - 1]) then 0
    else
      var p := s[..|s| - 1];
      var k := 1 + TrailingWhitespace(p);
      assert s[|s| - k..] == p[|p| - (k - 1)..] + [s[|s| - 1]];
      k
  }

  /** `String.prototype.trim`: the slice of `s` between its leading and its
      trailing whitespace. */
  function Trim(s: string): (r: string)
    ensures Trimmed(r)
    ensures |r| <= |s|
  {
    var t := s[LeadingWhitespace(s)..];
    t[..|t| - TrailingWhitespace(t)]
  }

  /** `trim()` removes exactly the whitespace padding around a trimmed core. */
  lemma {:induction false} TrimPadded(lead: string, core: string, trail: string)
    requires AllWhitespace(lead) && AllWhitespace(trail) && Trimmed(core)
    ensures Trim(lead + core + trail) == core
  {
    var s := lead + core + trail;
    var k := LeadingWhitespace(s);
    if core == [] {
      assert s == lead + trail;
      assert AllWhitespace(s);
      assert k == |s|;
    } else {
      assert s[|lead|] == core[0];
      assert k == |lead|;
      var t := s[k..];
      assert t == core + trail;
      var m := TrailingWhitespace(t);
      assert t[|t| - 1 - |trail|] == core[|core| - 1];
      assert m == |trail|;
      assert t[..|t| - m] == core;
    }
  }

  lemma TrimIdempotent(s: string)
    ensures Trim(Trim(s)) == Trim(s)
  {
    TrimPadded([], Trim(s), []);
    assert [] + Trim(s) + [] == Trim(s);
  }

  /** `toLowerCase()` on one character; only the ASCII letters are mapped. */
  function LowerChar(c: char): char {
    if 'A' <= c <= 'Z' then (c as int + 32) as char else c
  }

  function Lower(s: string): (r: string)
    ensures |r| == |s|
    ensures forall i :: 0 <= i < |s| ==> r[i] == LowerChar(s[i])
  {
    seq(|s|, i requires 0 <= i < |s| => LowerChar(s[i]))
  }

  /** `String(x).trim().toLowerCase()`, the normal form both the server and
      the client compare answers in. */
  function Normalize(s: string): string {
    Lower(Trim(s))
  }

  /** Two answers agree when they are equal after trimming and lower-casing. */
  predicate SameAnswer(a: string, b: string) {
    Normalize(a) == Normalize(b)
  }

  /** Lower-casing keeps whitespace where it was. */
  lemma LowerKeepsTrimmed(t: string)
    requires Trimmed(t)
    ensures Trimmed(Lower(t))
  {
    var l := Lower(t);
    if l != [] {
      assert l[0] == LowerChar(t[0]);
      assert l[|l| - 1] == LowerChar(t[|t| - 1]);
    }
  }

  lemma LowerIdempotent(s: string)
    ensures Lower(Lower(s)) == Lower(s)
  {
  }

  /** Normalizing is idempotent, so normalized answers compare as themselves. */
  lemma NormalizeIdempotent(s: string)
    ensures Normalize(Normalize(s)) == Normalize(s)
  {
    var l := Lower(Trim(s));
    LowerKeepsTrimmed(Trim(s));
    TrimPadded([], l, []);
    assert [] + l + [] == l;
    LowerIdempotent(Trim(s));
  }

  /** Padding an answer with whitespace does not change how it compares. */
  lemma SameAnswerIgnoresPadding(lead: string, a: string, trail: string)
    requires AllWhitespace(lead) && AllWhitespace(trail)
    ensures SameAnswer(lead + a + trail, a)
  {
    var l, t := TrimDecompose(a);
    assert lead + a + trail == (lead + l) + Trim(a) + (t + trail);
    TrimPadded(lead + l, Trim(a), t + trail);
  }

  /** The padding `trim()` removes, as two whitespace strings. */
  lemma TrimDecompose(a: string) returns (lead: string, trail: string)
    ensures a == lead + Trim(a) + trail
    ensures AllWhitespace(lead) && AllWhitespace(trail)
  {
    var i := LeadingWhitespace(a);
    var t := a[i..];
    var m := TrailingWhitespace(t);
    lead, trail := a[..i], t[|t| - m..];
    SliceSplit(a, i, t, m);
  }

  lemma SliceSplit(a: string, i: nat, t: string, m: nat)
    requires i <= |a| && t == a[i..] && m <= |t|
    ensures a == a[..i] + t[..|t| - m] + t[|t| - m..]
  {
    assert t == t[..|t| - m] + t[|t| - m..];
    assert a == a[..i] + t;
  }

  lemma LowerConcat(x: string, y: string)
    ensures Lower(x + y) == Lower(x) + Lower(y)
  {
  }

  lemma LowerWhitespace(w: string)
    requires AllWhitespace(w)
    ensures Lower(w) == w
  {
  }

  /** Lower-casing leaves whitespace alone, so it commutes with `trim()`. */
  lemma TrimLowerCommute(a: string)
    ensures Trim(Lower(a)) == Lower(Trim(a))
  {
    var lead, trail := TrimDecompose(a);
    var core := Trim(a);
    LowerConcat(lead + core, trail);
    LowerConcat(lead, core);
    LowerWhitespace(lead);
    LowerWhitespace(trail);
    assert Lower(a) == lead + Lower(core) + trail;
    LowerKeepsTrimmed(core);
    TrimPadded(lead, Lower(core), trail);
  }

  /** Changing the case of the ASCII letters of an answer does not change how
      it compares. */
  lemma SameAnswerIgnoresCase(a: string)
    ensures SameAnswer(Lower(a), a)
  {
    TrimLowerCommute(a);
    LowerIdempotent(Trim(a));
  }

  /** The specification of `s.includes(sub)`: `sub` occurs somewhere in `s`. */
  ghost predicate OccursIn(sub: string, s: string) {
    exists i :: OccursAt(sub, s, i)
  }

  predicate OccursAt(sub: string, s: string, i: int) {
    0 <= i && i + |sub| <= |s| && s[i..i + |sub|] == sub
  }

  /** `s.includes(sub)`, by scanning the start positions of `s`. */
  function Includes(s: string, sub: string): bool
    decreases |s|
  {
    (|sub| <= |s| && s[..|sub|] == sub) || (|s| > 0 && Includes(s[1..], sub))
  }

  lemma {:induction false} IncludesCorrect(s: string, sub: string)
    ensures Includes(s, sub) <==> OccursIn(sub, s)
    decreases |s|
  {
    if |sub| <= |s| && s[..|sub|] == sub {
      assert OccursAt(sub, s, 0);
    } else if |s| > 0 {
      IncludesCorrect(s[1..], sub);
      if OccursIn(sub, s[1..]) {
        var i :| OccursAt(sub, s[1..], i);
        assert OccursAt(sub, s, i + 1);
      }
      if OccursIn(sub, s) {
        var i :| OccursAt(sub, s, i);
        assert i != 0;
        assert OccursAt(sub, s[1..], i - 1);
      }
    } else {
      assert |sub| > 0;
    }
  }

  /** One decimal digit. */
  function DigitChar(d: nat): char
    requires d < 10
  {
    ('0' as int + d) as char
  }

  predicate IsDigit(c: char) {
    '0' <= c <= '9'
  }

  /** The value of a string of decimal digits, as `parseInt(s, 10)` reads it. */
  function DigitsValue(s: string): nat
    requires forall i :: 0 <= i < |s| ==> IsDigit(s[i])
  {
    if s == [] then 0
    else
      assert IsDigit(s[|s| - 1]);
      10 * DigitsValue(s[..|s| - 1]) + (s[|s| - 1] as int - '0' as int)
  }

  /** The decimal rendering of a natural number in a template literal:
      digits only, no leading zero, reading back as the number. */
  function DecimalNat(n: nat): (r: string)
    ensures |r| >= 1
    ensures forall i :: 0 <= i < |r| ==> IsDigit(r[i])
    ensures r[0] == '0' ==> n == 0
    ensures DigitsValue(r) == n
  {
    if n < 10 then [DigitChar(n)]
    else
      var r := DecimalNat(n / 10) + [DigitChar(n % 10)];
      assert r[..|r| - 1] == DecimalNat(n / 10);
      r
  }

  /** `${n}` for an integer `n`. */
  function Decimal(n: int): (r: string)
    ensures n < 0 <==> (|r| > 0 && r[0] == '-')
    ensures n >= 0 ==> (forall i :: 0 <= i < |r| ==> IsDigit(r[i])) && DigitsValue(r) == n
    ensures n < 0 ==> |r| >= 2 && (forall i :: 1 <= i < |r| ==> IsDigit(r[i])) && DigitsValue(r[1..]) == -n
  {
    if n < 0 then "-" + DecimalNat(-n) else DecimalNat(n)
  }
}
