/** Character-level helpers used by the form: JavaScript's notion of white
    space, `String.prototype.trim`, and the decimal rendering of an integer
    inside a template literal. */
module Text {

  /** The characters `trim` removes: ECMAScript's WhiteSpace (TAB, VT, FF,
      ZWNBSP and every code point of Unicode category Zs) and LineTerminator
      (LF, CR, LINE SEPARATOR, PARAGRAPH SEPARATOR). */
  predicate IsSpace(c: char) {
    if c <= ' ' then
      c == ' ' || '\t' <= c <= '\r'
    else if c < '\U{2000}' then
      c == '\U{A0}' || c == '\U{1680}'
    else
      || c <= '\U{200A}' || c == '\U{2028}' || c == '\U{2029}' || c == '\U{202F}'
      || c == '\U{205F}' || c == '\U{3000}' || c == '\U{FEFF}'
  }

  /** Some character of `s` is not white space. */
  ghost predicate HasNonSpace(s: string) {
    exists i :: 0 <= i < |s| && !IsSpace(s[i])
  }

  /** A string `trim` leaves alone: empty, or starting and ending with a
      non-space character. */
  predicate IsTrimmed(s: string) {
    s == [] || (!IsSpace(s[0]) && !IsSpace(s[|s| - 1]))
  }

  /** Drops the leading white space: the result is a suffix of `s` that does
      not start with white space. */
  function TrimStart(s: string): (r: string)
    ensures |r| <= |s| && r == s[|s| - |r|..]
    ensures r == [] || !IsSpace(r[0])
  {
    if s != [] && IsSpace(s[0]) then TrimStart(s[1..]) else s
  }

  /** Drops the trailing white space: the result is a prefix of `s` that does
      not end with white space. */
  function TrimEnd(s: string): (r: string)
    ensures |r| <= |s| && r == s[..|r|]
    ensures r == [] || !IsSpace(r[|r| - 1])
  {
    if s != [] && IsSpace(s[|s| - 1]) then TrimEnd(s[..|s| - 1]) else s
  }

  /** `String.prototype.trim`: white space removed from both ends. */
  function Trim(s: string): (r: string)
    ensures IsTrimmed(r)
    ensures |r| <= |s|
  {
    TrimEnd(TrimStart(s))
  }

  /** How many white-space characters `trim` cuts from the front. */
  function LeadCount(s: string): (k: nat)
    ensures k <= |s|
  {
    |s| - |TrimStart(s)|
  }

  /** The trimmed string is a slice of the input. */
  lemma TrimIsSlice(s: string)
    ensures LeadCount(s) + |Trim(s)| <= |s|
    ensures Trim(s) == s[LeadCount(s)..LeadCount(s) + |Trim(s)|]
  {
    var t := TrimStart(s);
    assert t == s[LeadCount(s)..];
  }

  /** What `TrimStart` drops is white space. */
  lemma {:induction false} TrimStartDropsSpace(s: string)
    ensures forall i :: 0 <= i < |s| - |TrimStart(s)| ==> IsSpace(s[i])
  {
    if s != [] && IsSpace(s[0]) {
      TrimStartDropsSpace(s[1..]);
      forall i | 1 <= i < |s| - |TrimStart(s)| ensures IsSpace(s[i]) {
        assert s[1..][i - 1] == s[i];
      }
    }
  }

  /** What `TrimEnd` drops is white space. */
  lemma {:induction false} TrimEndDropsSpace(s: string)
    ensures forall i :: |TrimEnd(s)| <= i < |s| ==> IsSpace(s[i])
  {
    if s != [] && IsSpace(s[|s| - 1]) {
      var p := s[..|s| - 1];
      TrimEndDropsSpace(p);
      forall i | |TrimEnd(s)| <= i < |s| - 1 ensures IsSpace(s[i]) {
        assert p[i] == s[i];
      }
    }
  }

  /** Everything `trim` cuts off, on either side, is white space. */
  lemma TrimCutsSpace(s: string)
    ensures forall i :: 0 <= i < LeadCount(s) ==> IsSpace(s[i])
    ensures forall i :: LeadCount(s) + |Trim(s)| <= i < |s| ==> IsSpace(s[i])
  {
    TrimStartDropsSpace(s);
    var t, k := TrimStart(s), LeadCount(s);
    assert forall i :: k + |Trim(s)| <= i < |s| ==> IsSpace(s[i]) by {
      TrimEndDropsSpace(t);
      assert t == s[k..];
      forall i | k + |Trim(s)| <= i < |s| ensures IsSpace(s[i]) {
        assert s[i] == t[i - k];
      }
    }
  }

  /** `trim` gives "" exactly when the input is all white space. */
  lemma TrimEmptyIff(s: string)
    ensures Trim(s) == [] <==> !HasNonSpace(s)
  {
    TrimIsSlice(s);
    TrimCutsSpace(s);
    var k := LeadCount(s);
    if Trim(s) != [] {
      assert s[k] == Trim(s)[0];
    } else {
      assert TrimStart(s) == [];
    }
  }

  /** Trimming twice is trimming once. */
  lemma {:induction false} TrimIdempotent(s: string)
    ensures Trim(Trim(s)) == Trim(s)
  {
    TrimmedIsFixed(Trim(s));
  }

  /** `trim` leaves a trimmed string unchanged. */
  lemma TrimmedIsFixed(s: string)
    requires IsTrimmed(s)
    ensures Trim(s) == s
  {
  }

  /** A space in front of a trimmed string is trimmed away. */
  lemma TrimPadded(t: string)
    requires IsTrimmed(t)
    ensures Trim(" " + t) == t
  {
    var p := " " + t;
    assert TrimStart(p) == t by {
      assert p[0] == ' ' && p[1..] == t;
    }
  }

  /** A space on each side of a non-empty trimmed string is trimmed away. */
  lemma TrimSpaced(t: string)
    requires IsTrimmed(t) && t != []
    ensures Trim(" " + t + " ") == t
  {
    var p, q := " " + t + " ", t + " ";
    assert TrimStart(p) == q by {
      assert p[0] == ' ' && p[1..] == q;
      assert q[0] == t[0];
    }
    assert TrimEnd(q) == t by {
      assert q[|q| - 1] == ' ' && q[..|q| - 1] == t;
    }
  }

  /** Trimming cannot introduce a character the input did not contain. */
  lemma TrimKeepsOut(s: string, c: char)
    requires c !in s
    ensures c !in Trim(s)
  {
    TrimIsSlice(s);
    var k := LeadCount(s);
    forall i | 0 <= i < |Trim(s)| ensures Trim(s)[i] != c {
      assert Trim(s)[i] == s[k + i];
    }
  }

  function DigitChar(d: nat): (c: char)
    requires d < 10
  {
    ('0' as int + d) as char
  }

  function DigitValue(c: char): nat {
    if '0' <= c <= '9' then (c as int - '0' as int) as nat else 0
  }

  /** The decimal rendering of a non-negative integer, as `${n}` in a
      JavaScript template literal gives it: no sign, no leading zero. */
  function Decimal(n: nat): (r: string)
    ensures |r| >= 1
    ensures forall i :: 0 <= i < |r| ==> '0' <= r[i] <= '9'
    ensures r[0] == '0' ==> n == 0 && r == "0"
  {
    if n < 10 then [DigitChar(n)] else Decimal(n / 10) + [DigitChar(n % 10)]
  }

  /** The number a string of decimal digits denotes. */
  function DecimalValue(s: string): nat {
    if s == [] then 0 else DecimalValue(s[..|s| - 1]) * 10 + DigitValue(s[|s| - 1])
  }

  /** Reading the decimal rendering back gives the number. */
  lemma {:induction false} DecimalRoundTrip(n: nat)
    ensures DecimalValue(Decimal(n)) == n
  {
    if n >= 10 {
      DecimalRoundTrip(n / 10);
      var r := Decimal(n);
      assert r[..|r| - 1] == Decimal(n / 10);
      assert DigitValue(r[|r| - 1]) == n % 10;
      assert DecimalValue(r) == (n / 10) * 10 + n % 10;
    }
  }

  /** Different numbers render differently. */
  lemma DecimalInjective(m: nat, n: nat)
    requires Decimal(m) == Decimal(n)
    ensures m == n
  {
    DecimalRoundTrip(m);
    DecimalRoundTrip(n);
  }
}
