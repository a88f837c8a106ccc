/** Text semantics the handlers rely on: Python's `str.strip()`, PostgreSQL's
    `ILIKE` pattern match and `CAST(text AS INTEGER)`, and the ordering of
    text columns by code point (the "C" collation). */
module TextOps {
  import opened Store
  import opened Ordering

  // ---------------------------------------------------------------------
  // str.strip()

  /** The code points of the characters Python's `str.isspace()` accepts. */
  const SpaceCodes: set<int> := {
    0x09, 0x0A, 0x0B, 0x0C, 0x0D, 0x1C, 0x1D, 0x1E, 0x1F, 0x20, 0x85, 0xA0, 0x1680,
    0x2000, 0x2001, 0x2002, 0x2003, 0x2004, 0x2005, 0x2006, 0x2007, 0x2008, 0x2009, 0x200A,
    0x2028, 0x2029, 0x202F, 0x205F, 0x3000 }

  predicate IsSpace(c: char) {
    c as int in SpaceCodes
  }

  /** The first index at or after `i` that does not hold white space. */
  function SkipSpaces(s: string, i: nat): (r: nat)
    requires i <= |s|
    ensures i <= r <= |s| && (forall k :: i <= k < r ==> IsSpace(s[k])) && (r == |s| || !IsSpace(s[r]))
    decreases |s| - i
  {
    if i < |s| && IsSpace(s[i]) then SkipSpaces(s, i + 1) else i
  }

  /** Where the run of white space that ends at `j` begins, not going below `lo`. */
  function SkipSpacesBack(s: string, lo: nat, j: nat): (r: nat)
    requires lo <= j <= |s|
    ensures lo <= r <= j && (forall k :: r <= k < j ==> IsSpace(s[k])) && (r == lo || !IsSpace(s[r - 1]))
    decreases j
  {
    if lo < j && IsSpace(s[j - 1]) then SkipSpacesBack(s, lo, j - 1) else j
  }

  /** `s.strip()`: a slice of `s` that drops only white space, from both ends,
      and neither starts nor ends with white space. */
  function Strip(s: string): (r: string)
    ensures exists i, j :: 0 <= i <= j <= |s| && r == s[i..j]
                           && (forall k :: 0 <= k < i ==> IsSpace(s[k]))
                           && (forall k :: j <= k < |s| ==> IsSpace(s[k]))
    ensures r == [] || (!IsSpace(r[0]) && !IsSpace(r[|r| - 1]))
  {
    var i := SkipSpaces(s, 0);
    var j := SkipSpacesBack(s, i, |s|);
    s[i..j]
  }

  // ---------------------------------------------------------------------
  // ILIKE

  /** `s LIKE p`: `%` matches any run of characters, `_` any one character,
      and a backslash makes the next pattern character literal. */
  predicate LikeMatch(s: string, p: string)
    decreases |s| + |p|
  {
    if p == [] then s == []
    else if p[0] == '%' then LikeMatch(s, p[1..]) || (s != [] && LikeMatch(s[1..], p))
    else if p[0] == '_' then s != [] && LikeMatch(s[1..], p[1..])
    else if p[0] == '\\' then |p| >= 2 && s != [] && s[0] == p[1] && LikeMatch(s[1..], p[2..])
    else s != [] && s[0] == p[0] && LikeMatch(s[1..], p[1..])
  }

  function LowerChar(c: char): char {
    if 'A' <= c <= 'Z' then (c as int + 32) as char else c
  }

  function Lower(s: string): (r: string)
    ensures |r| == |s| && forall k :: 0 <= k < |s| ==> r[k] == LowerChar(s[k])
  {
    seq(|s|, k requires 0 <= k < |s| => LowerChar(s[k]))
  }

  /** `s ILIKE p`: LIKE after folding both sides to lower case. */
  predicate ILike(s: string, p: string) {
    LikeMatch(Lower(s), Lower(p))
  }

  /** `q` holds none of the characters LIKE treats specially. */
  predicate Literal(q: string) {
    forall k :: 0 <= k < |q| ==> q[k] != '%' && q[k] != '_' && q[k] != '\\'
  }

  /** `q` is a prefix of `t`. */
  predicate IsPrefix(q: string, t: string) {
    |q| <= |t| && t[..|q|] == q
  }

  /** `q` occurs in `s` as a contiguous piece. */
  predicate Contains(s: string, q: string) {
    exists k :: 0 <= k <= |s| && IsPrefix(q, s[k..])
  }

  /** Without `%`, `_` or backslash a pattern matches only itself. */
  lemma {:induction false} LiteralPatternIsEquality(s: string, p: string)
    requires Literal(p)
    ensures LikeMatch(s, p) <==> s == p
    decreases |p|
  {
    if p != [] {
      assert p[0] != '%' && p[0] != '_' && p[0] != '\\';
      if s != [] {
        assert Literal(p[1..]) by {
          forall k | 0 <= k < |p[1..]| ensures p[1..][k] != '%' && p[1..][k] != '_' && p[1..][k] != '\\' {
            assert p[1..][k] == p[k + 1];
          }
        }
        LiteralPatternIsEquality(s[1..], p[1..]);
        if s[0] == p[0] {
          assert s == [s[0]] + s[1..] && p == [p[0]] + p[1..];
        }
      }
    }
  }

  lemma LowerIdempotent(s: string)
    ensures Lower(Lower(s)) == Lower(s)
  {
  }

  /** `ILIKE` does not see the case of ASCII letters on either side. */
  lemma ILikeIgnoresCase(s: string, p: string)
    ensures ILike(Lower(s), p) <==> ILike(s, p)
    ensures ILike(s, Lower(p)) <==> ILike(s, p)
  {
    LowerIdempotent(s);
    LowerIdempotent(p);
  }

  lemma {:induction false} PercentMatchesAll(s: string)
    ensures LikeMatch(s, "%")
    decreases |s|
  {
    if s != [] {
      PercentMatchesAll(s[1..]);
    }
  }

  /** For a literal `q`, `s LIKE q || '%'` holds exactly when `q` is a prefix of `s`. */
  lemma {:induction false} LiteralPrefixMatch(s: string, q: string)
    requires Literal(q)
    ensures LikeMatch(s, q + "%") <==> IsPrefix(q, s)
    decreases |q|
  {
    if q == [] {
      assert q + "%" == "%";
      PercentMatchesAll(s);
    } else {
      assert (q + "%")[0] == q[0];
      assert (q + "%")[1..] == q[1..] + "%";
      if s != [] && s[0] == q[0] {
        LiteralPrefixMatch(s[1..], q[1..]);
        assert IsPrefix(q, s) <==> IsPrefix(q[1..], s[1..]);
      }
    }
  }

  /** A leading `%` lets the rest of the pattern match any suffix. */
  lemma {:induction false} LeadingPercentMatch(s: string, r: string)
    ensures LikeMatch(s, "%" + r) <==> exists k :: 0 <= k <= |s| && LikeMatch(s[k..], r)
    decreases |s|
  {
    var p := "%" + r;
    assert p[0] == '%' && p[1..] == r;
    assert s[0..] == s;
    if s != [] {
      LeadingPercentMatch(s[1..], r);
      if exists k :: 0 <= k <= |s| && LikeMatch(s[k..], r) {
        var k :| 0 <= k <= |s| && LikeMatch(s[k..], r);
        if k > 0 {
          assert s[1..][k - 1..] == s[k..];
        }
      }
      if exists k :: 0 <= k <= |s[1..]| && LikeMatch(s[1..][k..], r) {
        var k :| 0 <= k <= |s[1..]| && LikeMatch(s[1..][k..], r);
        assert s[1..][k..] == s[k + 1..];
      }
    }
  }

  /** `s LIKE '%' || q || '%'` for a literal `q` is substring search. */
  lemma {:induction false} SubstringPatternMatch(s: string, q: string)
    requires Literal(q)
    ensures LikeMatch(s, "%" + q + "%") <==> Contains(s, q)
  {
    assert "%" + q + "%" == "%" + (q + "%");
    LeadingPercentMatch(s, q + "%");
    forall k | 0 <= k <= |s| ensures LikeMatch(s[k..], q + "%") <==> IsPrefix(q, s[k..]) {
      LiteralPrefixMatch(s[k..], q);
    }
  }

  /** `field ILIKE '%' || q || '%'` for a literal `q` is case-insensitive
      substring search. */
  lemma ILikeSubstring(field: string, q: string)
    requires Literal(q)
    ensures ILike(field, "%" + q + "%") <==> Contains(Lower(field), Lower(q))
  {
    assert Lower("%" + q + "%") == "%" + Lower(q) + "%";
    SubstringPatternMatch(Lower(field), Lower(q));
  }

  // ---------------------------------------------------------------------
  // CAST(text AS INTEGER)

  predicate IsDigit(c: char) {
    '0' <= c <= '9'
  }

  predicate AllDigits(s: string) {
    forall k :: 0 <= k < |s| ==> IsDigit(s[k])
  }

  /** The value of a string of decimal digits. */
  function DigitsValue(s: string): (r: nat)
    requires AllDigits(s)
  {
    if s == [] then 0 else DigitsValue(s[..|s| - 1]) * 10 + (s[|s| - 1] as int - '0' as int)
  }

  /** `CAST(s AS INTEGER)`: an optional sign and one or more decimal digits;
      None where the database refuses the cast. */
  function ParseInteger(s: string): (r: Option<int>)
    ensures r.Some? <==> s != [] && (AllDigits(s) || (|s| >= 2 && (s[0] == '-' || s[0] == '+') && AllDigits(s[1..])))
    ensures r.Some? && r.value < 0 ==> s[0] == '-'
  {
    if |s| >= 2 && (s[0] == '-' || s[0] == '+') && AllDigits(s[1..]) then
      var v: int := DigitsValue(s[1..]);
      Some(if s[0] == '-' then -v else v)
    else if s != [] && AllDigits(s) then Some(DigitsValue(s))
    else None
  }

  /** The decimal text of `n`, as `str(n)` prints it. */
  function IntegerText(n: int): (r: string)
    decreases if n < 0 then -n + 1 else n
  {
    if n < 0 then "-" + IntegerText(-n)
    else if n < 10 then [('0' as int + n) as char]
    else IntegerText(n / 10) + [('0' as int + n % 10) as char]
  }

  lemma {:induction false} NaturalTextDigits(n: nat)
    ensures var t := IntegerText(n); t != [] && AllDigits(t) && DigitsValue(t) == n
  {
    var t := IntegerText(n);
    if n >= 10 {
      NaturalTextDigits(n / 10);
      var head := IntegerText(n / 10);
      assert t[..|t| - 1] == head;
    }
  }

  /** The cast reads back every integer's decimal text. */
  lemma IntegerTextRoundTrip(n: int)
    ensures ParseInteger(IntegerText(n)) == Some(n)
  {
    if n < 0 {
      NaturalTextDigits(-n);
      assert IntegerText(n)[1..] == IntegerText(-n);
    } else {
      NaturalTextDigits(n);
    }
  }

  predicate AllZeros(z: string) {
    forall k :: 0 <= k < |z| ==> z[k] == '0'
  }

  lemma {:induction false} ZerosValue(z: string)
    requires AllZeros(z)
    ensures AllDigits(z) && DigitsValue(z) == 0
    decreases |z|
  {
    if z != [] {
      ZerosValue(z[..|z| - 1]);
    }
  }

  /** Leading zeros do not change the value of a string of digits. */
  lemma {:induction false} ZerosPrefixValue(z: string, t: string)
    requires AllZeros(z) && AllDigits(t)
    ensures AllDigits(z + t) && DigitsValue(z + t) == DigitsValue(t)
    decreases |t|
  {
    ZerosValue(z);
    var zt := z + t;
    assert AllDigits(zt) by {
      forall k | 0 <= k < |zt| ensures IsDigit(zt[k]) {
        if k < |z| { assert zt[k] == z[k]; } else { assert zt[k] == t[k - |z|]; }
      }
    }
    if t == [] {
      assert zt == z;
    } else {
      assert zt[..|zt| - 1] == z + t[..|t| - 1];
      assert zt[|zt| - 1] == t[|t| - 1];
      ZerosPrefixValue(z, t[..|t| - 1]);
    }
  }

  lemma {:induction false} LeadingDigitValue(t: string)
    requires AllDigits(t) && t != [] && t[0] != '0'
    ensures DigitsValue(t) >= 1
    decreases |t|
  {
    if |t| > 1 {
      LeadingDigitValue(t[..|t| - 1]);
    } else {
      assert t[..0] == [];
    }
  }

  /** Digits without a leading zero (or a lone `0`) are the decimal text of
      their value. */
  lemma {:induction false} CanonicalDigits(t: string)
    requires AllDigits(t) && t != [] && (t[0] != '0' || |t| == 1)
    ensures IntegerText(DigitsValue(t)) == t
    decreases |t|
  {
    var h := t[..|t| - 1];
    if |t| > 1 {
      LeadingDigitValue(h);
      CanonicalDigits(h);
      var v := DigitsValue(t);
      assert v / 10 == DigitsValue(h) && v % 10 == t[|t| - 1] as int - '0' as int;
      assert t == h + [t[|t| - 1]];
    } else {
      assert h == [];
      assert t == [t[0]];
    }
  }

  /** The length of the run of zeros that leads `t`, keeping its last digit. */
  function ZeroRun(t: string): (k: nat)
    requires t != []
    ensures k < |t| && AllZeros(t[..k]) && (t[k] != '0' || k == |t| - 1)
  {
    if |t| > 1 && t[0] == '0' then
      var k' := ZeroRun(t[1..]);
      assert t[..k' + 1] == [t[0]] + t[1..][..k'];
      assert t[k' + 1] == t[1..][k'];
      k' + 1
    else 0
  }

  /** A string of digits is a run of zeros followed by the decimal text of
      its value. */
  lemma DigitsAreZerosThenText(t: string)
    requires AllDigits(t) && t != []
    ensures var k := ZeroRun(t); AllZeros(t[..k]) && t[k..] == IntegerText(DigitsValue(t))
  {
    var k := ZeroRun(t);
    assert t == t[..k] + t[k..];
    assert AllDigits(t[k..]) by {
      forall j | 0 <= j < |t[k..]| ensures IsDigit(t[k..][j]) {
        assert t[k..][j] == t[k + j];
      }
    }
    ZerosPrefixValue(t[..k], t[k..]);
    CanonicalDigits(t[k..]);
  }

  /** Every text the cast accepts is an optional sign, then zeros, then the
      decimal text of the size of its value; a negative value has the minus
      sign and a positive one does not. So `03`, `+3` and `0003` all read 3. */
  lemma ParsedTextForm(s: string)
    requires ParseInteger(s).Some?
    ensures var n := ParseInteger(s).value;
            exists sign, zeros :: && (sign == "" || sign == "+" || sign == "-") && AllZeros(zeros)
                                  && s == sign + zeros + IntegerText(if n < 0 then -n else n)
                                  && (n < 0 ==> sign == "-") && (n > 0 ==> sign != "-")
  {
    var n := ParseInteger(s).value;
    var m := if n < 0 then -n else n;
    if |s| >= 2 && (s[0] == '-' || s[0] == '+') && AllDigits(s[1..]) {
      var t := s[1..];
      DigitsAreZerosThenText(t);
      var k := ZeroRun(t);
      assert DigitsValue(t) == m;
      var sign := [s[0]];
      assert s == sign + t[..k] + t[k..];
      assert (sign == "-" || sign == "+") && AllZeros(t[..k]) && s == sign + t[..k] + IntegerText(m);
    } else {
      DigitsAreZerosThenText(s);
      var k := ZeroRun(s);
      assert s == "" + s[..k] + s[k..];
      assert AllZeros(s[..k]) && s == "" + s[..k] + IntegerText(m);
    }
  }

  // ---------------------------------------------------------------------
  // Ordering of text columns

  /** `a < b` in code point order: a proper prefix, or smaller at the first
      difference. */
  predicate TextBefore(a: string, b: string)
    decreases |a|
  {
    b != [] && (a == [] || a[0] < b[0] || (a[0] == b[0] && TextBefore(a[1..], b[1..])))
  }

  /** A sort key for a text column: each character shifted up by one, then
      a 0 terminator, so that keys of consecutive columns compare column by
      column. */
  function TextKey(s: string): (r: seq<int>)
  {
    seq(|s|, k requires 0 <= k < |s| => s[k] as int + 1) + [0]
  }

  /** Comparing keys that start with a text column compares that column
      first, in code point order, and only on a tie what follows. */
  lemma {:induction false} TextKeyOrder(a: string, b: string, x: seq<int>, y: seq<int>)
    ensures LexLe(TextKey(a) + x, TextKey(b) + y) <==> TextBefore(a, b) || (a == b && LexLe(x, y))
    decreases |a|
  {
    var ka, kb := TextKey(a) + x, TextKey(b) + y;
    if a == [] {
      assert ka[0] == 0 && ka[1..] == x;
      if b == [] {
        assert kb[0] == 0 && kb[1..] == y;
      } else {
        assert kb[0] == b[0] as int + 1;
      }
    } else if b == [] {
      assert ka[0] == a[0] as int + 1 && kb[0] == 0;
    } else {
      assert ka[0] == a[0] as int + 1 && kb[0] == b[0] as int + 1;
      assert ka[1..] == TextKey(a[1..]) + x;
      assert kb[1..] == TextKey(b[1..]) + y;
      TextKeyOrder(a[1..], b[1..], x, y);
      if a[0] == b[0] {
        assert a == [a[0]] + a[1..] && b == [b[0]] + b[1..];
      }
    }
  }
}
