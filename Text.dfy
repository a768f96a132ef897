/** The string primitives the backend relies on: JavaScript's `trim`,
    `toUpperCase`, `String.prototype.replace` with a string pattern,
    `parseInt` without a radix (decimal, or hexadecimal after "0x"), and
    the binary order MongoDB uses to sort
    strings. */
module Text {

  import opened Wrappers

  /** The characters ECMAScript's `String.prototype.trim` strips: WhiteSpace
      (tab, vertical tab, form feed, space, no-break space, byte-order mark and
      the Unicode space separators) and LineTerminator. */
  predicate IsSpace(c: char) {
    || c == '\t' || c == '\n' || c == '\U{B}' || c == '\U{C}' || c == '\r'
    || c == ' ' || c == '\U{A0}' || c == '\U{1680}'
    || ('\U{2000}' <= c <= '\U{200A}')
    || c == '\U{2028}' || c == '\U{2029}' || c == '\U{202F}' || c == '\U{205F}'
    || c == '\U{3000}' || c == '\U{FEFF}'
  }

  /** No leading and no trailing space. */
  predicate IsTrimmed(s: string) {
    s == [] || (!IsSpace(s[0]) && !IsSpace(s[|s| - 1]))
  }

  predicate AllSpace(s: string) {
    forall i :: 0 <= i < |s| ==> IsSpace(s[i])
  }

  /** Drops the leading spaces: the result is a suffix of `s`, everything
      dropped is space, and the result does not start with space. */
  function TrimStart(s: string): (r: string)
    ensures |r| <= |s| && r == s[|s| - |r|..]
    ensures AllSpace(s[..|s| - |r|])
    ensures r == [] || !IsSpace(r[0])
  {
    if s != [] && IsSpace(s[0]) then TrimStart(s[1..]) else s
  }

  /** Drops the trailing spaces: the result is a prefix of `s`, everything
      dropped is space, and the result does not end with space. */
  function TrimEnd(s: string): (r: string)
    ensures |r| <= |s| && r == s[..|r|]
    ensures AllSpace(s[|r|..])
    ensures r == [] || !IsSpace(r[|r| - 1])
  {
    if s != [] && IsSpace(s[|s| - 1]) then TrimEnd(s[..|s| - 1]) else s
  }

  /** `s.trim()`: the stored form of a schema path declared with `trim: true`. */
  function Trim(s: string): (r: string)
    ensures |r| <= |s|
    ensures IsTrimmed(r)
  {
    var t := TrimStart(s);
    var r := TrimEnd(t);
    assert r != [] ==> r[0] == t[0];
    r
  }

  /** What `trim` removes: `s` is the trimmed string with only space before
      it (`s[..i]`) and after it (`s[j..]`). */
  lemma TrimSplit(s: string) returns (i: nat, j: nat)
    ensures i <= j <= |s| && Trim(s) == s[i..j]
    ensures AllSpace(s[..i]) && AllSpace(s[j..])
  {
    var t := TrimStart(s);
    var r := TrimEnd(t);
    i, j := |s| - |t|, |s| - |t| + |r|;
    assert s[j..] == t[|r|..];
  }

  /** Trimming is idempotent, and a string that is already trimmed is left as it is. */
  lemma TrimIdempotent(s: string)
    ensures IsTrimmed(s) ==> Trim(s) == s
    ensures Trim(Trim(s)) == Trim(s)
  {
    if IsTrimmed(s) {
      TrimFixesTrimmed(s);
    }
    TrimFixesTrimmed(Trim(s));
  }

  lemma TrimFixesTrimmed(s: string)
    requires IsTrimmed(s)
    ensures Trim(s) == s
  {
    assert TrimStart(s) == s;
    assert TrimEnd(s) == s;
  }

  /** A string trims to the empty string exactly when it is all space: this is
      when a required trimmed path counts as missing. */
  lemma TrimEmptyIff(s: string)
    ensures Trim(s) == [] <==> AllSpace(s)
  {
    var i, j := TrimSplit(s);
    if Trim(s) == [] {
      forall k | 0 <= k < |s|
        ensures IsSpace(s[k])
      {
        if k < i {
          assert s[k] == s[..i][k];
        } else {
          assert s[k] == s[j..][k - j];
        }
      }
    } else {
      assert !IsSpace(Trim(s)[0]);
      assert s[i] == Trim(s)[0];
    }
  }

  /** ASCII upper-casing of one character. */
  function UpperChar(c: char): char {
    if 'a' <= c <= 'z' then (c as int - 32) as char else c
  }

  /** `s.toUpperCase()` restricted to ASCII letters: the stored form of a path
      declared with `uppercase: true`. */
  function ToUpper(s: string): (r: string)
    ensures |r| == |s|
    ensures forall i :: 0 <= i < |s| ==> r[i] == UpperChar(s[i])
  {
    seq(|s|, i requires 0 <= i < |s| => UpperChar(s[i]))
  }

  predicate IsUpper(s: string) {
    forall i :: 0 <= i < |s| ==> !('a' <= s[i] <= 'z')
  }

  /** Upper-casing produces no lower-case letters and is idempotent. */
  lemma ToUpperIdempotent(s: string)
    ensures IsUpper(ToUpper(s))
    ensures ToUpper(ToUpper(s)) == ToUpper(s)
  {
  }

  predicate StartsWith(s: string, prefix: string) {
    |prefix| <= |s| && s[..|prefix|] == prefix
  }

  predicate OccursAt(s: string, pat: string, i: nat) {
    i + |pat| <= |s| && s[i..i + |pat|] == pat
  }

  /** The first position at or after `from` where `pat` occurs in `s`. */
  function FindFrom(s: string, pat: string, from: nat): (r: Option<nat>)
    requires from <= |s|
    ensures r.Some? ==> from <= r.value && OccursAt(s, pat, r.value)
    ensures r.Some? ==> forall k :: from <= k < r.value ==> !OccursAt(s, pat, k)
    ensures r.None? ==> forall k :: from <= k <= |s| ==> !OccursAt(s, pat, k)
    decreases |s| - from
  {
    if OccursAt(s, pat, from) then Some(from)
    else if from == |s| then None
    else FindFrom(s, pat, from + 1)
  }

  /** `s.replace(pat, rep)` with a string pattern: only the FIRST occurrence of
      `pat` is replaced, wherever it is; without an occurrence `s` comes back. */
  function ReplaceFirst(s: string, pat: string, rep: string): (r: string)
  {
    match FindFrom(s, pat, 0)
    case None => s
    case Some(i) => s[..i] + rep + s[i + |pat|..]
  }

  /** What `replace` does, stated without the search: a string that starts
      with the pattern loses exactly that prefix, and a string in which the
      pattern does not occur is unchanged. */
  lemma ReplaceFirstCases(s: string, pat: string, rep: string)
    ensures StartsWith(s, pat) ==> ReplaceFirst(s, pat, rep) == rep + s[|pat|..]
    ensures (forall k :: 0 <= k <= |s| ==> !OccursAt(s, pat, k)) ==> ReplaceFirst(s, pat, rep) == s
  {
    if StartsWith(s, pat) {
      assert OccursAt(s, pat, 0);
    }
  }

  predicate IsDigit(c: char) { '0' <= c <= '9' }

  predicate AllDigits(s: string) {
    forall i :: 0 <= i < |s| ==> IsDigit(s[i])
  }

  /** The value `parseInt` gives a character as a digit: 0 to 9 for the
      decimal digits, 10 to 35 for the letters in either case, and 36, a digit
      in no base, for anything else. */
  function DigitValue(c: char): (d: nat)
    ensures d <= 36
    ensures d < 10 <==> IsDigit(c)
  {
    if '0' <= c <= '9' then c as int - '0' as int
    else if 'a' <= c <= 'z' then c as int - 'a' as int + 10
    else if 'A' <= c <= 'Z' then c as int - 'A' as int + 10
    else 36
  }

  predicate AllDigitsIn(s: string, radix: nat) {
    forall i :: 0 <= i < |s| ==> DigitValue(s[i]) < radix
  }

  /** The value of a string of base-`radix` digits, most significant first. */
  function ValueIn(s: string, radix: nat): nat
    requires AllDigitsIn(s, radix)
  {
    if s == [] then 0
    else radix * ValueIn(s[..|s| - 1], radix) + DigitValue(s[|s| - 1])
  }

  /** The longest prefix of `s` made of base-`radix` digits. */
  function DigitPrefixIn(s: string, radix: nat): (r: string)
    ensures r <= s && AllDigitsIn(r, radix)
    ensures |r| < |s| ==> DigitValue(s[|r|]) >= radix
  {
    if s == [] || DigitValue(s[0]) >= radix then []
    else [s[0]] + DigitPrefixIn(s[1..], radix)
  }

  /** `parseInt` without a radix reads a string that starts "0x" or "0X" in
      base 16, after that prefix. */
  predicate HasHexPrefix(s: string) {
    |s| >= 2 && s[0] == '0' && (s[1] == 'x' || s[1] == 'X')
  }

  /** What `parseInt` reads after the blanks and the sign: the value of the
      leading hexadecimal digits after "0x" or "0X", otherwise of the leading
      decimal digits, or `None` (NaN) when there are none. */
  function ParseUnsigned(s: string): (r: Option<nat>)
    ensures HasHexPrefix(s) ==> (r.None? <==> |s| == 2 || DigitValue(s[2]) >= 16)
    ensures !HasHexPrefix(s) ==> (r.None? <==> s == [] || !IsDigit(s[0]))
    ensures AllDigits(s) && s != [] ==> r == Some(ValueIn(s, 10))
    ensures HasHexPrefix(s) && |s| > 2 && AllDigitsIn(s[2..], 16) ==> r == Some(ValueIn(s[2..], 16))
  {
    var radix := if HasHexPrefix(s) then 16 else 10;
    var digits := if HasHexPrefix(s) then s[2..] else s;
    var d := DigitPrefixIn(digits, radix);
    if d == [] then None
    else
      assert AllDigitsIn(digits, radix) ==> d == digits;
      Some(ValueIn(d, radix))
  }

  /** `parseInt(s)` with no radix: leading white space (the characters `trim`
      removes) is skipped and the rest is read by `ReadSigned`; NaN is
      `None`. */
  function ParseInt(s: string): Option<int> {
    ReadSigned(TrimStart(s))
  }

  /** One optional "+" or "-", then what `ParseUnsigned` reads of the rest,
      negated after a "-". */
  function ReadSigned(t: string): Option<int> {
    Signed(ParseUnsigned(Unsigned(t)), t != [] && t[0] == '-')
  }

  /** `t` without its leading sign, if it has one. */
  function Unsigned(t: string): (u: string)
    ensures t != [] && (t[0] == '+' || t[0] == '-') ==> u == t[1..]
    ensures t == [] || (t[0] != '+' && t[0] != '-') ==> u == t
  {
    if t != [] && (t[0] == '+' || t[0] == '-') then t[1..] else t
  }

  /** A magnitude read by `ParseUnsigned`, negated when `negative`. */
  function Signed(m: Option<nat>, negative: bool): Option<int> {
    match m
    case None => None
    case Some(v) => Some(if negative then -(v as int) else v as int)
  }

  /** Skipping blanks: after any run of space, `TrimStart` stops at the
      first character that is not space. */
  lemma {:induction false} TrimStartSkips(w: string, x: string)
    requires AllSpace(w)
    requires x == [] || !IsSpace(x[0])
    ensures TrimStart(w + x) == x
  {
    if w != [] {
      assert (w + x)[1..] == w[1..] + x;
      TrimStartSkips(w[1..], x);
    }
  }

  /** After a "-", `ReadSigned` negates what `ParseUnsigned` reads of the
      rest; after a "+", it is that value unchanged. */
  lemma ReadSignedSign(c: char, u: string)
    requires c == '+' || c == '-'
    ensures ParseUnsigned(u).None? ==> ReadSigned([c] + u).None?
    ensures ParseUnsigned(u).Some? && c == '+' ==> ReadSigned([c] + u) == Some(ParseUnsigned(u).value as int)
    ensures ParseUnsigned(u).Some? && c == '-' ==> ReadSigned([c] + u) == Some(-(ParseUnsigned(u).value as int))
  {
    var t := [c] + u;
    assert t[0] == c && t[1..] == u;
    assert Unsigned(t) == u;
  }

  /** `parseInt` skips blanks `w` and reads what follows as a number with
      no sign, provided it starts with neither a blank nor a sign. */
  lemma ParseIntSkipsBlanks(w: string, u: string)
    requires AllSpace(w)
    requires u == [] || (!IsSpace(u[0]) && u[0] != '+' && u[0] != '-')
    ensures ParseUnsigned(u).None? ==> ParseInt(w + u).None?
    ensures ParseUnsigned(u).Some? ==> ParseInt(w + u) == Some(ParseUnsigned(u).value as int)
  {
    TrimStartSkips(w, u);
    assert Unsigned(u) == u;
  }

  /** `parseInt` skips blanks `w`, reads the sign `c`, and negates what
      `ParseUnsigned` reads of the rest when `c` is "-". */
  lemma ParseIntReadsSign(w: string, c: char, u: string)
    requires AllSpace(w)
    requires c == '+' || c == '-'
    ensures ParseUnsigned(u).None? ==> ParseInt(w + [c] + u).None?
    ensures ParseUnsigned(u).Some? && c == '+' ==> ParseInt(w + [c] + u) == Some(ParseUnsigned(u).value as int)
    ensures ParseUnsigned(u).Some? && c == '-' ==> ParseInt(w + [c] + u) == Some(-(ParseUnsigned(u).value as int))
  {
    assert w + [c] + u == w + ([c] + u);
    TrimStartSkips(w, [c] + u);
    ReadSignedSign(c, u);
  }

  /** The digit of value `d`: a decimal digit, then a lower-case letter. */
  function DigitChar(d: nat): (c: char)
    requires d < 36
    ensures DigitValue(c) == d
  {
    if d < 10 then ('0' as int + d) as char else ('a' as int + d - 10) as char
  }

  /** Dividing by the base leaves a smaller, positive quotient and a digit. */
  lemma DivideByRadix(n: nat, radix: nat)
    requires 2 <= radix <= 36 && n >= radix
    ensures 0 < n / radix < n
    ensures n == radix * (n / radix) + n % radix && n % radix < radix
  {
  }

  /** The base-`radix` numeral of `n`, without leading zeros. */
  function Numeral(n: nat, radix: nat): (s: string)
    requires 2 <= radix <= 36
    ensures s != [] && AllDigitsIn(s, radix)
    ensures n >= radix ==> |s| >= 2
  {
    if n < radix then [DigitChar(n)]
    else
      DivideByRadix(n, radix);
      Numeral(n / radix, radix) + [DigitChar(n % radix)]
  }

  lemma {:induction false} ValueOfNumeral(n: nat, radix: nat)
    requires 2 <= radix <= 36
    ensures ValueIn(Numeral(n, radix), radix) == n
  {
    if n >= radix {
      DivideByRadix(n, radix);
      var q, d := n / radix, n % radix;
      var s := Numeral(n, radix);
      assert s == Numeral(q, radix) + [DigitChar(d)];
      assert s[..|s| - 1] == Numeral(q, radix);
      ValueOfNumeral(q, radix);
      assert ValueIn(s, radix) == radix * q + d;
    }
  }

  /** A numeral starts with the digit 0 only when it is the numeral of 0. */
  lemma {:induction false} NumeralLeadingZero(n: nat, radix: nat)
    requires 2 <= radix <= 36
    ensures Numeral(n, radix)[0] == '0' <==> n == 0
  {
    if n >= radix {
      DivideByRadix(n, radix);
      var q := n / radix;
      assert Numeral(n, radix) == Numeral(q, radix) + [DigitChar(n % radix)];
      NumeralLeadingZero(q, radix);
    } else {
      assert Numeral(n, radix) == [DigitChar(n)];
    }
  }

  lemma {:induction false} DigitPrefixInOf(d: string, t: string, radix: nat)
    requires AllDigitsIn(d, radix)
    requires t == [] || DigitValue(t[0]) >= radix
    ensures DigitPrefixIn(d + t, radix) == d
  {
    if d != [] {
      assert (d + t)[1..] == d[1..] + t;
      DigitPrefixInOf(d[1..], t, radix);
    }
  }

  /** `ParseUnsigned` reads the decimal numeral of `n` back as `n`, whatever
      non-digit text follows, except that "0" followed by "x" or "X" is the
      start of a hexadecimal numeral. */
  lemma ParseUnsignedNumeral(n: nat, t: string)
    requires t == [] || !IsDigit(t[0])
    requires n == 0 ==> t == [] || (t[0] != 'x' && t[0] != 'X')
    ensures ParseUnsigned(Numeral(n, 10) + t) == Some(n)
  {
    var s := Numeral(n, 10) + t;
    NumeralLeadingZero(n, 10);
    if n >= 10 {
      assert IsDigit(s[1]);
    }
    assert !HasHexPrefix(s);
    DigitPrefixInOf(Numeral(n, 10), t, 10);
    ValueOfNumeral(n, 10);
  }

  /** `parseInt` reads blanks and the decimal numeral of `n` as `n`. */
  lemma ParseIntNumeral(w: string, n: nat, t: string)
    requires AllSpace(w)
    requires t == [] || !IsDigit(t[0])
    requires n == 0 ==> t == [] || (t[0] != 'x' && t[0] != 'X')
    ensures ParseInt(w + Numeral(n, 10) + t) == Some(n as int)
  {
    var u := Numeral(n, 10) + t;
    var s := w + u;
    assert w + Numeral(n, 10) + t == s;
    assert IsDigit(u[0]);
    ParseUnsignedNumeral(n, t);
    ParseIntSkipsBlanks(w, u);
    assert ParseInt(s) == Some(n as int);
  }

  /** `ParseUnsigned` reads "0x" or "0X" and the hexadecimal numeral of `n` as
      `n`, whatever text follows that is not a hexadecimal digit. */
  lemma ParseUnsignedHexNumeral(n: nat, x: char, t: string)
    requires x == 'x' || x == 'X'
    requires t == [] || DigitValue(t[0]) >= 16
    ensures ParseUnsigned(['0', x] + Numeral(n, 16) + t) == Some(n)
  {
    var d := Numeral(n, 16);
    var s := ['0', x] + d + t;
    assert HasHexPrefix(s);
    assert s[2..] == d + t;
    DigitPrefixInOf(d, t, 16);
    assert DigitPrefixIn(s[2..], 16) == d;
    ValueOfNumeral(n, 16);
  }

  /** MongoDB's default order on strings: lexicographic, character by
      character. */
  predicate LexLe(a: string, b: string) {
    a == [] || (b != [] && (a[0] < b[0] || (a[0] == b[0] && LexLe(a[1..], b[1..]))))
  }

  lemma {:induction false} LexLeTotal(a: string, b: string)
    ensures LexLe(a, b) || LexLe(b, a)
  {
    if a != [] && b != [] && a[0] == b[0] {
      LexLeTotal(a[1..], b[1..]);
    }
  }

  lemma {:induction false} LexLeTransitive(a: string, b: string, c: string)
    requires LexLe(a, b) && LexLe(b, c)
    ensures LexLe(a, c)
  {
    if a != [] && b != [] && c != [] && a[0] == b[0] && b[0] == c[0] {
      LexLeTransitive(a[1..], b[1..], c[1..]);
    }
  }
}
