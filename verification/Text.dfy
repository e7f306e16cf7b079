/** The string primitives the reconciler uses, on ASCII text: case mapping, trimming,
    searching, and decimal numbers. */
module Text {
  datatype Option<+T> = None | Some(value: T)

  // ----- characters and case -----

  predicate IsUpper(c: char) { 'A' <= c <= 'Z' }

  predicate IsLower(c: char) { 'a' <= c <= 'z' }

  predicate IsLetter(c: char) { IsUpper(c) || IsLower(c) }

  predicate IsDigit(c: char) { '0' <= c <= '9' }

  /** Space, tab, newline, vertical tab, form feed, carriage return. */
  predicate IsSpace(c: char) { c == ' ' || 9 <= c as int <= 13 }

  function LowerChar(c: char): char { if IsUpper(c) then (c as int + 32) as char else c }

  function UpperChar(c: char): char { if IsLower(c) then (c as int - 32) as char else c }

  function ToLower(s: string): (t: string)
    ensures |t| == |s|
  {
    seq(|s|, i requires 0 <= i < |s| => LowerChar(s[i]))
  }

  function ToUpper(s: string): (t: string)
    ensures |t| == |s|
  {
    seq(|s|, i requires 0 <= i < |s| => UpperChar(s[i]))
  }

  /** Case-insensitive comparison. */
  predicate EqualFold(a: string, b: string) { ToLower(a) == ToLower(b) }

  lemma EqualFoldAt(a: string, b: string, i: nat)
    requires EqualFold(a, b) && i < |a|
    ensures |a| == |b| && LowerChar(a[i]) == LowerChar(b[i])
  {
    assert |ToLower(a)| == |a| && ToLower(a)[i] == LowerChar(a[i]);
    assert |ToLower(b)| == |b| && ToLower(b)[i] == LowerChar(b[i]);
  }

  lemma EqualFoldSlice(a: string, b: string, lo: nat, hi: nat)
    requires EqualFold(a, b) && lo <= hi <= |a|
    ensures |a| == |b| && EqualFold(a[lo..hi], b[lo..hi])
  {
    assert |ToLower(a)| == |ToLower(b)|;
    forall i | 0 <= i < hi - lo
      ensures ToLower(a[lo..hi])[i] == ToLower(b[lo..hi])[i]
    {
      EqualFoldAt(a, b, lo + i);
    }
  }

  // ----- searching -----

  /** First index of c, or -1. */
  function Index(s: string, c: char): (i: int)
    ensures -1 <= i < |s|
    ensures i >= 0 ==> s[i] == c && c !in s[..i]
    ensures i < 0 ==> c !in s
  {
    if s == "" then -1
    else if s[0] == c then 0
    else var r := Index(s[1..], c); if r < 0 then -1 else r + 1
  }

  /** Last index of c, or -1. */
  function LastIndex(s: string, c: char): (i: int)
    ensures -1 <= i < |s|
    ensures i >= 0 ==> s[i] == c && c !in s[i + 1..]
    ensures i < 0 ==> c !in s
  {
    if s == "" then -1
    else if s[|s| - 1] == c then |s| - 1
    else LastIndex(s[..|s| - 1], c)
  }

  lemma IndexIs(s: string, c: char, k: nat)
    requires k < |s| && s[k] == c && c !in s[..k]
    ensures Index(s, c) == k
  {
    if k > 0 {
      assert s[..k][0] == s[0];
      assert s[1..][..k - 1] == s[..k][1..];
      IndexIs(s[1..], c, k - 1);
    }
  }

  lemma LastIndexIs(s: string, c: char, k: nat)
    requires k < |s| && s[k] == c && c !in s[k + 1..]
    ensures LastIndex(s, c) == k
  {
    if k < |s| - 1 {
      var t := s[..|s| - 1];
      assert s[k + 1..][|s| - k - 2] == s[|s| - 1];
      assert t[k + 1..] == s[k + 1..][..|s| - k - 2];
      LastIndexIs(t, c, k);
    }
  }

  predicate Contains(s: string, sub: string) {
    exists i | 0 <= i <= |s| :: sub <= s[i..]
  }

  /** The word stands somewhere in the text, in any case. */
  ghost predicate Holds(s: string, word: string) {
    exists a, m, b :: s == a + m + b && EqualFold(m, word)
  }

  lemma ToLowerJoins(a: string, b: string)
    ensures ToLower(a + b) == ToLower(a) + ToLower(b)
  {
    assert |ToLower(a + b)| == |ToLower(a) + ToLower(b)|;
    forall i | 0 <= i < |a + b| ensures ToLower(a + b)[i] == (ToLower(a) + ToLower(b))[i] {}
  }

  /** Searching the lower-cased text for a lower-case word finds the word in any case, and nothing else. */
  lemma HoldsIff(s: string, word: string)
    requires ToLower(word) == word
    ensures Contains(ToLower(s), word) <==> Holds(s, word)
  {
    if Contains(ToLower(s), word) {
      var i :| 0 <= i <= |ToLower(s)| && word <= ToLower(s)[i..];
      SplitAround(s, word, i);
    }
    if a, m, b :| s == a + m + b && EqualFold(m, word) {
      ToLowerJoins(a + m, b);
      ToLowerJoins(a, m);
      assert ToLower(s)[|a|..] == word + ToLower(b);
    }
  }

  lemma SplitAround(s: string, word: string, i: nat)
    requires i <= |s| && word <= ToLower(s)[i..] && ToLower(word) == word
    ensures Holds(s, word)
  {
    var a, m, b := s[..i], s[i..i + |word|], s[i + |word|..];
    assert |m| == |word| && forall k | 0 <= k < |m| :: ToLower(m)[k] == ToLower(s)[i..][k] == word[k];
    assert ToLower(m) == word;
    assert s == a + m + b;
  }

  /** Exact search finds a word where it stands. */
  lemma ContainsIff(s: string, word: string)
    ensures Contains(s, word) <==> exists a, b :: s == a + word + b
  {
    if i :| 0 <= i <= |s| && word <= s[i..] {
      assert s == s[..i] + word + s[i + |word|..];
    }
    if a, b :| s == a + word + b {
      assert s[|a|..] == word + b;
    }
  }

  function TrimPrefix(s: string, p: string): string { if p <= s then s[|p|..] else s }

  predicate HasSuffix(s: string, p: string) { |p| <= |s| && s[|s| - |p|..] == p }

  // ----- trimming -----

  function TrimLeft(s: string): string { if s != "" && IsSpace(s[0]) then TrimLeft(s[1..]) else s }

  function TrimRight(s: string): string
  {
    if s != "" && IsSpace(s[|s| - 1]) then TrimRight(s[..|s| - 1]) else s
  }

  function TrimSpace(s: string): string { TrimRight(TrimLeft(s)) }

  predicate Trimmed(s: string) { s == "" || (!IsSpace(s[0]) && !IsSpace(s[|s| - 1])) }

  lemma TrimRightEnds(s: string)
    ensures TrimRight(s) <= s
    ensures TrimRight(s) != "" ==> !IsSpace(TrimRight(s)[|TrimRight(s)| - 1])
  {}

  lemma TrimLeftEnds(s: string)
    ensures TrimLeft(s) != "" ==> !IsSpace(TrimLeft(s)[0])
  {}

  /** Trimming twice is trimming once. */
  lemma TrimSpaceIdempotent(s: string)
    ensures Trimmed(TrimSpace(s)) && TrimSpace(TrimSpace(s)) == TrimSpace(s)
  {
    TrimLeftEnds(s);
    TrimRightEnds(TrimLeft(s));
  }

  predicate AllBlank(s: string) { forall c | c in s :: IsSpace(c) }

  lemma {:induction false} TrimLeftIs(a: string, s: string)
    requires AllBlank(a) && (s == "" || !IsSpace(s[0]))
    ensures TrimLeft(a + s) == s
  {
    if a == "" {
      assert a + s == s;
    } else {
      assert a[0] in a && (a + s)[1..] == a[1..] + s;
      TrimLeftIs(a[1..], s);
    }
  }

  lemma {:induction false} TrimRightIs(s: string, b: string)
    requires AllBlank(b) && (s == "" || !IsSpace(s[|s| - 1]))
    ensures TrimRight(s + b) == s
  {
    if b == "" {
      assert s + b == s;
    } else {
      var less := b[..|b| - 1];
      assert b[|b| - 1] in b && (s + b)[..|s + b| - 1] == s + less;
      TrimRightIs(s, less);
    }
  }

  lemma {:induction false} TrimLeftOfBlanks(a: string)
    requires AllBlank(a)
    ensures TrimLeft(a) == ""
  {
    if a != "" {
      assert a[0] in a;
      TrimLeftOfBlanks(a[1..]);
    }
  }

  /** Trimming takes the blanks off both ends and nothing else. */
  lemma TrimSpaceIs(a: string, s: string, b: string)
    requires AllBlank(a) && AllBlank(b) && Trimmed(s)
    ensures TrimSpace(a + s + b) == s
  {
    if s == "" {
      assert a + s + b == a + b && AllBlank(a + b);
      TrimLeftOfBlanks(a + b);
    } else {
      assert a + s + b == a + (s + b);
      TrimLeftIs(a, s + b);
      TrimRightIs(s, b);
    }
  }

  // ----- decimal numbers -----

  const INT64_MIN := -0x8000_0000_0000_0000
  const INT64_MAX := 0x7fff_ffff_ffff_ffff

  function DigitsOf(n: nat): (s: string)
    ensures |s| > 0 && forall c | c in s :: IsDigit(c)
  {
    if n < 10 then [(n + 48) as char] else DigitsOf(n / 10) + [(n % 10 + 48) as char]
  }

  /** %d */
  function Itoa(n: int): (s: string)
    ensures |s| > 0 && forall c | c in s :: IsDigit(c) || c == '-'
  {
    if n < 0 then "-" + DigitsOf(-n) else DigitsOf(n)
  }

  predicate AllDigits(s: string) { s != "" && forall c | c in s :: IsDigit(c) }

  function DigitsValue(s: string): nat
    requires forall c | c in s :: IsDigit(c)
  {
    if s == "" then 0
    else
      assert IsDigit(s[|s| - 1]);
      DigitsValue(s[..|s| - 1]) * 10 + (s[|s| - 1] as int - 48)
  }

  /** An optional sign and digits, within 64 bits; anything else is an error. */
  function Atoi(s: string): Option<int>
  {
    var neg := s != "" && s[0] == '-';
    var body := if s != "" && (s[0] == '-' || s[0] == '+') then s[1..] else s;
    if !AllDigits(body) then None
    else
      var n: int := if neg then -(DigitsValue(body) as int) else DigitsValue(body);
      if INT64_MIN <= n <= INT64_MAX then Some(n) else None
  }

  lemma {:induction false} DigitsRoundTrip(n: nat)
    ensures DigitsValue(DigitsOf(n)) == n
  {
    if n >= 10 {
      DigitsRoundTrip(n / 10);
      var s := DigitsOf(n);
      assert s[..|s| - 1] == DigitsOf(n / 10);
    } else {
      var s := DigitsOf(n);
      assert s[..|s| - 1] == "";
    }
  }

  /** Printing a 64-bit number and reading it back gives the number. */
  lemma ItoaRoundTrip(n: int)
    requires INT64_MIN <= n <= INT64_MAX
    ensures Atoi(Itoa(n)) == Some(n)
  {
    if n < 0 {
      DigitsRoundTrip(-n);
      assert Itoa(n)[1..] == DigitsOf(-n);
    } else {
      DigitsRoundTrip(n);
      assert IsDigit(Itoa(n)[0]);
    }
  }

  /** Decimal digits that make up the number. */
  predicate Numeral(s: string, n: int) {
    AllDigits(s) && DigitsValue(s) == n
  }

  /** The 64-bit numbers are read from digits behind at most one sign. */
  lemma AtoiIff(s: string, n: int)
    ensures Atoi(s) == Some(n) <==>
            && INT64_MIN <= n <= INT64_MAX
            && (Numeral(s, n) || (s != "" && ((s[0] == '+' && Numeral(s[1..], n))
                                              || (s[0] == '-' && Numeral(s[1..], -n)))))
  {
    if s != "" && AllDigits(s) {
      assert s[0] in s;
    }
  }
}
