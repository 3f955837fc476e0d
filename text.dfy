/**
 * The string operations the blog's handlers use: `str.lower`, `str.strip`,
 * the substring test `q in s`, `" ".join(items)` and the decimal rendering
 * of a count in an f-string.
 */
module Text {

  /** Python's `str.isspace` for one character: the ASCII whitespace
      characters, the separators U+001C..U+001F, NEL, NBSP and the Unicode
      space, line and paragraph separators. */
  predicate IsSpace(c: char) {
    || c == ' '
    || ('\t' <= c <= '\r')
    || ('\U{1C}' <= c <= '\U{1F}')
    || c == '\U{85}'
    || c == '\U{A0}'
    || c == '\U{1680}'
    || ('\U{2000}' <= c <= '\U{200A}')
    || c == '\U{2028}'
    || c == '\U{2029}'
    || c == '\U{202F}'
    || c == '\U{205F}'
    || c == '\U{3000}'
  }

  ghost predicate AllSpace(s: string) {
    forall k :: 0 <= k < |s| ==> IsSpace(s[k])
  }

  /** ASCII case mapping: only 'A'..'Z' change. */
  function LowerChar(c: char): char {
    if 'A' <= c <= 'Z' then (c as int + 32) as char else c
  }

  /** `s.lower()`, restricted to ASCII letters. */
  function Lower(s: string): (r: string)
    ensures |r| == |s|
  {
    seq(|s|, k requires 0 <= k < |s| => LowerChar(s[k]))
  }

  lemma LowerCharKeepsSpace(c: char)
    ensures IsSpace(LowerChar(c)) <==> IsSpace(c)
  {
  }

  /** Lower-casing works character by character, so it commutes with slicing. */
  lemma LowerSlice(s: string, i: nat, j: nat)
    requires i <= j <= |s|
    ensures Lower(s[i..j]) == Lower(s)[i..j]
  {
  }

  /** How many whitespace characters `s` starts with. */
  function LeadingSpaces(s: string): (n: nat)
    ensures n <= |s|
    ensures forall k :: 0 <= k < n ==> IsSpace(s[k])
    ensures n < |s| ==> !IsSpace(s[n])
  {
    if s != [] && IsSpace(s[0]) then 1 + LeadingSpaces(s[1..]) else 0
  }

  /** How many whitespace characters `s` ends with. */
  function TrailingSpaces(s: string): (n: nat)
    ensures n <= |s|
    ensures forall k :: |s| - n <= k < |s| ==> IsSpace(s[k])
    ensures n < |s| ==> !IsSpace(s[|s| - n - 1])
  {
    if s != [] && IsSpace(s[|s| - 1]) then 1 + TrailingSpaces(s[..|s| - 1]) else 0
  }

  /** `s.lstrip()`: drop leading whitespace. */
  function TrimStart(s: string): (r: string)
    ensures r == [] || !IsSpace(r[0])
  {
    s[LeadingSpaces(s)..]
  }

  /** `s.rstrip()`: drop trailing whitespace. */
  function TrimEnd(s: string): (r: string)
    ensures r == [] || !IsSpace(r[|r| - 1])
  {
    s[..|s| - TrailingSpaces(s)]
  }

  /** `s.strip()`: `s.rstrip()` of `s.lstrip()`. */
  function Strip(s: string): (r: string)
    ensures r == [] || (!IsSpace(r[0]) && !IsSpace(r[|r| - 1]))
  {
    TrimEnd(TrimStart(s))
  }

  /** What `strip` leaves is the part of `s` between a run of whitespace at
      the front and one at the back; `i` is where it starts. */
  lemma StripSlice(s: string) returns (i: nat)
    ensures i + |Strip(s)| <= |s| && Strip(s) == s[i..i + |Strip(s)|]
    ensures forall k :: 0 <= k < i ==> IsSpace(s[k])
    ensures forall k :: i + |Strip(s)| <= k < |s| ==> IsSpace(s[k])
  {
    i := LeadingSpaces(s);
    var t := s[i..];
    var n := TrailingSpaces(t);
    assert Strip(s) == t[..|t| - n];
    assert t[..|t| - n] == s[i..|s| - n];
    forall k | |s| - n <= k < |s| ensures IsSpace(s[k]) {
      assert s[k] == t[k - i];
    }
  }

  /** `strip` gives `""` exactly for strings made only of whitespace. */
  lemma StripEmptyIff(s: string)
    ensures Strip(s) == [] <==> AllSpace(s)
  {
    var i := StripSlice(s);
    var r := Strip(s);
    if r != [] {
      assert r[0] == s[i];
    }
  }

  /** `s` has `q` at offset `i`. */
  ghost predicate InfixAt(q: string, s: string, i: int) {
    0 <= i <= |s| - |q| && s[i..i + |q|] == q
  }

  /** `q` occurs somewhere in `s`: the meaning of Python's `q in s`. */
  ghost predicate IsInfix(q: string, s: string) {
    exists i :: InfixAt(q, s, i)
  }

  /** Python's `q in s`, computed by trying each offset from the left. */
  function Contains(s: string, q: string): bool
    decreases |s|
  {
    if |q| > |s| then false
    else if q == s[..|q|] then true
    else Contains(s[1..], q)
  }

  /** An occurrence in the tail of `s` is one in `s`, one place further on. */
  lemma InfixTail(q: string, s: string, i: nat)
    requires s != []
    ensures InfixAt(q, s[1..], i) <==> InfixAt(q, s, i + 1)
  {
    if i + |q| <= |s| - 1 {
      assert s[1..][i..i + |q|] == s[i + 1..i + 1 + |q|];
    }
  }

  /** The computed test and the occurrence it stands for agree both ways. */
  lemma {:induction false} ContainsIff(s: string, q: string)
    ensures Contains(s, q) <==> IsInfix(q, s)
    decreases |s|
  {
    if |q| > |s| {
    } else if q == s[..|q|] {
      assert InfixAt(q, s, 0);
    } else {
      ContainsIff(s[1..], q);
      if Contains(s[1..], q) {
        var i :| InfixAt(q, s[1..], i);
        InfixTail(q, s, i);
      } else if IsInfix(q, s) {
        var i :| InfixAt(q, s, i);
        assert i != 0;
        InfixTail(q, s, i - 1);
      }
    }
  }

  /** The empty string occurs in every string, as `"" in s` is always true. */
  lemma EmptyIsInfix(s: string)
    ensures IsInfix("", s) && Contains(s, "")
  {
    assert InfixAt("", s, 0);
  }

  lemma InfixTransitive(a: string, b: string, c: string)
    requires IsInfix(a, b) && IsInfix(b, c)
    ensures IsInfix(a, c)
  {
    var i :| InfixAt(a, b, i);
    var j :| InfixAt(b, c, j);
    forall k | 0 <= k < |a| ensures c[j + i + k] == a[k] {
      assert a[k] == b[i..i + |a|][k] == b[i + k];
      assert b[i + k] == c[j..j + |b|][i + k];
    }
    assert c[j + i..j + i + |a|] == a;
    assert InfixAt(a, c, j + i);
  }

  /** Lower-casing keeps an occurrence where it was. */
  lemma LowerKeepsInfix(t: string, s: string, k: nat)
    requires InfixAt(t, s, k)
    ensures InfixAt(Lower(t), Lower(s), k)
  {
    LowerSlice(s, k, k + |t|);
  }

  /** An occurrence that starts and ends with a non-space character survives
      `strip`. */
  lemma StripKeepsInfix(t: string, s: string, k: nat)
    requires InfixAt(t, s, k)
    requires t != [] && !IsSpace(t[0]) && !IsSpace(t[|t| - 1])
    ensures IsInfix(t, Strip(s))
  {
    var r := Strip(s);
    var i := StripSlice(s);
    assert s[k] == t[0] && s[k + |t| - 1] == t[|t| - 1];
    assert i <= k;
    assert k + |t| <= i + |r|;
    forall m | 0 <= m < |t| ensures r[k - i + m] == t[m] {
      assert t[m] == s[k..k + |t|][m] == s[k + m];
    }
    assert r[k - i..k - i + |t|] == t;
    assert InfixAt(t, r, k - i);
  }

  /** A stripped string that occurs in `s` still occurs once `s` is stripped:
      it is empty, or it starts and ends with a non-space character. */
  lemma StrippedInfix(t: string, s: string)
    requires IsInfix(Strip(t), s)
    ensures IsInfix(Strip(t), Strip(s))
  {
    if Strip(t) == [] {
      EmptyIsInfix(Strip(s));
    } else {
      var j :| InfixAt(Strip(t), s, j);
      StripKeepsInfix(Strip(t), s, j);
    }
  }

  /** An occurrence that starts and ends with a non-space character is still
      found once both strings are lower-cased and the outer one is stripped. */
  lemma NormalizeKeepsInfix(t: string, s: string, k: nat)
    requires InfixAt(t, s, k)
    requires t != [] && !IsSpace(t[0]) && !IsSpace(t[|t| - 1])
    ensures IsInfix(Lower(t), Strip(Lower(s)))
  {
    LowerKeepsInfix(t, s, k);
    LowerCharKeepsSpace(t[0]);
    LowerCharKeepsSpace(t[|t| - 1]);
    StripKeepsInfix(Lower(t), Lower(s), k);
  }

  /** Python's `" ".join(items)`. */
  function Join(items: seq<string>): string
  {
    if |items| == 0 then ""
    else if |items| == 1 then items[0]
    else items[0] + " " + Join(items[1..])
  }

  /** An occurrence in `b` is one in `a + b`, `|a|` places further on. */
  lemma InfixAppendLeft(t: string, a: string, b: string, k: nat)
    requires InfixAt(t, b, k)
    ensures InfixAt(t, a + b, |a| + k)
  {
    assert (a + b)[|a| + k..|a| + k + |t|] == b[k..k + |t|];
  }

  /** Joining two or more items puts the first, a space, and the join of
      the rest side by side. */
  lemma JoinCons(items: seq<string>)
    requires |items| >= 2
    ensures Join(items) == (items[0] + " ") + Join(items[1..])
  {
  }

  /** Every item stands in the joined string. */
  lemma {:induction false} JoinItem(items: seq<string>, i: nat) returns (k: nat)
    requires i < |items|
    ensures InfixAt(items[i], Join(items), k)
    ensures i == 0 ==> k == 0
  {
    if |items| == 1 {
      k := 0;
    } else if i == 0 {
      JoinCons(items);
      assert Join(items) == items[0] + (" " + Join(items[1..]));
      k := 0;
    } else {
      var k' := JoinItem(items[1..], i - 1);
      JoinCons(items);
      InfixAppendLeft(items[i], items[0] + " ", Join(items[1..]), k');
      k := |items[0] + " "| + k';
    }
  }

  /** Two adjacent items, with the single space between them, stand side by
      side in the joined string. */
  lemma {:induction false} JoinAdjacent(items: seq<string>, i: nat) returns (k: nat)
    requires i + 1 < |items|
    ensures InfixAt(items[i] + " " + items[i + 1], Join(items), k)
  {
    var pair := items[i] + " " + items[i + 1];
    JoinCons(items);
    if i == 0 {
      var rest := Join(items[1..]);
      var k' := JoinItem(items[1..], 0);
      assert items[1] == rest[..|items[1]|];
      var head := items[0] + " ";
      assert pair == head + items[1];
      assert Join(items)[..|pair|] == head + rest[..|items[1]|];
      k := 0;
    } else {
      var k' := JoinAdjacent(items[1..], i - 1);
      InfixAppendLeft(pair, items[0] + " ", Join(items[1..]), k');
      k := |items[0] + " "| + k';
    }
  }

  /** A query occurring in a string still occurs in it once both are
      lower-cased and stripped. */
  lemma NormalizedInfix(q: string, s: string)
    requires IsInfix(q, s)
    ensures IsInfix(Strip(Lower(q)), Strip(Lower(s)))
  {
    var i := StripSlice(Lower(q));
    assert InfixAt(Strip(Lower(q)), Lower(q), i);
    var j :| InfixAt(q, s, j);
    LowerKeepsInfix(q, s, j);
    InfixTransitive(Strip(Lower(q)), Lower(q), Lower(s));
    StrippedInfix(Lower(q), Lower(s));
  }

  /** Every item, and every adjacent pair of items with the space between
      them, occurs in the joined string. */
  lemma JoinContains(items: seq<string>)
    ensures forall i :: 0 <= i < |items| ==> IsInfix(items[i], Join(items))
    ensures forall i :: 0 <= i < |items| - 1 ==> IsInfix(items[i] + " " + items[i + 1], Join(items))
  {
    forall i | 0 <= i < |items| ensures IsInfix(items[i], Join(items)) {
      var k := JoinItem(items, i);
    }
    forall i | 0 <= i < |items| - 1 ensures IsInfix(items[i] + " " + items[i + 1], Join(items)) {
      var k := JoinAdjacent(items, i);
    }
  }

  /** The decimal digits of `n`, as `f"{n}"` renders an int. */
  function Decimal(n: nat): (r: string)
    ensures r != []
    ensures forall k :: 0 <= k < |r| ==> '0' <= r[k] <= '9'
  {
    if n < 10 then [Digit(n)] else Decimal(n / 10) + [Digit(n % 10)]
  }

  function Digit(d: nat): (c: char)
    requires d < 10
    ensures '0' <= c <= '9'
  {
    ('0' as int + d) as char
  }

  /** Reads a string of decimal digits back as a number. */
  function ParseDecimal(s: string): nat
    requires forall k :: 0 <= k < |s| ==> '0' <= s[k] <= '9'
  {
    if s == [] then 0 else ParseDecimal(s[..|s| - 1]) * 10 + (s[|s| - 1] as int - '0' as int)
  }

  /** The rendered count reads back as the count. */
  lemma {:induction false} DecimalRoundTrip(n: nat)
    ensures ParseDecimal(Decimal(n)) == n
  {
    var r := Decimal(n);
    if n >= 10 {
      DecimalRoundTrip(n / 10);
      assert r[..|r| - 1] == Decimal(n / 10);
    }
  }
}
