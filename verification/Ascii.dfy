/** ASCII string functions of the standard library: trimming, lower case, cutting at a
    separator, and decimal numbers. */
module Ascii {
  import opened Common

  predicate IsSpace(c: char) {
    c == ' ' || '\t' <= c <= '\r'
  }

  function TrimLeft(s: string): string {
    if s != [] && IsSpace(s[0]) then TrimLeft(s[1..]) else s
  }

  function TrimRight(s: string): string {
    if s != [] && IsSpace(s[|s| - 1]) then TrimRight(s[..|s| - 1]) else s
  }

  /** strings.TrimSpace */
  function Trim(s: string): string { TrimLeft(TrimRight(s)) }

  predicate Trimmed(s: string) {
    s == [] || (!IsSpace(s[0]) && !IsSpace(s[|s| - 1]))
  }

  lemma TrimmedStays(s: string)
    requires Trimmed(s)
    ensures Trim(s) == s
  {
  }

  lemma {:induction false} TrimRightPart(s: string)
    ensures TrimRight(s) <= s
    ensures TrimRight(s) != [] ==> !IsSpace(TrimRight(s)[|TrimRight(s)| - 1])
  {
    if s != [] && IsSpace(s[|s| - 1]) { TrimRightPart(s[..|s| - 1]); }
  }

  lemma {:induction false} TrimLeftPart(s: string)
    ensures forall c :: c in TrimLeft(s) ==> c in s
    ensures TrimLeft(s) != [] ==> s != [] && !IsSpace(TrimLeft(s)[0]) && TrimLeft(s)[|TrimLeft(s)| - 1] == s[|s| - 1]
  {
    if s != [] && IsSpace(s[0]) {
      TrimLeftPart(s[1..]);
      assert forall c :: c in s[1..] ==> c in s;
    }
  }

  lemma TrimTrims(s: string)
    ensures Trimmed(Trim(s))
    ensures forall c :: c in Trim(s) ==> c in s
  {
    TrimRightPart(s);
    TrimLeftPart(TrimRight(s));
    assert forall c :: c in TrimRight(s) ==> c in s;
  }

  /** Padding by one space is what trimming removes. */
  lemma TrimPadded(s: string)
    requires Trimmed(s)
    ensures Trim(" " + s) == s && Trim(s + " ") == s
  {
    assert (s + " ")[..|s|] == s;
    assert TrimRight(s + " ") == TrimRight(s);
    if s == [] {
      assert " " + s == " ";
      assert TrimRight(" ") == TrimRight(" "[..0]);
    } else {
      assert (" " + s)[1..] == s;
      assert TrimRight(" " + s) == " " + s;
      assert TrimLeft(" " + s) == TrimLeft(s);
    }
  }

  function LowerChar(c: char): char {
    if 'A' <= c <= 'Z' then (c as int + 32) as char else c
  }

  function Lower(s: string): string {
    seq(|s|, i requires 0 <= i < |s| => LowerChar(s[i]))
  }

  /** strings.Index of a character; |s| when absent. */
  function IndexOf(s: string, c: char): (i: nat)
    ensures i <= |s| && (i < |s| <==> c in s) && (i < |s| ==> s[i] == c)
    ensures forall j :: 0 <= j < i ==> s[j] != c
  {
    if s == [] || s[0] == c then 0
    else 1 + IndexOf(s[1..], c)
  }

  /** strings.SplitN(s, c, 2) when it yields two parts. */
  function Cut(s: string, c: char): Option<(string, string)> {
    var i := IndexOf(s, c);
    if i < |s| then Some((s[..i], s[i + 1..])) else None
  }

  lemma CutAt(a: string, b: string, c: char)
    requires c !in a
    ensures Cut(a + [c] + b, c) == Some((a, b))
  {
    var s := a + [c] + b;
    assert s[|a|] == c;
    forall j | 0 <= j < |a|
      ensures s[j] != c
    {
      assert s[j] == a[j] && a[j] in a;
    }
    assert IndexOf(s, c) == |a|;
    assert s[..|a|] == a && s[|a| + 1..] == b;
  }

  // ---------- decimal numbers ----------

  function DigitChar(d: nat): char
    requires d < 10
  {
    (48 + d) as char
  }

  predicate IsDigit(c: char) { 48 <= c as int <= 57 }

  function Utoa(n: nat): string {
    if n < 10 then [DigitChar(n)] else Utoa(n / 10) + [DigitChar(n % 10)]
  }

  function Itoa(n: int): string {
    if n < 0 then "-" + Utoa(-n) else Utoa(n)
  }

  predicate AllDigits(s: string) {
    forall i :: 0 <= i < |s| ==> IsDigit(s[i])
  }

  function Value(s: string): nat
    requires AllDigits(s)
  {
    if s == [] then 0
    else
      assert IsDigit(s[|s| - 1]);
      10 * Value(s[..|s| - 1]) + (s[|s| - 1] as int - 48)
  }

  const MAX_INT: int := 0x7fff_ffff_ffff_ffff

  predicate IsInt64(n: int) { -MAX_INT - 1 <= n <= MAX_INT }

  function Clamp(n: int): int {
    if n > MAX_INT then MAX_INT else if n < -MAX_INT - 1 then -MAX_INT - 1 else n
  }

  /** strconv.Atoi with its error ignored: 0 on a syntax error, clamped on overflow. */
  function Atoi(s: string): (n: int)
    ensures IsInt64(n)
  {
    var digits := if s != [] && (s[0] == '-' || s[0] == '+') then s[1..] else s;
    if digits == [] || !AllDigits(digits) then 0
    else
      var v: int := Value(digits);
      Clamp(if s[0] == '-' then -v else v)
  }

  /** strconv.Atoi: None on a syntax error or overflow. */
  function ParseInt(s: string): Option<int> {
    var digits := if s != [] && (s[0] == '-' || s[0] == '+') then s[1..] else s;
    if digits == [] || !AllDigits(digits) then None
    else
      var v: int := Value(digits);
      var n := if s[0] == '-' then -v else v;
      if IsInt64(n) then Some(n) else None
  }

  lemma {:induction false} UtoaValue(n: nat)
    ensures Utoa(n) != [] && AllDigits(Utoa(n))
    ensures Value(Utoa(n)) == n
  {
    if n < 10 {
      assert Utoa(n)[..0] == [];
    } else {
      UtoaValue(n / 10);
      assert Utoa(n)[..|Utoa(n)| - 1] == Utoa(n / 10);
    }
  }

  /** Every machine integer survives printing and parsing. */
  lemma AtoiItoa(n: int)
    requires IsInt64(n)
    ensures Atoi(Itoa(n)) == n
  {
    hide Utoa, Value;
    UtoaValue(if n < 0 then -n else n);
    if n < 0 {
      assert Itoa(n)[1..] == Utoa(-n);
    } else {
      assert IsDigit(Utoa(n)[0]);
    }
  }

  lemma ItoaPlain(n: int)
    ensures Itoa(n) != [] && Trimmed(Itoa(n))
    ensures forall c :: c in Itoa(n) ==> IsDigit(c) || c == '-'
  {
    UtoaValue(if n < 0 then -n else n);
    var u := Utoa(if n < 0 then -n else n);
    assert IsDigit(u[0]) && IsDigit(u[|u| - 1]);
  }
}
