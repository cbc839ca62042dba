/** The few string operations of Go's `strings` and `bytes` packages that the programs use.
    A string is a sequence of characters; nothing below depends on their encoding. */
module GoStrings {

  /** `pat` occurs in `s` at position `i`. */
  predicate At(s: string, pat: string, i: int) {
    0 <= i && i + |pat| <= |s| && s[i..i + |pat|] == pat
  }

  predicate Contains(s: string, pat: string) {
    exists i :: 0 <= i <= |s| && At(s, pat, i)
  }

  /** `Index`: the first occurrence, or -1. */
  function Index(s: string, pat: string): (i: int)
    ensures -1 <= i <= |s|
    ensures i >= 0 ==> At(s, pat, i)
    ensures forall j :: At(s, pat, j) ==> 0 <= i <= j
  {
    IndexFrom(s, pat, 0)
  }

  function IndexFrom(s: string, pat: string, from: nat): (i: int)
    requires from <= |s|
    ensures i == -1 || from <= i <= |s|
    ensures i >= 0 ==> At(s, pat, i)
    ensures forall j :: from <= j && At(s, pat, j) ==> 0 <= i <= j
    decreases |s| - from
  {
    if At(s, pat, from) then from
    else if from == |s| then -1
    else IndexFrom(s, pat, from + 1)
  }

  /** `Replace(s, old, new, -1)`: every occurrence, left to right. */
  function ReplaceAll(s: string, old_: string, new_: string): string
    requires old_ != ""
    decreases |s|
  {
    if s == "" then ""
    else if old_ <= s then new_ + ReplaceAll(s[|old_|..], old_, new_)
    else [s[0]] + ReplaceAll(s[1..], old_, new_)
  }

  /** `Replace(s, old, new, 1)`: the first occurrence only. */
  function ReplaceFirst(s: string, old_: string, new_: string): string {
    var i := Index(s, old_);
    if i < 0 then s else s[..i] + new_ + s[i + |old_|..]
  }

  predicate HasSuffix(s: string, suffix: string) {
    |suffix| <= |s| && s[|s| - |suffix|..] == suffix
  }

  function TrimSuffix(s: string, suffix: string): string {
    if HasSuffix(s, suffix) then s[..|s| - |suffix|] else s
  }

  function TrimPrefix(s: string, prefix: string): string {
    if prefix <= s then s[|prefix|..] else s
  }

  /** `Trim(s, "c")`: drops every leading and trailing `c`. */
  function TrimLeft(s: string, c: char): string {
    if s != "" && s[0] == c then TrimLeft(s[1..], c) else s
  }

  function TrimRight(s: string, c: char): string {
    if s != "" && s[|s| - 1] == c then TrimRight(s[..|s| - 1], c) else s
  }

  function Trim(s: string, c: char): string {
    TrimRight(TrimLeft(s, c), c)
  }

  /** `SplitN(s, sep, 2)`: the text before and after the first separator, if there is one. */
  function SplitTwo(s: string, sep: char): seq<string> {
    var i := Index(s, [sep]);
    if i < 0 then [s] else [s[..i], s[i + 1..]]
  }

  /** `ToLower` on ASCII letters; every other character is kept. */
  function LowerChar(c: char): char {
    if 'A' <= c <= 'Z' then (c as int + 32) as char else c
  }

  function ToLower(s: string): (l: string)
    ensures |l| == |s| && forall i :: 0 <= i < |s| ==> l[i] == LowerChar(s[i])
  {
    seq(|s|, i requires 0 <= i < |s| => LowerChar(s[i]))
  }

  /** White space as `unicode.IsSpace` defines it. */
  predicate IsSpace(c: char) {
    c in "\t\n\r " || c == 0x0B as char || c == 0x0C as char || c == 0x85 as char || c == 0xA0 as char
    || c == 0x1680 as char || 0x2000 as char <= c <= 0x200A as char || c == 0x2028 as char
    || c == 0x2029 as char || c == 0x202F as char || c == 0x205F as char || c == 0x3000 as char
  }

  /** `Fields`: the maximal runs of characters that are not white space. */
  function Fields(s: string): seq<string>
    decreases |s|
  {
    if s == "" then []
    else if IsSpace(s[0]) then Fields(s[1..])
    else
      var n := WordLength(s);
      [s[..n]] + Fields(s[n..])
  }

  function WordLength(s: string): (n: nat)
    ensures n <= |s| && (s != "" && !IsSpace(s[0]) ==> n > 0)
    ensures forall i :: 0 <= i < n ==> !IsSpace(s[i])
    ensures n < |s| ==> IsSpace(s[n])
  {
    if s == "" || IsSpace(s[0]) then 0 else 1 + WordLength(s[1..])
  }

  predicate NoSpace(s: string) {
    forall i :: 0 <= i < |s| ==> !IsSpace(s[i])
  }

  /** A word ends at the first white space. */
  lemma WordLengthIs(w: string, rest: string)
    requires NoSpace(w) && (rest != "" ==> IsSpace(rest[0]))
    ensures WordLength(w + rest) == |w|
  {
    var n, s := WordLength(w + rest), w + rest;
    assert forall i :: 0 <= i < |w| ==> !IsSpace(s[i]);
    assert rest != "" ==> IsSpace(s[|w|]);
  }

  lemma FieldsCons(w: string, rest: string)
    requires w != "" && NoSpace(w) && (rest != "" ==> IsSpace(rest[0]))
    ensures Fields(w + rest) == [w] + Fields(rest)
  {
    var s := w + rest;
    WordLengthIs(w, rest);
    assert s[0] == w[0] && s[..|w|] == w && s[|w|..] == rest;
  }

  /** No field is empty or contains white space. */
  lemma {:induction false} FieldsAreWords(s: string)
    ensures forall f :: f in Fields(s) ==> f != "" && NoSpace(f)
    decreases |s|
  {
    if s == "" {
    } else if IsSpace(s[0]) {
      FieldsAreWords(s[1..]);
    } else {
      FieldsAreWords(s[WordLength(s)..]);
    }
  }

  /** A text is its own only field exactly when it is not empty and has no white space. */
  lemma OneField(s: string)
    ensures Fields(s) == [s] <==> s != "" && NoSpace(s)
  {
    if s != "" && NoSpace(s) {
      FieldsCons(s, "");
      assert s + "" == s;
    }
    if Fields(s) == [s] {
      FieldsAreWords(s);
      assert s in Fields(s);
    }
  }

  lemma NoOccurrence(s: string, pat: string)
    ensures Contains(s, pat) <==> Index(s, pat) >= 0
  {
  }

  // ---- Decimal printing -------------------------------------------------------------------------

  /** `fmt.Sprint` of an integer. */
  function Sprint(n: int): string {
    if n < 0 then "-" + Digits(-n) else Digits(n)
  }

  function Digits(n: nat): (s: string)
    ensures s != "" && s[0] != '-'
  {
    if n < 10 then [Digit(n)] else Digits(n / 10) + [Digit(n % 10)]
  }

  function Digit(d: nat): char
    requires d < 10
  {
    (d + 48) as char
  }

  lemma {:induction false} DigitsInjective(a: nat, b: nat)
    requires Digits(a) == Digits(b)
    ensures a == b
  {
    var s := Digits(a);
    assert s[|s| - 1] == Digit(a % 10) == Digit(b % 10);
    if a < 10 || b < 10 {
    } else {
      assert Digits(a / 10) == s[..|s| - 1] == Digits(b / 10);
      DigitsInjective(a / 10, b / 10);
    }
  }

  /** Different integers print differently. */
  lemma SprintInjective(a: int, b: int)
    ensures Sprint(a) == Sprint(b) <==> a == b
  {
    assert Sprint(a)[0] == '-' <==> a < 0;
    assert Sprint(b)[0] == '-' <==> b < 0;
    if Sprint(a) == Sprint(b) {
      if a < 0 && b < 0 {
        assert Digits(-a) == Sprint(a)[1..] == Sprint(b)[1..] == Digits(-b);
        DigitsInjective(-a, -b);
      } else if a >= 0 && b >= 0 {
        DigitsInjective(a, b);
      }
    }
  }
}
