/** Text: decimal numbers, hex digits, white space and splitting on dots. */
module Text {
  import opened Dicts

  predicate IsDigit(c: char) {
    '0' <= c <= '9'
  }

  predicate IsHexDigit(c: char) {
    '0' <= c <= '9' || 'a' <= c <= 'f'
  }

  /** str.lower() on one ASCII character. */
  function Lower(c: char): char {
    if 'A' <= c <= 'Z' then (c as int + 32) as char else c
  }

  /** ASCII white space, as str.strip() and str.split() see it. */
  predicate IsSpace(c: char) {
    c == ' ' || 9 <= c as int <= 13 || 28 <= c as int <= 31
  }

  /** s.strip(). */
  function Strip(s: string): string
    decreases |s|
  {
    if s == "" then ""
    else if IsSpace(s[0]) then Strip(s[1..])
    else if IsSpace(s[|s| - 1]) then Strip(s[..|s| - 1])
    else s
  }

  function Digit(d: nat): (c: char)
    requires d < 10
    ensures IsDigit(c) && c as int == '0' as int + d
  {
    ('0' as int + d) as char
  }

  /** str(n) for n >= 0. */
  function Dec(n: nat): (s: string)
    ensures s != [] && forall i :: 0 <= i < |s| ==> IsDigit(s[i])
  {
    if n < 10 then [Digit(n)] else Dec(n / 10) + [Digit(n % 10)]
  }

  /** str(n). */
  function Str(n: int): string {
    if n < 0 then "-" + Dec(-n) else Dec(n)
  }

  function ParseDigits(s: string): Option<nat> {
    if s == [] || !IsDigit(s[|s| - 1]) then None
    else
      var d: nat := s[|s| - 1] as int - '0' as int;
      if |s| == 1 then Some(d)
      else match ParseDigits(s[..|s| - 1])
           case None => None
           case Some(n) => Some(10 * n + d)
  }

  /** int(s) on an optional sign followed by digits; None is ValueError. */
  function ParseInt(s: string): Option<int> {
    if s != [] && s[0] == '-' then
      var n := ParseDigits(s[1..]);
      if n.Some? then Some(-(n.value as int)) else None
    else
      var n := ParseDigits(s);
      if n.Some? then Some(n.value) else None
  }

  lemma {:induction false} ParseDec(n: nat)
    ensures ParseDigits(Dec(n)) == Some(n)
  {
    if n >= 10 {
      ParseDec(n / 10);
      assert Dec(n)[..|Dec(n)| - 1] == Dec(n / 10);
    }
  }

  /** int(str(n)) == n, for negative numbers too. */
  lemma ParseStr(n: int)
    ensures ParseInt(Str(n)) == Some(n)
  {
    if n < 0 {
      ParseDec(-n);
      assert Str(n)[1..] == Dec(-n);
    } else {
      ParseDec(n);
      assert IsDigit(Dec(n)[0]);
    }
  }

  /** Numbers carry no blanks. */
  lemma StripStr(n: int)
    ensures Strip(Str(n)) == Str(n)
  {
    var s := Str(n);
    assert !IsSpace(s[0]) && !IsSpace(s[|s| - 1]);
  }

  lemma DecInjective(a: nat, b: nat)
    requires Dec(a) == Dec(b)
    ensures a == b
  {
    ParseDec(a);
    ParseDec(b);
  }

  /** Index of the first dot, or |s|. */
  function FirstDot(s: string): (i: nat)
    ensures i <= |s|
    ensures i < |s| ==> s[i] == '.'
    ensures forall j :: 0 <= j < i ==> s[j] != '.'
  {
    if s == [] || s[0] == '.' then 0 else 1 + FirstDot(s[1..])
  }

  /** s.split("."). */
  function Split(s: string): (parts: seq<string>)
    ensures parts != []
    decreases |s|
  {
    var i := FirstDot(s);
    if i == |s| then [s] else [s[..i]] + Split(s[i + 1..])
  }
}
