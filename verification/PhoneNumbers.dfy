/** Phone numbers as the phone plugin normalises them before any lookup, limit or lock. */
module PhoneNumbers {
  import opened Prelude
  import opened Text

  predicate Separator(c: char) { c in {' ', '-', '(', ')'} }

  predicate Allowed(c: char, i: nat) { AsciiDigit(c) || (c == '+' && i == 0) || Separator(c) }

  function TrimStart(s: string): string {
    if s != "" && Whitespace(s[0]) then TrimStart(s[1..]) else s
  }

  function TrimEnd(s: string): string {
    if s != "" && Whitespace(s[|s| - 1]) then TrimEnd(s[..|s| - 1]) else s
  }

  function Trim(s: string): string { TrimEnd(TrimStart(s)) }

  function Digits(s: string): string {
    if s == "" then "" else Digits(s[..|s| - 1]) + if AsciiDigit(s[|s| - 1]) then [s[|s| - 1]] else ""
  }

  /** A number is its digits: 8 to 15 of them, among separators and at most a leading plus. */
  function Normalized(v: string): Option<string> {
    var s := Trim(v);
    if AllAllowed(s) && 8 <= |Digits(s)| <= 15 then Some("+" + Digits(s)) else None
  }

  predicate AllAllowed(s: string) { forall i | 0 <= i < |s| :: Allowed(s[i], i) }

  predicate E164(p: string) { 9 <= |p| <= 16 && p[0] == '+' && forall i | 1 <= i < |p| :: AsciiDigit(p[i]) }

  lemma {:induction false} DigitsOnly(s: string)
    ensures forall i | 0 <= i < |Digits(s)| :: AsciiDigit(Digits(s)[i])
    ensures (forall i | 0 <= i < |s| :: AsciiDigit(s[i])) ==> Digits(s) == s
  {
    if s != "" {
      DigitsOnly(s[..|s| - 1]);
    }
  }

  lemma {:induction false} DigitsAfterPlus(s: string)
    ensures Digits("+" + s) == Digits(s)
  {
    if s == "" {
      assert ("+" + s)[..0] == "";
    } else {
      DigitsAfterPlus(s[..|s| - 1]);
      assert ("+" + s)[..|s|] == "+" + s[..|s| - 1];
    }
  }

  lemma PlainIsTrimmed(p: string)
    requires E164(p)
    ensures Trim(p) == p
  {
    assert !Whitespace(p[0]) && !Whitespace(p[|p| - 1]);
  }

  lemma PlainIsNormal(p: string)
    requires E164(p)
    ensures Normalized(p) == Some(p)
  {
    PlainIsTrimmed(p);
    PlainDigits(p);
    assert AllAllowed(p);
  }

  lemma PlainDigits(p: string)
    requires E164(p)
    ensures Digits(p) == p[1..] && p == "+" + Digits(p)
  {
    var digits := p[1..];
    assert p == "+" + digits;
    DigitsAfterPlus(digits);
    DigitsOnly(digits);
  }

  lemma NormalIsPlain(v: string)
    requires Normalized(v).Some?
    ensures E164(Normalized(v).value)
  {
    var digits := Digits(Trim(v));
    DigitsOnly(Trim(v));
    assert forall i | 1 <= i < |digits| + 1 :: ("+" + digits)[i] == digits[i - 1];
  }

  /** The results are exactly the normalised numbers, and each of those is its own normal form. */
  lemma NormalFormIff(p: string)
    ensures E164(p) <==> Normalized(p) == Some(p)
  {
    if E164(p) {
      PlainIsNormal(p);
    }
    if Normalized(p) == Some(p) {
      NormalIsPlain(p);
    }
  }

  /** Normalising twice changes nothing, so every spelling of a number meets the same rows and locks. */
  lemma NormalizedTwice(v: string)
    requires Normalized(v).Some?
    ensures Normalized(Normalized(v).value) == Normalized(v)
  {
    NormalIsPlain(v);
    PlainIsNormal(Normalized(v).value);
  }

  /** What the loop pushes: digits, and a plus in first place. */
  function Kept(s: string): string {
    if s == "" then ""
    else
      var n := |s| - 1;
      Kept(s[..n]) + if (s[n] == '+' && n == 0) || AsciiDigit(s[n]) then [s[n]] else ""
  }

  lemma {:induction false} KeptIsDigits(s: string)
    ensures Kept(s) == (if s != "" && s[0] == '+' then "+" else "") + Digits(s)
  {
    if s != "" {
      var front := s[..|s| - 1];
      KeptIsDigits(front);
      assert front != "" ==> front[0] == s[0];
    }
  }

  function WithoutPlus(s: string): string { if s != "" && s[0] == '+' then s[1..] else s }

  lemma KeptWithoutPlus(s: string)
    ensures WithoutPlus(Kept(s)) == Digits(s)
  {
    KeptIsDigits(s);
    DigitsOnly(s);
    assert ("+" + Digits(s))[1..] == Digits(s);
  }

  method NormalizePhone(v: string) returns (r: Option<string>)
    ensures r == Normalized(v)
  {
    var s := Trim(v);
    var out := "";
    for i := 0 to |s|
      invariant forall k | 0 <= k < i :: Allowed(s[k], k)
      invariant out == Kept(s[..i])
    {
      assert s[..i + 1][..i] == s[..i];
      if (s[i] == '+' && i == 0) || AsciiDigit(s[i]) {
        out := out + [s[i]];
      } else if !Separator(s[i]) {
        assert !Allowed(s[i], i);
        return None;
      }
    }
    assert s[..|s|] == s;
    KeptWithoutPlus(s);
    var digits := WithoutPlus(out);
    r := if 8 <= |digits| <= 15 then Some("+" + digits) else None;
  }
}
