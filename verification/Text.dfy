/** Character classes and name rules shared by the validators; a char is one Unicode scalar value. */
module Text {
  predicate AsciiDigit(c: char) { '0' <= c <= '9' }

  predicate AsciiAlphanumeric(c: char) { 'a' <= c <= 'z' || 'A' <= c <= 'Z' || AsciiDigit(c) }

  predicate AsciiControl(c: char) { c < ' ' || c == '\U{7F}' }

  /** Category Cc. */
  predicate Control(c: char) { c < ' ' || '\U{7F}' <= c <= '\U{9F}' }

  predicate Whitespace(c: char) {
    || '\t' <= c <= '\r' || c == ' ' || c == '\U{85}' || c == '\U{A0}' || c == '\U{1680}'
    || '\U{2000}' <= c <= '\U{200A}'
    || c == '\U{2028}' || c == '\U{2029}' || c == '\U{202F}' || c == '\U{205F}' || c == '\U{3000}'
  }

  function Utf8Width(c: char): nat {
    if c < '\U{80}' then 1 else if c < '\U{800}' then 2 else if c < '\U{10000}' then 3 else 4
  }

  /** Section 3 of RFC 3629: where the widths begin and end. */
  lemma WidthSteps(c: char, d: char)
    ensures c <= d ==> 1 <= Utf8Width(c) <= Utf8Width(d) <= 4
    ensures Utf8Width('\U{7F}') == 1 && Utf8Width('\U{80}') == 2 && Utf8Width('\U{7FF}') == 2
    ensures Utf8Width('\U{800}') == 3 && Utf8Width('\U{FFFF}') == 3 && Utf8Width('\U{10000}') == 4
  {
  }

  /** Length in bytes of the UTF-8 form. */
  function Utf8Length(s: string): nat {
    if s == "" then 0
    else Utf8Length(s[1..]) + Utf8Width(s[0])
  }

  lemma {:induction false} AsciiLength(s: string)
    requires forall i | 0 <= i < |s| :: s[i] < '\U{80}'
    ensures Utf8Length(s) == |s|
  {
    if s != "" {
      AsciiLength(s[1..]);
    }
  }

  predicate MadeOf(s: string, marks: set<char>) {
    forall i | 0 <= i < |s| :: AsciiAlphanumeric(s[i]) || s[i] in marks
  }

  /** The account, phone and provider plugins' names. */
  predicate ValidId(s: string) { 0 < |s| <= 256 && MadeOf(s, {'.', '_', '-', ':'}) }

  /** The flow and client plugins' names. */
  predicate ValidName(s: string) { 0 < |s| <= 128 && MadeOf(s, {'.', '_', '-'}) }

  /** URL-safe base64 of 32 random bytes. */
  predicate Random32(s: string) { |s| == 43 && MadeOf(s, {'-', '_'}) }

  /** A return target as the flow store and the client accept it. */
  predicate ValidReturn(s: string) {
    && |s| >= 1 && s[0] == '/' && !(|s| >= 2 && s[1] == '/') && Utf8Length(s) <= 2048
    && forall i | 0 <= i < |s| :: !AsciiControl(s[i]) && s[i] != '\\'
  }
}
