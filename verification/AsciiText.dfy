// ASCII text as Rust's string functions treat it: trimming, searching, and unsigned decimal
// numbers with `parse` and `to_string`.
module AsciiText {
  import opened Wrappers

  type Text = seq<U8>

  const SPACE: U8 := 32

  // char::is_whitespace on ASCII
  predicate IsSpace(c: U8) {
    c == SPACE || 9 <= c <= 13
  }

  function TrimStart(s: Text): Text {
    if s != [] && IsSpace(s[0]) then TrimStart(s[1..]) else s
  }

  function TrimEnd(s: Text): Text {
    if s != [] && IsSpace(s[|s| - 1]) then TrimEnd(s[..|s| - 1]) else s
  }

  function Trim(s: Text): Text {
    TrimEnd(TrimStart(s))
  }

  // The index of the first c, or |s|.
  function IndexOf(s: Text, c: U8): (i: nat)
    ensures i <= |s| && (i < |s| ==> s[i] == c) && c !in s[..i]
  {
    if s == [] || s[0] == c then 0 else 1 + IndexOf(s[1..], c)
  }

  lemma {:induction false} FirstIndex(s: Text, c: U8, k: nat)
    requires k < |s| && s[k] == c && c !in s[..k]
    ensures IndexOf(s, c) == k
  {
    if k > 0 {
      assert s[..k][0] == s[0];
      assert s[..k] == [s[0]] + s[1..][..k - 1];
      FirstIndex(s[1..], c, k - 1);
    }
  }

  predicate IsDigit(c: U8) {
    48 <= c <= 57
  }

  function ToText(n: nat): Text {
    if n < 10 then [48 + n] else ToText(n / 10) + [48 + n % 10]
  }

  // The value of a string of digits, or None past `max`: checked multiply and add.
  function Digits(s: Text, max: nat): Option<nat> {
    if s == [] then Some(0)
    else
      var c := s[|s| - 1];
      match Digits(s[..|s| - 1], max)
      case None => None
      case Some(v) => if IsDigit(c) && 10 * v + (c as int - 48) <= max then Some(10 * v + (c as int - 48)) else None
  }

  // str::parse for an unsigned type: an optional '+', then at least one digit.
  function Parse(s: Text, max: nat): Option<nat> {
    var digits := if |s| > 1 && s[0] == 43 then s[1..] else s;
    if digits == [] then None else Digits(digits, max)
  }

  predicate AllDigits(s: Text) {
    forall i :: 0 <= i < |s| ==> IsDigit(s[i])
  }

  lemma {:induction false} TextIsDigits(n: nat)
    ensures ToText(n) != [] && AllDigits(ToText(n))
  {
    if n >= 10 {
      TextIsDigits(n / 10);
    }
  }

  // A number is printed without leading zeros.
  lemma {:induction false} NoLeadingZero(n: nat)
    ensures ToText(n)[0] == 48 ==> n == 0 && ToText(n) == [48]
  {
    if n >= 10 {
      NoLeadingZero(n / 10);
    }
  }

  lemma {:induction false} DigitsOfText(n: nat, max: nat)
    requires n <= max
    ensures Digits(ToText(n), max) == Some(n)
  {
    if n < 10 {
      assert ToText(n)[..0] == [];
    } else {
      var head := ToText(n / 10);
      DigitsOfText(n / 10, max);
      assert ToText(n)[..|ToText(n)| - 1] == head;
    }
  }

  // A printed number reads back.
  lemma ParseOfText(n: nat, max: nat)
    requires n <= max
    ensures Parse(ToText(n), max) == Some(n)
  {
    TextIsDigits(n);
    assert IsDigit(ToText(n)[0]);
    DigitsOfText(n, max);
  }

  /* The number syntax without checked arithmetic. */

  // The value of a string of digits.
  function Value(s: Text): nat
    requires AllDigits(s)
  {
    if s == [] then 0 else 10 * Value(s[..|s| - 1]) + (s[|s| - 1] as int - 48)
  }

  // One optional '+', then digits, whose value is n.
  predicate Decimal(s: Text, n: nat) {
    var digits := if |s| > 1 && s[0] == 43 then s[1..] else s;
    digits != [] && AllDigits(digits) && Value(digits) == n
  }

  lemma {:induction false} DigitsIff(s: Text, max: nat)
    ensures Digits(s, max).Some? <==> AllDigits(s) && Value(s) <= max
    ensures Digits(s, max).Some? ==> Digits(s, max).value == Value(s)
  {
    if s != [] {
      var front, last := s[..|s| - 1], s[|s| - 1];
      DigitsIff(front, max);
      assert AllDigits(s) <==> AllDigits(front) && IsDigit(last) by {
        assert s == front + [last];
      }
    }
  }

  // A text parses as n exactly when it is written that way and n is within the type's range.
  lemma ParseIff(s: Text, max: nat, n: nat)
    ensures Parse(s, max) == Some(n) <==> Decimal(s, n) && n <= max
  {
    DigitsIff(if |s| > 1 && s[0] == 43 then s[1..] else s, max);
  }

  /* White space around a text. */

  // tab, line feed, vertical tab, form feed, carriage return, space
  predicate Blank(c: U8) {
    c in [9, 10, 11, 12, 13, 32]
  }

  predicate AllSpaces(s: Text) {
    forall i :: 0 <= i < |s| ==> Blank(s[i])
  }

  lemma {:induction false} TrimStartPad(pad: Text, s: Text)
    requires AllSpaces(pad) && (s != [] ==> !Blank(s[0]))
    ensures TrimStart(pad + s) == s
  {
    if pad != [] {
      assert (pad + s)[0] == pad[0];
      assert (pad + s)[1..] == pad[1..] + s;
      TrimStartPad(pad[1..], s);
    } else {
      assert pad + s == s;
    }
  }

  lemma {:induction false} TrimEndPad(s: Text, pad: Text)
    requires AllSpaces(pad) && (s != [] ==> !Blank(s[|s| - 1]))
    ensures TrimEnd(s + pad) == s
  {
    if pad != [] {
      var t := s + pad;
      assert t[|t| - 1] == pad[|pad| - 1];
      assert t[..|t| - 1] == s + pad[..|pad| - 1];
      TrimEndPad(s, pad[..|pad| - 1]);
    } else {
      assert s + pad == s;
    }
  }

  // Trimming takes off exactly the white space around a text that has none at its ends.
  lemma TrimPads(before: Text, s: Text, after: Text)
    requires AllSpaces(before) && AllSpaces(after) && s != [] && !Blank(s[0]) && !Blank(s[|s| - 1])
    ensures Trim(before + s + after) == s
  {
    assert before + s + after == before + (s + after);
    TrimStartPad(before, s + after);
    TrimEndPad(s, after);
  }

  lemma NumberEnds(n: nat)
    ensures var s := ToText(n); s != [] && !Blank(s[0]) && !Blank(s[|s| - 1])
  {
    TextIsDigits(n);
    assert IsDigit(ToText(n)[0]) && IsDigit(ToText(n)[|ToText(n)| - 1]);
  }
}
