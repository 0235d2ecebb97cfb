/** The E.164 phone value object: src/modules/classes/domain/value-objects/phone.vo.ts. */
module Phones {
  import opened Basics
  import opened Text

  const DEFAULT_COUNTRY_CODE := "+20"

  datatype Phone = Phone(value: string)

  datatype InvalidPhone = InvalidPhone(input: string)

  /** The class `[\s\-().]` that `parse` deletes. */
  predicate IsFormatting(c: char) {
    IsWhite(c) || c == '-' || c == '(' || c == ')' || c == '.'
  }

  predicate IsDigit(c: char) {
    '0' <= c <= '9'
  }

  predicate AllDigits(s: string) {
    forall i | 0 <= i < |s| :: IsDigit(s[i])
  }

  /** `/^\+[1-9]\d{6,14}$/`: a plus sign and 7 to 15 digits, the first not zero. */
  predicate MatchesE164(s: string) {
    && 8 <= |s| <= 16
    && s[0] == '+'
    && s[1] != '0'
    && AllDigits(s[1..])
  }

  function Strip(s: string): string {
    if s == "" then ""
    else if IsFormatting(s[0]) then Strip(s[1..])
    else [s[0]] + Strip(s[1..])
  }

  function DropZeros(s: string): string {
    if s != "" && s[0] == '0' then DropZeros(s[1..]) else s
  }

  /** The rewriting steps of `parse` between stripping and the final shape test. */
  function Internationalise(digits: string, countryCode: string): string {
    var prefixed := if "00" <= digits then "+" + digits[2..] else digits;
    if "+" <= prefixed then prefixed else countryCode + DropZeros(prefixed)
  }

  /** An accepted phone is `+` and 7 to 15 digits with a non-zero first digit. */
  function Parse(input: string, countryCode: string := DEFAULT_COUNTRY_CODE): (r: Result<Phone, InvalidPhone>)
    ensures r.Ok? ==> MatchesE164(r.value.value)
    ensures r.Err? ==> r.error == InvalidPhone(input)
  {
    if |Trim(input)| == 0 then Err(InvalidPhone(input))
    else
      var digits := Internationalise(Strip(input), countryCode);
      if MatchesE164(digits) then Ok(Phone(digits)) else Err(InvalidPhone(input))
  }

  /** Both accepted with the same value, or both rejected. */
  predicate SameOutcome(a: Result<Phone, InvalidPhone>, b: Result<Phone, InvalidPhone>) {
    if a.Ok? then b == a else b.Err?
  }

  function Zeros(k: nat): (s: string)
    ensures |s| == k && forall i | 0 <= i < k :: s[i] == '0'
  {
    seq(k, _ => '0')
  }

  // ---- Stripping ----

  lemma {:induction false} StripConcat(a: string, b: string)
    ensures Strip(a + b) == Strip(a) + Strip(b)
  {
    if a == "" {
      assert a + b == b;
    } else {
      assert (a + b)[0] == a[0] && (a + b)[1..] == a[1..] + b;
      StripConcat(a[1..], b);
    }
  }

  lemma {:induction false} StripAllFormatting(s: string)
    requires forall i | 0 <= i < |s| :: IsFormatting(s[i])
    ensures Strip(s) == ""
  {
    if s != "" {
      StripAllFormatting(s[1..]);
    }
  }

  lemma {:induction false} StripPlain(s: string)
    requires forall i | 0 <= i < |s| :: !IsFormatting(s[i])
    ensures Strip(s) == s
  {
    if s != "" {
      StripPlain(s[1..]);
    }
  }

  // ---- Canonicalisation ----

  /** A canonical number parses to itself whatever the default country code. */
  lemma CanonicalIsFixed(value: string, countryCode: string)
    requires MatchesE164(value)
    ensures Parse(value, countryCode) == Ok(Phone(value))
  {
    forall i | 0 <= i < |value| ensures !IsFormatting(value[i]) {
      if i > 0 {
        assert value[i] == value[1..][i - 1];
      }
    }
    StripPlain(value);
    TrimEmptyIffBlank(value);
    assert !IsWhite(value[0]);
  }

  /** Parsing is idempotent: what one call accepts, any later call returns unchanged. */
  lemma ParseIdempotent(input: string, first: string, second: string)
    requires Parse(input, first).Ok?
    ensures Parse(Parse(input, first).value.value, second) == Parse(input, first)
  {
    CanonicalIsFixed(Parse(input, first).value.value, second);
  }

  // ---- Formatting ----

  /** Between two inputs that differ only in formatting, the outcome can differ only when exactly one
      of them is blank and the default country code is itself a complete number. */
  lemma FormattingDecides(a: string, b: string, countryCode: string)
    requires Strip(a) == Strip(b)
    ensures SameOutcome(Parse(a, countryCode), Parse(b, countryCode))
       <==> (Blank(a) <==> Blank(b)) || !MatchesE164(countryCode)
  {
    TrimEmptyIffBlank(a);
    TrimEmptyIffBlank(b);
    if Blank(a) { StripAllFormatting(a); }
    if Blank(b) { StripAllFormatting(b); }
    assert countryCode + "" == countryCode;
  }

  /** Inserting or removing formatting characters anywhere in a non-blank input changes nothing. */
  lemma FormattingIgnored(before: string, formatting: string, after: string, countryCode: string)
    requires forall i | 0 <= i < |formatting| :: IsFormatting(formatting[i])
    requires !Blank(before + after)
    ensures SameOutcome(Parse(before + formatting + after, countryCode), Parse(before + after, countryCode))
  {
    StripConcat(before, after);
    StripConcat(before + formatting, after);
    StripConcat(before, formatting);
    StripAllFormatting(formatting);
    var full := before + formatting + after;
    var i :| 0 <= i < |before + after| && !IsWhite((before + after)[i]);
    var j := if i < |before| then i else i + |formatting|;
    assert full[j] == (before + after)[i];
    FormattingDecides(full, before + after, countryCode);
  }

  /** With the service's own default code, blankness makes no difference either. */
  lemma DefaultCodeFormattingIgnored(a: string, b: string)
    requires Strip(a) == Strip(b)
    ensures SameOutcome(Parse(a), Parse(b))
  {
    FormattingDecides(a, b, DEFAULT_COUNTRY_CODE);
  }

  // ---- Spellings of one number ----

  lemma {:induction false} DropZerosOf(k: nat, n: string)
    requires n != "" && n[0] != '0'
    ensures DropZeros(Zeros(k) + n) == n
  {
    var s := Zeros(k) + n;
    if k == 0 {
      assert s == n;
    } else {
      assert s[1..] == Zeros(k - 1) + n;
      DropZerosOf(k - 1, n);
    }
  }

  /** A non-empty input of digits and plus signs reaches the shape test unstripped. */
  lemma ParseUnformatted(s: string, countryCode: string)
    requires s != "" && forall i | 0 <= i < |s| :: IsDigit(s[i]) || s[i] == '+'
    ensures Parse(s, countryCode).Ok? <==> MatchesE164(Internationalise(s, countryCode))
    ensures Parse(s, countryCode).Ok? ==> Parse(s, countryCode).value == Phone(Internationalise(s, countryCode))
  {
    StripPlain(s);
    TrimEmptyIffBlank(s);
    assert !IsWhite(s[0]);
  }

  /** The outcome of parsing a spelling that denotes the international number `+digits`. */
  ghost predicate Denotes(r: Result<Phone, InvalidPhone>, digits: string) {
    if MatchesE164("+" + digits) then r == Ok(Phone("+" + digits)) else r.Err?
  }

  lemma LocalPrefixes(s: string, code: string)
    requires s != "" && s[0] != '+' && (|s| >= 2 && s[0] == '0' ==> s[1] != '0')
    ensures Internationalise(s, code) == code + DropZeros(s)
  {
    assert !("00" <= s) && !("+" <= s);
  }

  lemma LocalSpelling(k: nat, n: string, cc: string)
    requires k <= 1 && AllDigits(n) && n != "" && n[0] != '0'
    ensures Internationalise(Zeros(k) + n, "+" + cc) == "+" + (cc + n)
  {
    var s := Zeros(k) + n;
    assert s[k] == n[0];
    LocalPrefixes(s, "+" + cc);
    DropZerosOf(k, n);
    assert ("+" + cc) + n == "+" + (cc + n);
  }

  lemma ZerosSpelling(k: nat, n: string, code: string)
    requires k >= 2
    ensures Internationalise(Zeros(k) + n, code) == "+" + (Zeros(k - 2) + n)
  {
    var s := Zeros(k) + n;
    assert s[..2] == "00";
    assert s[2..] == Zeros(k - 2) + n;
  }

  /** What a run of k zeros before a subscriber number means: with none or one it is a local number,
      with two the number is read as international without the country code, with more it is rejected. */
  lemma LeadingZeros(k: nat, n: string, cc: string)
    requires AllDigits(n) && n != "" && n[0] != '0'
    requires AllDigits(cc) && cc != "" && cc[0] != '0'
    ensures k <= 1 ==> Denotes(Parse(Zeros(k) + n, "+" + cc), cc + n)
    ensures k == 2 ==> Denotes(Parse(Zeros(k) + n, "+" + cc), n)
    ensures k >= 3 ==> Parse(Zeros(k) + n, "+" + cc).Err?
  {
    var s := Zeros(k) + n;
    assert forall i | 0 <= i < |s| :: IsDigit(s[i]);
    ParseUnformatted(s, "+" + cc);
    if k <= 1 {
      LocalSpelling(k, n, cc);
    } else {
      ZerosSpelling(k, n, "+" + cc);
      assert k == 2 ==> Zeros(k - 2) + n == n;
      assert k >= 3 ==> ("+" + (Zeros(k - 2) + n))[1] == '0';
    }
  }

  lemma InternationalPrefixes(number: string, countryCode: string)
    requires AllDigits(number) && number != ""
    ensures Denotes(Parse("00" + number, countryCode), number)
    ensures Denotes(Parse("+" + number, countryCode), number)
  {
    var long := "00" + number;
    assert forall i | 0 <= i < |long| :: IsDigit(long[i]);
    ParseUnformatted(long, countryCode);
    assert long[..2] == "00" && long[2..] == number;
    ParseUnformatted("+" + number, countryCode);
  }

  /** The local, trunk-prefixed, `00` and `+` spellings of one number agree: same phone, or all rejected. */
  lemma SpellingsAgree(n: string, cc: string, number: string, code: string)
    requires AllDigits(n) && n != "" && n[0] != '0'
    requires AllDigits(cc) && cc != "" && cc[0] != '0'
    requires number == cc + n && code == "+" + cc
    ensures Denotes(Parse(n, code), number)
    ensures Denotes(Parse("0" + n, code), number)
    ensures Denotes(Parse("00" + number, code), number)
    ensures Denotes(Parse("+" + number, code), number)
  {
    assert Denotes(Parse(n, code), number) by {
      LeadingZeros(0, n, cc);
      assert Zeros(0) + n == n;
    }
    assert Denotes(Parse("0" + n, code), number) by {
      LeadingZeros(1, n, cc);
      assert Zeros(1) + n == "0" + n;
    }
    InternationalPrefixes(number, code);
  }

  // ---- Every input, character by character ----

  /** The characters a caller may scatter over a number, one by one: white space and four punctuation marks. */
  const FORMATTING: set<char> := WHITE_SPACE + {'-', '(', ')', '.'}

  const DIGITS: string := "0123456789"

  lemma FormattingCharacters(c: char)
    ensures IsFormatting(c) <==> c in FORMATTING
  {
    WhiteCharacters(c);
  }

  /** Any one of those characters, put in or taken out anywhere, changes nothing of a non-blank input. */
  lemma EachFormattingIgnored(before: string, c: char, after: string, countryCode: string)
    requires c in FORMATTING
    requires exists i :: 0 <= i < |before + after| && (before + after)[i] !in WHITE_SPACE
    ensures SameOutcome(Parse(before + [c] + after, countryCode), Parse(before + after, countryCode))
  {
    FormattingCharacters(c);
    var i :| 0 <= i < |before + after| && (before + after)[i] !in WHITE_SPACE;
    WhiteCharacters((before + after)[i]);
    FormattingIgnored(before, [c], after, countryCode);
  }

  lemma BlankRejected(input: string, countryCode: string)
    requires forall i | 0 <= i < |input| :: input[i] in WHITE_SPACE
    ensures Parse(input, countryCode).Err?
  {
    forall c { WhiteCharacters(c); }
    TrimEmptyIffBlank(input);
  }

  lemma {:induction false} StripKeeps(s: string, c: char)
    requires c in s && !IsFormatting(c)
    ensures c in Strip(s)
  {
    if s[0] != c {
      assert c in s[1..];
      StripKeeps(s[1..], c);
    }
  }

  lemma {:induction false} DropZerosKeeps(s: string, c: char)
    requires c in s && c != '0'
    ensures c in DropZeros(s)
  {
    if s[0] == '0' {
      assert c in s[1..];
      DropZerosKeeps(s[1..], c);
    }
  }

  lemma InternationaliseKeeps(s: string, countryCode: string, c: char)
    requires c in s && c != '0'
    ensures c in Internationalise(s, countryCode)
  {
    if "00" <= s {
      assert s == s[..2] + s[2..] && s[0] == '0' && s[1] == '0';
      assert c in s[2..];
    } else if !("+" <= s) {
      DropZerosKeeps(s, c);
    }
  }

  lemma DigitCharacters(c: char)
    ensures IsDigit(c) <==> c in DIGITS
  {
    assert DIGITS[0] == '0' && DIGITS[1] == '1' && DIGITS[2] == '2' && DIGITS[3] == '3' && DIGITS[4] == '4';
    assert DIGITS[5] == '5' && DIGITS[6] == '6' && DIGITS[7] == '7' && DIGITS[8] == '8' && DIGITS[9] == '9';
  }

  lemma WrittenDigits(s: string)
    requires forall i | 0 <= i < |s| :: s[i] in DIGITS
    ensures AllDigits(s)
  {
    forall i | 0 <= i < |s| ensures IsDigit(s[i]) {
      DigitCharacters(s[i]);
    }
  }

  lemma E164Characters(s: string)
    ensures MatchesE164(s) ==> forall c | c in s :: IsDigit(c) || c == '+'
  {
    assert forall i | 1 <= i < |s| :: s[1..][i - 1] == s[i];
  }

  /** A character that is no digit, no plus sign and not one of the formatting characters makes any input invalid. */
  lemma StrangeCharacterRejected(input: string, countryCode: string, c: char)
    requires c in input && c !in FORMATTING && c !in DIGITS && c != '+'
    ensures Parse(input, countryCode).Err?
  {
    FormattingCharacters(c);
    DigitCharacters(c);
    StripKeeps(input, c);
    InternationaliseKeeps(Strip(input), countryCode, c);
    E164Characters(Internationalise(Strip(input), countryCode));
  }

  /** Of the numbers written with a plus sign exactly those of 7 to 15 digits that do not begin with zero are
      accepted, as they stand. */
  lemma PlusNumbersExactly(digits: string, countryCode: string)
    requires forall i | 0 <= i < |digits| :: digits[i] in DIGITS
    ensures Parse("+" + digits, countryCode)
         == if 7 <= |digits| <= 15 && digits[0] != '0' then Ok(Phone("+" + digits)) else Err(InvalidPhone("+" + digits))
  {
    WrittenDigits(digits);
    var s := "+" + digits;
    ParseUnformatted(s, countryCode);
    assert s[1..] == digits;
    assert "+" <= s && !("00" <= s);
  }

  lemma EgyptianShape(n: string)
    requires AllDigits(n)
    ensures MatchesE164("+" + ("20" + n)) <==> 5 <= |n| <= 13
  {
    var s := "+" + ("20" + n);
    assert s[1] == '2' && s[1..] == "20" + n;
    assert AllDigits("20" + n);
  }

  lemma EgyptianDenotes(n: string, padded: string, code: string)
    requires AllDigits(n) && n != "" && n[0] != '0' && padded == "0" + n && code == "+20"
    ensures Denotes(Parse(n, code), "20" + n) && Denotes(Parse(padded, code), "20" + n)
  {
    var cc, number := "20", "20" + n;
    assert "+" + cc == code;
    SpellingsAgree(n, cc, number, code);
  }

  lemma DenotedValue(r: Result<Phone, InvalidPhone>, number: string, value: string)
    requires Denotes(r, number) && value == "+" + number
    ensures if MatchesE164(value) then r == Ok(Phone(value)) else r.Err?
  {
  }

  /** Without a country code a local number is an Egyptian one, with or without its trunk zero. */
  lemma LocalNumbersAreEgyptian(n: string, padded: string, value: string)
    requires (forall i | 0 <= i < |n| :: n[i] in DIGITS) && n != "" && n[0] != '0'
    requires padded == "0" + n && value == "+20" + n
    ensures if 5 <= |n| <= 13 then Parse(n) == Ok(Phone(value)) else Parse(n).Err?
    ensures if 5 <= |n| <= 13 then Parse(padded) == Ok(Phone(value)) else Parse(padded).Err?
  {
    var number := "20" + n;
    WrittenDigits(n);
    EgyptianShape(n);
    EgyptianDenotes(n, padded, DEFAULT_COUNTRY_CODE);
    assert value == "+" + number;
    DenotedValue(Parse(n), number, value);
    DenotedValue(Parse(padded), number, value);
  }

  /** Zeros alone are the country code itself if there is one zero, and invalid if there are more. */
  lemma OnlyZeros(k: nat, cc: string)
    requires k >= 1 && AllDigits(cc) && cc != "" && cc[0] != '0'
    ensures k == 1 ==> Denotes(Parse(Zeros(k), "+" + cc), cc)
    ensures k >= 2 ==> Parse(Zeros(k), "+" + cc).Err?
  {
    var s := Zeros(k);
    assert forall i | 0 <= i < |s| :: IsDigit(s[i]);
    ParseUnformatted(s, "+" + cc);
    if k == 1 {
      assert s[1..] == "" && DropZeros(s) == "";
      assert ("+" + cc) + "" == "+" + cc;
      assert !("00" <= s) && !("+" <= s);
    } else {
      ZerosSpelling(k, "", "+" + cc);
      assert Zeros(k) + "" == Zeros(k);
      assert k >= 3 ==> ("+" + (Zeros(k - 2) + ""))[1] == '0';
    }
  }

  lemma PlusStays(s: string, countryCode: string, i: nat)
    requires 0 < i < |s| && s[i] == '+' && countryCode != ""
    ensures !MatchesE164(Internationalise(s, countryCode))
  {
    var r := Internationalise(s, countryCode);
    if "00" <= s {
      assert s[0] == '0' && s[1] == '0';
      assert r == "+" + s[2..] && r[i - 1] == '+';
      assert r[1..][i - 2] == '+';
    } else if "+" <= s {
      assert r[1..][i - 1] == '+';
    } else {
      DropZerosKeeps(s, '+');
      var j :| 0 <= j < |DropZeros(s)| && DropZeros(s)[j] == '+';
      assert r[|countryCode| + j] == '+';
      assert r[1..][|countryCode| + j - 1] == '+';
    }
  }

  /** A plus sign after anything but formatting makes the input invalid. */
  lemma InnerPlusRejected(before: string, after: string, countryCode: string)
    requires countryCode != "" && exists i :: 0 <= i < |before| && before[i] !in FORMATTING
    ensures Parse(before + "+" + after, countryCode).Err?
  {
    var i :| 0 <= i < |before| && before[i] !in FORMATTING;
    FormattingCharacters(before[i]);
    assert before[i] in before;
    StripKeeps(before, before[i]);
    StripConcat(before + "+", after);
    StripConcat(before, "+");
    StripPlain("+");
    assert Strip("+") == "+";
    var s := Strip(before) + "+" + Strip(after);
    assert s[|Strip(before)|] == '+';
    PlusStays(s, countryCode, |Strip(before)|);
  }

  /** What every accepted phone looks like. */
  lemma AcceptedShape(input: string, countryCode: string)
    requires Parse(input, countryCode).Ok?
    ensures var v := Parse(input, countryCode).value.value;
            8 <= |v| <= 16 && v[0] == '+' && v[1] != '0' && forall i | 1 <= i < |v| :: v[i] in DIGITS
  {
    var v := Parse(input, countryCode).value.value;
    forall i | 1 <= i < |v| ensures v[i] in DIGITS {
      assert v[1..][i - 1] == v[i];
      DigitCharacters(v[i]);
    }
  }
}
