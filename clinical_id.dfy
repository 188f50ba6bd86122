/** `generar_id_clinico` (`main.py`): the clinical record number shown for
    a patient id. */
module ClinicalId {
  import opened Text
  import opened Records

  const PREFIX: string := "HC-"
  const WIDTH: nat := 8

  predicate AllDigits(s: string)
  {
    forall i :: 0 <= i < |s| ==> IsDigit(s[i])
  }

  /** `f"HC-{id:08d}"`: the decimal id zero-padded to eight characters; for
      a negative id the minus sign comes first and counts toward the
      width; an id too wide is not truncated. */
  function Format(id: int): string
  {
    PREFIX + (if id >= 0 then ZeroPad(Digits(id), WIDTH) else "-" + ZeroPad(Digits(-id), WIDTH - 1))
  }

  /** Reading an identifier back: the prefix, an optional minus sign, then
      decimal digits. */
  function Parse(s: string): Option<int>
  {
    if |s| < |PREFIX| || s[..|PREFIX|] != PREFIX then None
    else
      var body := s[|PREFIX|..];
      if body != [] && body[0] == '-' then
        (if |body| > 1 && AllDigits(body[1..]) then Some(-(ParseDigits(body[1..]) as int)) else None)
      else if body != [] && AllDigits(body) then Some(ParseDigits(body) as int)
      else None
  }

  /** The prefix followed by a numeral reads back as its value. */
  lemma ParseNumeral(digits: string)
    requires digits != [] && AllDigits(digits)
    ensures Parse(PREFIX + digits) == Some(ParseDigits(digits) as int)
  {
    var s := PREFIX + digits;
    assert s[..|PREFIX|] == PREFIX && s[|PREFIX|..] == digits;
    assert IsDigit(digits[0]);
  }

  /** The prefix followed by a minus sign and a numeral reads back as the
      negated value. */
  lemma ParseNegative(digits: string)
    requires digits != [] && AllDigits(digits)
    ensures Parse(PREFIX + ("-" + digits)) == Some(-(ParseDigits(digits) as int))
  {
    var s := PREFIX + ("-" + digits);
    assert s[..|PREFIX|] == PREFIX && s[|PREFIX|..] == "-" + digits;
    assert ("-" + digits)[1..] == digits;
  }

  /** Zero-padding round trip: every identifier reads back as its id. */
  lemma FormatRoundTrip(id: int)
    ensures Parse(Format(id)) == Some(id)
  {
    if id >= 0 {
      DigitsRoundTrip(id);
      ZeroPadParse(Digits(id), WIDTH);
      ParseNumeral(ZeroPad(Digits(id), WIDTH));
    } else {
      DigitsRoundTrip(-id);
      ZeroPadParse(Digits(-id), WIDTH - 1);
      ParseNegative(ZeroPad(Digits(-id), WIDTH - 1));
    }
  }

  /** Distinct ids give distinct identifiers. */
  lemma FormatInjective(a: int, b: int)
    requires Format(a) == Format(b)
    ensures a == b
  {
    FormatRoundTrip(a);
    FormatRoundTrip(b);
  }

  /** For `0 <= id < 10^8` the identifier is eleven characters: the prefix
      and exactly eight digits. */
  lemma FormatShape(id: int)
    requires 0 <= id < Pow10(WIDTH)
    ensures |Format(id)| == |PREFIX| + WIDTH
    ensures Format(id)[..|PREFIX|] == PREFIX && AllDigits(Format(id)[|PREFIX|..])
  {
    DigitsLength(id, WIDTH);
    ZeroPadParse(Digits(id), WIDTH);
    assert Format(id)[|PREFIX|..] == ZeroPad(Digits(id), WIDTH);
  }
}
