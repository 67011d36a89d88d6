/** The display masks `onchange_mask_cnpj_cpf` and `onchange_mask_zip` put
    on a company's CNPJ (company tax ID, 14 digits) and CEP (postal code,
    8 digits). */
module IdentifierMasks {
  import opened Wrappers
  import opened Decimal

  /** The ASCII digits of `s`, in order, everything else removed. */
  function Digits(s: string): (d: string)
    ensures AllDigits(d) && |d| <= |s|
    ensures AllDigits(s) ==> d == s
  {
    if s == [] then []
    else (if IsDigit(s[0]) then [s[0]] else []) + Digits(s[1..])
  }

  lemma {:induction false} DigitsConcat(a: string, b: string)
    ensures Digits(a + b) == Digits(a) + Digits(b)
  {
    if a == [] {
      assert a + b == b;
    } else {
      assert (a + b)[0] == a[0];
      assert (a + b)[1..] == a[1..] + b;
      DigitsConcat(a[1..], b);
    }
  }

  /** A single character is kept when it is an ASCII digit and dropped
      otherwise; with `DigitsConcat` and the empty case this fixes what the
      filter does to every string. */
  lemma DigitsOfChar(c: char)
    ensures Digits([c]) == if IsDigit(c) then [c] else []
  {
  }

  /** A run of digits, one separator that is not a digit, then the rest:
      the digits are the run followed by the digits of the rest. */
  lemma DigitsAroundSeparator(run: string, sep: char, rest: string)
    requires AllDigits(run) && !IsDigit(sep)
    ensures Digits(run + [sep] + rest) == run + Digits(rest)
  {
    DigitsConcat(run + [sep], rest);
    DigitsConcat(run, [sep]);
  }

  /** `s` follows `mask`: a digit wherever the mask says `D`, the mask's own
      character everywhere else. */
  predicate FitsMask(s: string, mask: string) {
    |s| == |mask| && forall i :: 0 <= i < |s| ==> if mask[i] == 'D' then IsDigit(s[i]) else s[i] == mask[i]
  }

  const CnpjMask: string := "DD.DDD.DDD/DDDD-DD"
  const ZipMask: string := "DDDDD-DDD"

  /** A 14-digit CNPJ in its display form: groups of 2, 3, 3, 4 and 2
      digits joined by `.`, `.`, `/` and `-`; its digits are the given ones. */
  function FormatCnpj(d: string): (r: string)
    requires |d| == 14 && AllDigits(d)
    ensures FitsMask(r, CnpjMask)
    ensures Digits(r) == d
  {
    var r := d[0..2] + ['.'] + (d[2..5] + ['.'] + (d[5..8] + ['/'] + (d[8..12] + ['-'] + d[12..14])));
    DigitsAroundSeparator(d[8..12], '-', d[12..14]);
    DigitsAroundSeparator(d[5..8], '/', d[8..12] + ['-'] + d[12..14]);
    DigitsAroundSeparator(d[2..5], '.', d[5..8] + ['/'] + (d[8..12] + ['-'] + d[12..14]));
    DigitsAroundSeparator(d[0..2], '.', d[2..5] + ['.'] + (d[5..8] + ['/'] + (d[8..12] + ['-'] + d[12..14])));
    assert d == d[0..2] + (d[2..5] + (d[5..8] + (d[8..12] + d[12..14])));
    FormatCnpjFits(d, r);
    r
  }

  lemma FormatCnpjFits(d: string, r: string)
    requires |d| == 14 && AllDigits(d)
    requires r == d[0..2] + ['.'] + (d[2..5] + ['.'] + (d[5..8] + ['/'] + (d[8..12] + ['-'] + d[12..14])))
    ensures FitsMask(r, CnpjMask)
  {
  }

  /** An 8-digit CEP in its display form: 5 digits, `-`, 3 digits; its
      digits are the given ones. */
  function FormatZip(d: string): (r: string)
    requires |d| == 8 && AllDigits(d)
    ensures FitsMask(r, ZipMask)
    ensures Digits(r) == d
  {
    var r := d[0..5] + ['-'] + d[5..8];
    DigitsAroundSeparator(d[0..5], '-', d[5..8]);
    assert d == d[0..5] + d[5..8];
    assert forall i | 0 <= i < 9 :: if ZipMask[i] == 'D' then IsDigit(r[i]) else r[i] == ZipMask[i];
    r
  }

  /** A CNPJ already in display form is what formatting its digits gives. */
  lemma CnpjMaskedFixed(s: string)
    requires FitsMask(s, CnpjMask)
    ensures |Digits(s)| == 14 && FormatCnpj(Digits(s)) == s
  {
    var p0, p1, p2, p3, p4 := s[0..2], s[3..6], s[7..10], s[11..15], s[16..18];
    CnpjPieces(s);
    DigitsAroundSeparator(p3, '-', p4);
    DigitsAroundSeparator(p2, '/', p3 + ['-'] + p4);
    DigitsAroundSeparator(p1, '.', p2 + ['/'] + (p3 + ['-'] + p4));
    DigitsAroundSeparator(p0, '.', p1 + ['.'] + (p2 + ['/'] + (p3 + ['-'] + p4)));
    var d := p0 + (p1 + (p2 + (p3 + p4)));
    assert Digits(s) == d;
    assert d[0..2] == p0 && d[2..5] == p1 && d[5..8] == p2 && d[8..12] == p3 && d[12..14] == p4;
  }

  /** A CNPJ in display form is five runs of digits joined by its separators. */
  lemma CnpjPieces(s: string)
    requires FitsMask(s, CnpjMask)
    ensures AllDigits(s[0..2]) && AllDigits(s[3..6]) && AllDigits(s[7..10])
    ensures AllDigits(s[11..15]) && AllDigits(s[16..18])
    ensures s == s[0..2] + ['.'] + (s[3..6] + ['.'] + (s[7..10] + ['/'] + (s[11..15] + ['-'] + s[16..18])))
  {
  }

  /** A CEP already in display form is what formatting its digits gives. */
  lemma ZipMaskedFixed(s: string)
    requires FitsMask(s, ZipMask)
    ensures |Digits(s)| == 8 && FormatZip(Digits(s)) == s
  {
    var p0, p1 := s[0..5], s[6..9];
    assert AllDigits(p0) && AllDigits(p1) by {
      assert forall i | 0 <= i < 9 && ZipMask[i] == 'D' :: IsDigit(s[i]);
    }
    assert s[5] == '-' by {
      assert ZipMask[5] == '-';
    }
    assert s == p0 + ['-'] + p1;
    DigitsAroundSeparator(p0, '-', p1);
    var d := p0 + p1;
    assert Digits(s) == d;
    assert d[0..5] == p0 && d[5..8] == p1;
  }

  /** `onchange_mask_cnpj_cpf` on the value of `cnpj_cpf`: a non-empty value
      with exactly 14 digits is rewritten in display form; any other value,
      an 11-digit CPF included, is left exactly as it was. */
  function MaskedCnpj(v: Option<string>): (r: Option<string>)
    ensures v.Some? && |Digits(v.value)| == 14 ==>
      r.Some? && FitsMask(r.value, CnpjMask) && Digits(r.value) == Digits(v.value)
    ensures !(v.Some? && |Digits(v.value)| == 14) ==> r == v
  {
    if v.Some? && v.value != "" then
      var val := Digits(v.value);
      if |val| == 14 then Some(FormatCnpj(val)) else v
    else
      v
  }

  /** `onchange_mask_zip` on the value of `zip`: a non-empty value with
      exactly 8 digits is rewritten in display form; any other value is left
      exactly as it was. */
  function MaskedZip(v: Option<string>): (r: Option<string>)
    ensures v.Some? && |Digits(v.value)| == 8 ==>
      r.Some? && FitsMask(r.value, ZipMask) && Digits(r.value) == Digits(v.value)
    ensures !(v.Some? && |Digits(v.value)| == 8) ==> r == v
  {
    if v.Some? && v.value != "" then
      var val := Digits(v.value);
      if |val| == 8 then Some(FormatZip(val)) else v
    else
      v
  }

  /** Masking a CNPJ twice gives what masking it once gives. */
  lemma MaskedCnpjIdempotent(v: Option<string>)
    ensures MaskedCnpj(MaskedCnpj(v)) == MaskedCnpj(v)
  {
  }

  /** Masking a CEP twice gives what masking it once gives. */
  lemma MaskedZipIdempotent(v: Option<string>)
    ensures MaskedZip(MaskedZip(v)) == MaskedZip(v)
  {
  }
}
