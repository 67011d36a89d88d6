# Brazilian company certificate and identifier masks, in Dafny

This project models the `res.company` extension of the Odoo module
`l10n_br_base`, in `l10n_br_base/models/res_company.py`. It covers two pieces of logic.

- **Certificate status** (`_compute_expiry_date`). The company's A1
  certificate is stored as base64 PKCS#12 with a password. The method loads
  it, reads the certificate's `notAfter` timestamp as GeneralizedTime
  `YYYYMMDDHHMMSSZ` (section 4.1.2.5.2 of RFC 5280), and compares it strictly
  with the current time. It then sets `l10n_br_cert_state` to one of
  `expired`, `invalid_password`, `unknown` or `valid`; `not_loaded` is only
  the field's default. It also sets the expiry date and a four-line text made
  from the subject's CN, L, O and OU.
- **Identifier masks** (`onchange_mask_cnpj_cpf`, `onchange_mask_zip`). These
  rewrite a CNPJ (14 digits) as `DD.DDD.DDD/DDDD-DD` and a CEP (8 digits) as
  `DDDDD-DDD`. Any other value is left as it was.

Files:

- `wrappers.dfy`: `Option`. It stands for Odoo's `False` and for a parse that raises.
- `decimal.dfy`: ASCII digits and fixed-width decimal numerals.
- `generalized_time.dfy`: date-times and their validity. Also `strptime` with
  the pattern `%Y%m%d%H%M%SZ`, its inverse, and the order `<` on `datetime`,
  proved to be chronological.
- `certificate_status.dfy`: the outcome of loading, how it is classified, and
  the information text.
- `identifier_masks.dfy`: the digit filter and the two masks.
- `res_company.dfy`: the `Company` class. Its three methods assign the record's
  fields step by step, as the source does.

The foreign calls have no model of their own. These are `base64.decodestring`,
`crypto.load_pkcs12`, `get_certificate`, `get_subject` and `get_notAfter().decode()`.
Together they form one step, the function parameter `openPkcs12` of type
`(string, Option<string>) -> LoadResult`. Its result is one of three things:
an OpenSSL `crypto.Error`, any other exception, or the `notAfter` text together
with what reading the subject's CN, L, O and OU will give. That reading comes
later in the source, after the expiry date and the state are written. It can
itself end in a `crypto.Error` or another exception, and the model handles it
at that point. `datetime.now()` is the parameter `now`. The warning log is a
ghost counter.

On these points the model follows what the code does:

- An absent certificate ends in `unknown`, with one warning. It never ends in
  `not_loaded`. Base64 decoding of `False` raises, and the catch-all branch
  handles that. `not_loaded` is only the field's default.
- The failure branches assign only the state. They never clear the expiry
  date or the information. A failure while reading the subject comes after
  the new expiry date is written, so that date stays.
- A mask whose digit count does not match leaves the field as it was. The
  stripped digits are not written back.

## Model

| member | source | states |
|---|---|---|
| GeneralizedTime.ParseNotAfter | l10n_br_base/models/res_company.py:24-25 | a parsed `notAfter` is a date-time that Python's `datetime` accepts: year 1-9999, a day that exists in its month (leap years included), hour < 24, minute and second < 60 |
| GeneralizedTime.FormatNotAfter | l10n_br_base/models/res_company.py:24-25 | the GeneralizedTime text is 15 characters: 14 digits and then `Z` |
| GeneralizedTime.ParseFormat | l10n_br_base/models/res_company.py:24-25 | the text of every valid date-time parses back to that date-time |
| GeneralizedTime.FormatParse | l10n_br_base/models/res_company.py:24-25 | any text that parses is exactly the text of its result, so the parser reads each field at its fixed position and accepts nothing else |
| GeneralizedTime.DateOf | l10n_br_base/models/res_company.py:27 | the date kept is the day on which the expiry falls: a real calendar date whose first second is at most the expiry, and less than a day before it |
| GeneralizedTime.Before | l10n_br_base/models/res_company.py:28 | `<` on date-times is irreflexive; its meaning as earlier-in-time is `BeforeIsChronological` |
| GeneralizedTime.BeforeIsChronological | l10n_br_base/models/res_company.py:28 | on valid date-times, the field-by-field `<` holds exactly when the first is earlier in seconds since 0001-01-01 |
| GeneralizedTime.BeforeTrichotomy | l10n_br_base/models/res_company.py:28 | supporting lemma: of `a < b`, `a == b` and `b < a`, exactly one holds |
| GeneralizedTime.BeforeTransitive | l10n_br_base/models/res_company.py:28 | supporting lemma: `<` on date-times is transitive |
| GeneralizedTime.DaysBeforeYearGrows | l10n_br_base/models/res_company.py:28 | supporting lemma for `BeforeIsChronological`: every day of a year comes before any later year starts |
| GeneralizedTime.DayWithinYear | l10n_br_base/models/res_company.py:28 | supporting lemma for `BeforeIsChronological`: a valid date falls within its own year |
| CertificateStatus.Expiry | l10n_br_base/models/res_company.py:23-25 | an expiry exists exactly when loading succeeded and `notAfter` is the GeneralizedTime text of a valid date-time, and it is that date-time |
| CertificateStatus.Classify | l10n_br_base/models/res_company.py:18-40 | never `not_loaded`; `invalid_password` iff the loader raised `crypto.Error` or reading the subject did after `notAfter` parsed; `unknown` iff the loader raised anything else, `notAfter` did not parse, or reading the subject raised anything else; `valid` iff every step ran and now < notAfter, strictly; `expired` iff every step ran and now is not strictly before notAfter |
| CertificateStatus.ValidIffStrictlyEarlier | l10n_br_base/models/res_company.py:28-33 | the state is `valid` exactly when the subject was read and the current instant is strictly earlier than the `notAfter` instant |
| CertificateStatus.StrictBoundary | l10n_br_base/models/res_company.py:24-31 | for a certificate expiring at `end`: `valid` before `end`, `expired` at `end` and after it |
| CertificateStatus.InfoText | l10n_br_base/models/res_company.py:32-33 | the information text is the four attributes plus three line breaks, CN first followed by a line break, OU last preceded by one |
| CertificateStatus.InfoTextLines | l10n_br_base/models/res_company.py:32-33 | if no subject attribute holds a line break, the information text splits back into CN, L, O, OU, in that order |
| IdentifierMasks.Digits | l10n_br_base/models/res_company.py:61 | the filtered text holds only digits and is no longer than the input; an all-digit input is kept whole |
| IdentifierMasks.DigitsOfChar | l10n_br_base/models/res_company.py:61 | one character is kept exactly when it is an ASCII digit `0`-`9` |
| IdentifierMasks.DigitsConcat | l10n_br_base/models/res_company.py:61 | filtering a concatenation gives the filtered parts, in order |
| IdentifierMasks.FormatCnpj | l10n_br_base/models/res_company.py:63-64 | the display form of 14 digits follows `DD.DDD.DDD/DDDD-DD`, and its digits are the given ones in order |
| IdentifierMasks.FormatZip | l10n_br_base/models/res_company.py:72 | the display form of 8 digits follows `DDDDD-DDD`, and its digits are the given ones in order |
| IdentifierMasks.CnpjMaskedFixed | l10n_br_base/models/res_company.py:61-64 | a CNPJ already in display form has 14 digits, and formatting them gives it back |
| IdentifierMasks.ZipMaskedFixed | l10n_br_base/models/res_company.py:70-72 | a CEP already in display form has 8 digits, and formatting them gives it back |
| IdentifierMasks.MaskedCnpj | l10n_br_base/models/res_company.py:59-65 | a value with exactly 14 digits becomes the display form with the same digits; any other value (absent, empty, an 11-digit CPF) is left unchanged |
| IdentifierMasks.MaskedZip | l10n_br_base/models/res_company.py:69-73 | a value with exactly 8 digits becomes the display form with the same digits; any other value is left unchanged |
| IdentifierMasks.MaskedCnpjIdempotent | l10n_br_base/models/res_company.py:59-65 | masking a CNPJ twice gives the same as masking it once |
| IdentifierMasks.MaskedZipIdempotent | l10n_br_base/models/res_company.py:69-73 | masking a CEP twice gives the same as masking it once |
| ResCompany.Company.constructor | l10n_br_base/models/res_company.py:45-56 | a new record has certificate state `not_loaded` and no expiry date or information |
| ResCompany.Company.ComputeExpiryDate | l10n_br_base/models/res_company.py:18-40 | the load step (`CertificateStatus.Load`) sends an absent certificate to the catch-all branch and otherwise runs the loader with the password; the state is the classification of its outcome against `now`; the expiry date becomes the date part of `notAfter` whenever it parsed, even if reading the subject fails afterwards, and otherwise keeps its old value; the information becomes the CN/L/O/OU text only when every step ran, and otherwise keeps its old value; exactly one warning is logged when the state is `unknown`, none otherwise; no other field changes |
| ResCompany.Company.MaskCnpjCpf | l10n_br_base/models/res_company.py:58-65 | `cnpj_cpf` becomes its masked value; no other field changes |
| ResCompany.Company.MaskZip | l10n_br_base/models/res_company.py:67-73 | `zip` becomes its masked value; no other field changes |
| ResCompany.AttributeFailureKeepsExpiryDate | l10n_br_base/models/res_company.py:27-40 | when reading the subject fails after `notAfter` parsed, the record reports `unknown` with one warning, keeps the newly written expiry date, and keeps its old information |
| ResCompany.AbsentCertificateReportsUnknown | l10n_br_base/models/res_company.py:19-40 | a record without a certificate is reported `unknown` with one warning, not `not_loaded`, and gets no expiry date or information |

## Left out

- PKCS#12 decoding and password checking (`crypto.load_pkcs12`, RFC 7292), `get_certificate`, `get_subject` and base64 decoding are foreign library calls. They appear only through the outcome of the `openPkcs12` parameter.
- `datetime.now()` is the parameter `now`. Clocks are not modelled. Neither is the local-time reading of `now` against a `notAfter` that is in UTC.
- ResCompany.Company.ComputeExpiryDate: when a failure branch runs, the expiry date and the information keep the values the record held before the method ran. The Odoo framework may reset computed fields to False before it calls a compute method, and that reset is not modelled.
- `now` has whole seconds, while `datetime.now()` also carries microseconds. Since `notAfter` has no fraction of a second, dropping the microseconds of `now` does not change the result of `now < notAfter`. This is not proved here.
- The leniency of Python's `strptime` is not modelled. `strptime` also accepts a lower-case `z`, a day written as a space and one digit, fields shorter than their full width in shorter strings, and non-ASCII decimal digits. The model accepts only the 15-character form `YYYYMMDDHHMMSSZ` with ASCII digits. That is the form RFC 5280 requires of a GeneralizedTime (section 4.1.2.5.2); a `notAfter` in any other form ends in `unknown` in the model.
- `get_notAfter()` returning no value, or bytes that are not UTF-8, is folded into the non-OpenSSL failure of the loading step.
- Subject attributes that are read successfully are given strings. The text `None` that `%s` writes for an absent attribute is not modelled.
- Log message contents and their translation are left out. Only the number of warnings is kept.
- The guard around the OpenSSL import is left out.
- Odoo's framework behaviour is left out: field declarations, how `compute=` and `@api.onchange` fire, `with_context(bin_size=False)`, and recordsets holding several records. Each method acts on one record.
