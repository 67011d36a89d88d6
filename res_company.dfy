/** The `res.company` record as this module extends it: the stored A1
    certificate with its password, the three fields computed from them, and
    the CNPJ and CEP fields that are masked as they are edited. */
module ResCompany {
  import opened Wrappers
  import opened GeneralizedTime
  import opened CertificateStatus
  import opened IdentifierMasks

  class Company {
    /** `l10n_br_certificate`: the PKCS#12 file as base64 text, or False. */
    var certificate: Option<string>
    /** `l10n_br_cert_password`. */
    var certPassword: Option<string>
    /** `l10n_br_cert_state`. */
    var certState: CertState
    /** `l10n_br_cert_expire_date`. */
    var certExpireDate: Option<Date>
    /** `l10n_br_cert_information`. */
    var certInformation: Option<string>
    var cnpjCpf: Option<string>
    var zip: Option<string>
    /** The warnings logged so far. */
    ghost var warnings: nat

    /** A record as created: the certificate state takes its default
        `not_loaded`, the other computed fields are empty. */
    constructor (certificate: Option<string>, certPassword: Option<string>,
                 cnpjCpf: Option<string>, zip: Option<string>)
      ensures this.certificate == certificate && this.certPassword == certPassword
      ensures this.cnpjCpf == cnpjCpf && this.zip == zip
      ensures certState == NotLoaded && certExpireDate == None && certInformation == None
      ensures warnings == 0
    {
      this.certificate := certificate;
      this.certPassword := certPassword;
      this.cnpjCpf := cnpjCpf;
      this.zip := zip;
      certState := NotLoaded;
      certExpireDate := None;
      certInformation := None;
      warnings := 0;
    }

    /** `_compute_expiry_date`. `openPkcs12` stands for base64 decoding
        followed by `crypto.load_pkcs12`, `get_certificate`, `get_notAfter`
        and `get_subject`, and says how reading the subject's attributes
        will end; `now` is `datetime.now()`. The state is always assigned.
        The expiry date is written as soon as `notAfter` parses, so a failure
        reading the subject afterwards leaves the new date in place; the
        information is written only when every step ran. A field not written
        keeps whatever it held. Only the catch-all branch logs. */
    method ComputeExpiryDate(openPkcs12: (string, Option<string>) -> LoadResult, now: DateTime)
      modifies this
      ensures certificate == old(certificate) && certPassword == old(certPassword)
      ensures cnpjCpf == old(cnpjCpf) && zip == old(zip)
      ensures var load := Load(certificate, certPassword, openPkcs12);
        && certState == Classify(load, now)
        && certExpireDate == (if Expiry(load).Some? then Some(DateOf(Expiry(load).value)) else old(certExpireDate))
        && certInformation == (if Completes(load) then Some(InfoText(load.attributes.subject)) else old(certInformation))
      ensures warnings == old(warnings) + (if certState == Unknown then 1 else 0)
    {
      var load := Load(certificate, certPassword, openPkcs12);
      match load {
        case CryptoError =>
          certState := InvalidPassword;
        case OtherFailure =>
          certState := Unknown;
          warnings := warnings + 1;
        case Loaded(notAfter, attributes) =>
          var end := ParseNotAfter(notAfter);
          if end.None? {
            // strptime raised: the catch-all branch
            certState := Unknown;
            warnings := warnings + 1;
          } else {
            certExpireDate := Some(DateOf(end.value));
            if Before(now, end.value) {
              certState := Valid;
            } else {
              certState := Expired;
            }
            match attributes {
              case Attributes(subject) =>
                certInformation := Some(InfoText(subject));
              case AttributeCryptoError =>
                certState := InvalidPassword;
              case AttributeOtherFailure =>
                certState := Unknown;
                warnings := warnings + 1;
            }
          }
      }
    }

    /** `onchange_mask_cnpj_cpf`. */
    method MaskCnpjCpf()
      modifies this
      ensures cnpjCpf == MaskedCnpj(old(cnpjCpf))
      ensures zip == old(zip) && certificate == old(certificate) && certPassword == old(certPassword)
      ensures certState == old(certState) && certExpireDate == old(certExpireDate)
      ensures certInformation == old(certInformation) && warnings == old(warnings)
    {
      if cnpjCpf.Some? && cnpjCpf.value != "" {
        var val := Digits(cnpjCpf.value);
        if |val| == 14 {
          cnpjCpf := Some(FormatCnpj(val));
        }
      }
    }

    /** `onchange_mask_zip`. */
    method MaskZip()
      modifies this
      ensures zip == MaskedZip(old(zip))
      ensures cnpjCpf == old(cnpjCpf) && certificate == old(certificate) && certPassword == old(certPassword)
      ensures certState == old(certState) && certExpireDate == old(certExpireDate)
      ensures certInformation == old(certInformation) && warnings == old(warnings)
    {
      if zip.Some? && zip.value != "" {
        var val := Digits(zip.value);
        if |val| == 8 {
          zip := Some(FormatZip(val));
        }
      }
    }
  }

  /** A record created without a certificate: computing its certificate
      fields reports `unknown` and logs one warning, never `not_loaded`, and
      the expiry date and the information stay empty. */
  method AbsentCertificateReportsUnknown(openPkcs12: (string, Option<string>) -> LoadResult,
                                         now: DateTime, password: Option<string>)
    returns (state: CertState, expireDate: Option<Date>, information: Option<string>, ghost logged: nat)
    ensures state == Unknown && logged == 1
    ensures expireDate == None && information == None
  {
    var company := new Company(None, password, None, None);
    company.ComputeExpiryDate(openPkcs12, now);
    state, expireDate, information := company.certState, company.certExpireDate, company.certInformation;
    logged := company.warnings;
  }

  /** A certificate that loads and whose `notAfter` is the GeneralizedTime of
      `end`, but whose subject attributes cannot be read: the record reports
      `unknown` with one warning, yet keeps the expiry date just written,
      since the failure comes after it and nothing rolls it back. */
  method AttributeFailureKeepsExpiryDate(pfx: string, end: DateTime, now: DateTime,
                                         oldInformation: Option<string>)
    returns (state: CertState, expireDate: Option<Date>, information: Option<string>, ghost logged: nat)
    requires ValidDateTime(end)
    ensures state == Unknown && logged == 1
    ensures expireDate == Some(DateOf(end))
    ensures information == oldInformation
  {
    var company := new Company(Some(pfx), None, None, None);
    company.certInformation := oldInformation;
    ParseFormat(end);
    var notAfter := FormatNotAfter(end);
    company.ComputeExpiryDate((_, _) => Loaded(notAfter, AttributeOtherFailure), now);
    state, expireDate, information := company.certState, company.certExpireDate, company.certInformation;
    logged := company.warnings;
  }
}
